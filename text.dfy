/**
 * The Python string builtins the bot relies on, on `string` (= seq<char>):
 * `str.lower`, `irc.strings.lower`, `startswith`/`endswith`, `in`,
 * `split(sep, maxsplit)`, `split()`, `join`, `replace`, `strip`, `ljust`.
 * Whitespace and letters are ASCII only.
 */
module Text {

  // ---------------------------------------------------------------- case

  /** `str.lower` on one character: A-Z become a-z, everything else is kept. */
  function LowerChar(c: char): (r: char)
    ensures 'A' <= c <= 'Z' ==> 'a' <= r <= 'z'
    ensures !('A' <= c <= 'Z') ==> r == c
  {
    if 'A' <= c <= 'Z' then (c as int + 32) as char else c
  }

  function Lower(s: string): (r: string)
    ensures |r| == |s|
    ensures forall i :: 0 <= i < |s| ==> r[i] == LowerChar(s[i])
  {
    seq(|s|, i requires 0 <= i < |s| => LowerChar(s[i]))
  }

  /** A prefix without capitals survives lowering. */
  lemma LowerKeepsPrefix(s: string, p: string)
    requires |p| <= |s| && s[..|p|] == p
    requires forall i :: 0 <= i < |p| ==> !('A' <= p[i] <= 'Z')
    ensures StartsWith(Lower(s), p)
  {
    assert forall i :: 0 <= i < |p| ==> Lower(s)[i] == s[i];
  }

  /** `str.upper` on one character: a-z become A-Z. */
  function UpperChar(c: char): (r: char)
    ensures 'a' <= c <= 'z' ==> 'A' <= r <= 'Z'
    ensures !('a' <= c <= 'z') ==> r == c
  {
    if 'a' <= c <= 'z' then (c as int - 32) as char else c
  }

  function Upper(s: string): (r: string)
    ensures |r| == |s|
    ensures forall i :: 0 <= i < |s| ==> r[i] == UpperChar(s[i])
  {
    seq(|s|, i requires 0 <= i < |s| => UpperChar(s[i]))
  }

  /**
   * The case folding of section 2.2 of RFC 1459, as `irc.strings.lower`
   * applies it: A-Z fold to a-z and `[`, `]`, `\`, `^` fold to `{`, `}`,
   * `|`, `~`.
   */
  function IrcLowerChar(c: char): (r: char)
    ensures r == LowerChar(c) || c in "[]\\^"
  {
    if c == '[' then '{'
    else if c == ']' then '}'
    else if c == '\\' then '|'
    else if c == '^' then '~'
    else LowerChar(c)
  }

  function IrcLower(s: string): (r: string)
    ensures |r| == |s|
    ensures forall i :: 0 <= i < |s| ==> r[i] == IrcLowerChar(s[i])
  {
    seq(|s|, i requires 0 <= i < |s| => IrcLowerChar(s[i]))
  }

  /** On text without the four bracket characters both foldings agree. */
  lemma IrcLowerAgreesWithLower(s: string)
    requires forall i :: 0 <= i < |s| ==> s[i] !in "[]\\^"
    ensures IrcLower(s) == Lower(s)
  {
  }

  // ---------------------------------------------------------- substrings

  predicate StartsWith(s: string, prefix: string) {
    |prefix| <= |s| && s[..|prefix|] == prefix
  }

  predicate EndsWith(s: string, suffix: string) {
    |suffix| <= |s| && s[|s| - |suffix|..] == suffix
  }

  /** Python's `sub in s`. */
  predicate Contains(s: string, sub: string)
    decreases |s|
  {
    StartsWith(s, sub) || (|s| > 0 && Contains(s[1..], sub))
  }

  /** `Contains` finds exactly the substrings that occur at some position. */
  lemma {:induction false} ContainsAt(s: string, sub: string, i: nat)
    requires i + |sub| <= |s| && s[i..i + |sub|] == sub
    ensures Contains(s, sub)
    decreases i
  {
    if i > 0 {
      assert s[1..][i - 1..i - 1 + |sub|] == s[i..i + |sub|];
      ContainsAt(s[1..], sub, i - 1);
    } else {
      assert s[..|sub|] == sub;
    }
  }

  lemma {:induction false} ContainsWitness(s: string, sub: string) returns (i: nat)
    requires Contains(s, sub)
    ensures i + |sub| <= |s| && s[i..i + |sub|] == sub
    decreases |s|
  {
    if StartsWith(s, sub) {
      i := 0;
    } else {
      var j := ContainsWitness(s[1..], sub);
      assert s[1..][j..j + |sub|] == s[j + 1..j + 1 + |sub|];
      i := j + 1;
    }
  }

  /** A substring of a substring is a substring. */
  lemma ContainsTrans(s: string, mid: string, sub: string)
    requires Contains(s, mid) && Contains(mid, sub)
    ensures Contains(s, sub)
  {
    var i := ContainsWitness(s, mid);
    var j := ContainsWitness(mid, sub);
    assert s[i..i + |mid|] == mid;
    forall t | 0 <= t < |sub|
      ensures s[i + j + t] == sub[t]
    {
      assert s[i + j + t] == s[i..i + |mid|][j + t];
      assert mid[j..j + |sub|][t] == mid[j + t];
    }
    assert s[i + j..i + j + |sub|] == sub;
    ContainsAt(s, sub, i + j);
  }

  /** A substring of a part is a substring of the whole. */
  lemma ContainsInSuffix(s: string, k: nat, sub: string)
    requires k <= |s| && Contains(s[k..], sub)
    ensures Contains(s, sub)
  {
    var j := ContainsWitness(s[k..], sub);
    assert s[k..][j..j + |sub|] == s[k + j..k + j + |sub|];
    ContainsAt(s, sub, k + j);
  }

  lemma ContainsInPrefix(s: string, k: nat, sub: string)
    requires k <= |s| && Contains(s[..k], sub)
    ensures Contains(s, sub)
  {
    var j := ContainsWitness(s[..k], sub);
    assert s[..k][j..j + |sub|] == s[j..j + |sub|];
    ContainsAt(s, sub, j);
  }

  /** A one-character needle occurs iff that character does. */
  lemma ContainsChar(s: string, c: char)
    ensures Contains(s, [c]) <==> c in s
  {
    if c in s {
      var i :| 0 <= i < |s| && s[i] == c;
      assert s[i..i + 1] == [c];
      ContainsAt(s, [c], i);
    }
    if Contains(s, [c]) {
      var i := ContainsWitness(s, [c]);
      assert s[i] == s[i..i + 1][0];
    }
  }

  /** A needle with a character the haystack lacks does not occur in it. */
  lemma ContainsNeedsChar(s: string, sub: string, k: nat)
    requires k < |sub| && sub[k] !in s
    ensures !Contains(s, sub)
  {
    if Contains(s, sub) {
      var i := ContainsWitness(s, sub);
    }
  }

  // ------------------------------------------------------------ splitting

  /** Index of the first `c` in `s`, or `|s|` when there is none. */
  function FirstIndex(s: string, c: char): (i: nat)
    ensures i <= |s|
    ensures i < |s| ==> s[i] == c
    ensures forall j :: 0 <= j < i ==> s[j] != c
    decreases |s|
  {
    if s == [] then 0
    else if s[0] == c then 0
    else 1 + FirstIndex(s[1..], c)
  }

  /**
   * Python's `s.split(sep, maxsplit)` for a one-character separator:
   * at most `maxsplit` splits from the left (no limit when `maxsplit` is
   * negative); empty pieces are kept.
   */
  function SplitN(s: string, sep: char, maxsplit: int): (parts: seq<string>)
    ensures 1 <= |parts|
    ensures maxsplit >= 0 ==> |parts| <= maxsplit + 1
    decreases |s|
  {
    var i := FirstIndex(s, sep);
    if i == |s| || maxsplit == 0 then [s]
    else [s[..i]] + SplitN(s[i + 1..], sep, maxsplit - 1)
  }

  /** Python's `s.split(sep)`. */
  function Split(s: string, sep: char): (parts: seq<string>)
    ensures 1 <= |parts|
  {
    SplitN(s, sep, -1)
  }

  /** Python's `sep.join(parts)`. */
  function Join(sep: string, parts: seq<string>): (r: string)
    decreases |parts|
  {
    if |parts| == 0 then ""
    else if |parts| == 1 then parts[0]
    else parts[0] + sep + Join(sep, parts[1..])
  }

  /** Number of occurrences of `c` in `s`. */
  function Count(s: string, c: char): (n: nat)
    ensures n <= |s|
    decreases |s|
  {
    if s == [] then 0 else (if s[0] == c then 1 else 0) + Count(s[1..], c)
  }

  lemma {:induction false} CountSplit(s: string, c: char, k: nat)
    requires k <= |s|
    ensures Count(s, c) == Count(s[..k], c) + Count(s[k..], c)
    decreases k
  {
    if k > 0 {
      assert s[1..][..k - 1] == s[..k][1..];
      assert s[1..][k - 1..] == s[k..];
      CountSplit(s[1..], c, k - 1);
    } else {
      assert s[k..] == s;
    }
  }

  lemma {:induction false} CountAbsent(s: string, c: char)
    requires c !in s
    ensures Count(s, c) == 0
    decreases |s|
  {
    if s != [] {
      CountAbsent(s[1..], c);
    }
  }

  /** When `s` has no separator, splitting leaves it whole. */
  lemma SplitNNoSep(s: string, sep: char, maxsplit: int)
    requires sep !in s
    ensures SplitN(s, sep, maxsplit) == [s]
  {
  }

  /** Splitting a line that starts with a separator-free head. */
  lemma SplitNCons(head: string, sep: char, rest: string, maxsplit: int)
    requires sep !in head && maxsplit != 0
    ensures SplitN(head + [sep] + rest, sep, maxsplit) == [head] + SplitN(rest, sep, maxsplit - 1)
  {
    var s := head + [sep] + rest;
    assert s[|head|] == sep;
    assert forall j :: 0 <= j < |head| ==> s[j] == head[j] && head[j] != sep;
    assert FirstIndex(s, sep) == |head|;
    assert s[..|head|] == head;
    assert s[|head| + 1..] == rest;
  }

  /** Every piece of a split occurs in the line. */
  lemma {:induction false} SplitNPieceContained(s: string, sep: char, maxsplit: int, k: nat)
    requires k < |SplitN(s, sep, maxsplit)|
    ensures Contains(s, SplitN(s, sep, maxsplit)[k])
    decreases |s|
  {
    var i := FirstIndex(s, sep);
    if i == |s| || maxsplit == 0 {
      assert s[0..|s|] == s;
      ContainsAt(s, s, 0);
    } else if k == 0 {
      assert s[0..i] == s[..i];
      ContainsAt(s, s[..i], 0);
    } else {
      var rest := SplitN(s[i + 1..], sep, maxsplit - 1);
      assert SplitN(s, sep, maxsplit)[k] == rest[k - 1];
      SplitNPieceContained(s[i + 1..], sep, maxsplit - 1, k - 1);
      ContainsInSuffix(s, i + 1, rest[k - 1]);
    }
  }

  /** Joining a piece in front of further pieces puts the separator between them. */
  lemma JoinCons(sep: string, head: string, rest: seq<string>)
    requires rest != []
    ensures Join(sep, [head] + rest) == head + sep + Join(sep, rest)
  {
    assert ([head] + rest)[1..] == rest;
  }

  /** Joining the pieces of a split with the separator gives back the line. */
  lemma {:induction false} JoinSplit(s: string, sep: char, maxsplit: int)
    ensures Join([sep], SplitN(s, sep, maxsplit)) == s
    decreases |s|
  {
    var i := FirstIndex(s, sep);
    if i == |s| || maxsplit == 0 {
    } else {
      var rest := SplitN(s[i + 1..], sep, maxsplit - 1);
      JoinSplit(s[i + 1..], sep, maxsplit - 1);
      assert SplitN(s, sep, maxsplit) == [s[..i]] + rest;
      JoinCons([sep], s[..i], rest);
      assert s == s[..i] + [sep] + s[i + 1..];
    }
  }

  /** An unlimited split yields one piece more than there are separators. */
  lemma SplitLength(s: string, sep: char)
    ensures |Split(s, sep)| == Count(s, sep) + 1
  {
    SplitNLength(s, sep, -1);
  }

  lemma {:induction false} SplitNLength(s: string, sep: char, maxsplit: int)
    requires maxsplit < 0
    ensures |SplitN(s, sep, maxsplit)| == Count(s, sep) + 1
    decreases |s|
  {
    var i := FirstIndex(s, sep);
    if i == |s| {
      CountAbsent(s, sep);
    } else {
      SplitNLength(s[i + 1..], sep, maxsplit - 1);
      CountSplit(s, sep, i);
      CountAbsent(s[..i], sep);
      assert s[i..][1..] == s[i + 1..];
    }
  }

  /** No piece of an unlimited split holds the separator. */
  lemma SplitPiecesFree(s: string, sep: char)
    ensures forall k :: 0 <= k < |Split(s, sep)| ==> sep !in Split(s, sep)[k]
  {
    SplitNPiecesFree(s, sep, -1);
  }

  lemma {:induction false} SplitNPiecesFree(s: string, sep: char, maxsplit: int)
    requires maxsplit < 0
    ensures forall k :: 0 <= k < |SplitN(s, sep, maxsplit)| ==> sep !in SplitN(s, sep, maxsplit)[k]
    decreases |s|
  {
    var i := FirstIndex(s, sep);
    if i < |s| {
      SplitNPiecesFree(s[i + 1..], sep, maxsplit - 1);
    }
  }

  /** A split with at most `maxsplit` cuts makes every cut it can. */
  lemma {:induction false} SplitNLengthBounded(s: string, sep: char, maxsplit: nat)
    ensures |SplitN(s, sep, maxsplit)| == (if Count(s, sep) < maxsplit then Count(s, sep) else maxsplit) + 1
    decreases |s|
  {
    var i := FirstIndex(s, sep);
    if i == |s| {
      CountAbsent(s, sep);
    } else if maxsplit > 0 {
      SplitNLengthBounded(s[i + 1..], sep, maxsplit - 1);
      CountSplit(s, sep, i);
      CountAbsent(s[..i], sep);
      assert s[i..][1..] == s[i + 1..];
    }
  }

  /** Only the piece after the last allowed cut may hold the separator. */
  lemma {:induction false} SplitNHeadsFree(s: string, sep: char, maxsplit: int)
    ensures forall k :: 0 <= k < |SplitN(s, sep, maxsplit)| && k != maxsplit ==> sep !in SplitN(s, sep, maxsplit)[k]
    decreases |s|
  {
    var i := FirstIndex(s, sep);
    if i < |s| && maxsplit != 0 {
      SplitNHeadsFree(s[i + 1..], sep, maxsplit - 1);
    }
  }

  // ---------------------------------------------------------- whitespace

  /** Python 2's whitespace for a byte string's `strip()`: space, \t, \n, \r, \v, \f. */
  predicate IsSpace(c: char) {
    c == ' ' || c == '\t' || c == '\n' || c == '\r' || c == '\U{000B}' || c == '\U{000C}'
  }

  /**
   * Whitespace for a `unicode` line's `split()` and for `\s` under
   * `re.UNICODE`, over ASCII: the six characters above and the separators
   * U+001C to U+001F (U+001D and U+001F are IRC's italic and underline codes).
   */
  predicate IsWordSpace(c: char) {
    IsSpace(c) || '\U{001C}' <= c <= '\U{001F}'
  }

  predicate NoSpace(s: string) {
    forall i :: 0 <= i < |s| ==> !IsWordSpace(s[i])
  }

  /** Length of the leading run of non-whitespace characters. */
  function WordLength(s: string): (n: nat)
    ensures n <= |s|
    ensures NoSpace(s[..n])
    ensures n < |s| ==> IsWordSpace(s[n])
    decreases |s|
  {
    if s == [] || IsWordSpace(s[0]) then 0
    else
      var n := 1 + WordLength(s[1..]);
      assert s[..n] == [s[0]] + s[1..][..n - 1];
      n
  }

  /** A word set off by a separator on each side is the line's one word. */
  lemma WordsBetween(c: char, w: string, d: char)
    requires IsWordSpace(c) && IsWordSpace(d) && w != [] && NoSpace(w)
    ensures Words([c] + w + [d]) == [w]
  {
    var s := [c] + w + [d];
    var t := s[1..];
    assert t == w + [d];
    assert WordLength(t) == |w| by {
      WordLengthOf(w, [d]);
    }
    assert t[..|w|] == w && t[|w|..] == [d];
    assert Words([d]) == [];
  }

  /** A whitespace-free word followed by whitespace is a word run of exactly its length. */
  lemma {:induction false} WordLengthOf(w: string, rest: string)
    requires NoSpace(w) && rest != [] && IsWordSpace(rest[0])
    ensures WordLength(w + rest) == |w|
    decreases |w|
  {
    if w == [] {
      assert w + rest == rest;
    } else {
      assert (w + rest)[1..] == w[1..] + rest;
      WordLengthOf(w[1..], rest);
    }
  }

  /** Python's `s.split()` on a `unicode` line: the maximal non-whitespace runs, in order. */
  function Words(s: string): (ws: seq<string>)
    ensures forall k :: 0 <= k < |ws| ==> ws[k] != "" && NoSpace(ws[k])
    decreases |s|
  {
    if s == [] then []
    else if IsWordSpace(s[0]) then Words(s[1..])
    else
      var n := WordLength(s);
      [s[..n]] + Words(s[n..])
  }

  /** A line with no whitespace at all is one word, or none when empty. */
  lemma WordsOfWord(s: string)
    requires NoSpace(s)
    ensures Words(s) == if s == [] then [] else [s]
  {
    if s != [] {
      assert WordLength(s) == |s|;
      assert s[..|s|] == s;
      assert s[|s|..] == [];
    }
  }

  /** Python's `s.strip()`: leading and trailing whitespace removed. */
  function Strip(s: string): (r: string)
    ensures |r| <= |s|
    ensures r != [] ==> !IsSpace(r[0]) && !IsSpace(r[|r| - 1])
    decreases |s|
  {
    if s == [] then []
    else if IsSpace(s[0]) then Strip(s[1..])
    else if IsSpace(s[|s| - 1]) then Strip(s[..|s| - 1])
    else s
  }

  /** What `strip()` keeps is a slice of `s`: only whitespace lies before it and after it. */
  lemma {:induction false} StripInfix(s: string) returns (a: nat, b: nat)
    ensures a <= b <= |s| && Strip(s) == s[a..b]
    ensures forall i :: 0 <= i < a ==> IsSpace(s[i])
    ensures forall i :: b <= i < |s| ==> IsSpace(s[i])
    decreases |s|
  {
    if s == [] {
      a, b := 0, 0;
    } else if IsSpace(s[0]) {
      var a', b' := StripInfix(s[1..]);
      a, b := a' + 1, b' + 1;
      assert s[1..][a'..b'] == s[a..b];
      assert forall i :: 1 <= i < |s| ==> s[1..][i - 1] == s[i];
    } else if IsSpace(s[|s| - 1]) {
      a, b := StripInfix(s[..|s| - 1]);
      assert s[..|s| - 1][a..b] == s[a..b];
      assert forall i :: 0 <= i < |s| - 1 ==> s[..|s| - 1][i] == s[i];
    } else {
      a, b := 0, |s|;
    }
  }

  // ------------------------------------------------------------ rewriting

  /**
   * Python's `s.replace(pat, rep)`: every occurrence of `pat` found in one
   * left-to-right scan, without overlaps, is replaced.
   */
  function ReplaceAll(s: string, pat: string, rep: string): (r: string)
    requires pat != []
    decreases |s|
  {
    if |s| < |pat| then s
    else if s[..|pat|] == pat then rep + ReplaceAll(s[|pat|..], pat, rep)
    else [s[0]] + ReplaceAll(s[1..], pat, rep)
  }

  /** A string that does not start with `pat` keeps its first character; a rest left alone leaves the whole alone. */
  lemma ReplaceAllHeadKept(s: string, pat: string, rep: string)
    requires pat != [] && s != [] && (|s| < |pat| || s[..|pat|] != pat)
    requires ReplaceAll(s[1..], pat, rep) == s[1..]
    ensures ReplaceAll(s, pat, rep) == s
  {
    assert [s[0]] + s[1..] == s;
  }

  /** A string lacking one character of `pat` is left alone. */
  lemma {:induction false} ReplaceAllAbsent(s: string, pat: string, rep: string, k: nat)
    requires pat != [] && k < |pat| && pat[k] !in s
    ensures ReplaceAll(s, pat, rep) == s
    decreases |s|
  {
    if |s| >= |pat| {
      assert s[..|pat|][k] == s[k];
      ReplaceAllAbsent(s[1..], pat, rep, k);
    }
  }

  /** `ljust(width)`: pad on the right with spaces up to `width` characters. */
  function LJust(s: string, width: nat): (r: string)
    ensures |r| == if |s| >= width then |s| else width
    ensures r[..|s|] == s
    ensures forall i :: |s| <= i < |r| ==> r[i] == ' '
  {
    if |s| >= width then s else s + seq(width - |s|, _ => ' ')
  }

  /** The decimal digits 0-9. */
  predicate IsDigit(c: char) {
    '0' <= c <= '9'
  }

  /** Decimal rendering of a natural number, as `"%s" % n` prints it. */
  function NatToString(n: nat): (r: string)
    ensures r != [] && forall i :: 0 <= i < |r| ==> IsDigit(r[i])
    decreases n
  {
    var d := [('0' as int + n % 10) as char];
    if n < 10 then d else NatToString(n / 10) + d
  }

  /** Decimal rendering of an integer, with a leading `-` when negative. */
  function IntToString(n: int): (r: string)
    ensures r != []
  {
    if n < 0 then "-" + NatToString(-n) else NatToString(n)
  }
}
