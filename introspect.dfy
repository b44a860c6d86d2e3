/**
 * The help index built once at startup (src/introspect.py): command names
 * parsed from `cmd_<name>[_public|_private]` method names, docstring
 * summaries, and the per-module and global public/private maps.
 *
 * A docstring is given as `inspect.getdoc` returns it, with `""` standing
 * for "no docstring" (both are falsy to `help_object`).
 */
module Introspect {
  import opened Text
  import opened Wrappers

  // ------------------------------------------------------------ help text

  /** `get_full_help`: the docstring lines joined back with newlines. */
  method GetFullHelp(docLines: seq<string>) returns (r: string)
    ensures r == Join("\n", docLines)
  {
    var full: seq<string> := [];
    for i := 0 to |docLines|
      invariant full == docLines[..i]
    {
      full := full + [docLines[i]];
    }
    assert full == docLines;
    r := Join("\n", full);
  }

  /** `get_full_help(s.split('\n'))` gives back `s`. */
  lemma FullHelpRoundTrip(s: string)
    ensures Join("\n", Split(s, '\n')) == s
  {
    JoinSplit(s, '\n', -1);
  }

  /** The leading non-empty lines, up to the first empty one. */
  function LeadingLines(lines: seq<string>): (r: seq<string>)
    ensures |r| <= |lines| && r == lines[..|r|]
    ensures forall i :: 0 <= i < |r| ==> r[i] != ""
    ensures |r| < |lines| ==> lines[|r|] == ""
    decreases |lines|
  {
    if lines == [] || lines[0] == "" then []
    else [lines[0]] + LeadingLines(lines[1..])
  }

  /** The leading non-empty lines are the prefix that runs up to an empty line or the end. */
  lemma {:induction false} LeadingLinesUnique(lines: seq<string>, i: nat)
    requires i <= |lines| && (i == |lines| || lines[i] == "")
    requires forall k :: 0 <= k < i ==> lines[k] != ""
    ensures LeadingLines(lines) == lines[..i]
    decreases i
  {
    if i > 0 {
      LeadingLinesUnique(lines[1..], i - 1);
      assert lines[..i] == [lines[0]] + lines[1..][..i - 1];
    }
  }

  /** The summary: the leading non-empty lines joined by single spaces. */
  function Summary(lines: seq<string>): string {
    Join(" ", LeadingLines(lines))
  }

  /** `get_summary`: collect lines until the first empty one. */
  method GetSummary(docLines: seq<string>) returns (r: string)
    ensures r == Summary(docLines)
  {
    var summary: seq<string> := [];
    var i := 0;
    while i < |docLines| && docLines[i] != ""
      invariant 0 <= i <= |docLines|
      invariant summary == docLines[..i]
      invariant forall k :: 0 <= k < i ==> docLines[k] != ""
    {
      summary := summary + [docLines[i]];
      i := i + 1;
    }
    LeadingLinesUnique(docLines, i);
    r := Join(" ", summary);
  }

  /** The last piece of a join is a suffix of it. */
  lemma {:induction false} JoinEndsWithLast(sep: string, parts: seq<string>)
    requires parts != []
    ensures EndsWith(Join(sep, parts), parts[|parts| - 1])
    decreases |parts|
  {
    if |parts| > 1 {
      JoinEndsWithLast(sep, parts[1..]);
      var j := Join(sep, parts[1..]);
      var whole := parts[0] + sep + j;
      var last := parts[|parts| - 1];
      assert whole[|whole| - |j|..] == j;
      assert whole[|whole| - |last|..] == j[|j| - |last|..];
    }
  }

  /** `get_name`: the part of a dotted name after its last dot. */
  function GetName(qualName: string): (r: string)
    ensures '.' !in r && EndsWith(qualName, r)
    ensures '.' !in qualName ==> r == qualName
  {
    var parts := Split(qualName, '.');
    SplitPiecesFree(qualName, '.');
    JoinSplit(qualName, '.', -1);
    JoinEndsWithLast(".", parts);
    assert '.' !in qualName ==> parts == [qualName] by {
      if '.' !in qualName { SplitNNoSep(qualName, '.', -1); }
    }
    parts[|parts| - 1]
  }

  /** The sentinel for an object without a docstring. */
  const NoHelp := "No help found"

  /**
   * `help_object(obj, name, full)`: the sentinel for a missing docstring;
   * otherwise ` - name:` and the stripped docstring (full form) or the
   * name padded to ten columns, `: ` and the summary (summary form).
   */
  function HelpObject(objName: string, name: string, doc: string, full: bool): (r: string)
    ensures doc == "" ==> r == NoHelp
    ensures var n := if name == "" then GetName(objName) else name;
            && (doc != "" && full ==> r == " - " + n + ":\n" + Strip(doc))
            && (doc != "" && !full ==>
                  r == LJust(n, 10) + ": " + Summary(Split(Strip(doc), '\n'))
                  && StartsWith(r, n)
                  && |r| >= 12)
  {
    var n := if name == "" then GetName(objName) else name;
    if doc == "" then NoHelp
    else
      var lines := Split(Strip(doc), '\n');
      FullHelpRoundTrip(Strip(doc));
      if full then " - " + n + ":\n" + Join("\n", lines)
      else
        var r := LJust(n, 10) + ": " + Summary(lines);
        assert r[..|n|] == n;
        r
  }

  // -------------------------------------------------------- command names

  /** `parse_cmd_name`: nothing unless the name starts with `cmd_`; then every `cmd_`, `_public` and `_private` is deleted, in that order. */
  function ParseCmdName(name: string): (r: Option<string>)
    ensures r.None? <==> !StartsWith(name, "cmd_")
  {
    if !StartsWith(name, "cmd_") then None
    else Some(ReplaceAll(ReplaceAll(ReplaceAll(name, "cmd_", ""), "_public", ""), "_private", ""))
  }

  /** `parse_cmd_ispublic`: public unless the name ends in `_private`. */
  predicate IsPublicName(name: string) {
    !EndsWith(name, "_private")
  }

  /** `parse_cmd_isprivate`: private unless the name ends in `_public`. */
  predicate IsPrivateName(name: string) {
    !EndsWith(name, "_public")
  }

  /** Every name is public or private, and a name with neither suffix is both. */
  lemma VisibilityCovers(name: string)
    ensures IsPublicName(name) || IsPrivateName(name)
    ensures !EndsWith(name, "_public") && !EndsWith(name, "_private") ==> IsPublicName(name) && IsPrivateName(name)
  {
    if EndsWith(name, "_public") {
      assert name[|name| - 1] == 'c';
      assert |name| < 8 || name[|name| - 8..][7] == 'c';
    }
  }

  /** Deleting a suffix pattern from `c + pat` whose `c` has no underscore. */
  lemma {:induction false} ReplaceSuffix(c: string, pat: string)
    requires pat == "_public" || pat == "_private"
    requires '_' !in c
    ensures ReplaceAll(c + pat, pat, "") == c
    decreases |c|
  {
    if c == [] {
      assert (c + pat)[..|pat|] == pat;
      assert (c + pat)[|pat|..] == [];
    } else {
      assert (c + pat)[..|pat|][0] == c[0];
      assert (c + pat)[1..] == c[1..] + pat;
      ReplaceSuffix(c[1..], pat);
      assert c == [c[0]] + c[1..];
    }
  }

  /** The other suffix pattern is not found in `c + pat`. */
  lemma {:induction false} ReplaceOtherSuffix(c: string, pat: string, other: string)
    requires (pat == "_public" && other == "_private") || (pat == "_private" && other == "_public")
    requires '_' !in c
    ensures ReplaceAll(c + pat, other, "") == c + pat
    decreases |c|
  {
    if c == [] {
      assert c + pat == pat;
      if pat == "_private" {
        assert pat[..|other|] != other by { assert pat[..|other|][2] != other[2]; }
        assert pat[1..] == "private";
        ReplaceAllAbsent(pat[1..], other, "", 0);
      }
    } else {
      assert (c + pat)[..|other|][0] == c[0];
      assert (c + pat)[1..] == c[1..] + pat;
      ReplaceOtherSuffix(c[1..], pat, other);
    }
  }

  /** `c + suffix` does not start with `cmd_` when `c` is non-empty, has no underscore and does not end in `cmd`. */
  lemma NotCmdHere(c: string, suffix: string)
    requires suffix == "" || suffix == "_public" || suffix == "_private"
    requires c != [] && '_' !in c && !EndsWith(c, "cmd")
    ensures |c + suffix| < 4 || (c + suffix)[..4] != "cmd_"
  {
    var s := c + suffix;
    if |s| >= 4 {
      if |c| > 3 {
        assert s[..4][3] == c[3];
      } else if |c| < 3 {
        assert s[..4][3] == suffix[1..][2 - |c|];
      } else {
        assert s[..4][..3] == c;
      }
    }
  }

  /** `cmd_` is not found in `c + suffix` when `c` has no underscore and does not end in `cmd`. */
  lemma {:induction false} NoCmdPrefixInside(c: string, suffix: string)
    requires suffix == "" || suffix == "_public" || suffix == "_private"
    requires '_' !in c && !EndsWith(c, "cmd")
    ensures ReplaceAll(c + suffix, "cmd_", "") == c + suffix
    decreases |c|
  {
    if c == [] {
      assert c + suffix == suffix;
      NoCmdInSuffix(suffix);
    } else {
      var s := c + suffix;
      var rest := c[1..] + suffix;
      assert ReplaceAll(rest, "cmd_", "") == rest by {
        assert !EndsWith(c[1..], "cmd") by {
          if |c[1..]| >= 3 {
            assert c[1..][|c[1..]| - 3..] == c[|c| - 3..];
          }
        }
        NoCmdPrefixInside(c[1..], suffix);
      }
      assert |s| < 4 || s[..4] != "cmd_" by {
        NotCmdHere(c, suffix);
      }
      assert s[1..] == rest;
      ReplaceAllHeadKept(s, "cmd_", "");
    }
  }

  /** No suffix pattern contains `cmd_`. */
  lemma NoCmdInSuffix(suffix: string)
    requires suffix == "" || suffix == "_public" || suffix == "_private"
    ensures ReplaceAll(suffix, "cmd_", "") == suffix
  {
    if suffix != "" {
      assert suffix[1..] == "public" || suffix[1..] == "private";
      ReplaceAllAbsent(suffix[1..], "cmd_", "", 3);
      assert suffix[..4][0] == '_';
      assert suffix == [suffix[0]] + suffix[1..];
    }
  }

  /**
   * The router and the index agree on simple names: the method the router
   * looks up for command `c`, with any suffix, parses back to `c`.
   */
  lemma ParseHandlerName(c: string, suffix: string)
    requires suffix == "" || suffix == "_public" || suffix == "_private"
    requires '_' !in c && !EndsWith(c, "cmd")
    ensures ParseCmdName("cmd_" + c + suffix) == Some(c)
  {
    var name := "cmd_" + c + suffix;
    assert name[..4] == "cmd_";
    assert name[4..] == c + suffix;
    NoCmdPrefixInside(c, suffix);
    var step1 := ReplaceAll(name, "cmd_", "");
    assert step1 == c + suffix;
    if suffix == "" {
      assert c + suffix == c;
      ReplaceAllAbsent(c, "_public", "", 0);
      ReplaceAllAbsent(c, "_private", "", 0);
      assert c + suffix == c;
    } else if suffix == "_public" {
      ReplaceSuffix(c, "_public");
      ReplaceAllAbsent(c, "_private", "", 0);
    } else {
      ReplaceOtherSuffix(c, "_private", "_public");
      ReplaceSuffix(c, "_private");
    }
  }

  /** The bare prefix, `cmd__public` and `cmd__private` all parse to the empty name. */
  lemma EmptyCommandNames(suffix: string)
    requires suffix == "" || suffix == "_public" || suffix == "_private"
    ensures ParseCmdName("cmd_" + suffix) == Some("")
  {
    ParseHandlerName("", suffix);
    assert "cmd_" + "" + suffix == "cmd_" + suffix;
  }

  // --------------------------------------------------------- module index

  /**
   * An attribute of a context class as `dir()` lists it: its name, whether
   * it carries a truthy `hidden`, and its docstring.
   */
  datatype Attr = Attr(name: string, hidden: bool, doc: string)

  /** What the index reads from a module: its file's dotted name and docstring, and its context class's attributes. */
  datatype ModuleSource = ModuleSource(fileName: string, doc: string, attrs: seq<Attr>)

  /** `{'name', 'function_name', 'module_name'}` of `cmd_functions_dict`. */
  datatype CmdFunction = CmdFunction(name: string, functionName: string, moduleName: string)

  /** A command's entry once `build_module_index` has added its help. */
  datatype Entry = Entry(name: string, functionName: string, moduleName: string, summary: string, help: string)

  datatype ModuleIndex = ModuleIndex(
    summary: string, help: string,
    functions: map<string, Entry>, public: map<string, Entry>, private: map<string, Entry>)

  datatype HelpIndex = HelpIndex(modules: map<string, ModuleIndex>, public: map<string, Entry>, private: map<string, Entry>)

  /** The parsed command name, `""` for a name that is not a command. */
  function CmdNameOf(name: string): string {
    ParseCmdName(name).GetOr("")
  }

  /** An attribute `cmd_functions_dict` keeps: a non-empty parsed name and no `hidden` flag. */
  predicate Listed(a: Attr) {
    CmdNameOf(a.name) != "" && !a.hidden
  }

  lemma ListedIsCommand(a: Attr)
    requires Listed(a)
    ensures StartsWith(a.name, "cmd_")
  {
  }

  /** Names of the listed attributes. */
  function ListedNames(attrs: seq<Attr>): set<string> {
    set i | 0 <= i < |attrs| && Listed(attrs[i]) :: attrs[i].name
  }

  lemma ListedNamesSnoc(attrs: seq<Attr>, a: Attr)
    ensures ListedNames(attrs + [a]) == ListedNames(attrs) + (if Listed(a) then {a.name} else {})
  {
    var xs := attrs + [a];
    assert forall j :: 0 <= j < |attrs| ==> xs[j] == attrs[j];
    assert xs[|attrs|] == a;
  }

  /** The value `cmd_functions_dict` computes: every listed attribute under its own name. */
  function CmdFunctions(attrs: seq<Attr>, moduleName: string): map<string, CmdFunction> {
    map f | f in ListedNames(attrs) :: CmdFunction(CmdNameOf(f), f, moduleName)
  }

  /** `cmd_functions_dict`: one pass over the attributes, skipping hidden ones. */
  method CmdFunctionsDict(attrs: seq<Attr>, moduleName: string) returns (functions: map<string, CmdFunction>)
    ensures functions == CmdFunctions(attrs, moduleName)
  {
    functions := map[];
    for i := 0 to |attrs|
      invariant functions == CmdFunctions(attrs[..i], moduleName)
    {
      var a := attrs[i];
      assert attrs[..i + 1] == attrs[..i] + [a];
      ListedNamesSnoc(attrs[..i], a);
      var cmdName := ParseCmdName(a.name);
      if cmdName.Some? && cmdName.value != "" {
        if a.hidden {
          continue;
        }
        functions := functions[a.name := CmdFunction(cmdName.value, a.name, moduleName)];
      }
    }
    assert attrs[..|attrs|] == attrs;
  }

  /** The docstring of the first attribute called `name`. */
  function DocOf(attrs: seq<Attr>, name: string): string
    decreases |attrs|
  {
    if attrs == [] then ""
    else if attrs[0].name == name then attrs[0].doc
    else DocOf(attrs[1..], name)
  }

  /** A command with its summary and full help attached. */
  function WithHelp(c: CmdFunction, doc: string): (e: Entry)
    ensures e.name == c.name && e.functionName == c.functionName && e.moduleName == c.moduleName
  {
    Entry(c.name, c.functionName, c.moduleName,
          HelpObject(c.functionName, c.name, doc, false), HelpObject(c.functionName, c.name, doc, true))
  }

  /** The module's `functions` map once help is attached. */
  function Functions(attrs: seq<Attr>, moduleName: string): map<string, Entry> {
    var refs := CmdFunctions(attrs, moduleName);
    map f | f in refs :: WithHelp(refs[f], DocOf(attrs, f))
  }

  /** The listed attribute names in `dir()` order: the order the model iterates `functions` in. */
  function Order(attrs: seq<Attr>): (order: seq<string>)
    ensures forall k :: 0 <= k < |order| ==> order[k] in ListedNames(attrs)
    decreases |attrs|
  {
    if attrs == [] then []
    else
      var rest := Order(attrs[..|attrs| - 1]);
      var a := attrs[|attrs| - 1];
      assert forall k :: 0 <= k < |rest| ==> rest[k] in ListedNames(attrs) by {
        forall k | 0 <= k < |rest| ensures rest[k] in ListedNames(attrs) {
          var j :| 0 <= j < |attrs| - 1 && Listed(attrs[..|attrs| - 1][j]) && attrs[..|attrs| - 1][j].name == rest[k];
          assert attrs[j] == attrs[..|attrs| - 1][j];
        }
      }
      if Listed(a) then rest + [a.name] else rest
  }

  /** Every listed attribute occurs in the iteration order. */
  lemma {:induction false} OrderComplete(attrs: seq<Attr>, f: string)
    requires f in ListedNames(attrs)
    ensures f in Order(attrs)
    decreases |attrs|
  {
    var j :| 0 <= j < |attrs| && Listed(attrs[j]) && attrs[j].name == f;
    var init := attrs[..|attrs| - 1];
    if j < |attrs| - 1 {
      assert init[j] == attrs[j];
      OrderComplete(init, f);
    }
  }

  /** Visibility of a method name for one of the two buckets. */
  predicate Visible(name: string, public: bool) {
    if public then IsPublicName(name) else IsPrivateName(name)
  }

  /** The public or private map: every visible function under its command name, later ones in `order` overriding earlier ones. */
  function Bucket(functions: map<string, Entry>, order: seq<string>, public: bool): map<string, Entry>
    decreases |order|
  {
    if order == [] then map[]
    else
      var m := Bucket(functions, order[..|order| - 1], public);
      var f := order[|order| - 1];
      if f in functions && Visible(f, public) then m[functions[f].name := functions[f]] else m
  }

  /** Each entry of a bucket is a visible entry of `functions`, filed under its command name. */
  lemma {:induction false} BucketSound(functions: map<string, Entry>, order: seq<string>, public: bool)
    requires forall f :: f in functions ==> functions[f].functionName == f
    ensures forall n :: n in Bucket(functions, order, public) ==>
              var e := Bucket(functions, order, public)[n];
              && e.name == n && e.functionName in functions && functions[e.functionName] == e
              && Visible(e.functionName, public)
    decreases |order|
  {
    if order != [] {
      BucketSound(functions, order[..|order| - 1], public);
    }
  }

  /** Every visible function in the order has its command name in the bucket. */
  lemma {:induction false} BucketComplete(functions: map<string, Entry>, order: seq<string>, public: bool, k: nat)
    requires k < |order| && order[k] in functions && Visible(order[k], public)
    ensures functions[order[k]].name in Bucket(functions, order, public)
    decreases |order|
  {
    if k < |order| - 1 {
      BucketComplete(functions, order[..|order| - 1], public, k);
    }
  }

  /** The value `build_module_index` computes for a module. */
  function ModuleIndexOf(m: ModuleSource): ModuleIndex {
    var name := GetName(m.fileName);
    var functions := Functions(m.attrs, name);
    var order := Order(m.attrs);
    ModuleIndex(HelpObject(m.fileName, name, m.doc, false), HelpObject(m.fileName, name, m.doc, true),
                functions, Bucket(functions, order, true), Bucket(functions, order, false))
  }

  /** Fill one bucket by a pass over `order`. */
  method FillBucket(functions: map<string, Entry>, order: seq<string>, public: bool) returns (bucket: map<string, Entry>)
    ensures bucket == Bucket(functions, order, public)
  {
    bucket := map[];
    for i := 0 to |order|
      invariant bucket == Bucket(functions, order[..i], public)
    {
      var fname := order[i];
      assert order[..i + 1][..i] == order[..i];
      if fname in functions && (if public then IsPublicName(fname) else IsPrivateName(fname)) {
        bucket := bucket[functions[fname].name := functions[fname]];
      }
    }
    assert order[..|order|] == order;
  }

  /** `build_module_index`: the module's name and its index. */
  method BuildModuleIndex(m: ModuleSource) returns (name: string, index: ModuleIndex)
    ensures name == GetName(m.fileName)
    ensures index == ModuleIndexOf(m)
  {
    name := GetName(m.fileName);
    var refs := CmdFunctionsDict(m.attrs, name);
    var functions: map<string, Entry> := map[];
    var todo := refs.Keys;
    while todo != {}
      invariant todo <= refs.Keys
      invariant functions == map f | f in refs.Keys - todo :: WithHelp(refs[f], DocOf(m.attrs, f))
      decreases todo
    {
      var fname :| fname in todo;
      functions := functions[fname := WithHelp(refs[fname], DocOf(m.attrs, fname))];
      todo := todo - {fname};
    }
    assert functions == Functions(m.attrs, name);
    var order := Order(m.attrs);
    var public := FillBucket(functions, order, true);
    var private := FillBucket(functions, order, false);
    index := ModuleIndex(HelpObject(m.fileName, name, m.doc, false), HelpObject(m.fileName, name, m.doc, true),
                         functions, public, private);
  }

  /** Every function entry is keyed by its own method name and names its module. */
  lemma FunctionsKeyed(attrs: seq<Attr>, moduleName: string)
    ensures forall f :: f in Functions(attrs, moduleName) ==>
              var e := Functions(attrs, moduleName)[f];
              e.functionName == f && e.name == CmdNameOf(f) && e.moduleName == moduleName
  {
  }

  /**
   * The module index keeps exactly the listed attributes: a function is in
   * it iff some attribute with that name has a non-empty command name and
   * no `hidden` flag; each bucket entry is one of those functions,
   * filed under its command name, and a function is in the public bucket's
   * range unless its name ends in `_private` (in the private one unless
   * it ends in `_public`).
   */
  lemma ModuleIndexSpec(m: ModuleSource)
    ensures var idx := ModuleIndexOf(m);
            && (forall f :: f in idx.functions <==> f in ListedNames(m.attrs))
            && (forall n :: n in idx.public ==>
                  var e := idx.public[n];
                  e.name == n && e.functionName in idx.functions && idx.functions[e.functionName] == e
                  && IsPublicName(e.functionName))
            && (forall n :: n in idx.private ==>
                  var e := idx.private[n];
                  e.name == n && e.functionName in idx.functions && idx.functions[e.functionName] == e
                  && IsPrivateName(e.functionName))
            && (forall f :: f in idx.functions && IsPublicName(f) ==> CmdNameOf(f) in idx.public)
            && (forall f :: f in idx.functions && IsPrivateName(f) ==> CmdNameOf(f) in idx.private)
  {
    var name := GetName(m.fileName);
    var functions := Functions(m.attrs, name);
    var order := Order(m.attrs);
    FunctionsKeyed(m.attrs, name);
    BucketSound(functions, order, true);
    BucketSound(functions, order, false);
    forall f | f in functions
      ensures (IsPublicName(f) ==> CmdNameOf(f) in Bucket(functions, order, true))
           && (IsPrivateName(f) ==> CmdNameOf(f) in Bucket(functions, order, false))
    {
      OrderComplete(m.attrs, f);
      var k :| 0 <= k < |order| && order[k] == f;
      if IsPublicName(f) { BucketComplete(functions, order, true, k); }
      if IsPrivateName(f) { BucketComplete(functions, order, false, k); }
    }
  }

  /**
   * A hidden command is in none of its module's maps: when attribute names
   * are distinct (as `dir()` gives them), no entry of `functions`, `public`
   * or `private` belongs to a hidden attribute.
   */
  lemma HiddenIsUnlisted(m: ModuleSource, j: nat)
    requires j < |m.attrs| && m.attrs[j].hidden
    requires forall a, b :: 0 <= a < b < |m.attrs| ==> m.attrs[a].name != m.attrs[b].name
    ensures var idx := ModuleIndexOf(m);
            && m.attrs[j].name !in idx.functions
            && (forall n :: n in idx.public ==> idx.public[n].functionName != m.attrs[j].name)
            && (forall n :: n in idx.private ==> idx.private[n].functionName != m.attrs[j].name)
  {
    ModuleIndexSpec(m);
  }

  /** A method whose parsed command name is empty is never listed. */
  lemma EmptyNameUnlisted(m: ModuleSource, j: nat)
    requires j < |m.attrs| && CmdNameOf(m.attrs[j].name) == ""
    requires forall a, b :: 0 <= a < b < |m.attrs| ==> m.attrs[a].name != m.attrs[b].name
    ensures m.attrs[j].name !in ModuleIndexOf(m).functions
  {
    ModuleIndexSpec(m);
  }

  // ---------------------------------------------------------- full index

  /** Each module's name and index, in the order the modules are given. */
  function Named(modules: seq<ModuleSource>): (named: seq<(string, ModuleIndex)>)
    ensures |named| == |modules|
    ensures forall i :: 0 <= i < |modules| ==> named[i] == (GetName(modules[i].fileName), ModuleIndexOf(modules[i]))
  {
    seq(|modules|, i requires 0 <= i < |modules| => (GetName(modules[i].fileName), ModuleIndexOf(modules[i])))
  }

  /** The merge `build_index` performs: later modules' maps are merged over the earlier ones. */
  function Merge(named: seq<(string, ModuleIndex)>): HelpIndex
    decreases |named|
  {
    if named == [] then HelpIndex(map[], map[], map[])
    else
      var prev := Merge(named[..|named| - 1]);
      var (name, idx) := named[|named| - 1];
      HelpIndex(prev.modules[name := idx], prev.public + idx.public, prev.private + idx.private)
  }

  /** The value `build_index` computes. */
  function IndexOf(modules: seq<ModuleSource>): HelpIndex {
    Merge(Named(modules))
  }

  /** `build_index`: one pass over the modules. */
  method BuildIndex(modules: seq<ModuleSource>) returns (index: HelpIndex)
    ensures index == IndexOf(modules)
  {
    ghost var named := Named(modules);
    var mods: map<string, ModuleIndex> := map[];
    var public: map<string, Entry> := map[];
    var private: map<string, Entry> := map[];
    for i := 0 to |modules|
      invariant HelpIndex(mods, public, private) == Merge(named[..i])
    {
      var name, idx := BuildModuleIndex(modules[i]);
      MergeOneMore(named, i);
      mods := mods[name := idx];
      public := public + idx.public;
      private := private + idx.private;
    }
    assert named[..|modules|] == named;
    index := HelpIndex(mods, public, private);
  }

  /** Merging one more module updates the merged index by that module's maps. */
  lemma MergeOneMore(named: seq<(string, ModuleIndex)>, i: nat)
    requires i < |named|
    ensures var prev := Merge(named[..i]);
            var (name, idx) := named[i];
            Merge(named[..i + 1]) == HelpIndex(prev.modules[name := idx], prev.public + idx.public, prev.private + idx.private)
  {
    assert named[..i + 1][..i] == named[..i];
  }

  /** One module's public or private map. */
  function Side(idx: ModuleIndex, public: bool): map<string, Entry> {
    if public then idx.public else idx.private
  }

  /** The global public or private map. */
  function Global(index: HelpIndex, public: bool): map<string, Entry> {
    if public then index.public else index.private
  }

  /** A command name is in the merged map iff some module's map has it. */
  lemma {:induction false} MergeKeys(named: seq<(string, ModuleIndex)>, n: string, public: bool)
    ensures n in Global(Merge(named), public) <==> exists i :: 0 <= i < |named| && n in Side(named[i].1, public)
    decreases |named|
  {
    if named != [] {
      var init := named[..|named| - 1];
      MergeKeys(init, n, public);
      assert forall i :: 0 <= i < |init| ==> init[i] == named[i];
    }
  }

  /** Each merged entry is the entry of the last module whose map has the name. */
  lemma {:induction false} MergeLastWins(named: seq<(string, ModuleIndex)>, n: string, public: bool, i: nat)
    requires i < |named| && n in Side(named[i].1, public)
    requires forall j :: i < j < |named| ==> n !in Side(named[j].1, public)
    ensures n in Global(Merge(named), public)
    ensures Global(Merge(named), public)[n] == Side(named[i].1, public)[n]
    decreases |named|
  {
    if i < |named| - 1 {
      var init := named[..|named| - 1];
      assert init[i] == named[i];
      assert forall j :: i < j < |init| ==> init[j] == named[j];
      MergeLastWins(init, n, public, i);
    }
  }

  /** Each merged entry comes from some module's map. */
  lemma {:induction false} MergeFrom(named: seq<(string, ModuleIndex)>, n: string, public: bool) returns (i: nat)
    requires n in Global(Merge(named), public)
    ensures i < |named| && n in Side(named[i].1, public)
    ensures Global(Merge(named), public)[n] == Side(named[i].1, public)[n]
    decreases |named|
  {
    var init := named[..|named| - 1];
    if n in Side(named[|named| - 1].1, public) {
      i := |named| - 1;
    } else {
      i := MergeFrom(init, n, public);
      assert init[i] == named[i];
    }
  }

  /** The global public (private) map has a command name iff some module's public (private) map has it. */
  lemma IndexUnion(modules: seq<ModuleSource>, n: string, public: bool)
    ensures n in Global(IndexOf(modules), public) <==>
              exists i :: 0 <= i < |modules| && n in Side(ModuleIndexOf(modules[i]), public)
  {
    var named := Named(modules);
    MergeKeys(named, n, public);
    if n in Global(IndexOf(modules), public) {
      var i :| 0 <= i < |named| && n in Side(named[i].1, public);
      assert n in Side(ModuleIndexOf(modules[i]), public);
    }
    if exists i :: 0 <= i < |modules| && n in Side(ModuleIndexOf(modules[i]), public) {
      var i :| 0 <= i < |modules| && n in Side(ModuleIndexOf(modules[i]), public);
      assert n in Side(named[i].1, public);
    }
  }

  /** On a clash the global map holds the entry of the last module whose map has the name. */
  lemma IndexLastWins(modules: seq<ModuleSource>, n: string, public: bool, i: nat)
    requires i < |modules| && n in Side(ModuleIndexOf(modules[i]), public)
    requires forall j :: i < j < |modules| ==> n !in Side(ModuleIndexOf(modules[j]), public)
    ensures n in Global(IndexOf(modules), public)
    ensures Global(IndexOf(modules), public)[n] == Side(ModuleIndexOf(modules[i]), public)[n]
  {
    var named := Named(modules);
    assert forall j :: i < j < |named| ==> n !in Side(named[j].1, public) by {
      forall j | i < j < |named| ensures n !in Side(named[j].1, public) {
        assert named[j].1 == ModuleIndexOf(modules[j]);
      }
    }
    MergeLastWins(named, n, public, i);
  }

  /** Every entry of the global maps is a listed, visible function of some module, filed under its command name. */
  lemma GlobalEntriesListed(modules: seq<ModuleSource>, n: string, public: bool)
    requires n in Global(IndexOf(modules), public)
    ensures var e := Global(IndexOf(modules), public)[n];
            exists i :: 0 <= i < |modules| && e.functionName in ListedNames(modules[i].attrs)
                        && e.name == n && Visible(e.functionName, public)
  {
    var i := MergeFrom(Named(modules), n, public);
    ModuleIndexSpec(modules[i]);
  }
}
