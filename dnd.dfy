/**
 * The D&D module (src/modules/dnd.py): `roll attack|save modifier
 * difficulty` rolls a twenty-sided die and reports a hit or a miss, a save
 * or a failure, with a natural 20 and a natural 1 as criticals.
 *
 * The die is a parameter, as `random.randint(1, 20)` would give it.
 */
module Dnd {
  import opened Text
  import opened Wrappers
  import opened BaseModule

  // ------------------------------------------------------------ int()

  predicate AllDigits(s: string) {
    s != [] && forall i :: 0 <= i < |s| ==> IsDigit(s[i])
  }

  /** The value of a string of decimal digits. */
  function DigitsValue(s: string): nat
    requires forall i :: 0 <= i < |s| ==> IsDigit(s[i])
    decreases |s|
  {
    if s == [] then 0
    else
      assert IsDigit(s[|s| - 1]);
      DigitsValue(s[..|s| - 1]) * 10 + (s[|s| - 1] as int - '0' as int)
  }

  /** `int(token)` on a word (no surrounding whitespace): an optional sign and at least one digit, else a `ValueError` (`None`). */
  function ParseInt(s: string): Option<int> {
    if s != [] && (s[0] == '+' || s[0] == '-') then
      if AllDigits(s[1..]) then
        var magnitude: int := DigitsValue(s[1..]);
        Some(if s[0] == '-' then -magnitude else magnitude)
      else None
    else if AllDigits(s) then Some(DigitsValue(s))
    else None
  }

  lemma {:induction false} DigitsOfNat(n: nat)
    ensures DigitsValue(NatToString(n)) == n
    decreases n
  {
    var d := [('0' as int + n % 10) as char];
    if n >= 10 {
      DigitsOfNat(n / 10);
      var r := NatToString(n / 10) + d;
      assert r[..|r| - 1] == NatToString(n / 10);
    }
  }

  /** `int` reads back what `%s` prints for any integer. */
  lemma ParseIntRoundTrip(n: int)
    ensures ParseInt(IntToString(n)) == Some(n)
  {
    if n < 0 {
      ParseNegative(-n);
    } else {
      ParseNat(n);
    }
  }

  /** A natural number's digits read back as that number. */
  lemma ParseNat(n: nat)
    ensures ParseInt(NatToString(n)) == Some(n)
  {
    var s := NatToString(n);
    DigitsOfNat(n);
    assert IsDigit(s[0]);
    assert AllDigits(s);
  }

  /** A minus sign and a positive number's digits read back as its negation. */
  lemma ParseNegative(n: nat)
    requires n > 0
    ensures ParseInt("-" + NatToString(n)) == Some(-(n as int))
  {
    var t := NatToString(n);
    var s := "-" + t;
    DigitsOfNat(n);
    assert s[0] == '-' && s[1..] == t;
    assert AllDigits(t);
  }

  /** Text that is not a signed number is refused. */
  lemma ParseIntRefuses(s: string)
    requires s == [] || (!IsDigit(s[0]) && s[0] != '+' && s[0] != '-')
    ensures ParseInt(s) == None
  {
  }

  // ------------------------------------------------------------- roll

  datatype RollKind = Attack | Save

  /** The four outcomes of a kind of roll: success, failure, critical success, critical failure. */
  datatype Verdicts = Verdicts(success: string, fail: string, critSuccess: string, critFail: string)

  function VerdictsOf(kind: RollKind): Verdicts {
    match kind
    case Attack => Verdicts("You Hit", "You Miss", "Critical Hit!", "Critical Miss!")
    case Save => Verdicts("You Save", "You Fail", "Critical Save!", "Critical Fail!")
  }

  /** The kind named by the lowered first word: `att` anywhere wins over `sav` anywhere. */
  function KindOf(rollType: string): Option<RollKind> {
    if Contains(rollType, "att") then Some(Attack)
    else if Contains(rollType, "sav") then Some(Save)
    else None
  }

  /** The verdict for a die, a modifier and a difficulty: 20 and 1 decide alone, otherwise the modified die against the difficulty. */
  function Verdict(v: Verdicts, die: int, modifier: int, difficulty: int): string {
    if die == 20 then v.critSuccess
    else if die == 1 then v.critFail
    else if die + modifier >= difficulty then v.success
    else v.fail
  }

  const ReadThePhb: string := "DM: Read The Freaking PHB"

  /** The one reply of `cmd_roll` to an argument, for the die cast. */
  function RollReply(argument: string, die: nat): string {
    var words := Words(argument);
    if |words| < 3 then ReadThePhb
    else
      var rollType := Lower(words[0]);
      match (ParseInt(words[1]), ParseInt(words[2]))
      case (Some(modifier), Some(difficulty)) =>
        (match KindOf(rollType)
         case None => "DM: You cannot " + rollType
         case Some(kind) => "You roll " + NatToString(die) + ". " + Verdict(VerdictsOf(kind), die, modifier, difficulty))
      case _ => ReadThePhb
  }

  /** A better modifier never turns a success into a failure, and criticals ignore the numbers. */
  lemma VerdictMonotone(kind: RollKind, die: int, modifier: int, better: int, difficulty: int)
    requires modifier <= better
    ensures var v := VerdictsOf(kind);
            && (Verdict(v, die, modifier, difficulty) == v.success ==> Verdict(v, die, better, difficulty) == v.success)
            && (die == 20 ==> Verdict(v, die, modifier, difficulty) == v.critSuccess)
            && (die == 1 ==> Verdict(v, die, modifier, difficulty) == v.critFail)
  {
  }

  /**
   * What the reply says: the PHB complaint without three words with two
   * numbers; the refusal naming the lowered type when it names neither an
   * attack nor a save; otherwise the die and the verdict, a success iff the
   * die is 20, or is not 1 and reaches the difficulty with the modifier.
   */
  lemma RollReplySpec(argument: string, die: nat)
    requires 1 <= die <= 20
    ensures var words := Words(argument);
            var r := RollReply(argument, die);
            && (|words| < 3 ==> r == ReadThePhb)
            && (|words| >= 3 && (ParseInt(words[1]).None? || ParseInt(words[2]).None?) ==> r == ReadThePhb)
            && (|words| >= 3 && ParseInt(words[1]).Some? && ParseInt(words[2]).Some? ==>
                  var rollType := Lower(words[0]);
                  var m := ParseInt(words[1]).value;
                  var d := ParseInt(words[2]).value;
                  && (KindOf(rollType).None? ==> r == "DM: You cannot " + rollType)
                  && (KindOf(rollType).Some? ==>
                        var v := VerdictsOf(KindOf(rollType).value);
                        && StartsWith(r, "You roll " + NatToString(die) + ". ")
                        && (EndsWith(r, v.success) || EndsWith(r, v.critSuccess) <==> die == 20 || (die != 1 && die + m >= d))))
  {
    var words := Words(argument);
    if |words| >= 3 && ParseInt(words[1]).Some? && ParseInt(words[2]).Some? {
      var rollType := Lower(words[0]);
      var m := ParseInt(words[1]).value;
      var d := ParseInt(words[2]).value;
      if KindOf(rollType).Some? {
        var kind := KindOf(rollType).value;
        var v := VerdictsOf(kind);
        var head := "You roll " + NatToString(die) + ". ";
        var verdict := Verdict(v, die, m, d);
        var r := head + verdict;
        assert r[..|head|] == head;
        VerdictEnds(kind, head, die, m, d);
      }
    }
  }

  /** The four verdict texts end differently, so the end of the reply tells the verdict. */
  lemma VerdictEnds(kind: RollKind, head: string, die: int, m: int, d: int)
    ensures var v := VerdictsOf(kind);
            var r := head + Verdict(v, die, m, d);
            EndsWith(r, v.success) || EndsWith(r, v.critSuccess) <==> die == 20 || (die != 1 && die + m >= d)
  {
    var v := VerdictsOf(kind);
    var verdict := Verdict(v, die, m, d);
    var r := head + verdict;
    assert r[|r| - |verdict|..] == verdict;
    match kind
    case Attack =>
      assert "You Miss"[4] == 'M' && "You Hit"[|"You Hit"| - 3] == 'H' && "Critical Miss!"[|"Critical Miss!"| - 1] == '!';
      assert "Critical Hit!"[|"Critical Hit!"| - 2] == 't';
      assert "Critical Miss!"[|"Critical Miss!"| - 2] == 's';
      assert "You Miss"[|"You Miss"| - 1] == 's';
    case Save =>
      assert "Critical Save!"[|"Critical Save!"| - 2] == 'e';
      assert "Critical Fail!"[|"Critical Fail!"| - 2] == 'l';
      assert "You Fail"[|"You Fail"| - 1] == 'l';
      assert "You Save"[|"You Save"| - 1] == 'e';
      assert "You Fail"[|"You Fail"| - 4] == 'F';
  }

  /** `att` is looked for first, so a type naming both is an attack. */
  lemma AttackBeforeSave()
    ensures KindOf("attsave") == Some(Attack)
    ensures KindOf("save") == Some(Save)
    ensures KindOf("dance") == None
  {
    assert "attsave"[..3] == "att";
    assert "save"[..3] == "sav";
    ContainsNeedsChar("save", "att", 1);
    ContainsNeedsChar("dance", "att", 1);
    ContainsNeedsChar("dance", "sav", 0);
  }

  /** A lowered word has no newline. */
  lemma LowerWordOneLine(w: string)
    requires NoSpace(w)
    ensures '\n' !in Lower(w)
  {
    forall i | 0 <= i < |w| ensures Lower(w)[i] != '\n' {
      assert !IsWordSpace(w[i]);
    }
  }

  lemma DigitsOneLine(n: nat)
    ensures '\n' !in NatToString(n)
  {
    var digits := NatToString(n);
    forall i | 0 <= i < |digits| ensures digits[i] != '\n' {
      assert IsDigit(digits[i]);
    }
  }

  /** No verdict text has a newline. */
  lemma VerdictOneLine(kind: RollKind, die: int, m: int, d: int)
    ensures '\n' !in Verdict(VerdictsOf(kind), die, m, d)
  {
    var v := VerdictsOf(kind);
    VerdictTextsOneLine(kind);
    assert Verdict(v, die, m, d) in {v.success, v.fail, v.critSuccess, v.critFail};
  }

  lemma VerdictTextsOneLine(kind: RollKind)
    ensures var v := VerdictsOf(kind);
            '\n' !in v.success && '\n' !in v.fail && '\n' !in v.critSuccess && '\n' !in v.critFail
  {
  }

  /** The reply naming the die has no newline. */
  lemma RolledOneLine(die: nat, verdict: string)
    requires '\n' !in verdict
    ensures '\n' !in "You roll " + NatToString(die) + ". " + verdict
  {
    DigitsOneLine(die);
  }

  /** The one reply has no newline, so the module sends exactly one message. */
  lemma RollReplyOneLine(argument: string, die: nat)
    ensures '\n' !in RollReply(argument, die) && RollReply(argument, die) != ""
  {
    var words := Words(argument);
    if |words| >= 3 {
      var rollType := Lower(words[0]);
      match (ParseInt(words[1]), ParseInt(words[2]))
      case (Some(m), Some(d)) => {
        match KindOf(rollType)
        case None =>
          LowerWordOneLine(words[0]);
          assert RollReply(argument, die) == "DM: You cannot " + rollType;
        case Some(kind) =>
          VerdictOneLine(kind, die, m, d);
          RolledOneLine(die, Verdict(VerdictsOf(kind), die, m, d));
      }
      case _ =>
    }
  }

  /** `cmd_roll`: one reply to the invoker's target. */
  method CmdRoll(conn: Connection, target: string, argument: string, die: nat)
    requires 1 <= die <= 20
    modifies conn
    ensures conn.sent == old(conn.sent) + [Message(target, RollReply(argument, die))]
  {
    var reply := RollReply(argument, die);
    RollReplyOneLine(argument, die);
    DeliveriesSingle(target, reply);
    Send(conn, target, reply);
  }
}
