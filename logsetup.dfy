/**
 * Logging helpers (src/logsetup.py): stripping IRC formatting codes, the
 * three filters on the client logger, and the formatter that shortens
 * `FROM SERVER` lines.
 *
 * The mapping from numeric replies to names, which comes from the IRC
 * library, is a parameter.
 */
module LogSetup {
  import opened Text
  import opened Wrappers

  // ------------------------------------------------------- format codes

  /** Underline, bold, reverse, normal and italic: removed on their own. */
  predicate IsFormatCode(c: char) {
    c == '\U{001F}' || c == '\U{0002}' || c == '\U{0012}' || c == '\U{000F}' || c == '\U{0016}'
  }

  /** The colour code, removed with the colour numbers that follow it. */
  const ColorCode: char := '\U{0003}'

  /** Any of the six characters the pattern removes. */
  predicate IsControl(c: char) {
    IsFormatCode(c) || c == ColorCode
  }

  /** How many of the first `max` characters are leading digits (`\d{1,max}`, greedy). */
  function DigitRun(t: string, max: nat): (n: nat)
    ensures n <= max && n <= |t|
    ensures forall i :: 0 <= i < n ==> IsDigit(t[i])
    ensures n < max && n < |t| ==> !IsDigit(t[n])
    decreases max
  {
    if max == 0 || t == [] || !IsDigit(t[0]) then 0 else 1 + DigitRun(t[1..], max - 1)
  }

  /** The length of `(?:\d{1,2}(?:,\d{1,2})?)?` matched after a colour code. */
  function ColorArgLength(t: string): (n: nat)
    ensures n <= |t|
  {
    var d := DigitRun(t, 2);
    if d == 0 then 0
    else if d + 1 < |t| && t[d] == ',' && IsDigit(t[d + 1]) then d + 1 + DigitRun(t[d + 1..], 2)
    else d
  }

  /**
   * `strip_colors.sub("", s)`: one left-to-right scan removing each format
   * code, and each colour code with its colour numbers.
   */
  function StripColors(s: string): (r: string)
    ensures |r| <= |s|
    ensures forall i :: 0 <= i < |r| ==> !IsControl(r[i])
    decreases |s|
  {
    if s == [] then []
    else if IsFormatCode(s[0]) then StripColors(s[1..])
    else if s[0] == ColorCode then StripColors(s[1 + ColorArgLength(s[1..])..])
    else [s[0]] + StripColors(s[1..])
  }

  /** A string without control characters is left as it is. */
  lemma {:induction false} StripColorsClean(s: string)
    requires forall i :: 0 <= i < |s| ==> !IsControl(s[i])
    ensures StripColors(s) == s
    decreases |s|
  {
    if s != [] {
      StripColorsClean(s[1..]);
    }
  }

  /** Stripping twice is stripping once. */
  lemma StripColorsIdempotent(s: string)
    ensures StripColors(StripColors(s)) == StripColors(s)
  {
    StripColorsClean(StripColors(s));
  }

  /** A colour code takes one digit and, with no digit after it, leaves the comma. */
  lemma ColorCommaKept(d: char, rest: string)
    requires IsDigit(d) && (rest == [] || !IsDigit(rest[0]))
    ensures StripColors([ColorCode, d, ','] + rest) == [','] + StripColors(rest)
  {
    var s := [ColorCode, d, ','] + rest;
    var t := [d, ','] + rest;
    assert ColorArgLength(t) == 1 by {
      assert t[0] == d && t[1] == ',';
      assert t[1..] == [','] + rest;
      assert DigitRun(t[1..], 1) == 0;
      assert DigitRun(t, 2) == 1;
      assert |t| > 2 ==> t[2] == rest[0];
    }
    assert StripColors(s) == StripColors([','] + rest) by {
      assert s[1..] == t;
      assert s[2..] == [','] + rest;
    }
    assert ([','] + rest)[1..] == rest;
  }

  /** A colour code takes two digits at most: a third is text. */
  lemma ColorTwoDigits(d1: char, d2: char, d3: char, rest: string)
    requires IsDigit(d1) && IsDigit(d2) && IsDigit(d3)
    ensures StripColors([ColorCode, d1, d2, d3] + rest) == [d3] + StripColors(rest)
  {
    var s := [ColorCode, d1, d2, d3] + rest;
    var t := [d1, d2, d3] + rest;
    assert ColorArgLength(t) == 2 by {
      assert t[1..] == [d2, d3] + rest;
      assert ([d2, d3] + rest)[1..] == [d3] + rest;
      assert DigitRun(t, 2) == 2;
    }
    assert StripColors(s) == StripColors([d3] + rest) by {
      assert s[1..] == t;
      assert s[3..] == [d3] + rest;
    }
    assert ([d3] + rest)[1..] == rest;
  }

  /** A colour code with a foreground and a background takes both, with the comma between. */
  lemma ColorWithBackground(f: char, b: char, rest: string)
    requires IsDigit(f) && IsDigit(b) && (rest == [] || !IsDigit(rest[0]))
    ensures StripColors([ColorCode, f, ',', b] + rest) == StripColors(rest)
  {
    var s := [ColorCode, f, ',', b] + rest;
    var t := [f, ',', b] + rest;
    assert s[1..] == t && t[1..] == [',', b] + rest;
    assert DigitRun(t, 2) == 1;
    assert t[2..] == [b] + rest && ([b] + rest)[1..] == rest;
    assert DigitRun(t[2..], 2) == 1;
    assert ColorArgLength(t) == 3;
    assert s[4..] == rest;
  }

  // ------------------------------------------------------------ filters

  /** `LowLevelFilter`: drop dispatcher and command chatter, judged on the unformatted `msg`. */
  predicate LowLevelPasses(msg: string) {
    !Contains(msg, "_dispatcher") && !Contains(msg, "command:")
  }

  /** `PingPongFilter`: drop pings and pongs, judged on the formatted message. */
  predicate PingPongPasses(message: string) {
    !Contains(message, "PING") && !Contains(message, "PONG")
  }

  /** `PrivMsgFilter`: drop PRIVMSG traffic, handled elsewhere. */
  predicate PrivMsgPasses(message: string) {
    !Contains(message, "PRIVMSG")
  }

  // ------------------------------------------------------ server lines

  /** The message with every leading colon removed. */
  function DropColons(s: string): (r: string)
    ensures |r| <= |s| && r == s[|s| - |r|..]
    ensures r == [] || r[0] != ':'
    ensures forall i :: 0 <= i < |s| - |r| ==> s[i] == ':'
    decreases |s|
  {
    if s != [] && s[0] == ':' then DropColons(s[1..]) else s
  }

  /** The sender's nick from the prefix field: its first character dropped, cut at `!`, and `""` without a `!`. */
  function SourceNick(prefix: string): (r: string)
    ensures '!' !in r
    ensures r != "" ==> prefix != "" && StartsWith(prefix[1..], r + "!")
  {
    var src := if prefix == [] then [] else prefix[1..];
    if '!' in src then
      var i := FirstIndex(src, '!');
      assert src[..i + 1] == src[..i] + "!";
      src[..i]
    else []
  }

  /** The commands shown as a join, part or quit. */
  const Membership: seq<string> := ["JOIN", "PART", "QUIT"]

  /** The command after numeric mapping, cut to eleven characters. */
  function ShownCommand(command: string, numeric: map<string, string>): (r: string)
    ensures |r| <= 11
  {
    var named := if command in numeric then Upper(numeric[command]) else command;
    if |named| <= 11 then named else named[..11]
  }

  /** The parts of a `FROM SERVER` line: `None` when it has fewer than three fields (the formatter raises). */
  datatype ServerParts = ServerParts(source: string, command: string, target: string, message: string)

  function ServerFields(line: string, numeric: map<string, string>): Option<ServerParts> {
    var tokens := SplitN(line, ' ', 3);
    if |tokens| < 3 then None
    else
      var message := if |tokens| > 3 then DropColons(tokens[3]) else "";
      Some(ServerParts(SourceNick(tokens[0]), ShownCommand(tokens[1], numeric), tokens[2], StripColors(message)))
  }

  /** The shortened text for the parts of a server line. */
  function ServerText(p: ServerParts): string {
    if p.command in Membership then
      LJust(p.command, 11) + " " + p.source + " " + Lower(p.command) + "ed channel " + p.target + " " + p.message
    else if p.source != "" then LJust(p.command, 11) + " " + p.source + ": " + p.message
    else LJust(p.command, 11) + " " + p.message
  }

  /** What the formatter shows for a server line, if anything. */
  function ServerLine(line: string, numeric: map<string, string>): Option<string> {
    match ServerFields(line, numeric)
    case None => None
    case Some(p) => Some(ServerText(p))
  }

  /**
   * How a server line is taken apart: three fields at least; the source
   * is a nick only when the prefix has a `!`; the message has no leading
   * colon and no formatting; the command is at most eleven characters and
   * starts the text padded to eleven columns.
   */
  lemma ServerFieldsSpec(line: string, numeric: map<string, string>)
    ensures ServerFields(line, numeric).None? <==> Count(line, ' ') < 2
    ensures match ServerFields(line, numeric)
            case None => true
            case Some(p) =>
              && '!' !in p.source
              && |p.command| <= 11
              && ' ' !in p.target
              && (Count(line, ' ') == 2 ==> p.message == "")
              && (forall i :: 0 <= i < |p.message| ==> !IsControl(p.message[i]))
              && StartsWith(ServerText(p), LJust(p.command, 11) + " ")
  {
    SplitNLengthBounded(line, ' ', 3);
    SplitNHeadsFree(line, ' ', 3);
    match ServerFields(line, numeric)
    case None =>
    case Some(p) => ServerTextStarts(p);
  }

  /** Every shortened text starts with the command padded to eleven columns and a space. */
  lemma ServerTextStarts(p: ServerParts)
    ensures StartsWith(ServerText(p), LJust(p.command, 11) + " ")
  {
    var pad := LJust(p.command, 11) + " ";
    var text := ServerText(p);
    assert text[..|pad|] == pad by {
      if p.command in Membership {
        assert text == pad + (p.source + " " + Lower(p.command) + "ed channel " + p.target + " " + p.message);
      } else if p.source != "" {
        assert text == pad + (p.source + ": " + p.message);
      } else {
        assert text == pad + p.message;
      }
    }
  }

  /** Where the nick of a `nick!user@host` prefix ends. */
  lemma SourceNickOf(nick: string, host: string)
    requires '!' !in nick
    ensures SourceNick(":" + nick + "!" + host) == nick
  {
    var src := (":" + nick + "!" + host)[1..];
    assert src == nick + "!" + host;
    assert src[|nick|] == '!';
    assert forall j :: 0 <= j < |nick| ==> src[j] == nick[j];
    assert FirstIndex(src, '!') == |nick|;
    assert src[..|nick|] == nick;
  }

  /** Four space-free fields and a rest, as the formatter splits them. */
  lemma SplitFields(prefix: string, command: string, target: string, tail: string)
    requires ' ' !in prefix && ' ' !in command && ' ' !in target
    ensures SplitN(prefix + " " + command + " " + target + " " + tail, ' ', 3) == [prefix, command, target, tail]
  {
    Regroup(prefix, " ", command, " ", target, " ", tail);
    SplitNCons(prefix, ' ', command + [' '] + (target + [' '] + tail), 3);
    SplitNCons(command, ' ', target + [' '] + tail, 2);
    SplitNCons(target, ' ', tail, 1);
  }

  /** Seven pieces concatenated from the left are the same string grouped from the right. */
  lemma Regroup(a: string, b: string, c: string, d: string, e: string, f: string, g: string)
    ensures a + b + c + d + e + f + g == a + b + (c + d + (e + f + g))
  {
  }

  /** A `nick!user@host` prefix has no space when its parts have none. */
  lemma PrefixFree(nick: string, host: string)
    requires ' ' !in nick && ' ' !in host
    ensures ' ' !in ":" + nick + "!" + host
  {
    var prefix := ":" + nick + "!" + host;
    assert forall j :: 1 <= j <= |nick| ==> prefix[j] == nick[j - 1];
    assert forall j :: |nick| + 2 <= j < |prefix| ==> prefix[j] == host[j - |nick| - 2];
  }

  /** A line from a user with a message: split into its four fields and shown as `COMMAND     nick: text`. */
  lemma ServerLineFromUser(nick: string, host: string, command: string, target: string, text: string,
                           numeric: map<string, string>)
    requires nick != "" && ' ' !in nick && '!' !in nick && ' ' !in host && ' ' !in command && ' ' !in target
    requires command !in numeric && |command| <= 11 && command !in Membership
    requires text == [] || text[0] != ':'
    requires forall i :: 0 <= i < |text| ==> !IsControl(text[i])
    ensures ServerLine(":" + nick + "!" + host + " " + command + " " + target + " :" + text, numeric)
            == Some(LJust(command, 11) + " " + nick + ": " + text)
  {
    UserFields(nick, host, command, target, text, numeric);
    assert command !in Membership;
  }

  /** The fields of a line from a user with a message: its nick, its command, its target and its text. */
  lemma UserFields(nick: string, host: string, command: string, target: string, text: string,
                   numeric: map<string, string>)
    requires ' ' !in nick && '!' !in nick && ' ' !in host && ' ' !in command && ' ' !in target
    requires command !in numeric && |command| <= 11
    requires text == [] || text[0] != ':'
    requires forall i :: 0 <= i < |text| ==> !IsControl(text[i])
    ensures ServerFields(":" + nick + "!" + host + " " + command + " " + target + " :" + text, numeric)
            == Some(ServerParts(nick, command, target, text))
  {
    var prefix := ":" + nick + "!" + host;
    var tail := ":" + text;
    PrefixFree(nick, host);
    SplitFields(prefix, command, target, tail);
    UserLineShape(prefix, command, target, text);
    assert tail[1..] == text;
    assert DropColons(tail) == text;
    StripColorsClean(text);
    SourceNickOf(nick, host);
    assert ShownCommand(command, numeric) == command;
  }

  /** The message field written with its colon is the colon written before the message. */
  lemma UserLineShape(prefix: string, command: string, target: string, text: string)
    ensures prefix + " " + command + " " + target + " " + (":" + text) == prefix + " " + command + " " + target + " :" + text
  {
    assert " " + (":" + text) == " :" + text;
  }

  /** A join from a user, which carries no message field, is shown as `JOIN        nick joined channel #chan `. */
  lemma ServerLineJoin(nick: string, host: string, target: string, numeric: map<string, string>)
    requires ' ' !in nick && '!' !in nick && ' ' !in host && ' ' !in target && "JOIN" !in numeric
    ensures ServerLine(":" + nick + "!" + host + " JOIN " + target, numeric)
            == Some("JOIN        " + nick + " joined channel " + target + " ")
  {
    var prefix := ":" + nick + "!" + host;
    PrefixFree(nick, host);
    var line := prefix + [' '] + ("JOIN" + [' '] + target);
    assert line == ":" + nick + "!" + host + " JOIN " + target;
    SplitNCons(prefix, ' ', "JOIN" + [' '] + target, 3);
    SplitNCons("JOIN", ' ', target, 2);
    SplitNNoSep(target, ' ', 1);
    SourceNickOf(nick, host);
    assert ShownCommand("JOIN", numeric) == "JOIN";
    assert SplitN(line, ' ', 3) == [prefix, "JOIN", target];
    JoinText(nick, target);
  }

  /** The text of a join without a message. */
  lemma JoinText(nick: string, target: string)
    ensures ServerText(ServerParts(nick, "JOIN", target, "")) == "JOIN        " + nick + " joined channel " + target + " "
  {
    assert "JOIN" in Membership by { assert Membership[0] == "JOIN"; }
    JoinPieces();
    var pad := LJust("JOIN", 11) + " ";
    var verb := " " + Lower("JOIN") + "ed channel ";
    assert ServerText(ServerParts(nick, "JOIN", target, "")) == pad + nick + verb + target + " ";
  }

  /** The fixed pieces of a join's text. */
  lemma JoinPieces()
    ensures LJust("JOIN", 11) + " " == "JOIN        "
    ensures " " + Lower("JOIN") + "ed channel " == " joined channel "
  {
    assert LJust("JOIN", 11) == "JOIN       ";
    assert Lower("JOIN") == "join";
  }

  /**
   * The formatter's text for a record: a `FROM SERVER` record is shortened
   * (an exception, `None`, when its line has fewer than three fields or the
   * record also says `TO SERVER`), a `TO SERVER` record is shown after an
   * arrow, and any other record as it is.
   */
  function Formatted(message: string, args: seq<string>, numeric: map<string, string>): Option<string> {
    var from := Contains(message, "FROM SERVER");
    var to := Contains(message, "TO SERVER");
    if from then
      if args == [] then None
      else match ServerLine(args[0], numeric)
        case None => None
        case Some(text) => if to then None else Some("CLIENT   " + text)
    else if to then
      if args == [] then Some("CLIENT   ---->  %s")
      else if |args| == 1 then Some("CLIENT   ---->  " + args[0])
      else None
    else Some("CLIENT   " + message)
  }

  /**
   * What the handler prints: always after `CLIENT   `; nothing when a
   * record says both `FROM SERVER` and `TO SERVER`; an ordinary record as it
   * is; a server line exactly when it has three fields.
   */
  lemma FormattedSpec(message: string, args: seq<string>, numeric: map<string, string>)
    ensures var r := Formatted(message, args, numeric);
            && (r.Some? ==> StartsWith(r.value, "CLIENT   "))
            && (Contains(message, "FROM SERVER") && Contains(message, "TO SERVER") ==> r.None?)
            && (!Contains(message, "FROM SERVER") && !Contains(message, "TO SERVER") ==> r == Some("CLIENT   " + message))
            && (Contains(message, "FROM SERVER") && !Contains(message, "TO SERVER") && args != [] ==>
                  (r.Some? <==> Count(args[0], ' ') >= 2))
  {
    if args != [] {
      ServerFieldsSpec(args[0], numeric);
    }
  }

  // ------------------------------------------------------ client logger

  /** What becomes of a record on the `irc.client` logger: a filter drops it, the handler prints it, or the formatter raises. */
  datatype ClientRecord = Dropped | Printed(text: string) | Raises

  /**
   * The `irc.client` logger: its three filters judge the record (on its `msg`
   * and on its message, `msg % args`), and only then does the handler's
   * formatter run.
   */
  function ClientOutput(msg: string, message: string, args: seq<string>, numeric: map<string, string>): ClientRecord {
    if !(LowLevelPasses(msg) && PingPongPasses(message) && PrivMsgPasses(message)) then Dropped
    else match Formatted(message, args, numeric)
      case None => Raises
      case Some(text) => Printed(text)
  }

  /** A record of a server line with a `PRIVMSG`, `PING` or `PONG` field never reaches the formatter. */
  lemma ServerTrafficDropped(msg: string, message: string, args: seq<string>, numeric: map<string, string>, k: nat)
    requires args != [] && Contains(message, args[0])
    requires k < |SplitN(args[0], ' ', 3)| && SplitN(args[0], ' ', 3)[k] in ["PRIVMSG", "PING", "PONG"]
    ensures ClientOutput(msg, message, args, numeric) == Dropped
  {
    var field := SplitN(args[0], ' ', 3)[k];
    SplitNPieceContained(args[0], ' ', 3, k);
    ContainsTrans(message, args[0], field);
  }

  /** A `FROM SERVER` record of a line with three fields that passes the filters is printed as the line's short form. */
  lemma FromServerPrinted(msg: string, line: string, numeric: map<string, string>)
    requires Count(line, ' ') >= 2
    requires LowLevelPasses(msg)
    requires var message := "FROM SERVER: " + line;
             !Contains(message, "PING") && !Contains(message, "PONG") && !Contains(message, "PRIVMSG")
             && !Contains(message, "TO SERVER")
    ensures ServerLine(line, numeric).Some?
    ensures ClientOutput(msg, "FROM SERVER: " + line, [line], numeric) == Printed("CLIENT   " + ServerLine(line, numeric).value)
  {
    ServerFieldsSpec(line, numeric);
    FromServerMarked(line);
    PassedIsFormatted(msg, "FROM SERVER: " + line, [line], numeric);
  }

  /** The record of a received line says `FROM SERVER`. */
  lemma FromServerMarked(line: string)
    ensures Contains("FROM SERVER: " + line, "FROM SERVER")
  {
    var message := "FROM SERVER: " + line;
    assert message[0..11] == "FROM SERVER";
    ContainsAt(message, "FROM SERVER", 0);
  }

  /** A record that passes the filters gets the formatter's text, or raises with it. */
  lemma PassedIsFormatted(msg: string, message: string, args: seq<string>, numeric: map<string, string>)
    requires LowLevelPasses(msg) && PingPongPasses(message) && PrivMsgPasses(message)
    ensures Formatted(message, args, numeric).Some? ==> ClientOutput(msg, message, args, numeric) == Printed(Formatted(message, args, numeric).value)
    ensures Formatted(message, args, numeric).None? ==> ClientOutput(msg, message, args, numeric) == Raises
  {
  }

  /** The decomposition `ServerMsgFormatter.format` performs, with its colon-stripping loop. */
  method DecomposeServerLine(line: string, numeric: map<string, string>) returns (r: Option<string>)
    ensures r == ServerLine(line, numeric)
  {
    var tokens := SplitN(line, ' ', 3);
    if |tokens| < 3 {
      return None;
    }
    var source := SourceNick(tokens[0]);
    var command := tokens[1];
    var target := tokens[2];
    var message := "";
    if |tokens| > 3 {
      message := tokens[3];
      while message != [] && message[0] == ':'
        invariant DropColons(message) == DropColons(tokens[3])
        decreases |message|
      {
        message := message[1..];
      }
    }
    message := StripColors(message);
    command := ShownCommand(command, numeric);
    var p := ServerParts(source, command, target, message);
    r := Some(ServerText(p));
  }

  /** `ServerMsgFormatter.format` followed by the handler's `CLIENT   %(message)s` layout. */
  method FormatRecord(message: string, args: seq<string>, numeric: map<string, string>) returns (out: Option<string>)
    ensures out == Formatted(message, args, numeric)
  {
    var from := Contains(message, "FROM SERVER");
    var to := Contains(message, "TO SERVER");
    if from {
      if args == [] {
        return None;
      }
      var text := DecomposeServerLine(args[0], numeric);
      if text.None? || to {
        return None;
      }
      return Some("CLIENT   " + text.value);
    }
    if to {
      if args == [] {
        return Some("CLIENT   ---->  %s");
      } else if |args| == 1 {
        return Some("CLIENT   ---->  " + args[0]);
      }
      return None;
    }
    out := Some("CLIENT   " + message);
  }
}
