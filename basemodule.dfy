/**
 * The base context and module of the bot (src/modules/basemodule.py): the
 * per-event context, the command router that maps a chat line to a
 * `cmd_<name>[_public|_private]` handler, and the multi-line `send`.
 *
 * A context class's handlers are given as the set of its attribute names,
 * which is what `getattr(self, "cmd_" + command + ...)` consults.
 */
module BaseModule {
  import opened Text
  import opened Wrappers

  /** What a context reads from an IRC event: the sender's nick, the event target (a channel or the bot's own nick) and the line itself. */
  datatype Event = Event(nick: string, target: string, text: string)

  /** The per-event context; `target` is where replies go. */
  datatype Context = Context(nick: string, channel: string, target: string, input: string)

  /** `BaseContext.__init__`: a reply goes to the channel for a channel event and to the sender otherwise. */
  function MakeContext(e: Event): (c: Context)
    ensures c.nick == e.nick && c.channel == e.target && c.input == e.text
    ensures StartsWith(e.target, "#") ==> c.target == e.target
    ensures !StartsWith(e.target, "#") ==> c.target == e.nick
  {
    Context(e.nick, e.target, if StartsWith(e.target, "#") then e.target else e.nick, e.text)
  }

  /** A handler called with its argument. */
  datatype Invocation = Invocation(handler: string, argument: string)

  /** What a module did with an event it claimed. */
  datatype Claim =
    | Invoked(call: Invocation)     // a command handler was called once
    | Dropped                       // swallowed without a reply (the ignore module)
    | UrlReplies(urls: seq<string>) // one title reply per URL (the URL parser)

  /**
   * The value of a context's `do_public`/`do_private`: not claimed (the next
   * module is tried), claimed, or an exception that leaves the bot's handler.
   */
  datatype Outcome = Unclaimed | Claimed(claim: Claim) | Raised

  /** The method name a command resolves to. */
  function HandlerName(command: string, suffix: string): string {
    "cmd_" + command + suffix
  }

  /**
   * `getattr(self, "cmd_" + command + suffix, getattr(self, "cmd_" + command, None))`:
   * the suffixed handler when there is one, otherwise the unsuffixed one.
   */
  function Resolve(table: set<string>, command: string, suffix: string): (h: Option<string>)
    ensures h.Some? <==> HandlerName(command, suffix) in table || HandlerName(command, "") in table
    ensures h.Some? ==> h.value in table
    ensures h.Some? ==> h.value == HandlerName(command, suffix)
                        || (h.value == HandlerName(command, "") && HandlerName(command, suffix) !in table)
  {
    if HandlerName(command, suffix) in table then Some(HandlerName(command, suffix))
    else if HandlerName(command, "") in table then Some(HandlerName(command, ""))
    else None
  }

  /** The line up to its first space, which is the first piece of every `split(" ", n)`. */
  function Head(s: string): string {
    s[..FirstIndex(s, ' ')]
  }

  lemma HeadIsFirstPiece(s: string, n: int)
    requires n != 0
    ensures SplitN(s, ' ', n)[0] == Head(s)
  {
    assert s[..|s|] == s;
  }

  /**
   * `BaseCommandContext.do_public`'s decision: the first space-separated
   * token must contain the callsign once lower-cased, the second token
   * (lower-cased) is the command, the rest of the line is the argument.
   */
  function RoutePublic(callsign: string, input: string, table: set<string>): (r: Option<Invocation>)
    ensures r.Some? ==> r.value.handler in table && StartsWith(r.value.handler, "cmd_")
    ensures r.Some? ==> Contains(Lower(Head(input)), callsign)
    ensures r.Some? ==> EndsWith(input, r.value.argument)
  {
    var tokens := SplitN(input, ' ', 2);
    HeadIsFirstPiece(input, 2);
    if !Contains(Lower(tokens[0]), callsign) || |tokens| < 2 then None
    else
      var command := Lower(tokens[1]);
      var argument := if |tokens| > 2 then tokens[2] else "";
      if command == "" then None
      else
        match Resolve(table, command, "_public")
        case None => None
        case Some(h) =>
          assert EndsWith(input, argument) by { PublicArgumentIsSuffix(input); }
          Some(Invocation(h, argument))
  }

  lemma PublicArgumentIsSuffix(input: string)
    ensures var tokens := SplitN(input, ' ', 2);
            EndsWith(input, if |tokens| > 2 then tokens[2] else "")
  {
    var tokens := SplitN(input, ' ', 2);
    if |tokens| > 2 {
      var i := FirstIndex(input, ' ');
      var rest := input[i + 1..];
      assert tokens == [input[..i]] + SplitN(rest, ' ', 1);
      var j := FirstIndex(rest, ' ');
      assert SplitN(rest, ' ', 1) == [rest[..j]] + SplitN(rest[j + 1..], ' ', 0);
      assert tokens[2] == rest[j + 1..];
      assert input[|input| - |tokens[2]|..] == tokens[2];
    }
  }

  /**
   * `BaseCommandContext.do_private`'s decision: the lower-cased first
   * token is the command and the rest of the line, verbatim, the argument.
   */
  function RoutePrivate(input: string, table: set<string>): (r: Option<Invocation>)
    ensures r.Some? ==> r.value.handler in table && StartsWith(r.value.handler, "cmd_")
    ensures r.Some? ==> Head(input) != ""
    ensures r.Some? ==> EndsWith(input, r.value.argument)
  {
    var tokens := SplitN(input, ' ', 1);
    HeadIsFirstPiece(input, 1);
    var command := Lower(tokens[0]);
    var argument := if |tokens| > 1 then tokens[1] else "";
    if command == "" then None
    else
      match Resolve(table, command, "_private")
      case None => None
      case Some(h) =>
        assert EndsWith(input, argument) by {
          if |tokens| > 1 {
            var i := FirstIndex(input, ' ');
            assert input[|input| - |argument|..] == input[i + 1..];
          }
        }
        Some(Invocation(h, argument))
  }

  /** A resolved handler called with `argument`, or nothing. */
  function Call(h: Option<string>, argument: string): Option<Invocation> {
    match h
    case None => None
    case Some(name) => Some(Invocation(name, argument))
  }

  /**
   * A public line `<head> <command> <argument>` with a space-free head and a
   * non-empty space-free command: routed iff the lowered head contains the
   * callsign and the command resolves, with the argument kept verbatim.
   */
  lemma RoutePublicLine(callsign: string, head: string, command: string, argument: string, table: set<string>)
    requires ' ' !in head && ' ' !in command && command != ""
    ensures RoutePublic(callsign, head + " " + command + " " + argument, table)
         == if Contains(Lower(head), callsign)
            then Call(Resolve(table, Lower(command), "_public"), argument)
            else None
  {
    var line := head + " " + command + " " + argument;
    assert line == head + [' '] + (command + [' '] + argument);
    SplitNCons(head, ' ', command + [' '] + argument, 2);
    SplitNCons(command, ' ', argument, 1);
    assert SplitN(argument, ' ', 0) == [argument];
    assert SplitN(line, ' ', 2) == [head, command, argument];
  }

  /** The same line with no argument: the handler gets `''`. */
  lemma RoutePublicNoArgument(callsign: string, head: string, command: string, table: set<string>)
    requires ' ' !in head && ' ' !in command && command != ""
    ensures RoutePublic(callsign, head + " " + command, table)
         == if Contains(Lower(head), callsign)
            then Call(Resolve(table, Lower(command), "_public"), "")
            else None
  {
    var line := head + " " + command;
    assert line == head + [' '] + command;
    SplitNCons(head, ' ', command, 2);
    SplitNNoSep(command, ' ', 1);
    assert SplitN(line, ' ', 2) == [head, command];
  }

  /** A public line of one token is never routed, even when it is the callsign. */
  lemma RoutePublicNeedsCommand(callsign: string, head: string, table: set<string>)
    requires ' ' !in head
    ensures RoutePublic(callsign, head, table) == None
  {
    SplitNNoSep(head, ' ', 2);
  }

  /** Two spaces after the callsign make the command empty: not routed. */
  lemma RoutePublicDoubleSpace(callsign: string, head: string, rest: string, table: set<string>)
    requires ' ' !in head
    ensures RoutePublic(callsign, head + "  " + rest, table) == None
  {
    var line := head + "  " + rest;
    assert line == head + [' '] + ([] + [' '] + rest);
    SplitNCons(head, ' ', [] + [' '] + rest, 2);
    SplitNCons([], ' ', rest, 1);
  }

  /**
   * Every routed public line has that shape: a head containing the
   * callsign, a command whose `_public` or plain handler was found, and
   * the argument after them.
   */
  lemma RoutePublicShape(callsign: string, input: string, table: set<string>) returns (head: string, command: string)
    requires RoutePublic(callsign, input, table).Some?
    ensures ' ' !in head && ' ' !in command && command != ""
    ensures Contains(Lower(head), callsign)
    ensures var inv := RoutePublic(callsign, input, table).value;
            && Resolve(table, Lower(command), "_public") == Some(inv.handler)
            && (input == head + " " + command + " " + inv.argument
                || (input == head + " " + command && inv.argument == ""))
  {
    if ' ' !in input {
      RoutePublicNeedsCommand(callsign, input, table);
      assert false;
    }
    var rest;
    head, rest := CutAtSpace(input);
    if ' ' in rest {
      var argument;
      command, argument := CutAtSpace(rest);
      assert input == head + " " + command + " " + argument by {
        assert input == head + " " + (command + " " + argument);
      }
      if command == "" {
        assert input == head + "  " + argument;
        RoutePublicDoubleSpace(callsign, head, argument, table);
        assert false;
      }
      RoutePublicLine(callsign, head, command, argument, table);
    } else {
      command := rest;
      if command == "" {
        assert input == head + " ";
        RoutePublicTrailingSpace(callsign, head, table);
        assert false;
      }
      RoutePublicNoArgument(callsign, head, command, table);
    }
  }

  /** A line with a space, cut at its first one. */
  lemma CutAtSpace(s: string) returns (before: string, after: string)
    requires ' ' in s
    ensures ' ' !in before && s == before + " " + after
  {
    var i := FirstIndex(s, ' ');
    before, after := s[..i], s[i + 1..];
    assert s == s[..i] + [s[i]] + s[i + 1..];
  }

  /** A head followed by one space and nothing else has an empty command: not routed. */
  lemma RoutePublicTrailingSpace(callsign: string, head: string, table: set<string>)
    requires ' ' !in head
    ensures RoutePublic(callsign, head + " ", table) == None
  {
    assert head + " " == head + [' '] + [];
    SplitNCons(head, ' ', [], 2);
  }

  /**
   * A private line `<command> <argument>`: routed iff the lowered command
   * resolves, the argument kept verbatim (case included).
   */
  lemma RoutePrivateLine(command: string, argument: string, table: set<string>)
    requires ' ' !in command && command != ""
    ensures RoutePrivate(command + " " + argument, table)
         == Call(Resolve(table, Lower(command), "_private"), argument)
  {
    assert command + " " + argument == command + [' '] + argument;
    SplitNCons(command, ' ', argument, 1);
  }

  /** A private line of one word: the handler gets `''`. */
  lemma RoutePrivateWord(command: string, table: set<string>)
    requires ' ' !in command && command != ""
    ensures RoutePrivate(command, table) == Call(Resolve(table, Lower(command), "_private"), "")
  {
    SplitNNoSep(command, ' ', 1);
  }

  /** An empty line, or one starting with a space, has an empty command: not routed. */
  lemma RoutePrivateEmptyCommand(input: string, table: set<string>)
    requires input == "" || input[0] == ' '
    ensures RoutePrivate(input, table) == None
  {
  }

  /**
   * The fallback to the unsuffixed name also reaches a handler that carries
   * the other suffix: a private `<name>_public x` calls `cmd_<name>_public`
   * when there is no `cmd_<name>_public_private`.
   */
  lemma PrivateReachesPublicHandler(name: string, argument: string, table: set<string>)
    requires ' ' !in name && name != "" && Lower(name) == name
    requires HandlerName(name, "_public") in table && HandlerName(name + "_public", "_private") !in table
    ensures RoutePrivate(name + "_public " + argument, table)
         == Some(Invocation(HandlerName(name, "_public"), argument))
  {
    var command := name + "_public";
    assert name + "_public " + argument == command + " " + argument;
    RoutePrivateLine(command, argument, table);
    assert Lower(command) == command;
    assert HandlerName(command, "") == HandlerName(name, "_public");
  }

  // ----------------------------------------------------------------- send

  /** One PRIVMSG as the transport sends it. */
  datatype Message = Message(target: string, text: string)

  /** The IRC connection, reduced to the messages it has been asked to send. */
  class Connection {
    var sent: seq<Message>

    constructor()
      ensures sent == []
    {
      sent := [];
    }

    /** `connection.privmsg(target, text)`. */
    method Privmsg(target: string, text: string)
      modifies this
      ensures sent == old(sent) + [Message(target, text)]
    {
      sent := sent + [Message(target, text)];
    }
  }

  /** An empty line is sent as a single space. */
  function Line(piece: string): string {
    if piece == "" then " " else piece
  }

  /** The messages `send` produces for an already formatted output. */
  function Deliveries(target: string, output: string): (ms: seq<Message>)
    ensures |ms| == |Split(output, '\n')|
  {
    var pieces := Split(output, '\n');
    seq(|pieces|, i requires 0 <= i < |pieces| => Message(target, Line(pieces[i])))
  }

  /**
   * `BaseModule.send`: the output is cut at every newline and each line,
   * in order, is sent to the one target.
   */
  method Send(conn: Connection, target: string, output: string)
    modifies conn
    ensures conn.sent == old(conn.sent) + Deliveries(target, output)
  {
    var lines := Split(output, '\n');
    var ms := Deliveries(target, output);
    var i := 0;
    while i < |lines|
      invariant 0 <= i <= |lines|
      invariant conn.sent == old(conn.sent) + ms[..i]
    {
      var line := lines[i];
      if line == "" {
        line := " ";
      }
      conn.Privmsg(target, line);
      assert ms[..i + 1] == ms[..i] + [ms[i]];
      i := i + 1;
    }
    assert ms[..i] == ms;
  }

  /**
   * What `send` delivers: one message more than the output has newlines,
   * all to the one target, none of them empty, and read in order they are
   * the newline-free pieces that join back into the output.
   */
  lemma DeliveriesSpec(target: string, output: string)
    ensures var ms := Deliveries(target, output);
            var pieces := Split(output, '\n');
            && |ms| == Count(output, '\n') + 1
            && Join("\n", pieces) == output
            && (forall i :: 0 <= i < |pieces| ==> '\n' !in pieces[i])
            && (forall i :: 0 <= i < |ms| ==> ms[i].target == target && ms[i].text != "")
            && (forall i :: 0 <= i < |ms| ==> ms[i].text == (if pieces[i] == "" then " " else pieces[i]))
  {
    SplitLength(output, '\n');
    JoinSplit(output, '\n', -1);
    SplitPiecesFree(output, '\n');
  }

  /** A single line without newlines is delivered as exactly one message. */
  lemma DeliveriesSingle(target: string, text: string)
    requires '\n' !in text && text != ""
    ensures Deliveries(target, text) == [Message(target, text)]
  {
    SplitNNoSep(text, '\n', -1);
  }

  /** Two newline-free, non-empty lines joined by a newline are delivered as two messages, in order. */
  lemma DeliveriesPair(target: string, first: string, second: string)
    requires '\n' !in first && first != "" && '\n' !in second && second != ""
    ensures Deliveries(target, first + "\n" + second) == [Message(target, first), Message(target, second)]
  {
    SplitNCons(first, '\n', second, -1);
    SplitNNoSep(second, '\n', -2);
    assert first + "\n" + second == first + ['\n'] + second;
  }
}
