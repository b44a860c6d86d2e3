/**
 * The module package (src/modules/__init__.py and the context classes of
 * src/modules/): which modules are active, in what order, and what each
 * kind of context does with a public or private line.
 *
 * Importing a module by name is an input: `importer(name)` says whether
 * the import failed and, if not, which of the `module` and
 * `alternatives_dict` attributes the module has.
 */
module Modules {
  import opened Text
  import opened Wrappers
  import opened BaseModule
  import opened Introspect
  import opened AltStore
  import Ignore
  import UrlParser

  /**
   * What a module's context class does with lines: the plain base context,
   * a command context, the ignore context, the URL parser's, or the update
   * context, which routes private commands but never claims public lines.
   */
  datatype Kind = Plain | Commands | Ignoring | UrlParsing | Updating

  /** A module class: the kind of its context and its source (file, docstring, attributes). */
  datatype ModuleClass = ModuleClass(kind: Kind, source: ModuleSource)

  /** The attribute names `getattr` finds on the context: hidden commands included. */
  function Handlers(m: ModuleClass): set<string> {
    set a | a in m.source.attrs :: a.name
  }

  /** `BaseModule.on_pubmsg`: a fresh context's `do_public`. */
  function OnPubmsg(m: ModuleClass, callsign: string, c: Context): Outcome {
    match m.kind
    case Plain => Unclaimed
    case Commands => Dispatched(RoutePublic(callsign, c.input, Handlers(m)))
    case Ignoring => Ignore.DoPublic(c)
    case UrlParsing => UrlParser.DoPublic(callsign, c, Handlers(m))
    case Updating => Unclaimed
  }

  /** `BaseModule.on_privmsg`: a fresh context's `do_private`. */
  function OnPrivmsg(m: ModuleClass, c: Context): Outcome {
    match m.kind
    case Plain => Unclaimed
    case Ignoring => Ignore.DoPrivate(c)
    case _ => Dispatched(RoutePrivate(c.input, Handlers(m)))
  }

  /** A routed command claims the line; no handler leaves it to the next module. */
  function Dispatched(r: Option<Invocation>): (o: Outcome)
    ensures o.Claimed? <==> r.Some?
    ensures o != Raised
  {
    match r
    case Some(call) => Claimed(Invoked(call))
    case None => Unclaimed
  }

  /**
   * What the chain may expect of each kind: the base context and the
   * update context's public side never claim; a command context claims
   * exactly what the router routes, and by calling that handler.
   */
  lemma OutcomeByKind(m: ModuleClass, callsign: string, c: Context)
    ensures m.kind == Plain ==> OnPubmsg(m, callsign, c) == Unclaimed && OnPrivmsg(m, c) == Unclaimed
    ensures m.kind == Updating ==> OnPubmsg(m, callsign, c) == Unclaimed
    ensures m.kind == Commands ==>
              (OnPubmsg(m, callsign, c).Claimed? <==> RoutePublic(callsign, c.input, Handlers(m)).Some?)
              && (OnPubmsg(m, callsign, c).Claimed? ==>
                    OnPubmsg(m, callsign, c) == Claimed(Invoked(RoutePublic(callsign, c.input, Handlers(m)).value)))
    ensures m.kind != Plain && m.kind != Ignoring ==>
              (OnPrivmsg(m, c).Claimed? <==> RoutePrivate(c.input, Handlers(m)).Some?)
    ensures m.kind != Ignoring ==> OnPubmsg(m, callsign, c) != Raised && OnPrivmsg(m, c) != Raised
  {
  }

  /** A context that is neither the base nor the ignore context routes its private lines. */
  lemma RoutedPrivately(m: ModuleClass, c: Context)
    requires m.kind != Plain && m.kind != Ignoring
    ensures OnPrivmsg(m, c) == Dispatched(RoutePrivate(c.input, Handlers(m)))
  {
  }

  // ------------------------------------------------------ activation

  /** The names of the modules to activate, in order. */
  const Active: seq<string> := ["ignore", "basiccmds", "update", "help", "fail", "weather", "urlparser", "dnd"]

  /** The result of importing a module by name. */
  datatype ImportResult =
    | ImportFailed
    | Imported(moduleClass: Option<ModuleClass>, alternatives: Option<Table>)

  /** The modules activated and the alternatives they bring. */
  datatype Activation = Activation(modules: seq<ModuleClass>, alternatives: Table)

  /** What one import contributes: a module class unless the import failed or has no `module`, and its table if it has one. */
  function Contribution(r: ImportResult): Activation {
    match r
    case ImportFailed => Activation([], map[])
    case Imported(None, _) => Activation([], map[])
    case Imported(Some(m), None) => Activation([m], map[])
    case Imported(Some(m), Some(t)) => Activation([m], t)
  }

  /** The modules and the combined alternatives `activate_modules` returns for a list of names. */
  function Activated(names: seq<string>, importer: string -> ImportResult): Activation
    decreases |names|
  {
    if names == [] then Activation([], map[])
    else
      var prev := Activated(names[..|names| - 1], importer);
      var c := Contribution(importer(names[|names| - 1]));
      Activation(prev.modules + c.modules, prev.alternatives + c.alternatives)
  }

  /** `activate_modules`: the import loop, skipping what fails. */
  method ActivateModules(importer: string -> ImportResult) returns (modules: seq<ModuleClass>, alternatives: Table)
    ensures Activation(modules, alternatives) == Activated(Active, importer)
  {
    modules := [];
    alternatives := map[];
    for i := 0 to |Active|
      invariant Activation(modules, alternatives) == Activated(Active[..i], importer)
    {
      assert Active[..i + 1][..i] == Active[..i];
      var r := importer(Active[i]);
      if r.Imported? && r.moduleClass.Some? {
        modules := modules + [r.moduleClass.value];
        if r.alternatives.Some? {
          alternatives := alternatives + r.alternatives.value;
        } else {
          assert alternatives + map[] == alternatives;
        }
      } else {
        assert modules + [] == modules && alternatives + map[] == alternatives;
      }
    }
    assert Active[..|Active|] == Active;
  }

  /**
   * Activation is a left-to-right pass: activating two lists of names one
   * after the other gives the modules of both in order, and the tables of
   * the second updating those of the first.
   */
  lemma ActivatedAppend(a: seq<string>, b: seq<string>, importer: string -> ImportResult)
    ensures Activated(a + b, importer).modules == Activated(a, importer).modules + Activated(b, importer).modules
    ensures Activated(a + b, importer).alternatives == Activated(a, importer).alternatives + Activated(b, importer).alternatives
  {
    AppendModules(a, b, importer);
    AppendAlternatives(a, b, importer);
  }

  /** The last name of a non-empty list contributes last. */
  lemma ActivatedSnoc(a: seq<string>, b: seq<string>, importer: string -> ImportResult)
    requires b != []
    ensures var c := Contribution(importer(b[|b| - 1]));
            var prev := Activated(a + b[..|b| - 1], importer);
            Activated(a + b, importer) == Activation(prev.modules + c.modules, prev.alternatives + c.alternatives)
  {
    assert (a + b)[..|a + b| - 1] == a + b[..|b| - 1];
    assert (a + b)[|a + b| - 1] == b[|b| - 1];
  }

  lemma {:induction false} AppendModules(a: seq<string>, b: seq<string>, importer: string -> ImportResult)
    ensures Activated(a + b, importer).modules == Activated(a, importer).modules + Activated(b, importer).modules
    decreases |b|
  {
    if b == [] {
      assert a + b == a;
    } else {
      var init := b[..|b| - 1];
      AppendModules(a, init, importer);
      ActivatedSnoc(a, b, importer);
      var c := Contribution(importer(b[|b| - 1]));
      var before := Activated(a, importer).modules;
      var middle := Activated(init, importer).modules;
      assert before + middle + c.modules == before + (middle + c.modules);
    }
  }

  lemma {:induction false} AppendAlternatives(a: seq<string>, b: seq<string>, importer: string -> ImportResult)
    ensures Activated(a + b, importer).alternatives == Activated(a, importer).alternatives + Activated(b, importer).alternatives
    decreases |b|
  {
    if b == [] {
      assert a + b == a;
    } else {
      var init := b[..|b| - 1];
      AppendAlternatives(a, init, importer);
      ActivatedSnoc(a, b, importer);
      var c := Contribution(importer(b[|b| - 1]));
      UpdateAssociative(Activated(a, importer).alternatives, Activated(init, importer).alternatives, c.alternatives);
    }
  }

  /** Two `dict.update`s in a row are one update by the combined table. */
  lemma UpdateAssociative(x: Table, y: Table, z: Table)
    ensures x + y + z == x + (y + z)
  {
  }

  /** What one name contributes on its own. */
  lemma ActivatedSingle(n: string, importer: string -> ImportResult)
    ensures Activated([n], importer) == Contribution(importer(n))
  {
    assert [n][..0] == [];
    var c := Contribution(importer(n));
    var noModules: seq<ModuleClass> := [];
    var noTable: Table := map[];
    assert noModules + c.modules == c.modules;
    assert noTable + c.alternatives == c.alternatives;
  }

  /**
   * A name that fails to import, or has no `module` attribute, is skipped
   * and the names after it are still activated; a module without
   * alternatives is still activated.
   */
  lemma SkippedNameChangesNothing(before: seq<string>, n: string, after: seq<string>, importer: string -> ImportResult)
    requires importer(n).ImportFailed? || (importer(n).Imported? && importer(n).moduleClass.None?)
    ensures Activated(before + [n] + after, importer) == Activated(before + after, importer)
  {
    SkippedName(before, n, importer);
    ActivatedAppend(before + [n], after, importer);
    ActivatedAppend(before, after, importer);
  }

  lemma SkippedName(before: seq<string>, n: string, importer: string -> ImportResult)
    requires importer(n).ImportFailed? || (importer(n).Imported? && importer(n).moduleClass.None?)
    ensures Activated(before + [n], importer) == Activated(before, importer)
  {
    assert (before + [n])[..|before|] == before;
    var prev := Activated(before, importer);
    assert prev.modules + [] == prev.modules;
    assert prev.alternatives + map[] == prev.alternatives;
  }

  /** A module with a `module` but no `alternatives_dict` is activated and adds no alternatives. */
  lemma ModuleWithoutAlternatives(before: seq<string>, n: string, importer: string -> ImportResult)
    requires importer(n).Imported? && importer(n).moduleClass.Some? && importer(n).alternatives.None?
    ensures Activated(before + [n], importer).modules == Activated(before, importer).modules + [importer(n).moduleClass.value]
    ensures Activated(before + [n], importer).alternatives == Activated(before, importer).alternatives
  {
    ActivatedAppend(before, [n], importer);
    ActivatedSingle(n, importer);
    assert Activated(before, importer).alternatives + map[] == Activated(before, importer).alternatives;
  }

  /** Tables are combined by `dict.update`: for a key of the last table, that table's list is kept whole, with no concatenation. */
  lemma LaterTableWins(before: seq<string>, n: string, importer: string -> ImportResult, k: string)
    requires importer(n).Imported? && importer(n).moduleClass.Some? && importer(n).alternatives.Some?
    requires k in importer(n).alternatives.value
    ensures k in Activated(before + [n], importer).alternatives
    ensures Activated(before + [n], importer).alternatives[k] == importer(n).alternatives.value[k]
  {
    ActivatedAppend(before, [n], importer);
    ActivatedSingle(n, importer);
  }

  /** Every activated module came from some name, and the modules never outnumber the names. */
  lemma {:induction false} ActivatedFromNames(names: seq<string>, importer: string -> ImportResult)
    ensures |Activated(names, importer).modules| <= |names|
    ensures forall m :: m in Activated(names, importer).modules ==>
              exists i :: 0 <= i < |names| && importer(names[i]).Imported?
                          && importer(names[i]).moduleClass == Some(m)
    decreases |names|
  {
    if names != [] {
      var init := names[..|names| - 1];
      ActivatedFromNames(init, importer);
      assert forall i :: 0 <= i < |init| ==> init[i] == names[i];
    }
  }

  // --------------------------------------------------------- fixtures

  /** The attributes of `BasicCommandsContext`: four of its seven commands are hidden from help. */
  const BasicCommands: ModuleSource := ModuleSource("modules.basiccmds",
    "Module for Basic Commands to the fidibot\n\nApart for holding a base set of commands for the bot, this module also\nserves as an example of how to build a module for fidibot.", [
    Attr("cmd_crash_private", true, "Crash the bot for testing purposes"),
    Attr("cmd_die_private", true, "Disconnect and exit"),
    Attr("cmd_disconnect_private", true, "Disconnect from server. Bot will try to reconnect"),
    Attr("cmd_echo", false, "Echo back the argument, either to the channel or the user\nthat sent us the command."),
    Attr("cmd_error_private", true, "Print the last lines of the error log"),
    Attr("cmd_say_private", false, "Say the argument to the list of channels the bot is in"),
    Attr("cmd_say_public", false, "Say the argument back to the channel the command was called")
  ])

  const BasicModule: ModuleClass := ModuleClass(Commands, BasicCommands)

  /** Every attribute's name is a handler. */
  lemma HandlerAt(m: ModuleClass, i: nat)
    requires i < |m.source.attrs|
    ensures m.source.attrs[i].name in Handlers(m)
  {
    assert m.source.attrs[i] in m.source.attrs;
  }

  /** A name no attribute carries is no handler. */
  lemma NotAHandler(m: ModuleClass, n: string)
    requires forall i :: 0 <= i < |m.source.attrs| ==> m.source.attrs[i].name != n
    ensures n !in Handlers(m)
  {
    var attrs := m.source.attrs;
    forall a | a in attrs
      ensures a.name != n
    {
      var i :| 0 <= i < |attrs| && attrs[i] == a;
    }
  }

  /** Hidden only means hidden from help: a private `die` still reaches `cmd_die_private`. */
  lemma HiddenStillRoutes(nick: string)
    ensures OnPrivmsg(BasicModule, Context(nick, "fidi", nick, "die")) == Claimed(Invoked(Invocation("cmd_die_private", "")))
  {
    assert RoutePrivate("die", Handlers(BasicModule)) == Some(Invocation("cmd_die_private", "")) by {
      DieResolves();
      assert Lower("die") == "die";
      RoutePrivateWord("die", Handlers(BasicModule));
    }
    RoutedPrivately(BasicModule, Context(nick, "fidi", nick, "die"));
  }

  lemma DieResolves()
    ensures Resolve(Handlers(BasicModule), "die", "_private") == Some("cmd_die_private")
  {
    HandlerAt(BasicModule, 1);
    DieName();
    ResolveSuffixed(Handlers(BasicModule), "die", "_private");
  }

  lemma DieName()
    ensures BasicCommands.attrs[1].name == HandlerName("die", "_private") == "cmd_die_private"
  {
  }

  lemma ResolveSuffixed(table: set<string>, command: string, suffix: string)
    requires HandlerName(command, suffix) in table
    ensures Resolve(table, command, suffix) == Some(HandlerName(command, suffix))
  {
  }

  /** `cmd_echo` has no private variant, so a private `echo` resolves to it. */
  lemma EchoResolves()
    ensures Resolve(Handlers(BasicModule), "echo", "_private") == Some("cmd_echo")
  {
    HandlerAt(BasicModule, 3);
    EchoNames();
    NoEchoPrivate();
    NotAHandler(BasicModule, HandlerName("echo", "_private"));
    ResolveFallback(Handlers(BasicModule), "echo", "_private");
  }

  lemma NoEchoPrivate()
    ensures forall i :: 0 <= i < |BasicCommands.attrs| ==> BasicCommands.attrs[i].name != HandlerName("echo", "_private")
  {
    var attrs := BasicCommands.attrs;
    EchoNames();
    forall i | 0 <= i < |attrs|
      ensures attrs[i].name != HandlerName("echo", "_private")
    {
      assert |attrs[i].name| != 16;
    }
  }

  lemma EchoNames()
    ensures BasicCommands.attrs[3].name == HandlerName("echo", "") == "cmd_echo"
    ensures |HandlerName("echo", "_private")| == 16
  {
  }

  lemma ResolveFallback(table: set<string>, command: string, suffix: string)
    requires HandlerName(command, suffix) !in table
    requires HandlerName(command, "") in table
    ensures Resolve(table, command, suffix) == Some(HandlerName(command, ""))
  {
  }

  /** A private `echo hi` falls back to the unsuffixed `cmd_echo`, argument verbatim. */
  lemma EchoRoutes(nick: string)
    ensures OnPrivmsg(BasicModule, Context(nick, "fidi", nick, "echo hi")) == Claimed(Invoked(Invocation("cmd_echo", "hi")))
  {
    assert RoutePrivate("echo hi", Handlers(BasicModule)) == Some(Invocation("cmd_echo", "hi")) by {
      EchoResolves();
      EchoWords();
      RoutePrivateLine("echo", "hi", Handlers(BasicModule));
    }
    RoutedPrivately(BasicModule, Context(nick, "fidi", nick, "echo hi"));
  }

  lemma EchoWords()
    ensures Lower("echo") == "echo" && "echo" + " " + "hi" == "echo hi"
  {
  }

  /** `cmd_say_public` has no private variant either. */
  lemma SayPublicResolves()
    ensures Resolve(Handlers(BasicModule), "say_public", "_private") == Some("cmd_say_public")
  {
    HandlerAt(BasicModule, 6);
    SayPublicNames();
    NoSayPublicPrivate();
    NotAHandler(BasicModule, HandlerName("say_public", "_private"));
    ResolveFallback(Handlers(BasicModule), "say_public", "_private");
  }

  lemma NoSayPublicPrivate()
    ensures forall i :: 0 <= i < |BasicCommands.attrs| ==> BasicCommands.attrs[i].name != HandlerName("say_public", "_private")
  {
    var attrs := BasicCommands.attrs;
    SayPublicNames();
    forall i | 0 <= i < |attrs|
      ensures attrs[i].name != HandlerName("say_public", "_private")
    {
      if i == 2 {
        assert attrs[2].name[4] == 'd';
      } else {
        assert |attrs[i].name| != 22;
      }
    }
  }

  lemma SayPublicNames()
    ensures BasicCommands.attrs[6].name == HandlerName("say_public", "") == "cmd_say_public"
    ensures var missing := HandlerName("say_public", "_private");
            |missing| == 22 && missing[4] == 's'
  {
  }

  /** A private `say_public hi` reaches `cmd_say_public` through the same fallback. */
  lemma SayPublicInPrivate(nick: string)
    ensures OnPrivmsg(BasicModule, Context(nick, "fidi", nick, "say_public hi"))
            == Claimed(Invoked(Invocation("cmd_say_public", "hi")))
  {
    assert RoutePrivate("say_public hi", Handlers(BasicModule)) == Some(Invocation("cmd_say_public", "hi")) by {
      SayPublicResolves();
      SayPublicWords();
      RoutePrivateLine("say_public", "hi", Handlers(BasicModule));
    }
    RoutedPrivately(BasicModule, Context(nick, "fidi", nick, "say_public hi"));
  }

  lemma SayPublicWords()
    ensures Lower("say_public") == "say_public" && "say_public" + " " + "hi" == "say_public hi"
  {
  }
}
