/**
 * The bot (src/fidibot.py): the channel it joins, the order in which it
 * assembles modules, alternatives and the help index at startup, the chain
 * that offers every message to the modules in turn, the bot's own replies
 * to what no module claims, and the small state machines of keepalive
 * pings, nickname collisions and the memory of who kicked it.
 *
 * Messages go to a `Connection`; every other request to the IRC library
 * (join, nick, ping, disconnect, a delayed call) is recorded in order as an
 * `Action`. Module imports, the alternatives read from files, the clock and
 * whether the server is connected are inputs.
 */
module Bot {
  import opened Text
  import opened Wrappers
  import opened BaseModule
  import opened Introspect
  import opened AltStore
  import opened Tools
  import opened Modules

  // ------------------------------------------------------------ channel

  /** `__init__`'s channel: `#` is put in front unless it is there already; `channel[0]` of an empty name raises (`None`). */
  function NormalizeChannel(channel: string): (r: Option<string>)
    ensures r.None? <==> channel == ""
    ensures r.Some? ==> StartsWith(r.value, "#")
    ensures StartsWith(channel, "#") ==> r == Some(channel)
    ensures channel != "" && !StartsWith(channel, "#") ==> r == Some("#" + channel)
  {
    if channel == "" then None
    else if channel[0] != '#' then Some("#" + channel)
    else Some(channel)
  }

  /** A normalised channel is normalised already. */
  lemma NormalizeChannelIdempotent(channel: string)
    requires channel != ""
    ensures NormalizeChannel(NormalizeChannel(channel).value) == NormalizeChannel(channel)
  {
  }

  // -------------------------------------------------------------- chain

  /** How far an event got along the module chain. */
  datatype Chain =
    | Unhandled                           // every module returned False
    | HandledBy(index: nat, claim: Claim) // the first module to return True
    | RaisedBy(index: nat)                // a module raised; nothing after it runs

  /** First claim wins: the chain stops at the first module that claims the event or raises. */
  function ChainOf(outs: seq<Outcome>): (r: Chain)
    ensures r == Unhandled <==> forall j :: 0 <= j < |outs| ==> outs[j] == Unclaimed
    ensures r.HandledBy? ==> r.index < |outs| && outs[r.index] == Claimed(r.claim)
    ensures r.RaisedBy? ==> r.index < |outs| && outs[r.index] == Raised
    ensures !r.Unhandled? ==> forall j :: 0 <= j < r.index ==> outs[j] == Unclaimed
    decreases |outs|
  {
    if outs == [] then Unhandled
    else
      match outs[0]
      case Claimed(claim) => HandledBy(0, claim)
      case Raised => RaisedBy(0)
      case Unclaimed =>
        var rest := ChainOf(outs[1..]);
        assert forall j :: 0 <= j < |outs| - 1 ==> outs[1..][j] == outs[j + 1];
        match rest
        case Unhandled => Unhandled
        case HandledBy(i, claim) => HandledBy(i + 1, claim)
        case RaisedBy(i) => RaisedBy(i + 1)
  }

  /** The chain's verdict is fixed by the first outcome that is not `Unclaimed`. */
  lemma ChainStopsAt(outs: seq<Outcome>, i: nat)
    requires i < |outs| && outs[i] != Unclaimed
    requires forall j :: 0 <= j < i ==> outs[j] == Unclaimed
    ensures outs[i].Raised? ==> ChainOf(outs) == RaisedBy(i)
    ensures outs[i].Claimed? ==> ChainOf(outs) == HandledBy(i, outs[i].claim)
  {
    var r := ChainOf(outs);
    assert !r.Unhandled?;
    assert r.index == i;
  }

  /** Outcomes after the stopping point play no part: modules later in the list are never consulted. */
  lemma ChainIgnoresLater(outs: seq<Outcome>, later: seq<Outcome>)
    requires !ChainOf(outs).Unhandled?
    ensures ChainOf(outs + later) == ChainOf(outs)
  {
    var r := ChainOf(outs);
    var all := outs + later;
    assert forall j :: 0 <= j < |outs| ==> all[j] == outs[j];
    ChainStopsAt(all, r.index);
  }

  /** How many modules were offered the event: up to the one that claimed it or raised, or all of them. */
  function Offered(chain: Chain, count: nat): nat {
    match chain
    case Unhandled => count
    case HandledBy(i, _) => i + 1
    case RaisedBy(i) => i + 1
  }

  /** What each module, in order, does with a private message. */
  function PrivateOutcomes(modules: seq<ModuleClass>, e: Event): seq<Outcome> {
    seq(|modules|, i requires 0 <= i < |modules| => Modules.OnPrivmsg(modules[i], MakeContext(e)))
  }

  /** What each module, in order, does with a public message. */
  function PublicOutcomes(modules: seq<ModuleClass>, callsign: string, e: Event): seq<Outcome> {
    seq(|modules|, i requires 0 <= i < |modules| => Modules.OnPubmsg(modules[i], callsign, MakeContext(e)))
  }

  // ------------------------------------------------------------ replies

  /** A reply the bot asks `_()` for: where it goes, the format string, and what `%` puts into it, if anything. */
  datatype Reply = Reply(target: string, fmt: string, arg: Option<string>)

  const CallByName: string := "You don't have to call me by name in private"
  const DontUnderstand: string := "I don't understand %s"
  const Duh: string := "Someone talking about me? Duh!"
  const WelcomeFmt: string := "Welcome %s"
  const WhyKick: string := "Why did you kick me, %s?"

  /**
   * `fmt % arg` for one string argument: the one `%s` is replaced; a
   * format with no conversion raises `TypeError` and one with a second or
   * another `%` is not modelled (`None` for both).
   */
  function Interpolate(fmt: string, arg: string): Option<string> {
    var i := FirstIndex(fmt, '%');
    if i + 1 < |fmt| && fmt[i + 1] == 's' && '%' !in fmt[i + 2..] then Some(fmt[..i] + arg + fmt[i + 2..])
    else None
  }

  /** One `%s` between text free of `%` is replaced by the argument, verbatim. */
  lemma InterpolateSpec(pre: string, post: string, arg: string)
    requires '%' !in pre && '%' !in post
    ensures Interpolate(pre + "%s" + post, arg) == Some(pre + arg + post)
  {
    var fmt := pre + "%s" + post;
    var i := FirstIndex(fmt, '%');
    assert fmt[|pre|] == '%';
    assert forall j :: 0 <= j < |pre| ==> fmt[j] == pre[j];
    assert i == |pre|;
    assert fmt[i + 2..] == post;
    assert fmt[..i] == pre;
  }

  /** A format without any `%` cannot take an argument. */
  lemma InterpolateRefuses(fmt: string, arg: string)
    requires '%' !in fmt
    ensures Interpolate(fmt, arg) == None
  {
  }

  /** The text a format string gives: itself when `%` is not applied. */
  function Rendered(alt: string, arg: Option<string>): Option<string> {
    match arg
    case None => Some(alt)
    case Some(a) => Interpolate(alt, a)
  }

  /** The format strings `_()` may return: the alternatives on record, or the string itself when it has none. */
  function Choices(table: Table, fmt: string): seq<string> {
    if fmt in table then table[fmt] else [fmt]
  }

  /** `text` is one of the texts `_(fmt) % arg` can produce. */
  predicate Renders(table: Table, r: Reply, text: string) {
    exists alt :: alt in Choices(table, r.fmt) && Rendered(alt, r.arg) == Some(text)
  }

  /** `_(fmt) % arg` can raise: no alternative to choose from, or a chosen one that does not format. */
  predicate MayFail(table: Table, r: Reply) {
    Choices(table, r.fmt) == [] || exists alt :: alt in Choices(table, r.fmt) && Rendered(alt, r.arg).None?
  }

  /** One reply sent with a possible text, or nothing sent because the reply raised. */
  ghost predicate Said(before: seq<Message>, after: seq<Message>, table: Table, r: Reply) {
    || (exists text :: Renders(table, r, text) && after == before + [Message(r.target, text)])
    || (after == before && MayFail(table, r))
  }

  /** A format string without alternatives on record is sent as written, formatted. */
  lemma RendersUnlisted(table: Table, r: Reply, text: string)
    requires r.fmt !in table
    ensures Renders(table, r, text) <==> Rendered(r.fmt, r.arg) == Some(text)
  {
    assert Choices(table, r.fmt) == [r.fmt];
  }

  /** A format ending in its one `%s`: the argument goes at the end. */
  lemma InterpolateAtEnd(pre: string, arg: string)
    requires '%' !in pre
    ensures Interpolate(pre + "%s", arg) == Some(pre + arg)
  {
    InterpolateSpec(pre, "", arg);
    assert pre + "%s" + "" == pre + "%s";
    assert pre + arg + "" == pre + arg;
  }

  /** The built-in table's greetings. */
  lemma WelcomeChoices()
    ensures Choices(InitialTable, WelcomeFmt) == ["Welcome %s", "Hello %s", "How YA doing %s"]
  {
  }

  /** Each built-in greeting formats to its own text. */
  lemma WelcomeTexts(nick: string)
    ensures var alts := Choices(InitialTable, WelcomeFmt);
            var texts := ["Welcome " + nick, "Hello " + nick, "How YA doing " + nick];
            |alts| == 3 && forall k :: 0 <= k < 3 ==> Rendered(alts[k], Some(nick)) == Some(texts[k])
  {
    var alts := Choices(InitialTable, WelcomeFmt);
    var texts := ["Welcome " + nick, "Hello " + nick, "How YA doing " + nick];
    var pre := ["Welcome ", "Hello ", "How YA doing "];
    WelcomeChoices();
    assert alts[0] == pre[0] + "%s" && alts[1] == pre[1] + "%s" && alts[2] == pre[2] + "%s";
    forall k | 0 <= k < 3
      ensures Rendered(alts[k], Some(nick)) == Some(texts[k])
    {
      assert '%' !in pre[k];
      InterpolateAtEnd(pre[k], nick);
    }
  }

  /** Three alternatives, each formatting to its own text: those texts are exactly what can be sent. */
  lemma RendersOneOfThree(alts: seq<string>, arg: Option<string>, texts: seq<string>, text: string)
    requires |alts| == 3 && |texts| == 3
    requires forall k :: 0 <= k < 3 ==> Rendered(alts[k], arg) == Some(texts[k])
    ensures (exists alt :: alt in alts && Rendered(alt, arg) == Some(text)) <==> text in texts
  {
    if text in texts {
      var k :| 0 <= k < 3 && texts[k] == text;
      assert alts[k] in alts;
    }
  }

  /** With the built-in table, a newcomer is greeted in one of three ways, the nick put in verbatim. */
  lemma WelcomeVariants(nick: string, target: string, text: string)
    ensures Renders(InitialTable, Reply(target, WelcomeFmt, Some(nick)), text)
            <==> text in ["Welcome " + nick, "Hello " + nick, "How YA doing " + nick]
  {
    WelcomeTexts(nick);
    RendersOneOfThree(Choices(InitialTable, WelcomeFmt), Some(nick),
                      ["Welcome " + nick, "Hello " + nick, "How YA doing " + nick], text);
  }

  // ---------------------------------------------------------- fallbacks

  /**
   * The reply to a private message no module claims, always to the
   * sender: a hint when the IRC-lowered first token mentions the callsign,
   * otherwise that the lowered token is not understood.
   */
  function PrivateFallback(callsign: string, e: Event): (r: Reply)
    ensures r.target == e.nick
    ensures Contains(IrcLower(Head(e.text)), callsign) ==> r == Reply(e.nick, CallByName, None)
    ensures !Contains(IrcLower(Head(e.text)), callsign) ==> r == Reply(e.nick, DontUnderstand, Some(IrcLower(Head(e.text))))
  {
    HeadIsFirstPiece(e.text, 1);
    var command := IrcLower(SplitN(e.text, ' ', 1)[0]);
    if Contains(command, callsign) then Reply(e.nick, CallByName, None)
    else Reply(e.nick, DontUnderstand, Some(command))
  }

  /** Worth the public fallback's attention: not from a GitHub bot, and the IRC-lowered line mentions the callsign. */
  predicate MentionsMe(callsign: string, e: Event) {
    !Contains(Lower(e.nick), "github") && Contains(IrcLower(e.text), callsign)
  }

  /** The reply to a public message no module claims, given whether the duh throttle holds the sender. */
  function PublicFallback(callsign: string, e: Event, throttled: bool): (r: Option<Reply>)
    ensures r.Some? <==> MentionsMe(callsign, e) && !throttled
    ensures r.Some? ==> r.value == Reply(e.target, Duh, None)
  {
    if Contains(Lower(e.nick), "github") then None
    else if Contains(IrcLower(e.text), callsign) && !throttled then Some(Reply(e.target, Duh, None))
    else None
  }

  /** "Someone talking about me?" is never sent in reply to a nick that holds `github` in any case. */
  lemma GithubNeverAnswered(callsign: string, nick: string, text: string, target: string, throttled: bool)
    requires Contains(Lower(nick), "github")
    ensures PublicFallback(callsign, Event(nick, target, text), throttled) == None
  {
  }

  // --------------------------------------------------------------- join

  /** `on_join` pays no attention to GitHub bots. */
  predicate IsGithub(nick: string) {
    Contains(Lower(nick), "github")
  }

  /** The join throttle is asked about someone else joining, and only then. */
  predicate AsksJoinThrottle(me: string, nick: string) {
    !IsGithub(nick) && nick != me
  }

  /**
   * What the bot says when `nick` joins: a welcome for someone else unless
   * the join throttle holds them; on its own join, the question to whoever
   * kicked it last, if anyone did.
   */
  function JoinReply(me: string, kicker: string, nick: string, target: string, throttled: bool): (r: Option<Reply>)
    ensures IsGithub(nick) ==> r == None
    ensures AsksJoinThrottle(me, nick) ==> (r.Some? <==> !throttled)
    ensures AsksJoinThrottle(me, nick) && r.Some? ==> r.value == Reply(target, WelcomeFmt, Some(nick))
    ensures !IsGithub(nick) && nick == me ==> (r.Some? <==> kicker != "")
    ensures !IsGithub(nick) && nick == me && r.Some? ==> r.value == Reply(target, WhyKick, Some(kicker))
  {
    if IsGithub(nick) then None
    else if nick != me then (if throttled then None else Some(Reply(target, WelcomeFmt, Some(nick))))
    else if kicker != "" then Some(Reply(target, WhyKick, Some(kicker)))
    else None
  }

  /** The kicker remembered after a join: forgotten once the bot itself is back. */
  function KickerAfterJoin(me: string, kicker: string, nick: string): string {
    if !IsGithub(nick) && nick == me then "" else kicker
  }

  /** The kicker remembered after a kick: the kicker's nick when the bot was the one kicked. */
  function KickerAfterKick(me: string, kicker: string, source: string, kicked: string): string {
    if kicked == me then source else kicker
  }

  /**
   * Kicked, the bot asks its kicker why exactly once: on its next own join,
   * and not on the join after that.
   */
  lemma KickAskedOnce(me: string, before: string, kicker: string, target: string, throttled: bool)
    requires kicker != "" && !IsGithub(me)
    ensures var remembered := KickerAfterKick(me, before, kicker, me);
            && JoinReply(me, remembered, me, target, throttled) == Some(Reply(target, WhyKick, Some(kicker)))
            && KickerAfterJoin(me, remembered, me) == ""
            && JoinReply(me, KickerAfterJoin(me, remembered, me), me, target, throttled) == None
  {
  }

  /** Someone else being kicked leaves the memory alone. */
  lemma OtherKickForgotten(me: string, before: string, source: string, kicked: string)
    requires kicked != me
    ensures KickerAfterKick(me, before, source, kicked) == before
  {
  }

  // ------------------------------------------------------------- notice

  /** The identify request to NickServ, sent only when NickServ asks and a password is set. */
  function NoticeReply(source: string, text: string, password: string): (r: Option<Message>)
    ensures r.Some? <==> source == "NickServ" && Contains(text, "NickServ identify") && password != ""
    ensures r.Some? ==> r.value == Message("NickServ", "identify " + password)
  {
    if source == "NickServ" && Contains(text, "NickServ identify") && password != "" then
      Some(Message("NickServ", "identify " + password))
    else None
  }

  /** NickServ confirming identification; an identify request in the same notice takes precedence. */
  predicate NoticeIdentifies(source: string, text: string) {
    source == "NickServ" && !Contains(text, "NickServ identify") && Contains(text, "You are now identified")
  }

  /** The password is never sent to anyone but NickServ, nor in answer to any other nick's notice. */
  lemma PasswordOnlyToNickServ(source: string, text: string, password: string)
    ensures NoticeReply(source, text, password).Some? ==> source == "NickServ"
    ensures forall m :: NoticeReply(source, text, password) == Some(m) ==> m.target == "NickServ"
  {
  }

  // ---------------------------------------------------------- keepalive

  /** The other requests the bot makes of the IRC library. */
  datatype Action =
    | PingServer(token: string) // `connection.ping`
    | Disconnect                // `self.disconnect()`
    | NickRequest(nick: string) // `connection.nick`
    | JoinRequest(channel: string)
    | JoinLater(channel: string) // `execute_delayed(10, c.join, ...)`
    | ChangebackLater            // `execute_delayed(10, self.changeback_nickname)`

  /** The count of pings without a pong after one keepalive tick. */
  function KeepaliveNext(pings: int, connected: bool): int {
    if pings >= 2 then 0 else if connected then pings + 1 else pings
  }

  /** What one keepalive tick asks of the connection: a disconnect after two unanswered pings, else a ping when connected. */
  function KeepaliveActions(pings: int, connected: bool): seq<Action> {
    if pings >= 2 then [Disconnect] else if connected then [PingServer("keep-alive")] else []
  }

  /** What the connection does to the ping count: a keepalive tick, or a pong arriving. */
  datatype LinkEvent = Tick(connected: bool) | Pong

  /** The ping count after a run of events. */
  function PingsAfter(pings: int, events: seq<LinkEvent>): int
    decreases |events|
  {
    if events == [] then pings
    else
      match events[0]
      case Tick(connected) => PingsAfter(KeepaliveNext(pings, connected), events[1..])
      case Pong => PingsAfter(0, events[1..])
  }

  /** The requests a run of events makes, in order. */
  function LinkActions(pings: int, events: seq<LinkEvent>): seq<Action>
    decreases |events|
  {
    if events == [] then []
    else
      match events[0]
      case Tick(connected) => KeepaliveActions(pings, connected) + LinkActions(KeepaliveNext(pings, connected), events[1..])
      case Pong => LinkActions(0, events[1..])
  }

  /** The count starts at 0 and never leaves 0..2, whatever the events. */
  lemma {:induction false} PingsStayBounded(pings: int, events: seq<LinkEvent>)
    requires 0 <= pings <= 2
    ensures 0 <= PingsAfter(pings, events) <= 2
    decreases |events|
  {
    if events != [] {
      match events[0]
      case Tick(connected) => PingsStayBounded(KeepaliveNext(pings, connected), events[1..]);
      case Pong => PingsStayBounded(0, events[1..]);
    }
  }

  /** A server that stops answering: two pings, then a disconnect that resets the count. */
  lemma SilentServerDisconnects()
    ensures LinkActions(0, [Tick(true), Tick(true), Tick(true)])
            == [PingServer("keep-alive"), PingServer("keep-alive"), Disconnect]
    ensures PingsAfter(0, [Tick(true), Tick(true), Tick(true)]) == 0
  {
    assert [Tick(true), Tick(true), Tick(true)][1..] == [Tick(true), Tick(true)];
    assert [Tick(true), Tick(true)][1..] == [Tick(true)];
    assert [Tick(true)][1..] == [];
  }

  /** A server that answers every ping before the next tick is never dropped. */
  lemma {:induction false} AnsweredNeverDisconnects(pings: int, events: seq<LinkEvent>)
    requires 0 <= pings
    requires pings <= 1 || events == [] || events[0] == Pong
    requires forall k :: 0 <= k < |events| - 1 && events[k].Tick? ==> events[k + 1] == Pong
    ensures Disconnect !in LinkActions(pings, events)
    decreases |events|
  {
    if events != [] {
      var rest := events[1..];
      assert forall k :: 0 <= k < |rest| - 1 ==> rest[k] == events[k + 1];
      match events[0]
      case Tick(connected) =>
        AnsweredNeverDisconnects(KeepaliveNext(pings, connected), rest);
      case Pong =>
        AnsweredNeverDisconnects(0, rest);
    }
  }

  // --------------------------------------------------------------- nick

  /** The bot's nickname is the one it wants followed by underscores only. */
  predicate Underscored(nick: string, wanted: string) {
    StartsWith(nick, wanted) && forall i :: |wanted| <= i < |nick| ==> nick[i] == '_'
  }

  /** A collision adds one underscore, keeping the nick in shape. */
  lemma CollisionUnderscored(nick: string, wanted: string)
    requires Underscored(nick, wanted)
    ensures Underscored(nick + "_", wanted)
  {
    var next := nick + "_";
    assert next[..|wanted|] == nick[..|wanted|];
    assert forall i :: |wanted| <= i < |nick| ==> next[i] == nick[i];
  }

  /**
   * Changing back lands on the wanted nick from any nick in shape: a nick
   * ending in an underscore is replaced, and one that does not end in an
   * underscore is the wanted nick already.
   */
  lemma ChangebackLandsOnWanted(nick: string, wanted: string)
    requires Underscored(nick, wanted)
    ensures !EndsWith(nick, "_") ==> nick == wanted
  {
    if |nick| > |wanted| {
      assert nick[|nick| - 1..] == [nick[|nick| - 1]];
    }
  }

  /** The sources of the module list, the input of `build_index`. */
  function SourcesOf(modules: seq<ModuleClass>): seq<ModuleSource> {
    seq(|modules|, i requires 0 <= i < |modules| => modules[i].source)
  }

  /**
   * Startup merges the modules' alternatives before the files': for a key
   * all three tables list, the store holds the built-in list, then the
   * modules', then the files', and a key only the files list is adopted.
   */
  lemma StartupOrder(initial: Table, fromModules: Table, fromFiles: Table, k: string)
    ensures var t := Merged(Merged(initial, fromModules), fromFiles);
            && (k in initial && k in fromModules && k in fromFiles && initial[k] != [] ==>
                  t[k] == initial[k] + fromModules[k] + fromFiles[k])
            && (k !in initial && k !in fromModules && k in fromFiles ==> t[k] == fromFiles[k])
            && (k in initial && k !in fromModules && k !in fromFiles ==> t[k] == initial[k])
  {
    MergedSpec(initial, fromModules);
    MergedSpec(Merged(initial, fromModules), fromFiles);
  }

  // ---------------------------------------------------------------- bot

  /** `FidiBot`: its settings, the modules and tables it assembles, and the state its handlers update. */
  class FidiBot {
    var nickname: string
    const nicknameWanted: string
    const channel: string
    const realname: string
    const password: string
    const callsign: string
    var identified: bool
    var pingsPending: int
    var lastKicker: string
    var actions: seq<Action>
    const modules: seq<ModuleClass>
    const alternatives: Alternatives
    const helpIndex: HelpIndex
    const joinThrottle: Throttle
    const duhThrottle: Throttle
    const conn: Connection

    /** What every handler keeps. */
    predicate Valid()
      reads this
    {
      && 0 <= pingsPending <= 2
      && Underscored(nickname, nicknameWanted)
      && StartsWith(channel, "#")
      && joinThrottle.ttl == 10 * 60 && duhThrottle.ttl == 60
      && joinThrottle != duhThrottle
    }

    /**
     * `__init__`: the settings, then the active modules and their
     * alternatives merged into the shared store, then the alternatives
     * from files, then the help index, then the two throttles on one clock.
     * An empty channel name raises in the source; here it is excluded.
     */
    constructor(channel: string, nickname: string, realname: string, password: string, callsign: string,
                store: Alternatives, importer: string -> ImportResult, files: Table, clock: Clock, conn: Connection)
      requires channel != ""
      modifies store
      ensures Valid()
      ensures this.channel == NormalizeChannel(channel).value
      ensures this.nickname == nickname && nicknameWanted == nickname
      ensures this.realname == (if realname != "" then realname else nickname)
      ensures this.password == password && this.callsign == callsign
      ensures !identified && pingsPending == 0 && lastKicker == "" && actions == []
      ensures modules == Activated(Active, importer).modules
      ensures alternatives == store
      ensures store.table == Merged(Merged(old(store.table), Activated(Active, importer).alternatives), files)
      ensures helpIndex == IndexOf(SourcesOf(modules))
      ensures fresh(joinThrottle) && fresh(duhThrottle)
      ensures joinThrottle.entries == map[] && duhThrottle.entries == map[]
      ensures joinThrottle.clock == clock && duhThrottle.clock == clock
      ensures this.conn == conn
    {
      this.channel := NormalizeChannel(channel).value;
      this.nickname := nickname;
      nicknameWanted := nickname;
      this.realname := if realname != "" then realname else nickname;
      this.password := password;
      this.callsign := callsign;
      identified := false;
      alternatives := store;
      var active, activeAlternatives := ActivateModules(importer);
      modules := active;
      store.MergeWith(activeAlternatives);
      store.MergeWith(files);
      var index := BuildIndex(SourcesOf(active));
      helpIndex := index;
      joinThrottle := new Throttle(10 * 60, clock);
      duhThrottle := new Throttle(60, clock);
      pingsPending := 0;
      lastKicker := "";
      actions := [];
      this.conn := conn;
      new;
      assert Underscored(this.nickname, nicknameWanted) by {
        assert this.nickname[..|nicknameWanted|] == nicknameWanted;
      }
    }

    /** `c.privmsg(r.target, _(r.fmt) % r.arg)`: pick an alternative, format it, send it, unless either raises. */
    method Say(r: Reply) returns (text: Option<string>)
      modifies conn
      ensures text.Some? ==> Renders(alternatives.table, r, text.value)
                             && conn.sent == old(conn.sent) + [Message(r.target, text.value)]
      ensures text.None? ==> conn.sent == old(conn.sent) && MayFail(alternatives.table, r)
      ensures Said(old(conn.sent), conn.sent, alternatives.table, r)
    {
      var alt := alternatives.RandomAlternative(r.fmt);
      if alt.None? {
        return None;
      }
      assert alt.value in Choices(alternatives.table, r.fmt);
      text := Rendered(alt.value, r.arg);
      if text.Some? {
        conn.Privmsg(r.target, text.value);
      }
    }

    /** `_keepalive`: disconnect and reset after two unanswered pings, otherwise ping if connected. */
    method Keepalive(connected: bool)
      requires Valid()
      modifies this
      ensures Valid()
      ensures pingsPending == KeepaliveNext(old(pingsPending), connected)
      ensures actions == old(actions) + KeepaliveActions(old(pingsPending), connected)
      ensures nickname == old(nickname) && lastKicker == old(lastKicker) && identified == old(identified)
    {
      if pingsPending >= 2 {
        actions := actions + [Disconnect];
        pingsPending := 0;
        return;
      }
      if connected {
        actions := actions + [PingServer("keep-alive")];
        pingsPending := pingsPending + 1;
      }
    }

    /** `on_pong`: the server answered. */
    method OnPong()
      requires Valid()
      modifies this
      ensures Valid()
      ensures pingsPending == 0
      ensures nickname == old(nickname) && lastKicker == old(lastKicker) && identified == old(identified)
      ensures actions == old(actions)
    {
      pingsPending := 0;
    }

    /** `on_kick`: remember who kicked the bot, and ask to rejoin later. */
    method OnKick(source: string, channel: string, kicked: string)
      requires Valid()
      modifies this
      ensures Valid()
      ensures lastKicker == KickerAfterKick(old(nickname), old(lastKicker), source, kicked)
      ensures actions == old(actions) + [JoinLater(channel)]
      ensures nickname == old(nickname) && pingsPending == old(pingsPending) && identified == old(identified)
    {
      if kicked == nickname {
        lastKicker := source;
      }
      actions := actions + [JoinLater(channel)];
    }

    /** `on_nicknameinuse`: take the nick with one more underscore and try the wanted one again later. */
    method OnNicknameInUse()
      requires Valid()
      modifies this
      ensures Valid()
      ensures nickname == old(nickname) + "_"
      ensures actions == old(actions) + [NickRequest(old(nickname) + "_"), ChangebackLater]
      ensures lastKicker == old(lastKicker) && pingsPending == old(pingsPending) && identified == old(identified)
    {
      var newNick := nickname + "_";
      CollisionUnderscored(nickname, nicknameWanted);
      actions := actions + [NickRequest(newNick), ChangebackLater];
      nickname := newNick;
    }

    /** `changeback_nickname`: ask for the wanted nick again when the current one ends in an underscore. */
    method ChangebackNickname()
      requires Valid()
      modifies this
      ensures Valid()
      ensures nickname == nicknameWanted
      ensures EndsWith(old(nickname), "_") ==> actions == old(actions) + [NickRequest(nicknameWanted)]
      ensures !EndsWith(old(nickname), "_") ==> actions == old(actions)
      ensures lastKicker == old(lastKicker) && pingsPending == old(pingsPending) && identified == old(identified)
    {
      ChangebackLandsOnWanted(nickname, nicknameWanted);
      if EndsWith(nickname, "_") {
        var newNick := nicknameWanted;
        actions := actions + [NickRequest(newNick)];
        nickname := newNick;
        assert nickname[..|nicknameWanted|] == nicknameWanted;
      }
    }

    /** `on_welcome`: join the channel. */
    method OnWelcome()
      requires Valid()
      modifies this
      ensures Valid()
      ensures actions == old(actions) + [JoinRequest(channel)]
      ensures nickname == old(nickname) && lastKicker == old(lastKicker) && pingsPending == old(pingsPending)
      ensures identified == old(identified)
    {
      actions := actions + [JoinRequest(channel)];
    }

    /** `on_bannedfromchan`: try the channel again later. */
    method OnBannedFromChan(channel: string)
      requires Valid()
      modifies this
      ensures Valid()
      ensures actions == old(actions) + [JoinLater(channel)]
      ensures nickname == old(nickname) && lastKicker == old(lastKicker) && pingsPending == old(pingsPending)
      ensures identified == old(identified)
    {
      actions := actions + [JoinLater(channel)];
    }

    /** `on_privnotice`: answer NickServ's request with the password, and note the confirmation. */
    method OnPrivnotice(source: string, text: string)
      requires Valid()
      modifies this, conn
      ensures Valid()
      ensures identified == (old(identified) || NoticeIdentifies(source, text))
      ensures NoticeReply(source, text, password).Some? ==> conn.sent == old(conn.sent) + [NoticeReply(source, text, password).value]
      ensures NoticeReply(source, text, password).None? ==> conn.sent == old(conn.sent)
      ensures nickname == old(nickname) && lastKicker == old(lastKicker) && pingsPending == old(pingsPending)
      ensures actions == old(actions)
    {
      if source == "NickServ" {
        if Contains(text, "NickServ identify") {
          if password != "" {
            conn.Privmsg("NickServ", "identify " + password);
          }
        } else if Contains(text, "You are now identified") {
          identified := true;
        }
      }
    }

    /**
     * `on_privmsg`: offer the message to the modules in order and stop at
     * the first that claims it; if none does, the private fallback reply.
     */
    method OnPrivmsg(e: Event) returns (chain: Chain, offered: nat)
      requires Valid()
      modifies conn
      ensures chain == ChainOf(PrivateOutcomes(modules, e))
      ensures offered == Offered(chain, |modules|)
      ensures chain != Unhandled ==> conn.sent == old(conn.sent)
      ensures chain == Unhandled ==> Said(old(conn.sent), conn.sent, alternatives.table, PrivateFallback(callsign, e))
    {
      var outs := PrivateOutcomes(modules, e);
      var c := MakeContext(e);
      var i: nat := 0;
      while i < |modules|
        invariant 0 <= i <= |modules|
        invariant forall j :: 0 <= j < i ==> outs[j] == Unclaimed
      {
        var o := Modules.OnPrivmsg(modules[i], c);
        if o != Unclaimed {
          ChainStopsAt(outs, i);
          chain := if o.Raised? then RaisedBy(i) else HandledBy(i, o.claim);
          offered := i + 1;
          return;
        }
        i := i + 1;
      }
      chain := Unhandled;
      offered := |modules|;
      var _ := Say(PrivateFallback(callsign, e));
    }

    /**
     * `on_pubmsg`: offer the message to the modules in order; if none
     * claims it and it mentions the bot, say "Duh!" unless the duh
     * throttle holds the sender, who is recorded by asking.
     */
    method OnPubmsg(e: Event) returns (chain: Chain, offered: nat)
      requires Valid()
      modifies conn, duhThrottle
      ensures chain == ChainOf(PublicOutcomes(modules, callsign, e))
      ensures offered == Offered(chain, |modules|)
      ensures chain != Unhandled || !MentionsMe(callsign, e) ==>
                conn.sent == old(conn.sent) && duhThrottle.entries == old(duhThrottle.entries)
      ensures chain == Unhandled && MentionsMe(callsign, e) ==>
                var step := Step(old(duhThrottle.entries), duhThrottle.ttl, duhThrottle.clock.dt, e.nick);
                && duhThrottle.entries == step.1
                && (step.0 ==> conn.sent == old(conn.sent))
                && (!step.0 ==> Said(old(conn.sent), conn.sent, alternatives.table, PublicFallback(callsign, e, false).value))
    {
      var outs := PublicOutcomes(modules, callsign, e);
      var c := MakeContext(e);
      var i: nat := 0;
      while i < |modules|
        invariant 0 <= i <= |modules|
        invariant forall j :: 0 <= j < i ==> outs[j] == Unclaimed
      {
        var o := Modules.OnPubmsg(modules[i], callsign, c);
        if o != Unclaimed {
          ChainStopsAt(outs, i);
          chain := if o.Raised? then RaisedBy(i) else HandledBy(i, o.claim);
          offered := i + 1;
          return;
        }
        i := i + 1;
      }
      chain := Unhandled;
      offered := |modules|;
      if Contains(Lower(e.nick), "github") {
        return;
      }
      if Contains(IrcLower(e.text), callsign) {
        var throttled := duhThrottle.IsThrottled(e.nick);
        if !throttled {
          var _ := Say(Reply(e.target, Duh, None));
        }
      }
    }

    /**
     * `on_join`: welcome someone else unless the join throttle holds them;
     * on the bot's own join, ask the last kicker why and forget them.
     */
    method OnJoin(e: Event)
      requires Valid()
      modifies this, conn, joinThrottle
      ensures Valid()
      ensures lastKicker == KickerAfterJoin(nickname, old(lastKicker), e.nick)
      ensures !AsksJoinThrottle(nickname, e.nick) ==> joinThrottle.entries == old(joinThrottle.entries)
      ensures !AsksJoinThrottle(nickname, e.nick) && JoinReply(nickname, old(lastKicker), e.nick, e.target, false).None? ==>
                conn.sent == old(conn.sent)
      ensures !AsksJoinThrottle(nickname, e.nick) && JoinReply(nickname, old(lastKicker), e.nick, e.target, false).Some? ==>
                Said(old(conn.sent), conn.sent, alternatives.table, JoinReply(nickname, old(lastKicker), e.nick, e.target, false).value)
      ensures AsksJoinThrottle(nickname, e.nick) ==>
                var step := Step(old(joinThrottle.entries), joinThrottle.ttl, joinThrottle.clock.dt, e.nick);
                && joinThrottle.entries == step.1
                && (step.0 ==> conn.sent == old(conn.sent))
                && (!step.0 ==> Said(old(conn.sent), conn.sent, alternatives.table, Reply(e.target, WelcomeFmt, Some(e.nick))))
      ensures nickname == old(nickname) && pingsPending == old(pingsPending) && identified == old(identified)
      ensures actions == old(actions)
    {
      var nick := e.nick;
      if IsGithub(nick) {
        return;
      }
      if nick != nickname {
        WelcomeJoin(nick, e.target);
      } else {
        OwnJoin(e.target);
      }
    }

    /** The bot itself joined: ask whoever kicked it last, then forget them. */
    method OwnJoin(target: string)
      requires Valid()
      modifies this, conn
      ensures Valid()
      ensures lastKicker == ""
      ensures old(lastKicker) == "" ==> conn.sent == old(conn.sent)
      ensures old(lastKicker) != "" ==> Said(old(conn.sent), conn.sent, alternatives.table, Reply(target, WhyKick, Some(old(lastKicker))))
      ensures nickname == old(nickname) && pingsPending == old(pingsPending) && identified == old(identified)
      ensures actions == old(actions)
    {
      if lastKicker != "" {
        var _ := Say(Reply(target, WhyKick, Some(lastKicker)));
        lastKicker := "";
      }
    }

    /** Someone else joined: a welcome unless the join throttle holds them. */
    method WelcomeJoin(nick: string, target: string)
      modifies conn, joinThrottle
      ensures var step := Step(old(joinThrottle.entries), joinThrottle.ttl, joinThrottle.clock.dt, nick);
              && joinThrottle.entries == step.1
              && (step.0 ==> conn.sent == old(conn.sent))
              && (!step.0 ==> Said(old(conn.sent), conn.sent, alternatives.table, Reply(target, WelcomeFmt, Some(nick))))
    {
      var throttled := joinThrottle.IsThrottled(nick);
      if !throttled {
        var _ := Say(Reply(target, WelcomeFmt, Some(nick)));
      }
    }
  }
}
