/**
 * The help module's `list` command (src/modules/help.py): the command
 * names of every active module, gathered in module order, and the choice
 * of which of the two lines to send.
 *
 * Each module's `list_commands()` result is an input to the model.
 */
module Help {
  import opened Text
  import opened BaseModule

  /** One module's `list_commands()` result. */
  datatype CommandLists = CommandLists(public: seq<string>, private: seq<string>)

  /** The names gathered from the modules in order, public or private. */
  function Gathered(lists: seq<CommandLists>, public: bool): seq<string>
    decreases |lists|
  {
    if lists == [] then []
    else
      var last := lists[|lists| - 1];
      Gathered(lists[..|lists| - 1], public) + (if public then last.public else last.private)
  }

  /** A name is gathered iff some module lists it. */
  lemma {:induction false} GatheredMembers(lists: seq<CommandLists>, public: bool, x: string)
    ensures x in Gathered(lists, public) <==>
              exists i :: 0 <= i < |lists| && x in (if public then lists[i].public else lists[i].private)
    decreases |lists|
  {
    if lists != [] {
      var init := lists[..|lists| - 1];
      GatheredMembers(init, public, x);
      assert forall i :: 0 <= i < |init| ==> init[i] == lists[i];
    }
  }

  /** The names of the first `k` modules come first, in the same order. */
  lemma {:induction false} GatheredPrefix(lists: seq<CommandLists>, public: bool, k: nat)
    requires k <= |lists|
    ensures |Gathered(lists[..k], public)| <= |Gathered(lists, public)|
    ensures Gathered(lists, public)[..|Gathered(lists[..k], public)|] == Gathered(lists[..k], public)
    decreases |lists|
  {
    if k == |lists| {
      assert lists[..k] == lists;
    } else {
      var init := lists[..|lists| - 1];
      GatheredPrefix(init, public, k);
      assert lists[..k] == init[..k];
      var whole := Gathered(lists, public);
      assert whole[..|Gathered(init, public)|] == Gathered(init, public);
    }
  }

  /** The gathering loop of `cmd_list`. */
  method Aggregate(lists: seq<CommandLists>) returns (public: seq<string>, private: seq<string>)
    ensures public == Gathered(lists, true) && private == Gathered(lists, false)
  {
    public := [];
    private := [];
    for i := 0 to |lists|
      invariant public == Gathered(lists[..i], true) && private == Gathered(lists[..i], false)
    {
      assert lists[..i + 1][..i] == lists[..i];
      public := public + lists[i].public;
      private := private + lists[i].private;
    }
    assert lists[..|lists|] == lists;
  }

  /** The public line. */
  function PublicLine(names: seq<string>): string {
    "public commands  -- " + Join(" ", names)
  }

  /** The private line. */
  function PrivateLine(names: seq<string>): string {
    "private commands -- " + Join(" ", names)
  }

  /** Which lines `cmd_list` sends for an argument and reply target. */
  function HelpOutput(argument: string, target: string, public: seq<string>, private: seq<string>): string {
    var arg := Lower(argument);
    if Contains(arg, "all") || Contains(arg, "both") then PublicLine(public) + "\n" + PrivateLine(private)
    else if Contains(arg, "pub") || StartsWith(target, "#") then PublicLine(public)
    else if Contains(arg, "priv") || !StartsWith(target, "#") then PrivateLine(private)
    else assert false; ""
  }

  /** Names as the modules list them: no newline inside. */
  predicate OneLine(names: seq<string>) {
    forall i :: 0 <= i < |names| ==> '\n' !in names[i]
  }

  lemma {:induction false} JoinOneLine(names: seq<string>)
    requires OneLine(names)
    ensures '\n' !in Join(" ", names)
    decreases |names|
  {
    if |names| > 1 {
      JoinOneLine(names[1..]);
    }
  }

  /**
   * What the reply is: `all` or `both` anywhere in the argument, in any
   * case, sends the public line and then the private one; otherwise `pub`
   * or a channel target sends the public line alone; otherwise the private
   * line alone.
   */
  lemma HelpOutputSpec(argument: string, target: string, public: seq<string>, private: seq<string>)
    requires OneLine(public) && OneLine(private)
    ensures var arg := Lower(argument);
            var ms := Deliveries(target, HelpOutput(argument, target, public, private));
            && ((Contains(arg, "all") || Contains(arg, "both")) ==>
                  ms == [Message(target, PublicLine(public)), Message(target, PrivateLine(private))])
            && (!Contains(arg, "all") && !Contains(arg, "both") && (Contains(arg, "pub") || StartsWith(target, "#")) ==>
                  ms == [Message(target, PublicLine(public))])
            && (!Contains(arg, "all") && !Contains(arg, "both") && !Contains(arg, "pub") && !StartsWith(target, "#") ==>
                  ms == [Message(target, PrivateLine(private))])
  {
    JoinOneLine(public);
    JoinOneLine(private);
    var p := PublicLine(public);
    var q := PrivateLine(private);
    assert '\n' !in p by { assert p == "public commands  -- " + Join(" ", public); }
    assert '\n' !in q by { assert q == "private commands -- " + Join(" ", private); }
    assert p != "" && q != "";
    DeliveriesSingle(target, p);
    DeliveriesSingle(target, q);
    DeliveriesPair(target, p, q);
  }

  /** In a channel, asking for `priv` still gets the public line: only `all` or `both` reach the private names there. */
  lemma ChannelShowsPublic(target: string, public: seq<string>, private: seq<string>)
    requires StartsWith(target, "#")
    ensures HelpOutput("priv", target, public, private) == PublicLine(public)
  {
    ContainsNeedsChar("priv", "all", 0);
    ContainsNeedsChar("priv", "both", 0);
    assert Lower("priv") == "priv";
  }

  /** `cmd_list`: gather, choose and send. */
  method CmdList(conn: Connection, target: string, argument: string, lists: seq<CommandLists>)
    modifies conn
    ensures conn.sent == old(conn.sent)
                         + Deliveries(target, HelpOutput(argument, target, Gathered(lists, true), Gathered(lists, false)))
  {
    var public, private := Aggregate(lists);
    var output := HelpOutput(argument, target, public, private);
    Send(conn, target, output);
  }
}
