/**
 * The ignore module (src/modules/ignore.py): placed early in the chain, it
 * swallows lines that start with a bot-command prefix and everything from
 * the listed nicks.
 */
module Ignore {
  import opened BaseModule

  /** The ignored senders. */
  const IgnoreList: seq<string> := ["fossbot", "fossbot_"]

  /** The characters that mark a public line as meant for another bot. */
  const IgnoreStartsWith: string := "!@"

  /** `_do`: swallow anything from an ignored sender. */
  function FromIgnored(c: Context): Outcome {
    if c.nick in IgnoreList then Claimed(Dropped) else Unclaimed
  }

  /** `do_public`: `input[0]` raises on an empty line; a prefix character or an ignored sender claims. */
  function DoPublic(c: Context): Outcome {
    if c.input == [] then Raised
    else if c.input[0] in IgnoreStartsWith then Claimed(Dropped)
    else FromIgnored(c)
  }

  /** `do_private`: only the sender matters. */
  function DoPrivate(c: Context): Outcome {
    FromIgnored(c)
  }

  /** A public line starting with `!` or `@` is swallowed whoever sent it. */
  lemma PrefixSwallowed(c: Context)
    requires c.input != [] && (c.input[0] == '!' || c.input[0] == '@')
    ensures DoPublic(c) == Claimed(Dropped)
  {
  }

  /** Anything from `fossbot` or `fossbot_` is swallowed, public or private (public lines need a first character to test). */
  lemma IgnoredSenderSwallowed(c: Context)
    requires c.nick == "fossbot" || c.nick == "fossbot_"
    ensures DoPrivate(c) == Claimed(Dropped)
    ensures c.input != [] ==> DoPublic(c) == Claimed(Dropped)
  {
  }

  /** Private messages ignore the prefix rule: the verdict depends on the sender alone. */
  lemma PrivateIgnoresText(c: Context, text: string)
    ensures DoPrivate(c) == DoPrivate(c.(input := text))
    ensures c.input != [] && c.input[0] == '!' && c.nick !in IgnoreList ==> DoPrivate(c) == Unclaimed
  {
  }

  /** The module claims nothing else, and never claims by calling a handler. */
  lemma OtherwiseUnclaimed(c: Context)
    ensures c.nick !in IgnoreList ==> DoPrivate(c) == Unclaimed
    ensures c.input != [] && c.input[0] != '!' && c.input[0] != '@' && c.nick !in IgnoreList ==> DoPublic(c) == Unclaimed
    ensures DoPublic(c) == Raised <==> c.input == []
    ensures !DoPublic(c).Claimed? || DoPublic(c).claim == Dropped
  {
  }
}
