# fidibot in Dafny

A model of the core of fidibot, a small Python IRC bot. The bot offers every
chat line to an ordered chain of modules. The first module that claims the
line wins. A command module turns a line into a call of one of its
`cmd_<name>[_public|_private]` methods. Lines that no module claims get the
bot's own fallback replies, gated by throttles. Around this engine sit:

- the help index built from the command methods' names and docstrings;
- the store of random alternatives to format strings;
- the throttle with its injectable clock;
- the admin password pool;
- the command logic of the ignore, help, URL parser and D&D modules;
- the IRC colour stripping and server-line shortening of the logging setup.

There is one Dafny module per source file.

| Dafny module | file | source file |
|---|---|---|
| `Text` | text.dfy | the Python `str` builtins the bot uses (`lower`, `split`, `in`, `join`, `strip`, `ljust`, `replace`) and `irc.strings.lower` |
| `Wrappers` | wrappers.dfy | `Option`, for Python's "None or a value" |
| `BaseModule` | basemodule.dfy | src/modules/basemodule.py |
| `Introspect` | introspect.dfy | src/introspect.py |
| `AltStore` | alternatives.dfy | src/alternatives.py |
| `Tools` | tools.dfy | src/tools.py |
| `Auth` | auth.dfy | src/auth.py |
| `Ignore` | ignore.dfy | src/modules/ignore.py |
| `Help` | help.dfy | src/modules/help.py |
| `UrlParser` | urlparser.dfy | src/modules/urlparser.py |
| `Dnd` | dnd.dfy | src/modules/dnd.py |
| `LogSetup` | logsetup.dfy | src/logsetup.py |
| `Modules` | modules.dfy | src/modules/__init__.py, and the context kinds of the module files |
| `Bot` | fidibot.dfy | src/fidibot.py |

Some parts of the source change state in place, and the model does the same:

- the bot's fields (ping count, nickname, last kicker);
- the throttle's entry map;
- the alternatives table;
- the admin pool;
- the connection's list of sent messages.

These are Dafny classes whose methods have `modifies` clauses and state the
whole new state. Loops in the source are `while`/`for` loops proved against
specification functions, for example:

- `send`'s line loop;
- `_do_urls`;
- `merge_with`;
- `_invalidate`;
- the module import loop;
- the index-building loops;
- the formatter's colon-stripping loop.

The pure decisions are functions. Examples are the router, the ignore
predicates, the D&D verdict, `is_url` and the colour stripping.

The model's conventions:

- A context class's handlers are the set of its attribute names, which is
  what `getattr` consults.
- A module's `do_public`/`do_private` is a function that returns an
  `Outcome`: unclaimed, claimed (with what was claimed), or raised.
- Everything the bot asks of the IRC library other than a message is
  recorded, in order, as an `Action`. That covers join, nick, ping,
  disconnect and the delayed calls.
- A reply the bot itself sends through `_()` is recorded by its format
  string. The predicate `Said` states that the text sent is one that some
  alternative formats to, or that nothing was sent because the choice or the
  `%` raised. The replies of `cmd_roll` are the texts as written (see "## Left out").

## Model

| member | source | states |
|---|---|---|
| Text.Lower | src/modules/basemodule.py:135 | `str.lower` keeps the length and lowers each character on its own: A-Z become a-z and every other character is kept |
| Text.Upper | src/logsetup.py:81 | `str.upper` keeps the length and maps a-z to A-Z, character by character |
| Text.IrcLower | src/fidibot.py:116 | `irc.strings.lower` keeps the length and folds each character to its `str.lower` form, or folds one of the four bracket characters of RFC 1459 section 2.2 |
| Text.IrcLowerAgreesWithLower | src/fidibot.py:7 | on text without `[`, `]`, `\` or `^`, the IRC folding and `str.lower` agree |
| Text.ContainsAt | src/modules/basemodule.py:135 | `sub in s` holds whenever `sub` occurs at some position of `s` |
| Text.ContainsWitness | src/modules/basemodule.py:135 | conversely, `sub in s` yields a position where `sub` occurs |
| Text.ContainsChar | src/modules/ignore.py:19 | a one-character needle occurs iff the character is in the string |
| Text.FirstIndex | src/modules/basemodule.py:134 | the first position of the separator: no earlier position holds it, and the length when it is absent |
| Text.SplitN | src/modules/basemodule.py:134 | `split(sep, n)` yields at least one piece and at most `n + 1` pieces |
| Text.JoinSplit | src/introspect.py:47 | joining the pieces of a split with its separator gives back the line |
| Text.SplitLength | src/modules/basemodule.py:258 | an unlimited split yields one piece more than the line has separators |
| Text.SplitPiecesFree | src/modules/basemodule.py:258 | no piece of an unlimited split holds the separator |
| Text.SplitNLengthBounded | src/modules/basemodule.py:169 | `split(sep, n)` makes every cut it may: min(separators, n) + 1 pieces |
| Text.SplitNHeadsFree | src/modules/basemodule.py:134 | only the piece after the last allowed cut may still hold the separator |
| Text.SplitNNoSep | src/modules/basemodule.py:169 | a line without the separator splits into itself alone |
| Text.SplitNCons | src/modules/basemodule.py:134 | a line that starts with a separator-free head splits into that head followed by the split of the rest |
| Text.WordLength | src/modules/dnd.py:18 | the leading run of non-whitespace ends at the first whitespace character of `unicode.split()` (the six of `str` and U+001C to U+001F) or at the end of the line |
| Text.Words | src/modules/urlparser.py:29 | every word of `unicode.split()` is non-empty and has no whitespace, U+001C to U+001F included |
| Text.WordsBetween | src/modules/urlparser.py:29 | a word with a whitespace character on each side, such as IRC's underline code, is the line's only word |
| Text.WordsOfWord | src/modules/dnd.py:18 | a line with no whitespace is one word, or no word when it is empty |
| Text.Strip | src/introspect.py:46 | `strip()` never lengthens the text and leaves no whitespace at either end |
| Text.StripInfix | src/introspect.py:46 | what `strip()` keeps is one slice of the text with only whitespace before and after it, so with the ends it leaves, exactly the surrounding whitespace is removed |
| Text.ReplaceAllAbsent | src/introspect.py:64-66 | `replace` leaves a string alone when the string lacks a character of the pattern |
| Text.LJust | src/introspect.py:53 | `%-Ns` pads on the right with spaces to width N and keeps the text as a prefix |
| Text.NatToString | src/modules/dnd.py:59 | `%s` of a natural number is a non-empty string of decimal digits |
| Text.IntToString | src/modules/dnd.py:21-22 | `%s` of an integer is non-empty |
| BaseModule.MakeContext | src/modules/basemodule.py:60-69 | the context keeps the sender, the event target and the line; replies go to the channel when the target starts with `#` and to the sender otherwise |
| BaseModule.Resolve | src/modules/basemodule.py:150-154 | a handler is found iff the suffixed or the plain name is an attribute; the suffixed name is preferred and the plain one is used only when the suffixed one is missing |
| BaseModule.HeadIsFirstPiece | src/modules/basemodule.py:134-135 | the first token of `split(" ", n)` is the line up to its first space |
| BaseModule.RoutePublic | src/modules/basemodule.py:128-162 | a routed public line names an existing `cmd_` attribute, its lowered first token contains the callsign, and the argument is a suffix of the line |
| BaseModule.PublicArgumentIsSuffix | src/modules/basemodule.py:144-148 | the argument, the third token or `''`, is always a suffix of the line |
| BaseModule.RoutePublicLine | src/modules/basemodule.py:134-159 | `<head> <command> <argument>` is routed iff the lowered head contains the callsign and the lowered command resolves with the `_public` preference; the argument is kept verbatim |
| BaseModule.RoutePublicNoArgument | src/modules/basemodule.py:145-148 | with no third token the handler gets `''` |
| BaseModule.RoutePublicNeedsCommand | src/modules/basemodule.py:138-141 | a one-token public line is never routed, even when it is exactly the callsign |
| BaseModule.RoutePublicDoubleSpace | src/modules/basemodule.py:142-143 | a double space after the callsign makes the command empty, so the line is not routed |
| BaseModule.RoutePublicTrailingSpace | src/modules/basemodule.py:142-143 | a head followed by a single trailing space has an empty command and is not routed |
| BaseModule.RoutePublicShape | src/modules/basemodule.py:128-162 | every routed public line is a head containing the callsign, a non-empty space-free command that resolves to the handler called, and the argument |
| BaseModule.RoutePrivate | src/modules/basemodule.py:164-191 | a routed private line names an existing `cmd_` attribute, has a non-empty first token, and has the argument as a suffix |
| BaseModule.RoutePrivateLine | src/modules/basemodule.py:169-189 | `<command> <argument>` is routed iff the lowered command resolves with the `_private` preference; the argument is kept verbatim, case included |
| BaseModule.RoutePrivateWord | src/modules/basemodule.py:174-177 | a one-word private line calls its handler with `''` |
| BaseModule.RoutePrivateEmptyCommand | src/modules/basemodule.py:170-172 | an empty line, or one starting with a space, has an empty command and is not routed |
| BaseModule.PrivateReachesPublicHandler | src/modules/basemodule.py:180-181 | through the fallback, a private `<name>_public x` calls `cmd_<name>_public` when no `cmd_<name>_public_private` exists |
| BaseModule.Connection.constructor | src/modules/basemodule.py:262 | a connection starts with nothing sent |
| BaseModule.Connection.Privmsg | src/modules/basemodule.py:262 | `privmsg` appends exactly one message to what was sent |
| BaseModule.Deliveries | src/modules/basemodule.py:258-262 | `send` delivers as many messages as the output has lines |
| BaseModule.Send | src/modules/basemodule.py:245-262 | `send` appends the deliveries of the output to what was sent, and nothing else |
| BaseModule.DeliveriesSpec | src/modules/basemodule.py:256-262 | there are (newlines + 1) messages, all to the one target, none of them empty; in order they are the newline-free lines, an empty line sent as `" "`, and the lines join back into the output |
| BaseModule.DeliveriesSingle | src/modules/basemodule.py:258-262 | a non-empty output without a newline is one message |
| BaseModule.DeliveriesPair | src/modules/basemodule.py:258-262 | two non-empty lines joined by a newline are two messages, in order |
| Introspect.GetFullHelp | src/introspect.py:9-14 | the loop returns the docstring lines joined by newlines |
| Introspect.FullHelpRoundTrip | src/introspect.py:9-14 | `get_full_help(s.split('\n'))` is `s` |
| Introspect.LeadingLines | src/introspect.py:17-25 | the summary lines are the prefix of the docstring lines before the first empty line: all non-empty, and followed by an empty line or the end |
| Introspect.LeadingLinesUnique | src/introspect.py:20-24 | any prefix that runs up to an empty line or the end, with no empty line inside, is the summary's prefix |
| Introspect.GetSummary | src/introspect.py:17-25 | the loop with its `break` returns the leading non-empty lines joined by single spaces |
| Introspect.GetName | src/introspect.py:28-30 | the name has no dot, ends the dotted name, and is the whole name when there is no dot |
| Introspect.HelpObject | src/introspect.py:33-53 | a missing docstring gives `No help found`; the full form is ` - name:` and the stripped docstring on the next line; the summary form is the name padded to ten columns, `: ` and the summary |
| Introspect.ParseCmdName | src/introspect.py:59-67 | a name yields a command name iff it starts with `cmd_` |
| Introspect.VisibilityCovers | src/introspect.py:70-75 | every name is public or private, and a name with neither suffix is both |
| Introspect.ParseHandlerName | src/introspect.py:59-67 | the router's lookup name `cmd_<c>[_public\|_private]` parses back to `c`, for a `c` without underscores that does not end in `cmd` |
| Introspect.EmptyCommandNames | src/introspect.py:82-83 | `cmd_`, `cmd__public` and `cmd__private` parse to the empty name |
| Introspect.ListedIsCommand | src/introspect.py:81-83 | a listed attribute's name starts with `cmd_` |
| Introspect.CmdFunctionsDict | src/introspect.py:78-94 | the loop keeps exactly the non-hidden attributes with a non-empty command name, each under its own method name, with its command and module name |
| Introspect.WithHelp | src/introspect.py:111-115 | attaching help keeps the command, method and module names |
| Introspect.Order | src/introspect.py:111 | the iteration order holds listed names only |
| Introspect.OrderComplete | src/introspect.py:111 | every listed name occurs in the iteration order |
| Introspect.BucketSound | src/introspect.py:116-128 | each entry of a public or private map is a visible function, filed under its command name |
| Introspect.BucketComplete | src/introspect.py:116-128 | every visible function in the order has its command name in the map |
| Introspect.FillBucket | src/introspect.py:116-128 | the bucket loop computes the public or the private map |
| Introspect.BuildModuleIndex | src/introspect.py:100-130 | `build_module_index` returns the unqualified module name and the module's index |
| Introspect.FunctionsKeyed | src/introspect.py:91-93 | every function entry is keyed by its own method name, with its parsed command name and module name |
| Introspect.ModuleIndexSpec | src/introspect.py:78-130 | the module's functions are exactly the listed attributes; each public (private) entry is a function filed under its command name and not ending in `_private` (`_public`); every such function is in its map |
| Introspect.HiddenIsUnlisted | src/introspect.py:85-88 | a hidden attribute is in none of the module's `functions`, `public` or `private` maps |
| Introspect.EmptyNameUnlisted | src/introspect.py:82-83 | a method whose command name parses empty is never listed |
| Introspect.Named | src/introspect.py:140-142 | each module gets its name and index, in the order given |
| Introspect.BuildIndex | src/introspect.py:133-147 | the loop computes the merged index of all modules |
| Introspect.MergeKeys | src/introspect.py:143-144 | a command name is in a merged map iff some module's map has it |
| Introspect.MergeLastWins | src/introspect.py:143-144 | a merged entry is the entry of the last module whose map has the name |
| Introspect.MergeFrom | src/introspect.py:143-144 | every merged entry is some module's entry for that name |
| Introspect.IndexUnion | src/introspect.py:140-146 | the global public (private) map has a name iff some module's public (private) map has it |
| Introspect.IndexLastWins | src/introspect.py:140-146 | on a clash, the global map holds the last module's entry |
| Introspect.GlobalEntriesListed | src/introspect.py:143-146 | every global entry is a listed, visible function of some module, filed under its command name, so no hidden command reaches the global maps |
| AltStore.MergedSpec | src/alternatives.py:35-41 | after a merge the keys are the union of both tables' keys; an absent or empty local list adopts the incoming one; a non-empty local list is followed by the incoming one; untouched keys keep their list; no list shrinks; no element appears from nowhere |
| AltStore.Merged | src/alternatives.py:35-41 | the table `merge_with` leaves; `MergedSpec` and `MergedIdentity` state it |
| AltStore.MergedIdentity | src/alternatives.py:35-41 | merging an empty table changes nothing, and merging into an empty table adopts the incoming one |
| AltStore.Alternatives.constructor | src/alternatives.py:44 | the store starts from the given table |
| AltStore.Alternatives.RandomAlternative | src/alternatives.py:25-33 | a format string without an entry is returned as is; otherwise some element of its list is returned, and an empty list raises |
| AltStore.Alternatives.MergeWith | src/alternatives.py:35-41 | the in-place loop leaves the merged table |
| Tools.Clock.constructor | src/tools.py:29-31 | the dummy clock starts at time 0 |
| Tools.Clock.Advance | src/tools.py:33-34 | advancing moves the clock forward by the given seconds |
| Tools.StepSpec | src/tools.py:9-26 | a key is throttled iff it was recorded and `recorded + ttl >= now`; an unthrottled key is recorded at `now`, and a throttled one keeps its old time |
| Tools.Step | src/tools.py:13-26 | one `is_throttled` call on the entries: the purge, the answer and the recording; `StepSpec` states it |
| Tools.StepOtherKeys | src/tools.py:17-19 | a call for one key changes no other key except by expiry |
| Tools.ExpiryIsStrict | src/tools.py:9-11 | an entry still throttles at exactly `ttl` seconds and has expired one second later |
| Tools.TenSecondWindow | src/tools.py:39-51 | with a ten-second window, calls at 0, 5, 15, 20 and 30 answer no, yes, no, yes, no |
| Tools.Throttle.constructor | src/tools.py:4-7 | a throttle starts empty, with its window and clock |
| Tools.Throttle.Invalidate | src/tools.py:13-19 | the purge loop removes exactly the expired entries |
| Tools.Throttle.IsThrottled | src/tools.py:21-26 | the answer and the new entries are the purge followed by the lookup and the recording |
| Tools.TenSecondScenario | src/tools.py:39-51 | the throttle object, driven by the dummy clock, answers the test's five calls as the test expects |
| Auth.AdminAuth.constructor | src/auth.py:5-7 | the pool starts empty |
| Auth.AdminAuth.Authenticate | src/auth.py:9-10 | `authenticate`: `bool(password) and candidate == password`; `AuthenticateSpec` states its cases |
| Auth.AdminAuth.IsAdmin | src/auth.py:12-13 | `is_admin`: membership in the pool, which `Add` and `Remove` update and `AuthScenario` queries |
| Auth.AdminAuth.AuthenticateSpec | src/auth.py:9-10 | a missing or empty password rejects every candidate; a set password accepts exactly itself, and never `None` |
| Auth.AdminAuth.Add | src/auth.py:15-16 | `add` puts the user in the pool |
| Auth.AdminAuth.Remove | src/auth.py:18-20 | `remove` takes the user out of the pool, if they are there |
| Auth.AuthScenario | src/auth.py:23-42 | the module's own test sequence answers false, false, false, false, true, false, true, false |
| Ignore.PrefixSwallowed | src/modules/ignore.py:18-20 | a public line starting with `!` or `@` is claimed, whoever sent it |
| Ignore.IgnoredSenderSwallowed | src/modules/ignore.py:26-28 | anything from `fossbot` or `fossbot_` is claimed, private or public |
| Ignore.PrivateIgnoresText | src/modules/ignore.py:23-24 | a private message's verdict depends on the sender only |
| Ignore.OtherwiseUnclaimed | src/modules/ignore.py:18-30 | everything else is unclaimed; an empty public line raises (`input[0]`); a claim never calls a handler |
| Ignore.DoPublic | src/modules/ignore.py:18-21 | `do_public`: raises on an empty line, claims a `!` or `@` line, otherwise defers to the sender test; the three lemmas above state it |
| Ignore.DoPrivate | src/modules/ignore.py:23-30 | `do_private`: the sender test alone; `PrivateIgnoresText` states it |
| Help.GatheredMembers | src/modules/help.py:14-18 | a name is gathered iff some module lists it |
| Help.GatheredPrefix | src/modules/help.py:14-18 | the names of the first modules come first, in module order |
| Help.Aggregate | src/modules/help.py:14-18 | the loop gathers the public and private names in module order |
| Help.JoinOneLine | src/modules/help.py:19-20 | names without newlines join into one line |
| Help.HelpOutputSpec | src/modules/help.py:13-31 | the lowered argument decides: `all`/`both` sends the public line then the private line; otherwise `pub` or a channel target sends the public line; otherwise the private line |
| Help.HelpOutput | src/modules/help.py:11-31 | the text `cmd_list` sends for the argument and target; `HelpOutputSpec` states its branches |
| Help.ChannelShowsPublic | src/modules/help.py:23-24 | in a channel, `priv` still gets the public line |
| Help.CmdList | src/modules/help.py:11-31 | `cmd_list` sends the deliveries of the chosen output to the target |
| UrlParser.WordIsUrl | src/modules/urlparser.py:13-22 | a word is a URL iff it starts with `http://`, `https://` or `www.` in any case and something follows |
| UrlParser.IsUrlExamples | src/modules/urlparser.py:115-128 | `http://google.com` and `www.google.com` are URLs and `asdadadasda` is not |
| UrlParser.IsUrlCaseAndLength | src/modules/urlparser.py:13-18 | the prefix matches in any case, and a bare prefix is not a URL |
| UrlParser.IsUrl | src/modules/urlparser.py:20-22 | `is_url`: the regex match, with `WordIsUrl` stating it for a word |
| UrlParser.UrlsInSpec | src/modules/urlparser.py:29 | the filter keeps exactly the URL words, in order, and distributes over concatenation |
| UrlParser.UrlsInMembers | src/modules/urlparser.py:29 | a word is found exactly when it is in the line and is a URL; never more URLs than words |
| UrlParser.UrlsInAppend | src/modules/urlparser.py:29 | the URLs of two runs of words are the URLs of the first followed by those of the second |
| UrlParser.UnderlinedUrlFound | src/modules/urlparser.py:27-30 | an underlined URL `\x1fhttp://a.bc\x1f` is found as `http://a.bc` |
| UrlParser.UrlBetweenFound | src/modules/urlparser.py:27-30 | a URL framed by any two whitespace characters, U+001C..U+001F included, is the one URL found in that text |
| UrlParser.ParseUrlsSpec | src/modules/urlparser.py:27-30 | the URLs found are exactly the words `is_url` accepts, each non-empty and without whitespace |
| UrlParser.ParseUrls | src/modules/urlparser.py:27-30 | `parse_urls`: the URL words of the line; `ParseUrlsSpec` states it |
| UrlParser.NormalizeUrlSpec | src/modules/urlparser.py:34-37 | the URL requested holds `://`, has no formatting codes, and ends with the stripped URL |
| UrlParser.NormalizeUrlIdempotent | src/modules/urlparser.py:34-37 | normalising twice is normalising once; a clean URL with a scheme is left unchanged |
| UrlParser.NormalizeUrl | src/modules/urlparser.py:34-37 | the URL without colour codes, with `http://` in front when it has no `://`; `NormalizeUrlSpec` states it |
| UrlParser.UrlTitleSpec | src/modules/urlparser.py:32-64 | a request failure shows the requested URL with the exception's text; a parse failure shows `Failed to parse url`; a non-markup answer shows the content type without parameters; a page shows its title, or a fixed text when it has none |
| UrlParser.UrlTitle | src/modules/urlparser.py:32-64 | `find_url_title` with the request as `fetch`: the short URL and the title or the error text; `UrlTitleSpec` states each branch |
| UrlParser.RepliesSpec | src/modules/urlparser.py:97-102 | there is one reply per URL, each for the URL at its place |
| UrlParser.SentSpec | src/modules/urlparser.py:102 | every reply makes at least one message; one-line replies make exactly one message each, in order |
| UrlParser.ReplyNonEmpty | src/modules/urlparser.py:102 | a reply is never empty |
| UrlParser.UrlMessagesSpec | src/modules/urlparser.py:97-104 | every URL gets a reply; with one-line titles there is exactly one message per URL, in order |
| UrlParser.UrlMessagesSnoc | src/modules/urlparser.py:99-102 | one more URL adds its reply's messages at the end |
| UrlParser.DoUrls | src/modules/urlparser.py:97-104 | the line is claimed iff there is a URL, and the replies for the URLs are sent in order |
| UrlParser.SendReply | src/modules/urlparser.py:100-102 | one iteration sends the reply for one URL |
| UrlParser.TitleMessagesSpec | src/modules/urlparser.py:86-91 | an empty argument gets only `No url in argument`; every word of a non-empty argument is looked up, URL or not |
| UrlParser.SendNoUrl | src/modules/urlparser.py:88-89 | the complaint is one message |
| UrlParser.CmdTitle | src/modules/urlparser.py:86-91 | `cmd_title` sends the complaint for an empty argument and then the replies for its words; it claims iff there is a word |
| UrlParser.CmdUrl | src/modules/urlparser.py:93-95 | `cmd_url` sends what `cmd_title` sends |
| UrlParser.DoPublicSpec | src/modules/urlparser.py:76-84 | a public line is claimed iff it is a command to the bot or holds a URL word; URL replies are for URL words of the line only; nothing raises |
| UrlParser.DoPublic | src/modules/urlparser.py:76-84 | `do_public`: a routed command first, otherwise a claim exactly when the line has URLs; `DoPublicSpec` states it |
| Dnd.DigitsOfNat | src/modules/dnd.py:21-22 | reading back the decimal digits of a natural number gives the number |
| Dnd.ParseIntRoundTrip | src/modules/dnd.py:21-22 | `int` reads back what `%s` prints for any integer |
| Dnd.ParseNat | src/modules/dnd.py:21-22 | the digits of a non-negative number read back as that number |
| Dnd.ParseNegative | src/modules/dnd.py:21-22 | a minus sign before the digits of a positive number reads back as its negation |
| Dnd.ParseIntRefuses | src/modules/dnd.py:21-26 | a word that does not start with a digit or a sign is refused |
| Dnd.ParseInt | src/modules/dnd.py:21-22 | `int()` on a word: an optional sign and ASCII digits, otherwise a ValueError (`None`); `ParseIntRoundTrip` and `ParseIntRefuses` state it |
| Dnd.RollReply | src/modules/dnd.py:10-59 | the reply of `cmd_roll` for an argument and a die, with the texts as written; `RollReplySpec` states its branches |
| Dnd.VerdictMonotone | src/modules/dnd.py:47-56 | a better modifier never turns a success into a failure; 20 and 1 are criticals whatever the numbers |
| Dnd.RollReplySpec | src/modules/dnd.py:18-59 | too few words or a non-number gives the PHB reply before the type is looked at; an unknown type names the lowered type; otherwise the reply names the die and is a success iff the die is 20, or is not 1 and die + modifier reaches the difficulty |
| Dnd.VerdictEnds | src/modules/dnd.py:47-56 | the four verdict texts end differently, so the end of the reply tells success from failure |
| Dnd.AttackBeforeSave | src/modules/dnd.py:29-42 | `att` is tested before `sav`: `attsave` is an attack, `save` a save, `dance` neither |
| Dnd.VerdictOneLine | src/modules/dnd.py:47-56 | no verdict text has a newline |
| Dnd.RollReplyOneLine | src/modules/dnd.py:59 | every reply is one non-empty line |
| Dnd.CmdRoll | src/modules/dnd.py:10-59 | `cmd_roll` sends exactly one message, the reply for the argument and the die |
| LogSetup.DigitRun | src/logsetup.py:17-18 | `\d{1,2}` takes the leading digits greedily, up to two |
| LogSetup.ColorArgLength | src/logsetup.py:16-19 | what follows a colour code is never longer than the rest of the line |
| LogSetup.StripColors | src/logsetup.py:9-21 | the stripped text is no longer than the input and holds none of the six control characters |
| LogSetup.StripColorsClean | src/logsetup.py:9-21 | text without control characters is left alone |
| LogSetup.StripColorsIdempotent | src/logsetup.py:9-21 | stripping twice is stripping once |
| LogSetup.ColorCommaKept | src/logsetup.py:18-19 | a comma with no digit after it is kept |
| LogSetup.ColorTwoDigits | src/logsetup.py:17 | a colour code takes two digits at most, and a third digit is text |
| LogSetup.ColorWithBackground | src/logsetup.py:16-19 | a foreground, a comma and a background are removed with the code |
| LogSetup.LowLevelPasses | src/logsetup.py:24-32 | `LowLevelFilter` on the unformatted `msg`: no `_dispatcher` and no `command:`; `ServerTrafficDropped` and `FromServerPrinted` use it |
| LogSetup.PingPongPasses | src/logsetup.py:34-42 | `PingPongFilter` on the message: no `PING` and no `PONG` |
| LogSetup.PrivMsgPasses | src/logsetup.py:44-53 | `PrivMsgFilter` on the message: no `PRIVMSG` |
| LogSetup.ClientOutput | src/logsetup.py:112-117 | the client logger judges a record by its three filters before its handler formats it; the lemmas below state what comes out |
| LogSetup.ServerTrafficDropped | src/logsetup.py:34-53 | a record whose message holds a server line with a `PRIVMSG`, `PING` or `PONG` field is dropped by the filters and never reaches the formatter |
| LogSetup.FromServerPrinted | src/logsetup.py:112-117 | a `FROM SERVER: ` record of a line with three fields, whose msg and message pass the filters and whose message has no `TO SERVER`, is printed as `CLIENT   ` and the line's short form |
| LogSetup.DropColons | src/logsetup.py:73-75 | the colon loop leaves a suffix with no leading colon, and removes colons only |
| LogSetup.SourceNick | src/logsetup.py:67-69 | the source is the prefix's field after its first character, cut at `!`, and `""` when there is no `!` |
| LogSetup.SourceNickOf | src/logsetup.py:67-69 | from `:nick!user@host` the source is `nick` |
| LogSetup.ShownCommand | src/logsetup.py:80-83 | the command is at most eleven characters after numeric mapping |
| LogSetup.ServerFieldsSpec | src/logsetup.py:63-93 | a line is taken apart iff it has three fields; the source has no `!`; the command fits eleven columns; there is no message without a fourth field; the message is colour-free; the text starts with the padded command |
| LogSetup.ServerLineFromUser | src/logsetup.py:63-93 | a message from a user is shown as the padded command, `nick: ` and the text |
| LogSetup.UserFields | src/logsetup.py:63-80 | a line from `nick!host` splits into the nick, the command unchanged, the target and the message without its colon |
| LogSetup.ServerLineJoin | src/logsetup.py:63-93 | a join is shown as `JOIN`, then the nick, then `joined channel`, then the channel |
| LogSetup.JoinText | src/logsetup.py:85-87 | the text of a join without a message |
| LogSetup.FormattedSpec | src/logsetup.py:61-96 | the handler's text starts with `CLIENT   `; a record saying both `FROM SERVER` and `TO SERVER` fails; an ordinary record is shown as is; a server line shows iff it has three fields |
| LogSetup.ServerLine | src/logsetup.py:61-93 | the short form of a `FROM SERVER` line, or none when it has fewer than three fields; `ServerFieldsSpec`, `ServerLineFromUser` and `ServerLineJoin` state it |
| LogSetup.Formatted | src/logsetup.py:61-96 | `ServerMsgFormatter.format` behind `CLIENT   `; `FormattedSpec` states its cases |
| LogSetup.DecomposeServerLine | src/logsetup.py:63-93 | the decomposition with its colon-stripping loop computes the shortened server line |
| LogSetup.FormatRecord | src/logsetup.py:61-96 | the formatter followed by the handler's layout computes the text shown |
| Modules.Dispatched | src/modules/basemodule.py:155-162 | a routed command claims the line, a missing handler leaves it unclaimed, and routing never raises |
| Modules.OutcomeByKind | src/modules/basemodule.py:80-98 | the base context never claims; the update context never claims a public line; a command context claims exactly what the router routes, by calling that handler; only the ignore context raises |
| Modules.RoutedPrivately | src/modules/basemodule.py:238-243 | every command context routes its private lines |
| Modules.OnPubmsg | src/modules/basemodule.py:231-236 | `on_pubmsg`: a fresh context's `do_public`, by the kind of context; `OutcomeByKind` states it |
| Modules.OnPrivmsg | src/modules/basemodule.py:238-243 | `on_privmsg`: a fresh context's `do_private`; `RoutedPrivately` states it |
| Modules.ActivateModules | src/modules/__init__.py:18-41 | the import loop computes the modules and tables activated from the list of names |
| Modules.ActivatedAppend | src/modules/__init__.py:23-28 | activation is a left-to-right pass: two lists give the modules of both, in order, and the second's tables update the first's |
| Modules.SkippedNameChangesNothing | src/modules/__init__.py:29-40 | a name that fails to import, or has no `module`, is skipped, and the names after it are still activated |
| Modules.ModuleWithoutAlternatives | src/modules/__init__.py:27-37 | a module without `alternatives_dict` is still activated and adds no alternatives |
| Modules.LaterTableWins | src/modules/__init__.py:28 | for a key of the last table, that table's list is kept whole, with no concatenation |
| Modules.ActivatedFromNames | src/modules/__init__.py:23-27 | every activated module came from some name, and there are no more modules than names |
| Modules.ResolveSuffixed | src/modules/basemodule.py:180-181 | an existing suffixed name is the one resolved |
| Modules.ResolveFallback | src/modules/basemodule.py:180-181 | without the suffixed name, the plain name is resolved |
| Modules.HiddenStillRoutes | src/modules/basiccmds.py:46-48 | a hidden command is hidden from help only: a private `die` calls `cmd_die_private` |
| Modules.DieResolves | src/modules/basiccmds.py:68 | `die` with the private suffix resolves to the hidden `cmd_die_private` |
| Modules.EchoResolves | src/modules/basiccmds.py:16 | a private `echo` falls back to `cmd_echo` |
| Modules.EchoRoutes | src/modules/basiccmds.py:16-25 | a private `echo hi` calls `cmd_echo` with `hi` |
| Modules.SayPublicResolves | src/modules/basiccmds.py:27 | `say_public` with the private suffix falls back to `cmd_say_public` |
| Modules.SayPublicInPrivate | src/modules/basemodule.py:180-181 | a private `say_public hi` calls `cmd_say_public` with `hi` |
| Bot.NormalizeChannel | src/fidibot.py:26-28 | the channel always starts with `#`; it is prefixed only when it lacks one; an empty name raises |
| Bot.NormalizeChannelIdempotent | src/fidibot.py:26-28 | a normalised channel stays as it is |
| Bot.ChainOf | src/fidibot.py:110-113 | the chain is unhandled iff no module claims; otherwise it stops at the first module that claims or raises, and every earlier module was unclaimed |
| Bot.ChainStopsAt | src/fidibot.py:126-129 | the first outcome that is not "unclaimed" decides the chain |
| Bot.ChainIgnoresLater | src/fidibot.py:110-113 | modules after the stopping point play no part |
| Bot.InterpolateSpec | src/fidibot.py:123 | `%` puts the argument verbatim in place of the one `%s` |
| Bot.InterpolateRefuses | src/fidibot.py:148 | a format without `%` cannot take an argument |
| Bot.Interpolate | src/fidibot.py:123 | `fmt % arg` for one string argument; `InterpolateSpec` and `InterpolateRefuses` state it |
| Bot.Said | src/fidibot.py:119-150 | a reply `c.privmsg(target, _(fmt) % arg)`: one message with a text some alternative formats to, or nothing sent when the choice or `%` raises; `Bot.FidiBot.Say` ensures it |
| Bot.RendersUnlisted | src/alternatives.py:28-32 | a format string without alternatives is sent as written, formatted |
| Bot.WelcomeVariants | src/fidibot.py:148 | with the built-in table, a newcomer is greeted in one of exactly three ways, with the nick verbatim |
| Bot.PrivateFallback | src/fidibot.py:115-123 | the fallback reply goes to the sender: a hint when the IRC-lowered first token holds the callsign, otherwise "I don't understand" with that token |
| Bot.PublicFallback | src/fidibot.py:131-139 | there is a reply iff the nick has no `github` in any case, the IRC-lowered text holds the callsign, and the duh throttle lets the sender through; the reply is "Duh!" to the channel |
| Bot.GithubNeverAnswered | src/fidibot.py:131-133 | a nick that holds `github` in any case is never answered |
| Bot.JoinReply | src/fidibot.py:141-151 | no reply to a GitHub bot; someone else is welcomed iff the join throttle lets them through; the bot's own join asks the last kicker iff there is one |
| Bot.KickAskedOnce | src/fidibot.py:72-77 | after a kick, the bot asks the kicker on its next own join, and not on the join after that |
| Bot.OtherKickForgotten | src/fidibot.py:75-76 | someone else's kick leaves the memory alone |
| Bot.NoticeReply | src/fidibot.py:94-100 | the password is sent iff NickServ asks for identification and a password is set, and then as `identify <password>` to NickServ |
| Bot.PasswordOnlyToNickServ | src/fidibot.py:95-100 | the password never goes to anyone but NickServ |
| Bot.PingsStayBounded | src/fidibot.py:53-70 | the pending-ping count stays within 0..2 |
| Bot.SilentServerDisconnects | src/fidibot.py:57-67 | a silent server gets two pings and then a disconnect, which resets the count |
| Bot.AnsweredNeverDisconnects | src/fidibot.py:57-70 | a server that answers each ping before the next tick is never dropped |
| Bot.CollisionUnderscored | src/fidibot.py:79-83 | a collision appends one underscore, keeping the nick "wanted nick plus underscores" |
| Bot.ChangebackLandsOnWanted | src/fidibot.py:85-89 | a nick of that shape without a trailing underscore is the wanted nick already |
| Bot.StartupOrder | src/fidibot.py:37-44 | the module alternatives are merged before the file alternatives: a key all three tables list holds the built-in list, then the modules', then the files' |
| Bot.FidiBot.constructor | src/fidibot.py:24-55 | the settings and normalised channel; the modules activated; the store merged with the modules' then the files' alternatives; the index built from the modules; two empty throttles on one clock; no pings and no kicker |
| Bot.FidiBot.Say | src/fidibot.py:119 | a reply picks an alternative and formats it, and sends that one text or nothing when it raises |
| Bot.FidiBot.Keepalive | src/fidibot.py:57-67 | with two pings pending, disconnect and reset; otherwise ping and count when connected; nothing else changes |
| Bot.FidiBot.OnPong | src/fidibot.py:69-70 | a pong resets the count |
| Bot.FidiBot.OnKick | src/fidibot.py:72-77 | the kicker is remembered only when the bot was kicked; a rejoin is always scheduled |
| Bot.FidiBot.OnNicknameInUse | src/fidibot.py:79-83 | the nick gains one underscore, is requested, and a change-back is scheduled |
| Bot.FidiBot.ChangebackNickname | src/fidibot.py:85-89 | the bot ends on its wanted nick, and requests it only when the current one ends in `_` |
| Bot.FidiBot.OnWelcome | src/fidibot.py:91-92 | the channel is joined |
| Bot.FidiBot.OnBannedFromChan | src/fidibot.py:153-154 | a rejoin of the channel is scheduled |
| Bot.FidiBot.OnPrivnotice | src/fidibot.py:94-107 | NickServ's request is answered with the password when there is one; its confirmation sets `identified`; nothing else is sent |
| Bot.FidiBot.OnPrivmsg | src/fidibot.py:109-123 | the modules are offered the message in order up to the first that claims it or raises; only an unhandled message gets the fallback reply |
| Bot.FidiBot.OnPubmsg | src/fidibot.py:125-139 | the same chain; an unhandled message that mentions the bot asks the duh throttle and says "Duh!" unless throttled; otherwise nothing is sent and the throttle is untouched |
| Bot.FidiBot.OnJoin | src/fidibot.py:141-151 | someone else's join asks the join throttle and welcomes them unless throttled; the bot's own join asks the last kicker and forgets them; a GitHub bot changes nothing |
| Bot.FidiBot.OwnJoin | src/fidibot.py:149-151 | the bot's own join asks the kicker once, if there is one, and clears the memory |
| Bot.FidiBot.WelcomeJoin | src/fidibot.py:146-148 | someone else's join is welcomed unless the join throttle holds them |

## Left out

- The IRC transport and its scheduling (`SingleServerIRCBot`, `execute_delayed`, `execute_every`, `set_rate_limit`, the real `ping`, `join`, `nick`, `disconnect`): sends are appended to `Connection.sent`, and the requests the handlers make are recorded as `Action`s. The constructor records none: the five-second rate-limit setup, the `execute_every(300, self._keepalive)` registration and the realname passed to the library are not recorded, and `Keepalive` is a method the environment calls.
- `connection.ping` raising `ServerNotConnectedError`: modelled by the `connected` parameter of `Keepalive`.
- `c.get_nickname()` is taken to be the bot's `nickname` field. The time between a requested nick and the server's confirmation, and a request the server refuses, are not modelled.
- Randomness: `random.choice` is "some element of the list" (`RandomAlternative`); `random.randint(1, 20)` is the `die` parameter of `CmdRoll`.
- Python `%` formatting is modelled for one `%s` only (`Interpolate`); a conversion other than one `%s` is treated as raising. Module sends take the already formatted output.
- Python 2's `UnicodeEncodeError` on a non-ASCII command is treated as "no handler", since handler names are ASCII.
- `str.lower`, the digits `int()` accepts and the regex class `\d` are ASCII only. `split()` and `\S` on the `unicode` lines treat as whitespace the six ASCII characters and U+001C to U+001F. The non-ASCII whitespace (U+0085, U+00A0, U+2000 to U+200A and the like) and the non-ASCII decimal digits that Python 2 reads in a `unicode` token are not modelled.
- The iteration order of the `functions` dict in `build_module_index` (src/introspect.py:111, 117 and 124) is unspecified in Python 2: the model iterates the attributes in the order given. On a command-name clash inside one module the bucket keeps the later entry in that order.
- `clean_duplicates`, `list_commands` and `escape` are called but not defined in the source files: the bot's alternatives are stated before any pruning, `cmd_list` takes each module's command lists as input, and the logged escape is left out.
- `read_files` is not part of this model: its table is the `files` parameter of the bot's constructor.
- Module imports (`__import__`) are the `importer` parameter of `ActivateModules`.
- The HTTP requests, BeautifulSoup and the goo.gl shortener are the `fetch` and `shorten` parameters of the URL parser.
- The numeric-reply table of the IRC library is the `numeric` parameter of the log formatter.
- `setup_logging`, `setup_client_logging`, `get_args`, `main` and `get_version`: configuration and entry points with no logic to prove.
- Handler bodies are not run by the chain: a module's claim records which handler it invoked with which argument, or which URLs it answers. `cmd_roll`, `cmd_list`, `cmd_title` and `cmd_url` are modelled as methods of their own.
- Bot.FidiBot.OwnJoin: clears the last kicker even when the question raises in `_()` or `%`; the source raises before `self._last_kicker = ''` and so keeps it, but the exception leaves the handler and the bot, so the state after it is not modelled.
- Dnd.RollReply: the texts of `cmd_roll` are the format strings as written; the `_()` lookup of an alternative for each of them (src/modules/dnd.py:24, 30-40, 59) is not modelled, so an alternative loaded from the modules or the files would change the text sent.
- Dnd.RollReplySpec: states the verdict texts as written, not an alternative `_()` may choose for them.
- Dnd.CmdRoll: "exactly one message" holds for the texts as written; an alternative with a newline in it, or one that `%` cannot format, is not modelled.
- Bot.FidiBot.constructor: requires a non-empty channel name; the source raises `IndexError` there (stated separately by `NormalizeChannel`).
- `BaseModule.is_admin`: the admin pool is modelled in `Auth`, and the bot in the source has no `admins` attribute to connect it to.
- The update module's `cmd_update_private` (disconnect and `SystemExit(42)`) and its delayed self-update on a GitHub push: the model keeps only that its `do_public` never claims and that its private commands are routed.
- The commands of basiccmds.py, weather.py, fail.py, template.py and empty.py are not modelled; the basic commands' names and `hidden` flags serve as fixture data for the router and the index.
- Logging calls (`log.debug`, `log.warning` and the rest) produce no modelled output.
- Password `None` for the bot is modelled as `""`; both are falsy where the source tests them.
