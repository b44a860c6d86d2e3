/**
 * The URL parser module (src/modules/urlparser.py): it answers every
 * public line holding URLs with a shortened link and the page title for
 * each, and offers the `title` and `url` commands for the same on demand.
 *
 * The HTTP requests, the HTML parsing and the link shortener are
 * parameters: `fetch` says what the requests for a URL came back with and
 * `shorten` what the shortener answered.
 */
module UrlParser {
  import opened Text
  import opened Wrappers
  import opened BaseModule
  import opened LogSetup

  // ------------------------------------------------------------ is_url

  /** `\S+$` after the scheme: non-whitespace to the end, or to a final newline. */
  predicate RestMatches(rest: string) {
    (rest != [] && NoSpace(rest))
    || (|rest| >= 2 && rest[|rest| - 1] == '\n' && NoSpace(rest[..|rest| - 1]))
  }

  /** `is_url`: `http://`, `https://` or `www.` in any case, then non-whitespace to the end. */
  predicate IsUrl(token: string) {
    var t := Lower(token);
    (StartsWith(t, "https://") && RestMatches(token[8..]))
    || (StartsWith(t, "http://") && RestMatches(token[7..]))
    || (StartsWith(t, "www.") && RestMatches(token[4..]))
  }

  /** For a word (no whitespace, as `split()` yields), being a URL is having one of the prefixes and more after it. */
  lemma WordIsUrl(w: string)
    requires w != [] && NoSpace(w)
    ensures IsUrl(w) <==>
              (StartsWith(Lower(w), "https://") && |w| > 8)
              || (StartsWith(Lower(w), "http://") && |w| > 7)
              || (StartsWith(Lower(w), "www.") && |w| > 4)
  {
    forall k | 0 <= k <= |w|
      ensures NoSpace(w[k..])
    {
      assert forall i :: 0 <= i < |w| - k ==> w[k..][i] == w[k + i];
    }
  }

  /** The module's own cases: `http://google.com` and `www.google.com` are URLs, `asdadadasda` is not. */
  lemma IsUrlExamples()
    ensures IsUrl("http://google.com")
    ensures IsUrl("www.google.com")
    ensures !IsUrl("asdadadasda")
  {
    HttpExample();
    WwwExample();
    PlainWordExample();
  }

  lemma PlainWordExample()
    ensures !IsUrl("asdadadasda")
  {
    assert Lower("asdadadasda")[0] == 'a';
  }

  lemma HttpExample()
    ensures IsUrl("http://google.com")
  {
    var w := "http://google.com";
    assert NoSpace(w);
    WordIsUrl(w);
    LowerKeepsPrefix(w, "http://");
  }

  lemma WwwExample()
    ensures IsUrl("www.google.com")
  {
    var w := "www.google.com";
    assert NoSpace(w);
    WordIsUrl(w);
    LowerKeepsPrefix(w, "www.");
  }

  /** The prefix is matched in any case, and something must follow it. */
  lemma IsUrlCaseAndLength()
    ensures IsUrl("HTTPS://x")
    ensures !IsUrl("http://")
  {
    var w := "HTTPS://x";
    assert Lower(w) == "https://x";
    assert w[8..] == "x";
    assert "http://"[7..] == "";
    assert Lower("http://") == "http://";
    assert !StartsWith("http://", "www.") by { assert "http://"[..4][0] == 'h'; }
    assert !RestMatches("");
  }

  // --------------------------------------------------------- parse_urls

  /** The words that are URLs, in order. */
  function UrlsIn(words: seq<string>): seq<string>
    decreases |words|
  {
    if words == [] then []
    else (if IsUrl(words[0]) then [words[0]] else []) + UrlsIn(words[1..])
  }

  /** The filter keeps exactly the URLs, in their order, and splits over concatenation. */
  lemma UrlsInSpec(words: seq<string>, more: seq<string>)
    ensures forall x :: x in UrlsIn(words) <==> x in words && IsUrl(x)
    ensures |UrlsIn(words)| <= |words|
    ensures UrlsIn(words + more) == UrlsIn(words) + UrlsIn(more)
  {
    UrlsInMembers(words);
    UrlsInAppend(words, more);
  }

  /** The URLs found are exactly the URL words, and there are no more of them than words. */
  lemma {:induction false} UrlsInMembers(words: seq<string>)
    ensures forall x :: x in UrlsIn(words) <==> x in words && IsUrl(x)
    ensures |UrlsIn(words)| <= |words|
    decreases |words|
  {
    if words != [] {
      UrlsInMembers(words[1..]);
      var head := if IsUrl(words[0]) then [words[0]] else [];
      assert UrlsIn(words) == head + UrlsIn(words[1..]);
      assert words == [words[0]] + words[1..];
    }
  }

  /** The filter distributes over concatenation. */
  lemma {:induction false} UrlsInAppend(words: seq<string>, more: seq<string>)
    ensures UrlsIn(words + more) == UrlsIn(words) + UrlsIn(more)
    decreases |words|
  {
    if words == [] {
      assert words + more == more;
    } else {
      UrlsInAppend(words[1..], more);
      var head := if IsUrl(words[0]) then [words[0]] else [];
      assert (words + more)[0] == words[0];
      assert (words + more)[1..] == words[1..] + more;
      assert UrlsIn(words + more) == head + UrlsIn(words[1..] + more);
      assert UrlsIn(words) == head + UrlsIn(words[1..]);
    }
  }

  /** `parse_urls`: the whitespace-separated words of the line that are URLs. */
  function ParseUrls(txt: string): seq<string> {
    UrlsIn(Words(txt))
  }

  /** An underlined URL, as IRC clients send it, is found without its underline codes. */
  lemma UnderlinedUrlFound()
    ensures ParseUrls("\U{001F}http://a.bc\U{001F}") == ["http://a.bc"]
  {
    var w := "http://a.bc";
    UnderlineExampleIsUrl();
    assert "\U{001F}http://a.bc\U{001F}" == ['\U{001F}'] + w + ['\U{001F}'];
    UrlBetweenFound('\U{001F}', w, '\U{001F}');
  }

  lemma UnderlineExampleIsUrl()
    ensures NoSpace("http://a.bc") && IsUrl("http://a.bc")
  {
    var w := "http://a.bc";
    assert NoSpace(w);
    WordIsUrl(w);
    LowerKeepsPrefix(w, "http://");
  }

  /** A URL framed by two whitespace characters is the one URL of that text. */
  lemma UrlBetweenFound(c: char, w: string, d: char)
    requires IsWordSpace(c) && IsWordSpace(d) && w != [] && NoSpace(w) && IsUrl(w)
    ensures ParseUrls([c] + w + [d]) == [w]
  {
    WordsBetween(c, w, d);
    UrlsInSingle(w);
  }

  /** A single word is kept exactly when it is a URL. */
  lemma UrlsInSingle(w: string)
    ensures UrlsIn([w]) == if IsUrl(w) then [w] else []
  {
    assert [w][1..] == [];
  }

  /** Every URL found is a non-empty word of the line that `is_url` accepts, and every such word is found. */
  lemma ParseUrlsSpec(txt: string)
    ensures forall u :: u in ParseUrls(txt) <==> u in Words(txt) && IsUrl(u)
    ensures forall k :: 0 <= k < |ParseUrls(txt)| ==> ParseUrls(txt)[k] != "" && NoSpace(ParseUrls(txt)[k])
  {
    var ws := Words(txt);
    UrlsInSpec(ws, []);
    forall k | 0 <= k < |ParseUrls(txt)|
      ensures ParseUrls(txt)[k] != "" && NoSpace(ParseUrls(txt)[k])
    {
      assert ParseUrls(txt)[k] in ws;
    }
  }

  // ----------------------------------------------------- find_url_title

  /**
   * The URL that is requested: formatting codes stripped, and `http://`
   * put in front unless it already holds `://`.
   */
  function NormalizeUrl(url: string): string {
    var s := StripColors(url);
    if Contains(s, "://") then s else "http://" + s
  }

  /** The requested URL has a scheme separator and no formatting, and ends with the stripped URL. */
  lemma NormalizeUrlSpec(url: string)
    ensures var u := NormalizeUrl(url);
            && Contains(u, "://")
            && (forall i :: 0 <= i < |u| ==> !IsControl(u[i]))
            && EndsWith(u, StripColors(url))
  {
    var s := StripColors(url);
    if !Contains(s, "://") {
      SchemePrepended(s);
    }
  }

  /** `http://` in front of a clean URL: the separator is there, no formatting is added, and the URL ends the result. */
  lemma SchemePrepended(s: string)
    requires forall i :: 0 <= i < |s| ==> !IsControl(s[i])
    ensures var u := "http://" + s;
            && Contains(u, "://")
            && (forall i :: 0 <= i < |u| ==> !IsControl(u[i]))
            && EndsWith(u, s)
  {
    var u := "http://" + s;
    assert u[4..7] == "://";
    ContainsAt(u, "://", 4);
    assert u[|u| - |s|..] == s;
    assert forall i :: 7 <= i < |u| ==> u[i] == s[i - 7];
  }

  /** Normalising twice is normalising once; a URL with a scheme and no formatting is unchanged. */
  lemma NormalizeUrlIdempotent(url: string)
    ensures NormalizeUrl(NormalizeUrl(url)) == NormalizeUrl(url)
    ensures (forall i :: 0 <= i < |url| ==> !IsControl(url[i])) && Contains(url, "://") ==> NormalizeUrl(url) == url
  {
    NormalizeUrlSpec(url);
    StripColorsClean(NormalizeUrl(url));
    if forall i :: 0 <= i < |url| ==> !IsControl(url[i]) {
      StripColorsClean(url);
    }
  }

  /**
   * What the requests for a URL came back with: a `RequestException`
   * (with its docstring), a `ValueError`, or the HEAD response's URL and
   * content type together with the GET response's URL and the stripped
   * text of the page's `<title>`, if the page has one.
   */
  datatype Response =
    | RequestFailed(doc: string)
    | Invalid
    | Responded(headUrl: string, contentType: Option<string>, pageUrl: string, title: Option<string>)

  const NoTitle: string := "Could not find page title!"

  /** A content type that names neither HTML nor XML: the HEAD answer is the reply. */
  predicate NotMarkup(contentType: Option<string>) {
    contentType.Some? && contentType.value != ""
    && !Contains(contentType.value, "html") && !Contains(contentType.value, "xml")
  }

  /** `find_url_title`: the URL to show and the title to show with it. */
  function UrlTitle(url: string, fetch: string -> Response): (string, string) {
    var u := NormalizeUrl(url);
    match fetch(u)
    case RequestFailed(doc) => (u, doc)
    case Invalid => (u, "Failed to parse url")
    case Responded(headUrl, contentType, pageUrl, title) =>
      if NotMarkup(contentType) then (headUrl, Split(contentType.value, ';')[0])
      else (pageUrl, if title.None? || title.value == "" then NoTitle else title.value)
  }

  /**
   * Where each answer of the requests leads: a failure shows the requested
   * URL; a non-markup answer shows the content type without parameters; a
   * page shows its title, or a fixed text when it has none.
   */
  lemma UrlTitleSpec(url: string, fetch: string -> Response)
    ensures var (shown, title) := UrlTitle(url, fetch);
            var u := NormalizeUrl(url);
            && (fetch(u).RequestFailed? ==> shown == u && title == fetch(u).doc)
            && (fetch(u).Invalid? ==> shown == u && title == "Failed to parse url")
            && (fetch(u).Responded? && NotMarkup(fetch(u).contentType) ==>
                  shown == fetch(u).headUrl && ';' !in title && StartsWith(fetch(u).contentType.value, title))
            && (fetch(u).Responded? && !NotMarkup(fetch(u).contentType) ==>
                  shown == fetch(u).pageUrl && title != "")
  {
    var u := NormalizeUrl(url);
    if fetch(u).Responded? && NotMarkup(fetch(u).contentType) {
      var ct := fetch(u).contentType.value;
      SplitPiecesFree(ct, ';');
      JoinSplit(ct, ';', -1);
      JoinStartsWithFirst(Split(ct, ';'), [';']);
    }
  }

  /** A join starts with its first part. */
  lemma JoinStartsWithFirst(parts: seq<string>, sep: string)
    requires parts != []
    ensures StartsWith(Join(sep, parts), parts[0])
  {
    if |parts| > 1 {
      assert Join(sep, parts) == parts[0] + (sep + Join(sep, parts[1..]));
    }
  }

  // ---------------------------------------------------------- _do_urls

  /** `shorten`: the short link, or the long one when the shortener reports an error (`None`). */
  function ShortUrl(long: string, shorten: string -> Option<string>): string {
    shorten(long).GetOr(long)
  }

  /** The reply for one URL: the short link and the title. */
  function Reply(url: string, fetch: string -> Response, shorten: string -> Option<string>): string {
    var (shown, title) := UrlTitle(url, fetch);
    ShortUrl(shown, shorten) + " -- " + title
  }

  /** The replies for `urls`, in order. */
  function Replies(urls: seq<string>, fetch: string -> Response, shorten: string -> Option<string>): seq<string>
    decreases |urls|
  {
    if urls == [] then []
    else Replies(urls[..|urls| - 1], fetch, shorten) + [Reply(urls[|urls| - 1], fetch, shorten)]
  }

  /** One reply per URL, each for the URL at its place. */
  lemma {:induction false} RepliesSpec(urls: seq<string>, fetch: string -> Response, shorten: string -> Option<string>)
    ensures |Replies(urls, fetch, shorten)| == |urls|
    ensures forall i :: 0 <= i < |urls| ==> Replies(urls, fetch, shorten)[i] == Reply(urls[i], fetch, shorten)
    decreases |urls|
  {
    if urls != [] {
      var init := urls[..|urls| - 1];
      RepliesSpec(init, fetch, shorten);
      var r := Replies(urls, fetch, shorten);
      assert r == Replies(init, fetch, shorten) + [Reply(urls[|urls| - 1], fetch, shorten)];
      forall i | 0 <= i < |urls|
        ensures r[i] == Reply(urls[i], fetch, shorten)
      {
        if i < |init| {
          assert init[i] == urls[i];
        }
      }
    }
  }

  /** The messages that sending `replies` one after another makes. */
  function Sent(target: string, replies: seq<string>): seq<Message>
    decreases |replies|
  {
    if replies == [] then []
    else Sent(target, replies[..|replies| - 1]) + Deliveries(target, replies[|replies| - 1])
  }

  /** Every reply makes one message at least; one-line replies make exactly one message each, in order. */
  lemma {:induction false} SentSpec(target: string, replies: seq<string>)
    ensures |Sent(target, replies)| >= |replies|
    ensures (forall i :: 0 <= i < |replies| ==> '\n' !in replies[i] && replies[i] != "") ==>
              && |Sent(target, replies)| == |replies|
              && forall i :: 0 <= i < |replies| ==> Sent(target, replies)[i] == Message(target, replies[i])
    decreases |replies|
  {
    if replies != [] {
      var init := replies[..|replies| - 1];
      var last := replies[|replies| - 1];
      SentSpec(target, init);
      DeliveriesSpec(target, last);
      if forall i :: 0 <= i < |replies| ==> '\n' !in replies[i] && replies[i] != "" {
        assert forall i :: 0 <= i < |init| ==> init[i] == replies[i];
        DeliveriesSingle(target, last);
      }
    }
  }

  /** The messages the replies for `urls` make, one reply after another. */
  function UrlMessages(target: string, urls: seq<string>, fetch: string -> Response,
                       shorten: string -> Option<string>): seq<Message>
  {
    Sent(target, Replies(urls, fetch, shorten))
  }

  /** A reply is never empty: it holds the ` -- ` between link and title. */
  lemma ReplyNonEmpty(url: string, fetch: string -> Response, shorten: string -> Option<string>)
    ensures Reply(url, fetch, shorten) != ""
  {
    var (shown, title) := UrlTitle(url, fetch);
    assert |ShortUrl(shown, shorten) + " -- " + title| >= 4;
  }

  /** Every URL gets a reply; with one-line titles the replies are exactly one message per URL, in order. */
  lemma UrlMessagesSpec(target: string, urls: seq<string>, fetch: string -> Response,
                        shorten: string -> Option<string>)
    ensures |UrlMessages(target, urls, fetch, shorten)| >= |urls|
    ensures (forall i :: 0 <= i < |urls| ==> '\n' !in Reply(urls[i], fetch, shorten)) ==>
              && |UrlMessages(target, urls, fetch, shorten)| == |urls|
              && forall i :: 0 <= i < |urls| ==>
                   UrlMessages(target, urls, fetch, shorten)[i] == Message(target, Reply(urls[i], fetch, shorten))
  {
    var rs := Replies(urls, fetch, shorten);
    RepliesSpec(urls, fetch, shorten);
    forall i | 0 <= i < |rs|
      ensures rs[i] != ""
    {
      ReplyNonEmpty(urls[i], fetch, shorten);
    }
    SentSpec(target, rs);
  }

  /** `_do_urls`: one reply per URL, and the line is claimed iff there was a URL. */
  method DoUrls(conn: Connection, target: string, urls: seq<string>, fetch: string -> Response,
                shorten: string -> Option<string>) returns (claimed: bool)
    modifies conn
    ensures claimed <==> urls != []
    ensures conn.sent == old(conn.sent) + UrlMessages(target, urls, fetch, shorten)
  {
    if urls == [] {
      return false;
    }
    for i := 0 to |urls|
      invariant conn.sent == old(conn.sent) + UrlMessages(target, urls[..i], fetch, shorten)
    {
      ghost var done := UrlMessages(target, urls[..i], fetch, shorten);
      ghost var more := Deliveries(target, Reply(urls[i], fetch, shorten));
      UrlMessagesSnoc(target, urls, i, fetch, shorten);
      SendReply(conn, target, urls[i], fetch, shorten);
      AppendAssociative(old(conn.sent), done, more);
    }
    assert urls[..|urls|] == urls;
    claimed := true;
  }

  /** One more URL adds its reply's messages at the end. */
  lemma UrlMessagesSnoc(target: string, urls: seq<string>, i: nat, fetch: string -> Response,
                        shorten: string -> Option<string>)
    requires i < |urls|
    ensures UrlMessages(target, urls[..i + 1], fetch, shorten)
            == UrlMessages(target, urls[..i], fetch, shorten) + Deliveries(target, Reply(urls[i], fetch, shorten))
  {
    assert urls[..i + 1][..i] == urls[..i];
    var rs := Replies(urls[..i + 1], fetch, shorten);
    assert rs == Replies(urls[..i], fetch, shorten) + [Reply(urls[i], fetch, shorten)];
    assert rs[..|rs| - 1] == Replies(urls[..i], fetch, shorten);
  }

  lemma AppendAssociative(a: seq<Message>, b: seq<Message>, c: seq<Message>)
    ensures a + b + c == a + (b + c)
  {
  }

  /** The body of the loop of `_do_urls`: title, short link, one `send`. */
  method SendReply(conn: Connection, target: string, url: string, fetch: string -> Response,
                   shorten: string -> Option<string>)
    modifies conn
    ensures conn.sent == old(conn.sent) + Deliveries(target, Reply(url, fetch, shorten))
  {
    var (shown, title) := UrlTitle(url, fetch);
    var short := ShortUrl(shown, shorten);
    Send(conn, target, short + " -- " + title);
  }

  const NoUrl: string := "No url in argument"

  /** The messages of `cmd_title`: a complaint for an empty argument, then the replies for its words. */
  function TitleMessages(target: string, argument: string, fetch: string -> Response,
                         shorten: string -> Option<string>): seq<Message> {
    (if argument == "" then [Message(target, NoUrl)] else []) + UrlMessages(target, Words(argument), fetch, shorten)
  }

  /** An empty argument gets only the complaint; every word of the argument, URL or not, is looked up. */
  lemma TitleMessagesSpec(target: string, argument: string, fetch: string -> Response,
                          shorten: string -> Option<string>)
    ensures TitleMessages(target, "", fetch, shorten) == [Message(target, NoUrl)]
    ensures |TitleMessages(target, argument, fetch, shorten)| >= |Words(argument)|
    ensures argument != "" ==> TitleMessages(target, argument, fetch, shorten) == UrlMessages(target, Words(argument), fetch, shorten)
  {
    UrlMessagesSpec(target, Words(argument), fetch, shorten);
  }

  /** The complaint about an empty argument: one message. */
  method SendNoUrl(conn: Connection, target: string)
    modifies conn
    ensures conn.sent == old(conn.sent) + [Message(target, NoUrl)]
  {
    DeliveriesSingle(target, NoUrl);
    Send(conn, target, NoUrl);
  }

  /** `cmd_title`: the words of the argument are taken as URLs without the `is_url` test. */
  method CmdTitle(conn: Connection, target: string, argument: string, fetch: string -> Response,
                  shorten: string -> Option<string>) returns (claimed: bool)
    modifies conn
    ensures claimed <==> Words(argument) != []
    ensures conn.sent == old(conn.sent) + TitleMessages(target, argument, fetch, shorten)
  {
    if argument == "" {
      SendNoUrl(conn, target);
    }
    var urls := Words(argument);
    claimed := DoUrls(conn, target, urls, fetch, shorten);
  }

  /** `cmd_url`: the same replies as `cmd_title`; its own result is `None`. */
  method CmdUrl(conn: Connection, target: string, argument: string, fetch: string -> Response,
                shorten: string -> Option<string>)
    modifies conn
    ensures conn.sent == old(conn.sent) + TitleMessages(target, argument, fetch, shorten)
  {
    var _ := CmdTitle(conn, target, argument, fetch, shorten);
  }

  // ---------------------------------------------------------- do_public

  /** `UrlParserContext.do_public`: a command to the bot first, otherwise the URLs in the line. */
  function DoPublic(callsign: string, c: Context, table: set<string>): Outcome {
    match RoutePublic(callsign, c.input, table)
    case Some(call) => Claimed(Invoked(call))
    case None =>
      var urls := ParseUrls(c.input);
      if urls != [] then Claimed(UrlReplies(urls)) else Unclaimed
  }

  /** A line is claimed iff it is a command to the bot or holds a URL; URL replies are for URLs only. */
  lemma DoPublicSpec(callsign: string, c: Context, table: set<string>)
    ensures DoPublic(callsign, c, table).Claimed? <==>
              RoutePublic(callsign, c.input, table).Some? || exists w :: w in Words(c.input) && IsUrl(w)
    ensures DoPublic(callsign, c, table).Claimed? && DoPublic(callsign, c, table).claim.UrlReplies? ==>
              forall u :: u in DoPublic(callsign, c, table).claim.urls ==> IsUrl(u) && u in Words(c.input)
    ensures DoPublic(callsign, c, table) != Raised
  {
    ParseUrlsSpec(c.input);
    var urls := ParseUrls(c.input);
    if urls != [] {
      assert urls[0] in urls;
    }
    if exists w :: w in Words(c.input) && IsUrl(w) {
      var w :| w in Words(c.input) && IsUrl(w);
      assert w in ParseUrls(c.input);
    }
  }
}
