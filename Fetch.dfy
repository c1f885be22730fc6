/** Getting a feed's text through a fixed, ordered list of CORS proxies.
    Each proxy request is abstracted to the outcome the network gives it:
    the request threw (network error, abort after the timeout, CORS), or a
    response came back.  A strategy is tried only when every earlier one has
    failed, and the first accepted text is returned. */
module Fetch {
  import opened Wrappers
  import opened Js
  import opened Rss2Json

  // ---------------------------------------------------------------------
  // Outcomes of one request
  // ---------------------------------------------------------------------

  /** The envelope a JSON proxy answers with: `items` and `feed` from the
      RSS2JSON relay, `contents` from AllOrigins' JSON endpoint. */
  datatype Envelope = Envelope(items: Option<seq<Item>>, contents: Option<string>, feed: Option<FeedMeta>)

  /** A response: its status line, its body as text, and what `json()` makes
      of the same body (the parse error message when it is not JSON). */
  datatype Response = Response(ok: bool, status: int, statusText: string, text: string,
                               json: Result<Envelope, string>)

  /** What awaiting the request gives: an exception with its message, or a response. */
  datatype Attempt = Threw(message: string) | Responded(response: Response)

  /** One entry of a proxy list; the request URL built from the feed URL is
      not part of this model. */
  datatype Strategy = Strategy(name: string, parseJson: bool, convertFromJson: bool)

  /** `fetchRSSFeed`'s proxies in app.js, in the order they are tried. */
  const AppProxies: seq<Strategy> := [
    Strategy("AllOrigins", false, false),
    Strategy("AllOrigins-JSON", true, false),
    Strategy("CorsProxy", false, false),
    Strategy("RSS2JSON", true, true),
    Strategy("CodeTabs", false, false),
    Strategy("Direct", false, false)
  ]

  /** `fetchRSSFeed`'s proxies in k-pod, in the order they are tried. */
  const BasicProxies: seq<Strategy> := [
    Strategy("AllOrigins", false, false),
    Strategy("CorsProxy", false, false),
    Strategy("CodeTabs", false, false),
    Strategy("Direct", false, false)
  ]

  /** `fetchWithFallback`'s methods (both files), in the order they are tried. */
  const FallbackMethods: seq<Strategy> := [
    Strategy("Direct", false, false),
    Strategy("AllOrigins", false, false),
    Strategy("CorsProxy", false, false)
  ]

  /** The message of the error thrown for a response that is not ok. */
  function HttpError(resp: Response): string {
    "HTTP " + IntToString(resp.status) + ": " + resp.statusText
  }

  // ---------------------------------------------------------------------
  // Acceptance
  // ---------------------------------------------------------------------

  /** app.js: a text is accepted when its trimmed form is non-empty and opens
      a tag, and the text names an rss, feed or xml declaration tag. */
  function CheckApp(text: string): (r: Result<string, string>)
    ensures r.Success? <==> Trim(text) != "" && StartsWith(Trim(text), "<")
                            && (Contains(text, "<rss") || Contains(text, "<feed") || Contains(text, "<?xml"))
    ensures r.Success? ==> r.value == text
  {
    if Trim(text) == "" then Failure("Empty response")
    else if !StartsWith(Trim(text), "<") then Failure("Response is not XML")
    else if !(Contains(text, "<rss") || Contains(text, "<feed") || Contains(text, "<?xml")) then
      Failure("Response is not RSS/Atom feed")
    else Success(text)
  }

  /** k-pod: no separate emptiness test, and an xml declaration alone does
      not make a feed. */
  function CheckBasic(text: string): (r: Result<string, string>)
    ensures r.Success? <==> StartsWith(Trim(text), "<") && (Contains(text, "<rss") || Contains(text, "<feed"))
    ensures r.Success? ==> r.value == text
  {
    if !StartsWith(Trim(text), "<") then Failure("Response is not XML")
    else if !(Contains(text, "<rss") || Contains(text, "<feed")) then Failure("Response is not RSS/Atom feed")
    else Success(text)
  }

  /** The text a JSON strategy takes from the envelope: the rebuilt document
      when the strategy converts and the envelope has items, otherwise the
      `contents` string when it is set. */
  function DecodeEnvelope(s: Strategy, env: Envelope): Result<string, string> {
    if s.convertFromJson && env.items.Some? then Success(DocumentXml(env.feed, env.items.value))
    else if env.contents.Some? && env.contents.value != "" then Success(env.contents.value)
    else Failure("Unexpected JSON format")
  }

  /** app.js: the text one strategy yields for a response, before acceptance. */
  function DecodeApp(s: Strategy, resp: Response): Result<string, string> {
    if !resp.ok then Failure(HttpError(resp))
    else if s.parseJson then
      (match resp.json
       case Failure(m) => Failure(m)
       case Success(env) => DecodeEnvelope(s, env))
    else Success(resp.text)
  }

  /** app.js: the verdict on one strategy's attempt. */
  function EvaluateApp(s: Strategy, a: Attempt): Result<string, string> {
    match a
    case Threw(m) => Failure(m)
    case Responded(resp) =>
      match DecodeApp(s, resp)
      case Failure(m) => Failure(m)
      case Success(text) => CheckApp(text)
  }

  /** app.js `fetchRSSFeed`: the body of the try block for one proxy, which
      builds the converted document with `convertRSS2JSONToXML`. */
  method AttemptApp(s: Strategy, a: Attempt) returns (r: Result<string, string>)
    ensures r == EvaluateApp(s, a)
  {
    if a.Threw? {
      return Failure(a.message);
    }
    var response := a.response;
    if !response.ok {
      return Failure(HttpError(response));
    }
    var text: string;
    if s.parseJson {
      if response.json.Failure? {
        return Failure(response.json.error);
      }
      var json := response.json.value;
      if s.convertFromJson && json.items.Some? {
        text := ConvertToXml(json.feed, json.items.value);
      } else if json.contents.Some? && json.contents.value != "" {
        text := json.contents.value;
      } else {
        return Failure("Unexpected JSON format");
      }
    } else {
      text := response.text;
    }
    var trimmed := Trim(text);
    if trimmed == "" {
      return Failure("Empty response");
    }
    if !StartsWith(trimmed, "<") {
      return Failure("Response is not XML");
    }
    if !Contains(text, "<rss") && !Contains(text, "<feed") && !Contains(text, "<?xml") {
      return Failure("Response is not RSS/Atom feed");
    }
    return Success(text);
  }

  /** k-pod: the verdict on one proxy's attempt. */
  function EvaluateBasic(a: Attempt): Result<string, string> {
    match a
    case Threw(m) => Failure(m)
    case Responded(resp) => if !resp.ok then Failure(HttpError(resp)) else CheckBasic(resp.text)
  }

  /** `fetchWithFallback`: any response is a success, whatever its status. */
  function EvaluateFallback(a: Attempt): Result<string, string> {
    match a
    case Threw(m) => Failure(m)
    case Responded(resp) => Success(resp.text)
  }

  // ---------------------------------------------------------------------
  // The fallback loops
  // ---------------------------------------------------------------------

  /** Entry k of rs is the first success. */
  predicate FirstSuccessAt(rs: seq<Result<string, string>>, k: int) {
    0 <= k < |rs| && rs[k].Success? && forall j :: 0 <= j < k ==> rs[j].Failure?
  }

  predicate AllFailed(rs: seq<Result<string, string>>) {
    forall j :: 0 <= j < |rs| ==> rs[j].Failure?
  }

  /** The verdict each strategy of the list gets, in order. */
  function Verdicts(strategies: seq<Strategy>, verdict: Strategy -> Result<string, string>)
    : (rs: seq<Result<string, string>>)
    ensures |rs| == |strategies|
    ensures forall k :: 0 <= k < |rs| ==> rs[k] == verdict(strategies[k])
  {
    seq(|strategies|, k requires 0 <= k < |strategies| => verdict(strategies[k]))
  }

  /** What app.js's `fetchRSSFeed` makes of each strategy's attempt. */
  function AppVerdict(net: Strategy -> Attempt): Strategy -> Result<string, string> {
    s => EvaluateApp(s, net(s))
  }

  /** What k-pod's `fetchRSSFeed` makes of each proxy's attempt. */
  function BasicVerdict(net: Strategy -> Attempt): Strategy -> Result<string, string> {
    s => EvaluateBasic(net(s))
  }

  /** What `fetchWithFallback` makes of each method's attempt. */
  function FallbackVerdict(net: Strategy -> Attempt): Strategy -> Result<string, string> {
    s => EvaluateFallback(net(s))
  }

  /** The error app.js's `fetchRSSFeed` throws when no strategy is accepted;
      `lastError?.message || 'Unknown error'`. */
  function AppExhausted(lastError: Option<string>): string {
    "Could not fetch RSS feed after trying all methods. Last error: " + Or(lastError, "Unknown error")
  }

  /** The same for k-pod's `fetchRSSFeed`. */
  function BasicExhausted(lastError: Option<string>): string {
    "Could not fetch RSS feed. Last error: " + Or(lastError, "Unknown error")
  }

  /** The for-of loop shared by the three fetchers: strategies are tried in
      order, each only after all earlier ones failed; the loop stops at the
      first success and otherwise remembers the last error. */
  method TryInOrder(strategies: seq<Strategy>, verdict: Strategy -> Result<string, string>)
    returns (r: Option<string>, tried: seq<Strategy>, lastError: Option<string>)
    ensures var rs := Verdicts(strategies, verdict);
            r.Some? ==> FirstSuccessAt(rs, |tried| - 1) && r.value == rs[|tried| - 1].value
                        && tried == strategies[..|tried|]
    ensures var rs := Verdicts(strategies, verdict);
            r.None? ==> AllFailed(rs) && tried == strategies
                        && lastError == (if rs == [] then None else Some(rs[|rs| - 1].error))
  {
    ghost var rs := Verdicts(strategies, verdict);
    lastError := None;
    tried := [];
    var i := 0;
    while i < |strategies|
      invariant 0 <= i <= |strategies|
      invariant tried == strategies[..i]
      invariant forall j :: 0 <= j < i ==> rs[j].Failure?
      invariant lastError == if i == 0 then None else Some(rs[i - 1].error)
    {
      var strategy := strategies[i];
      tried := tried + [strategy];
      var outcome := verdict(strategy);
      if outcome.Success? {
        assert tried == strategies[..i + 1];
        return Some(outcome.value), tried, lastError;
      }
      lastError := Some(outcome.error);
      i := i + 1;
    }
    r := None;
  }

  /** app.js `fetchRSSFeed`: the first accepted text, with the strategies
      tried; none after the accepted one is tried.  When none is accepted,
      the error names the last failure. */
  method FetchRssFeed(net: Strategy -> Attempt) returns (r: Result<string, string>, tried: seq<Strategy>)
    ensures var rs := Verdicts(AppProxies, AppVerdict(net));
            r.Success? ==> FirstSuccessAt(rs, |tried| - 1) && r.value == rs[|tried| - 1].value
                           && tried == AppProxies[..|tried|]
    ensures var rs := Verdicts(AppProxies, AppVerdict(net));
            r.Failure? ==> AllFailed(rs) && tried == AppProxies
                           && r.error == AppExhausted(Some(rs[|rs| - 1].error))
  {
    var text, lastError;
    text, tried, lastError := TryInOrder(AppProxies, AppVerdict(net));
    if text.Some? {
      r := Success(text.value);
    } else {
      r := Failure(AppExhausted(lastError));
    }
  }

  /** k-pod `fetchRSSFeed`. */
  method FetchRssFeedBasic(net: Strategy -> Attempt) returns (r: Result<string, string>, tried: seq<Strategy>)
    ensures var rs := Verdicts(BasicProxies, BasicVerdict(net));
            r.Success? ==> FirstSuccessAt(rs, |tried| - 1) && r.value == rs[|tried| - 1].value
                           && tried == BasicProxies[..|tried|]
    ensures var rs := Verdicts(BasicProxies, BasicVerdict(net));
            r.Failure? ==> AllFailed(rs) && tried == BasicProxies
                           && r.error == BasicExhausted(Some(rs[|rs| - 1].error))
  {
    var text, lastError;
    text, tried, lastError := TryInOrder(BasicProxies, BasicVerdict(net));
    if text.Some? {
      r := Success(text.value);
    } else {
      r := Failure(BasicExhausted(lastError));
    }
  }

  /** `fetchWithFallback` (both files): the text of the first method that
      does not throw, whatever its status; 'All fetch methods failed' when
      all throw. */
  method FetchWithFallback(net: Strategy -> Attempt) returns (r: Result<string, string>, tried: seq<Strategy>)
    ensures var rs := Verdicts(FallbackMethods, FallbackVerdict(net));
            r.Success? ==> FirstSuccessAt(rs, |tried| - 1) && r.value == rs[|tried| - 1].value
                           && tried == FallbackMethods[..|tried|]
    ensures var rs := Verdicts(FallbackMethods, FallbackVerdict(net));
            r.Failure? ==> AllFailed(rs) && tried == FallbackMethods && r.error == "All fetch methods failed"
  {
    var text, lastError;
    text, tried, lastError := TryInOrder(FallbackMethods, FallbackVerdict(net));
    if text.Some? {
      r := Success(text.value);
    } else {
      r := Failure("All fetch methods failed");
    }
  }

  // ---------------------------------------------------------------------
  // Properties
  // ---------------------------------------------------------------------

  /** Everything k-pod accepts, app.js accepts too. */
  lemma BasicAcceptedByApp(text: string)
    requires CheckBasic(text).Success?
    ensures CheckApp(text).Success?
  {
  }

  /** A body that has an xml declaration but neither an rss nor a feed tag
      is accepted by app.js and rejected by k-pod. */
  lemma XmlDeclarationOnly()
    ensures CheckApp("<?xml").Success?
    ensures CheckBasic("<?xml") == Failure("Response is not RSS/Atom feed")
  {
    var t := "<?xml";
    TrimUnchanged(t);
    assert StartsWith(t, "<") by { assert t[..1] == "<"; }
    ContainsSelf(t);
    assert !Contains(t, "<rss") by {
      forall i | 0 <= i <= |t| - 4
        ensures !OccursAt(t, "<rss", i)
      {
        assert t[i..i + 4][1] != "<rss"[1];
      }
    }
    assert !Contains(t, "<feed") by {
      assert t[0..5][1] != "<feed"[1];
      assert !OccursAt(t, "<feed", 0);
    }
  }

  /** The document rebuilt from RSS2JSON's answer always passes app.js's
      acceptance checks. */
  lemma DocumentAccepted(feed: Option<FeedMeta>, items: seq<Item>)
    ensures CheckApp(DocumentXml(feed, items)) == Success(DocumentXml(feed, items))
  {
    DocumentShape(feed, items);
    AcceptedText(DocumentXml(feed, items));
  }

  /** A text without surrounding whitespace that opens a tag and names the
      rss tag is accepted. */
  lemma AcceptedText(t: string)
    requires |t| > 0 && t[0] == '<' && Trim(t) == t && Contains(t, "<rss")
    ensures CheckApp(t) == Success(t)
  {
    assert t[..1] == [t[0]];
  }

  /** An ok RSS2JSON answer with items is accepted, as the document rebuilt
      from those items. */
  lemma Rss2JsonAccepted(resp: Response)
    requires resp.ok && resp.json.Success? && resp.json.value.items.Some?
    ensures EvaluateApp(AppProxies[3], Responded(resp))
            == Success(DocumentXml(resp.json.value.feed, resp.json.value.items.value))
  {
    assert AppProxies[3] == Strategy("RSS2JSON", true, true);
    DocumentAccepted(resp.json.value.feed, resp.json.value.items.value);
  }

  /** A response that is not ok is never accepted by `fetchRSSFeed`, but is
      taken as it is by `fetchWithFallback`. */
  lemma StatusMatters(s: Strategy, resp: Response)
    requires !resp.ok
    ensures EvaluateApp(s, Responded(resp)) == Failure(HttpError(resp))
    ensures EvaluateBasic(Responded(resp)) == Failure(HttpError(resp))
    ensures EvaluateFallback(Responded(resp)) == Success(resp.text)
  {
  }
}
