/** The catalog state both front ends keep in module-level variables: the
    podcast list, the podcast on display, and its full and filtered episode
    lists, with the operations that reassign them. */
module Catalog {
  import opened Wrappers
  import opened Js
  import opened FeedParser

  // ---------------------------------------------------------------------
  // Objects
  // ---------------------------------------------------------------------

  /** An episode object. Episodes are objects in the JavaScript and are
      looked up by identity (`indexOf`), so each one is a reference here;
      its contents never change after parsing. */
  class EpisodeItem {
    const episode: Episode

    constructor (e: Episode)
      ensures episode == e
    {
      episode := e;
    }
  }

  /** An entry of the podcast list: the fields the modelled logic reads,
      and the two fields the player writes into the entry later. */
  class PodcastEntry {
    const id: int
    const name: string
    const rssUrl: string
    /** `artwork_url`, which the list may omit. */
    const artworkUrl: Option<string>
    /** `displayArtwork`: the artwork chosen when the feed was last loaded. */
    var displayArtwork: Option<string>
    /** `rssArtwork`: the artwork found by the background artwork pass. */
    var rssArtwork: Option<string>

    constructor (id: int, name: string, rssUrl: string, artworkUrl: Option<string>)
      ensures this.id == id && this.name == name && this.rssUrl == rssUrl && this.artworkUrl == artworkUrl
      ensures displayArtwork.None? && rssArtwork.None?
    {
      this.id := id;
      this.name := name;
      this.rssUrl := rssUrl;
      this.artworkUrl := artworkUrl;
      displayArtwork := None;
      rssArtwork := None;
    }

    /** One podcast of `fetchAllPodcastArtwork`: a truthy artwork from its
        parsed feed is stored; a failed fetch or parse, or a feed without
        artwork, leaves the entry as it was. */
    method RecordFeedArtwork(parsed: Result<ParsedFeed, string>)
      modifies this
      ensures parsed.Success? && Truthy(parsed.value.channelInfo.artwork) ==> rssArtwork == parsed.value.channelInfo.artwork
      ensures !(parsed.Success? && Truthy(parsed.value.channelInfo.artwork)) ==> rssArtwork == old(rssArtwork)
      ensures displayArtwork == old(displayArtwork)
    {
      if parsed.Success? && Truthy(parsed.value.channelInfo.artwork) {
        rssArtwork := parsed.value.channelInfo.artwork;
      }
    }
  }

  /** JavaScript truthiness of a string that may be null. */
  predicate Truthy(x: Option<string>) {
    x.Some? && x.value != ""
  }

  /** `a || b` on two strings that may be null. */
  function OrElse(a: Option<string>, b: Option<string>): (r: Option<string>)
    ensures Truthy(a) ==> r == a
    ensures !Truthy(a) ==> r == b
  {
    if Truthy(a) then a else b
  }

  /** The episode values behind a list of episode objects. */
  function Values(items: seq<EpisodeItem>): (r: seq<Episode>)
    ensures |r| == |items|
    ensures forall i | 0 <= i < |items| :: r[i] == items[i].episode
  {
    seq(|items|, i requires 0 <= i < |items| => items[i].episode)
  }

  /** `podcasts.find(p => p.id === id)`: the first entry with that id. */
  function FindById(podcasts: seq<PodcastEntry>, id: int): (r: Option<nat>)
    ensures r.Some? ==> r.value < |podcasts| && podcasts[r.value].id == id
                        && forall j | 0 <= j < r.value :: podcasts[j].id != id
    ensures r.None? ==> forall j | 0 <= j < |podcasts| :: podcasts[j].id != id
  {
    if podcasts == [] then None
    else if podcasts[0].id == id then Some(0)
    else match FindById(podcasts[1..], id)
      case None => None
      case Some(k) => Some(k + 1)
  }

  // ---------------------------------------------------------------------
  // Search
  // ---------------------------------------------------------------------

  /** An episode matches a lower-cased query when its lower-cased title or
      description contains it. */
  predicate Matches(e: Episode, q: string) {
    Contains(Lower(e.title), q) || Contains(Lower(e.description), q)
  }

  /** `allEpisodes.filter(...)` with the matching rule above. */
  function FilterMatching(items: seq<EpisodeItem>, q: string): (r: seq<EpisodeItem>)
    ensures |r| <= |items|
    ensures forall x | x in r :: x in items && Matches(x.episode, q)
  {
    if items == [] then []
    else (if Matches(items[0].episode, q) then [items[0]] else []) + FilterMatching(items[1..], q)
  }

  /** The search normalises its query with `toLowerCase().trim()`. */
  function NormalizeQuery(query: string): string {
    Trim(Lower(query))
  }

  /** The list `searchEpisodes` assigns to `filteredEpisodes`: the full list
      itself for an empty query, the matching episodes otherwise. */
  function Search(all: seq<EpisodeItem>, query: string): seq<EpisodeItem> {
    var q := NormalizeQuery(query);
    if q == "" then all else FilterMatching(all, q)
  }

  /** An episode is shown exactly when it is in the full list and matches
      (every episode matches the empty query). */
  lemma {:induction false} FilterMembers(items: seq<EpisodeItem>, q: string, x: EpisodeItem)
    ensures x in FilterMatching(items, q) <==> x in items && Matches(x.episode, q)
    decreases |items|
  {
    if items != [] {
      FilterMembers(items[1..], q, x);
      assert x in items <==> x == items[0] || x in items[1..];
    }
  }

  lemma SearchMembers(all: seq<EpisodeItem>, query: string, x: EpisodeItem)
    ensures var q := NormalizeQuery(query);
            x in Search(all, query) <==> x in all && (q == "" || Matches(x.episode, q))
  {
    FilterMembers(all, NormalizeQuery(query), x);
  }

  /** The filter keeps the order of its input: it distributes over concatenation. */
  lemma {:induction false} FilterConcat(a: seq<EpisodeItem>, b: seq<EpisodeItem>, q: string)
    ensures FilterMatching(a + b, q) == FilterMatching(a, q) + FilterMatching(b, q)
    decreases |a|
  {
    if a == [] {
      assert a + b == b;
    } else {
      var k := if Matches(a[0].episode, q) then [a[0]] else [];
      assert (a + b)[0] == a[0] && (a + b)[1..] == a[1..] + b;
      assert FilterMatching(a + b, q) == k + FilterMatching(a[1..] + b, q);
      FilterConcat(a[1..], b, q);
      assert k + (FilterMatching(a[1..], q) + FilterMatching(b, q)) == (k + FilterMatching(a[1..], q)) + FilterMatching(b, q);
    }
  }

  /** Filtering a filtered list again with the same query changes nothing. */
  lemma {:induction false} FilterIdempotent(items: seq<EpisodeItem>, q: string)
    ensures FilterMatching(FilterMatching(items, q), q) == FilterMatching(items, q)
    decreases |items|
  {
    if items != [] {
      var k := if Matches(items[0].episode, q) then [items[0]] else [];
      var rest := FilterMatching(items[1..], q);
      FilterIdempotent(items[1..], q);
      FilterConcat(k, rest, q);
      if k != [] {
        assert FilterMatching(k, q) == k by {
          assert k[1..] == [];
        }
      }
    }
  }

  /** Searching is case-insensitive: upper-case letters in the query are
      irrelevant. */
  lemma SearchCaseInsensitive(all: seq<EpisodeItem>, query: string)
    ensures Search(all, query) == Search(all, Lower(query))
  {
    LowerIdempotent(query);
    assert NormalizeQuery(Lower(query)) == NormalizeQuery(query);
  }

  /** Running the same search twice gives the same list. */
  lemma SearchIdempotent(all: seq<EpisodeItem>, query: string)
    ensures Search(Search(all, query), query) == Search(all, query)
  {
    if NormalizeQuery(query) != "" {
      FilterIdempotent(all, NormalizeQuery(query));
    }
  }

  // ---------------------------------------------------------------------
  // The trailing-comma cleanup of the podcast list
  // ---------------------------------------------------------------------

  predicate IsCloser(c: char) {
    c == ']' || c == '}'
  }

  /** After a comma: whitespace and then a closing bracket or brace. */
  predicate ClosesAfterWhite(t: string) {
    LeadingWhite(t) < |t| && IsCloser(t[LeadingWhite(t)])
  }

  /** `text.replace(/,(\s*[\]}])/g, '$1')`: a comma followed by optional
      whitespace and a closer is dropped; the scan resumes after the closer. */
  function RemoveTrailingCommas(s: string): (r: string)
    ensures |r| <= |s|
    decreases |s|
  {
    if s == [] then []
    else if s[0] == ',' && ClosesAfterWhite(s[1..]) then
      var n := LeadingWhite(s[1..]);
      s[1..n + 2] + RemoveTrailingCommas(s[n + 2..])
    else [s[0]] + RemoveTrailingCommas(s[1..])
  }

  /** The characters of s other than commas, in order. */
  function DropCommas(s: string): (r: string)
    ensures ',' !in r
  {
    if s == [] then [] else (if s[0] == ',' then [] else [s[0]]) + DropCommas(s[1..])
  }

  lemma {:induction false} DropCommasConcat(a: string, b: string)
    ensures DropCommas(a + b) == DropCommas(a) + DropCommas(b)
    decreases |a|
  {
    if a == [] {
      assert a + b == b;
    } else {
      assert (a + b)[0] == a[0] && (a + b)[1..] == a[1..] + b;
      DropCommasConcat(a[1..], b);
    }
  }

  /** A string without commas is left alone by DropCommas. */
  lemma {:induction false} DropCommasNone(a: string)
    requires ',' !in a
    ensures DropCommas(a) == a
    decreases |a|
  {
    if a != [] {
      DropCommasNone(a[1..]);
      assert [a[0]] + a[1..] == a;
    }
  }

  /** DropCommas of a non-empty string, one character at a time. */
  lemma DropCommasCons(c: char, t: string)
    ensures DropCommas([c] + t) == (if c == ',' then [] else [c]) + DropCommas(t)
  {
    assert ([c] + t)[1..] == t;
  }

  /** Replacing the tail after a comma-free prefix by one with the same
      non-comma content keeps the non-comma content. */
  lemma SameContentAfter(kept: string, r: string, rest: string)
    requires ',' !in kept
    requires DropCommas(r) == DropCommas(rest)
    ensures DropCommas(kept + r) == DropCommas(kept + rest)
  {
    DropCommasConcat(kept, r);
    DropCommasConcat(kept, rest);
  }

  /** The cleanup removes commas and nothing else: everything that is not
      a comma survives, in order. */
  lemma {:induction false} CleanupKeepsContent(s: string)
    ensures DropCommas(RemoveTrailingCommas(s)) == DropCommas(s)
    decreases |s|
  {
    if s != [] {
      if s[0] == ',' && ClosesAfterWhite(s[1..]) {
        var kept, rest := RemovedComma(s);
        DropCommasCons(',', kept + rest);
        CleanupKeepsContent(rest);
        SameContentAfter(kept, RemoveTrailingCommas(rest), rest);
      } else {
        KeptChar(s);
        DropCommasCons(s[0], RemoveTrailingCommas(s[1..]));
        DropCommasCons(s[0], s[1..]);
        CleanupKeepsContent(s[1..]);
      }
    }
  }

  /** A removed comma: what follows it up to the closer is kept as is. */
  lemma RemovedComma(s: string) returns (kept: string, rest: string)
    requires s != [] && s[0] == ',' && ClosesAfterWhite(s[1..])
    ensures ',' !in kept && s == [','] + (kept + rest) && |rest| < |s|
    ensures RemoveTrailingCommas(s) == kept + RemoveTrailingCommas(rest)
  {
    var n := LeadingWhite(s[1..]);
    kept, rest := s[1..n + 2], s[n + 2..];
    forall i | 0 <= i < |kept| ensures kept[i] != ',' {
      assert kept[i] == s[1..][i];
    }
    assert s == [','] + (kept + rest);
  }

  /** Any other character is kept. */
  lemma KeptChar(s: string)
    requires s != [] && !(s[0] == ',' && ClosesAfterWhite(s[1..]))
    ensures s == [s[0]] + s[1..]
    ensures RemoveTrailingCommas(s) == [s[0]] + RemoveTrailingCommas(s[1..])
  {
  }

  /** A text without commas is unchanged by the cleanup. */
  lemma {:induction false} CleanupWithoutCommas(s: string)
    requires ',' !in s
    ensures RemoveTrailingCommas(s) == s
    decreases |s|
  {
    if s != [] {
      CleanupWithoutCommas(s[1..]);
      assert [s[0]] + s[1..] == s;
    }
  }

  /** A trailing comma before a closer is removed, whitespace kept. */
  lemma TrailingCommaRemoved(w: string, c: char, b: string)
    requires forall i | 0 <= i < |w| :: IsWhite(w[i])
    requires IsCloser(c)
    ensures RemoveTrailingCommas([','] + w + [c] + b) == w + [c] + RemoveTrailingCommas(b)
  {
    var s := [','] + w + [c] + b;
    assert s[1..] == w + [c] + b;
    LeadingWhiteOf(w, [c] + b);
    assert s[1..][|w|] == c;
    assert s[1..|w| + 2] == w + [c];
    assert s[|w| + 2..] == b;
  }

  /** The leading-whitespace count of whitespace followed by a non-white. */
  lemma {:induction false} LeadingWhiteOf(w: string, t: string)
    requires forall i | 0 <= i < |w| :: IsWhite(w[i])
    requires t != [] && !IsWhite(t[0])
    ensures LeadingWhite(w + t) == |w|
    decreases |w|
  {
    if w != [] {
      assert (w + t)[1..] == w[1..] + t;
      LeadingWhiteOf(w[1..], t);
    }
  }

  /** The cleanup is a single pass: of two commas before a closer only the
      second is removed. */
  lemma DoubleCommaSurvives()
    ensures RemoveTrailingCommas(",,]") == ",]"
  {
    var s := ",,]";
    assert s[1..] == ",]" && LeadingWhite(",]") == 0;
    TrailingCommaRemoved("", ']', "");
    assert [','] + "" + [']'] + "" == ",]";
    assert RemoveTrailingCommas(s) == [','] + RemoveTrailingCommas(",]");
  }

  // ---------------------------------------------------------------------
  // The background artwork pass: batches of five
  // ---------------------------------------------------------------------

  /** `for (i = 0; i < n; i += size) podcasts.slice(i, i + size)`. */
  function Batches<T>(xs: seq<T>, size: nat): (r: seq<seq<T>>)
    requires size > 0
    ensures forall k | 0 <= k < |r| :: 0 < |r[k]| <= size
    decreases |xs|
  {
    if xs == [] then []
    else if |xs| <= size then [xs]
    else [xs[..size]] + Batches(xs[size..], size)
  }

  /** The concatenation of a list of lists. */
  function Flatten<T>(xss: seq<seq<T>>): seq<T> {
    if xss == [] then [] else xss[0] + Flatten(xss[1..])
  }

  /** The batches partition the list: in order, nothing lost or repeated,
      and every batch but the last is full. */
  lemma {:induction false} BatchesPartition<T>(xs: seq<T>, size: nat)
    requires size > 0
    ensures Flatten(Batches(xs, size)) == xs
    ensures forall k | 0 <= k < |Batches(xs, size)| - 1 :: |Batches(xs, size)[k]| == size
    decreases |xs|
  {
    var b := Batches(xs, size);
    if xs != [] && |xs| > size {
      var rest := Batches(xs[size..], size);
      BatchesPartition(xs[size..], size);
      assert b == [xs[..size]] + rest;
      assert b[1..] == rest;
      assert Flatten(b) == xs[..size] + Flatten(rest);
      assert xs[..size] + xs[size..] == xs;
    } else if xs != [] {
      assert b == [xs] && b[1..] == [];
      assert Flatten(b) == xs + Flatten(b[1..]);
    }
  }

  // ---------------------------------------------------------------------
  // The catalog state
  // ---------------------------------------------------------------------

  /** Fresh episode objects for a parsed list, in order: the objects that
      parseRSSFeed's `map` creates. */
  method MakeItems(episodes: seq<Episode>) returns (items: seq<EpisodeItem>)
    ensures Values(items) == episodes
    ensures forall i | 0 <= i < |items| :: fresh(items[i])
    ensures forall i, j | 0 <= i < j < |items| :: items[i] != items[j]
  {
    items := [];
    var k := 0;
    while k < |episodes|
      invariant k <= |episodes| && |items| == k
      invariant forall i | 0 <= i < k :: items[i].episode == episodes[i]
      invariant forall i | 0 <= i < k :: fresh(items[i])
      invariant forall i, j | 0 <= i < j < k :: items[i] != items[j]
    {
      var item := new EpisodeItem(episodes[k]);
      items := items + [item];
      k := k + 1;
    }
  }

  class Catalog {
    var podcasts: seq<PodcastEntry>
    var currentPodcast: Option<PodcastEntry>
    var allEpisodes: seq<EpisodeItem>
    var filteredEpisodes: seq<EpisodeItem>

    /** The state at start-up. */
    constructor ()
      ensures podcasts == [] && currentPodcast.None? && allEpisodes == [] && filteredEpisodes == []
    {
      podcasts := [];
      currentPodcast := None;
      allEpisodes := [];
      filteredEpisodes := [];
    }

    /** `filteredEpisodes` is always drawn from `allEpisodes`. */
    ghost predicate Valid()
      reads this
    {
      forall x | x in filteredEpisodes :: x in allEpisodes
    }

    /** `loadPodcasts`: the fetched list text is cleaned of trailing commas
        and decoded by `decode` (JSON.parse and the "podcasts is an array"
        check). Any failure leaves the list as it was. */
    method LoadPodcasts(fetched: Result<string, string>, decode: string -> Option<seq<PodcastEntry>>)
      modifies this
      ensures fetched.Success? && decode(RemoveTrailingCommas(fetched.value)).Some?
              ==> podcasts == decode(RemoveTrailingCommas(fetched.value)).value
      ensures !(fetched.Success? && decode(RemoveTrailingCommas(fetched.value)).Some?) ==> podcasts == old(podcasts)
      ensures currentPodcast == old(currentPodcast) && allEpisodes == old(allEpisodes)
      ensures filteredEpisodes == old(filteredEpisodes)
    {
      if fetched.Success? {
        var data := decode(RemoveTrailingCommas(fetched.value));
        if data.Some? {
          podcasts := data.value;
        }
      }
    }

    /** `searchEpisodes()` with the search box's text. */
    method SearchEpisodes(query: string)
      requires Valid()
      modifies this
      ensures filteredEpisodes == Search(allEpisodes, query)
      ensures allEpisodes == old(allEpisodes) && podcasts == old(podcasts) && currentPodcast == old(currentPodcast)
      ensures Valid()
    {
      filteredEpisodes := Search(allEpisodes, query);
      forall x | x in filteredEpisodes
        ensures x in allEpisodes
      {
        SearchMembers(allEpisodes, query, x);
      }
    }

    /** `goHome()`: no podcast on display and both episode lists empty. */
    method GoHome()
      modifies this
      ensures currentPodcast.None? && allEpisodes == [] && filteredEpisodes == []
      ensures podcasts == old(podcasts)
      ensures Valid()
    {
      currentPodcast := None;
      allEpisodes := [];
      filteredEpisodes := [];
    }

    /** `loadEpisodes()`. `fetched` is the outcome of fetchRSSFeed for the
        current podcast's feed. On success the entry's displayArtwork
        becomes the feed's artwork or the list's artwork_url, and both
        episode lists become the parsed episodes, but only when there is at
        least one; on any failure nothing changes. The `await` is collapsed:
        `fetched` is taken to be the outcome for the podcast that is current
        when it completes. */
    method LoadEpisodes(fetched: Result<string, string>, parse: string -> Document, stripHtml: string -> string)
      requires Valid()
      modifies this, if currentPodcast.Some? then {currentPodcast.value} else {}
      ensures podcasts == old(podcasts) && currentPodcast == old(currentPodcast)
      ensures Valid()
      ensures var outcome := if fetched.Success? then ParseRssFeed(fetched.value, parse, stripHtml) else Failure(fetched.error);
              if currentPodcast.Some? && outcome.Success? then
                && currentPodcast.value.displayArtwork
                   == OrElse(outcome.value.channelInfo.artwork, currentPodcast.value.artworkUrl)
                && currentPodcast.value.rssArtwork == old(currentPodcast.value.rssArtwork)
                && (|outcome.value.episodes| > 0 ==>
                      && Values(allEpisodes) == outcome.value.episodes
                      && filteredEpisodes == allEpisodes
                      && forall i | 0 <= i < |allEpisodes| :: fresh(allEpisodes[i]))
                && (|outcome.value.episodes| == 0 ==>
                      allEpisodes == old(allEpisodes) && filteredEpisodes == old(filteredEpisodes))
              else
                && allEpisodes == old(allEpisodes) && filteredEpisodes == old(filteredEpisodes)
                && (currentPodcast.Some? ==> currentPodcast.value.displayArtwork == old(currentPodcast.value.displayArtwork)
                                             && currentPodcast.value.rssArtwork == old(currentPodcast.value.rssArtwork))
    {
      if currentPodcast.None? {
        return;
      }
      var podcast := currentPodcast.value;
      if fetched.Failure? {
        return;
      }
      var outcome := ParseRssFeed(fetched.value, parse, stripHtml);
      if outcome.Failure? {
        return;
      }
      podcast.displayArtwork := OrElse(outcome.value.channelInfo.artwork, podcast.artworkUrl);
      if |outcome.value.episodes| == 0 {
        return;
      }
      var items := MakeItems(outcome.value.episodes);
      allEpisodes := items;
      filteredEpisodes := items;
    }

    /** `openPodcast(id)`: selects the first entry with that id, even when
        there is none (the current podcast then becomes null and the lists
        stay as they were), and loads its episodes when there is one. Only
        the selected entry's artwork can change. */
    method OpenPodcast(id: int, fetched: Result<string, string>, parse: string -> Document, stripHtml: string -> string)
      requires Valid()
      modifies this, if FindById(podcasts, id).Some? then {podcasts[FindById(podcasts, id).value]} else {}
      ensures podcasts == old(podcasts) && Valid()
      ensures FindById(podcasts, id).None? ==>
                currentPodcast.None? && allEpisodes == old(allEpisodes) && filteredEpisodes == old(filteredEpisodes)
      ensures var found := FindById(podcasts, id);
              found.Some? ==>
                var p := podcasts[found.value];
                var outcome := if fetched.Success? then ParseRssFeed(fetched.value, parse, stripHtml) else Failure(fetched.error);
                && currentPodcast == Some(p)
                && p.rssArtwork == old(p.rssArtwork)
                && if outcome.Success? then
                     && p.displayArtwork == OrElse(outcome.value.channelInfo.artwork, p.artworkUrl)
                     && (|outcome.value.episodes| > 0 ==>
                           && Values(allEpisodes) == outcome.value.episodes
                           && filteredEpisodes == allEpisodes
                           && forall i | 0 <= i < |allEpisodes| :: fresh(allEpisodes[i]))
                     && (|outcome.value.episodes| == 0 ==>
                           allEpisodes == old(allEpisodes) && filteredEpisodes == old(filteredEpisodes))
                   else
                     && p.displayArtwork == old(p.displayArtwork)
                     && allEpisodes == old(allEpisodes) && filteredEpisodes == old(filteredEpisodes)
      ensures forall k | 0 <= k < |podcasts| && (FindById(podcasts, id).None? || podcasts[k] != podcasts[FindById(podcasts, id).value]) ::
                podcasts[k].displayArtwork == old(podcasts[k].displayArtwork)
                && podcasts[k].rssArtwork == old(podcasts[k].rssArtwork)
    {
      var found := FindById(podcasts, id);
      if found.None? {
        currentPodcast := None;
        return;
      }
      currentPodcast := Some(podcasts[found.value]);
      LoadEpisodes(fetched, parse, stripHtml);
    }
  }
}
