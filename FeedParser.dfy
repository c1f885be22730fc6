/** Episode extraction from an RSS document (`parseRSSFeed`, identical in
    both front ends). The XML engine is not modelled: the parsed document is
    an abstract record holding what the player's selectors find, and
    the parser itself is a function parameter. */
module FeedParser {
  import opened Wrappers
  import opened Js

  // ---------------------------------------------------------------------
  // The abstract document
  // ---------------------------------------------------------------------

  /** An element found by a selector: its text content and its attributes. */
  datatype Element = Element(textContent: string, attributes: map<string, string>)

  /** `element.getAttribute(name)`: null when the attribute is absent. */
  function GetAttribute(e: Element, name: string): (r: Option<string>)
    ensures r.Some? <==> name in e.attributes
    ensures r.Some? ==> r.value == e.attributes[name]
  {
    if name in e.attributes then Some(e.attributes[name]) else None
  }

  /** What one `<item>` offers. A field named `...Sel` is the result of
      `item.querySelector(...)`, one named `...Tag` the first element of
      `item.getElementsByTagName(...)`; None means nothing was found. */
  datatype ItemRecord = ItemRecord(
    enclosure: Option<Element>,
    mediaContentSel: Option<Element>,
    mediaContentTag: Option<Element>,
    durationSel: Option<Element>,
    durationTag: Option<Element>,
    title: Option<Element>,
    description: Option<Element>,
    pubDate: Option<Element>)

  /** What the `<channel>` element offers. */
  datatype ChannelRecord = ChannelRecord(
    itunesImageSel: Option<Element>,
    itunesImageTag: Option<Element>,
    imageUrl: Option<Element>,
    description: Option<Element>)

  /** A parsed document: whether a `parsererror` element is present, the
      first `channel` element, and every `item` element of the document in
      document order (`querySelectorAll('item')` searches the whole
      document, not only the channel). */
  datatype Document = Document(parserError: bool, channel: Option<ChannelRecord>, items: seq<ItemRecord>)

  /** One episode as the player stores it. */
  datatype Episode = Episode(title: string, description: string, pubDate: string, audioUrl: string, duration: string)

  /** `channelInfo`: None stands for JavaScript null. */
  datatype ChannelInfo = ChannelInfo(artwork: Option<string>, description: Option<string>)

  /** The successful result of a parse. */
  datatype ParsedFeed = ParsedFeed(episodes: seq<Episode>, channelInfo: ChannelInfo)

  const ParserErrorMessage := "XML parsing failed - feed may be malformed"
  const NoChannelMessage := "No channel element found in RSS feed"
  const UntitledEpisode := "Untitled Episode"

  /** Only the first MaxItems items of the document are looked at. */
  const MaxItems := 100

  // ---------------------------------------------------------------------
  // Field rules
  // ---------------------------------------------------------------------

  /** `el.getAttribute('url') || ''` for an element that may be missing. */
  function UrlOf(e: Option<Element>): string {
    if e.Some? then Or(GetAttribute(e.value, "url"), "") else ""
  }

  /** The audio URL of an item: the enclosure's url, else the url of the
      media:content found by selector, else that of the first media:content
      found by tag name; each step is taken only while the URL is still empty. */
  function AudioUrl(item: ItemRecord): (r: string)
    ensures UrlOf(item.enclosure) != "" ==> r == UrlOf(item.enclosure)
    ensures UrlOf(item.enclosure) == "" && UrlOf(item.mediaContentSel) != "" ==> r == UrlOf(item.mediaContentSel)
    ensures UrlOf(item.enclosure) == "" && UrlOf(item.mediaContentSel) == "" ==> r == UrlOf(item.mediaContentTag)
    ensures r == "" <==> UrlOf(item.enclosure) == "" && UrlOf(item.mediaContentSel) == "" && UrlOf(item.mediaContentTag) == ""
  {
    var fromEnclosure := UrlOf(item.enclosure);
    var fromSelector := if fromEnclosure == "" then UrlOf(item.mediaContentSel) else fromEnclosure;
    if fromSelector == "" then UrlOf(item.mediaContentTag) else fromSelector
  }

  /** The duration text: the itunes:duration found by selector, else by tag
      name, trimmed; '' when neither exists. An element that exists but is
      blank is used as it is: there is no fall-through on empty text. */
  function Duration(item: ItemRecord): (r: string)
    ensures item.durationSel.Some? ==> r == Trim(item.durationSel.value.textContent)
    ensures item.durationSel.None? && item.durationTag.Some? ==> r == Trim(item.durationTag.value.textContent)
    ensures item.durationSel.None? && item.durationTag.None? ==> r == ""
  {
    var found := if item.durationSel.Some? then item.durationSel else item.durationTag;
    if found.Some? then Trim(found.value.textContent) else ""
  }

  /** `el?.textContent?.trim() || d`. */
  function TextOr(e: Option<Element>, d: string): (r: string)
    ensures e.Some? && Trim(e.value.textContent) != "" ==> r == Trim(e.value.textContent)
    ensures (e.None? || Trim(e.value.textContent) == "") ==> r == d
  {
    Or(if e.Some? then Some(Trim(e.value.textContent)) else None, d)
  }

  /** The episode the map callback builds from one item. */
  function ToEpisode(item: ItemRecord): Episode {
    Episode(TextOr(item.title, UntitledEpisode), TextOr(item.description, ""), TextOr(item.pubDate, ""),
            AudioUrl(item), Duration(item))
  }

  /** The channel artwork: the href of the itunes:image found by selector,
      else by tag name. When that is null or '', the trimmed text of
      `image url`, if that element exists; otherwise the href as it was
      (null, or '' when the image element had an empty href). */
  function Artwork(ch: ChannelRecord): (r: Option<string>)
    ensures var image := if ch.itunesImageSel.Some? then ch.itunesImageSel else ch.itunesImageTag;
            var href := if image.Some? then GetAttribute(image.value, "href") else None;
            && (href.Some? && href.value != "" ==> r == href)
            && ((href.None? || href.value == "") && ch.imageUrl.Some? ==> r == Some(Trim(ch.imageUrl.value.textContent)))
            && ((href.None? || href.value == "") && ch.imageUrl.None? ==> r == href)
  {
    var image := if ch.itunesImageSel.Some? then ch.itunesImageSel else ch.itunesImageTag;
    var href := if image.Some? then GetAttribute(image.value, "href") else None;
    if (href.None? || href.value == "") && ch.imageUrl.Some? then Some(Trim(ch.imageUrl.value.textContent))
    else href
  }

  /** The channel information; the HTML stripping of the description is a
      DOM operation and is passed in as `stripHtml`. */
  function ChannelInfoOf(ch: ChannelRecord, stripHtml: string -> string): (r: ChannelInfo)
    ensures r.artwork == Artwork(ch)
    ensures r.description.Some? <==> ch.description.Some?
    ensures ch.description.Some? ==> r.description.value == Trim(stripHtml(ch.description.value.textContent))
  {
    ChannelInfo(Artwork(ch),
                if ch.description.Some? then Some(Trim(stripHtml(ch.description.value.textContent))) else None)
  }

  /** Every episode has a title: a blank or missing one becomes 'Untitled Episode'. */
  lemma TitleNeverBlank(item: ItemRecord)
    ensures ToEpisode(item).title != ""
    ensures Trim(ToEpisode(item).title) == ToEpisode(item).title
  {
    var e := item.title;
    if e.Some? && Trim(e.value.textContent) != "" {
      TrimIdempotent(e.value.textContent);
    } else {
      TrimUnchanged(UntitledEpisode);
    }
  }

  // ---------------------------------------------------------------------
  // The pipeline: slice(0, 100), map, filter on a truthy audioUrl
  // ---------------------------------------------------------------------

  /** `Array.from(items).slice(0, 100)`. */
  function FirstItems(items: seq<ItemRecord>): (r: seq<ItemRecord>)
    ensures |r| <= MaxItems
    ensures |items| <= MaxItems ==> r == items
    ensures |items| > MaxItems ==> r == items[..MaxItems]
  {
    if |items| <= MaxItems then items else items[..MaxItems]
  }

  /** `.map(ToEpisode).filter(ep => ep.audioUrl)` over a list of items. */
  function Audible(items: seq<ItemRecord>): (r: seq<Episode>)
    ensures |r| <= |items|
    ensures forall e | e in r :: e.audioUrl != ""
  {
    ExtractAudible(ToEpisode, items);
    Extract(ToEpisode, items)
  }

  /** `.map(build).filter(ep => ep.audioUrl)` for any way of building an
      episode; Audible is the case of ToEpisode. */
  function Extract<T>(build: T -> Episode, xs: seq<T>): (r: seq<Episode>)
    ensures |r| <= |xs|
  {
    if xs == [] then [] else Keep(build(xs[0])) + Extract(build, xs[1..])
  }

  /** The filter's verdict on one episode: kept when its audioUrl is truthy. */
  function Keep(e: Episode): (r: seq<Episode>)
    ensures r == [] || r == [e]
    ensures r != [] <==> e.audioUrl != ""
  {
    if e.audioUrl != "" then [e] else []
  }

  /** `parseRSSFeed`'s first line: trim, then strip a leading U+FEFF. */
  function Preprocess(xmlText: string): string {
    var t := Trim(xmlText);
    if |t| > 0 && t[0] == '\U{FEFF}' then t[1..] else t
  }

  /** `parseRSSFeed(xmlText)`, with `parse` standing for the XML engine. */
  function ParseRssFeed(xmlText: string, parse: string -> Document, stripHtml: string -> string): (r: Result<ParsedFeed, string>)
    ensures var doc := parse(Preprocess(xmlText));
            && (doc.parserError ==> r == Failure(ParserErrorMessage))
            && (!doc.parserError && doc.channel.None? ==> r == Failure(NoChannelMessage))
            && (r.Success? <==> !doc.parserError && doc.channel.Some?)
            && (r.Success? ==> r.value.episodes == Audible(FirstItems(doc.items))
                               && r.value.channelInfo == ChannelInfoOf(doc.channel.value, stripHtml))
  {
    var doc := parse(Preprocess(xmlText));
    if doc.parserError then Failure(ParserErrorMessage)
    else if doc.channel.None? then Failure(NoChannelMessage)
    else Success(ParsedFeed(Audible(FirstItems(doc.items)), ChannelInfoOf(doc.channel.value, stripHtml)))
  }

  // ---------------------------------------------------------------------
  // Properties
  // ---------------------------------------------------------------------

  /** Trim already removes U+FEFF, so the byte-order-mark strip after it
      never changes anything: the engine sees the trimmed text. */
  lemma PreprocessIsTrim(xmlText: string)
    ensures Preprocess(xmlText) == Trim(xmlText)
  {
    TrimShape(xmlText);
  }

  /** The audio URL of an item's episode is the item's AudioUrl. */
  lemma EpisodeAudio(item: ItemRecord)
    ensures ToEpisode(item).audioUrl == AudioUrl(item)
  {
  }

  lemma {:induction false} ExtractConcat<T>(build: T -> Episode, a: seq<T>, b: seq<T>)
    ensures Extract(build, a + b) == Extract(build, a) + Extract(build, b)
    decreases |a|
  {
    if a == [] {
      assert a + b == b;
    } else {
      ExtractConcat(build, a[1..], b);
      ExtractConcatStep(build, a, b, a + b, a[1..] + b);
    }
  }

  /** The inductive step of ExtractConcat, over sequences named apart. */
  lemma ExtractConcatStep<T>(build: T -> Episode, a: seq<T>, b: seq<T>, ab: seq<T>, rest: seq<T>)
    requires a != [] && ab == a + b && rest == a[1..] + b
    requires Extract(build, rest) == Extract(build, a[1..]) + Extract(build, b)
    ensures Extract(build, ab) == Extract(build, a) + Extract(build, b)
  {
    assert Extract(build, ab) == Keep(build(a[0])) + Extract(build, rest) by {
      ConcatTail(a, b, ab, rest);
      ExtractCons(build, ab, a[0], rest);
    }
    assert Extract(build, a) == Keep(build(a[0])) + Extract(build, a[1..]) by {
      ExtractCons(build, a, a[0], a[1..]);
    }
    EpisodesAssoc(Keep(build(a[0])), Extract(build, a[1..]), Extract(build, b));
  }

  lemma ConcatTail<T>(a: seq<T>, b: seq<T>, ab: seq<T>, rest: seq<T>)
    requires a != [] && ab == a + b && rest == a[1..] + b
    ensures ab != [] && ab[0] == a[0] && ab[1..] == rest
  {
  }

  lemma EpisodesAssoc(x: seq<Episode>, y: seq<Episode>, z: seq<Episode>)
    ensures x + (y + z) == (x + y) + z
  {
  }

  /** Every extracted episode has an audio URL. */
  lemma {:induction false} ExtractAudible<T>(build: T -> Episode, xs: seq<T>)
    ensures forall e | e in Extract(build, xs) :: e.audioUrl != ""
    decreases |xs|
  {
    if xs != [] {
      ExtractAudible(build, xs[1..]);
    }
  }

  /** One step of the extraction. */
  lemma ExtractCons<T>(build: T -> Episode, xs: seq<T>, x: T, rest: seq<T>)
    requires xs != [] && xs[0] == x && xs[1..] == rest
    ensures Extract(build, xs) == Keep(build(x)) + Extract(build, rest)
  {
  }

  lemma {:induction false} ExtractMembers<T>(build: T -> Episode, xs: seq<T>, e: Episode)
    ensures e in Extract(build, xs) <==> exists i | 0 <= i < |xs| :: build(xs[i]) == e && e.audioUrl != ""
    decreases |xs|
  {
    if xs != [] {
      ExtractMembers(build, xs[1..], e);
      if e in Extract(build, xs[1..]) {
        var i :| 0 <= i < |xs[1..]| && build(xs[1..][i]) == e && e.audioUrl != "";
        assert build(xs[i + 1]) == e;
      }
      if exists i | 0 <= i < |xs| :: build(xs[i]) == e && e.audioUrl != "" {
        var i :| 0 <= i < |xs| && build(xs[i]) == e && e.audioUrl != "";
        if i > 0 {
          assert build(xs[1..][i - 1]) == e;
        }
      }
    }
  }

  /** The number of elements whose episode has an audio URL. */
  function ExtractCount<T>(build: T -> Episode, xs: seq<T>): nat {
    if xs == [] then 0 else (if build(xs[0]).audioUrl != "" then 1 else 0) + ExtractCount(build, xs[1..])
  }

  lemma {:induction false} ExtractLength<T>(build: T -> Episode, xs: seq<T>)
    ensures |Extract(build, xs)| == ExtractCount(build, xs)
    decreases |xs|
  {
    if xs != [] {
      ExtractLength(build, xs[1..]);
    }
  }

  lemma {:induction false} ExtractAll<T>(build: T -> Episode, xs: seq<T>)
    requires forall i | 0 <= i < |xs| :: build(xs[i]).audioUrl != ""
    ensures |Extract(build, xs)| == |xs|
    ensures forall i | 0 <= i < |xs| :: Extract(build, xs)[i] == build(xs[i])
    decreases |xs|
  {
    if xs != [] {
      ExtractAll(build, xs[1..]);
    }
  }

  lemma {:induction false} ExtractNone<T>(build: T -> Episode, xs: seq<T>)
    requires forall i | 0 <= i < |xs| :: build(xs[i]).audioUrl == ""
    ensures Extract(build, xs) == []
    decreases |xs|
  {
    if xs != [] {
      ExtractNone(build, xs[1..]);
    }
  }

  /** The filter distributes over concatenation, so it keeps document order. */
  lemma AudibleConcat(a: seq<ItemRecord>, b: seq<ItemRecord>)
    ensures Audible(a + b) == Audible(a) + Audible(b)
  {
    ExtractConcat(ToEpisode, a, b);
  }

  /** An episode is produced exactly when some item builds it and it has
      an audio URL. */
  lemma AudibleMembers(items: seq<ItemRecord>, e: Episode)
    ensures e in Audible(items) <==> exists i | 0 <= i < |items| :: ToEpisode(items[i]) == e && e.audioUrl != ""
  {
    ExtractMembers(ToEpisode, items, e);
  }

  /** The number of items whose episode has an audio URL. */
  function AudibleCount(items: seq<ItemRecord>): nat {
    if items == [] then 0 else (if AudioUrl(items[0]) != "" then 1 else 0) + AudibleCount(items[1..])
  }

  lemma {:induction false} CountsAgree(items: seq<ItemRecord>)
    ensures ExtractCount(ToEpisode, items) == AudibleCount(items)
    decreases |items|
  {
    if items != [] {
      EpisodeAudio(items[0]);
      CountsAgree(items[1..]);
    }
  }

  /** No audible item is lost: the result has one episode per item with an
      audio URL. */
  lemma AudibleLength(items: seq<ItemRecord>)
    ensures |Audible(items)| == AudibleCount(items)
  {
    ExtractLength(ToEpisode, items);
    CountsAgree(items);
  }

  /** When every item has audio, the episodes are the items mapped in order. */
  lemma AllAudible(items: seq<ItemRecord>)
    requires forall i | 0 <= i < |items| :: AudioUrl(items[i]) != ""
    ensures |Audible(items)| == |items|
    ensures forall i | 0 <= i < |items| :: Audible(items)[i] == ToEpisode(items[i])
  {
    forall i | 0 <= i < |items| ensures ToEpisode(items[i]).audioUrl != "" {
      EpisodeAudio(items[i]);
    }
    ExtractAll(ToEpisode, items);
  }

  /** The episodes of a successful parse (`Audible(FirstItems(items))`, see
      ParseRssFeed) number at most 100, all have an audio URL, and are
      exactly the audible episodes built from the first 100 items. */
  lemma FirstHundred(items: seq<ItemRecord>, e: Episode)
    ensures var r := Audible(FirstItems(items));
            && |r| <= MaxItems
            && (forall x | x in r :: x.audioUrl != "")
            && (e in r <==> exists i | 0 <= i < |items| && i < MaxItems :: ToEpisode(items[i]) == e && e.audioUrl != "")
  {
    ExtractPrefixMembers(ToEpisode, items, MaxItems, e);
  }

  /** Membership in the extraction of the first m elements. */
  lemma ExtractPrefixMembers<T>(build: T -> Episode, xs: seq<T>, m: nat, e: Episode)
    ensures var first := if |xs| <= m then xs else xs[..m];
            e in Extract(build, first) <==> exists i | 0 <= i < |xs| && i < m :: build(xs[i]) == e && e.audioUrl != ""
  {
    var first := if |xs| <= m then xs else xs[..m];
    ExtractMembers(build, first, e);
    if exists i | 0 <= i < |xs| && i < m :: build(xs[i]) == e && e.audioUrl != "" {
      var i :| 0 <= i < |xs| && i < m && build(xs[i]) == e && e.audioUrl != "";
      assert first[i] == xs[i];
    }
    if e in Extract(build, first) {
      var i :| 0 <= i < |first| && build(first[i]) == e && e.audioUrl != "";
      assert first[i] == xs[i];
    }
  }

  /** The slice runs before the filter: items past the hundredth never
      contribute, even when none of the first hundred has audio. */
  lemma SliceBeforeFilter(items: seq<ItemRecord>)
    requires |items| > MaxItems
    requires forall i | 0 <= i < MaxItems :: AudioUrl(items[i]) == ""
    ensures Audible(FirstItems(items)) == []
  {
    NoneAudible(items[..MaxItems]);
  }

  /** A list of items none of which has audio yields no episodes. */
  lemma NoneAudible(items: seq<ItemRecord>)
    requires forall i | 0 <= i < |items| :: AudioUrl(items[i]) == ""
    ensures Audible(items) == []
  {
    forall i | 0 <= i < |items| ensures ToEpisode(items[i]).audioUrl == "" {
      EpisodeAudio(items[i]);
    }
    ExtractNone(ToEpisode, items);
  }
}
