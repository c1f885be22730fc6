/** The relay that converts a feed to JSON (RSS2JSON): the JSON shape it
    returns, `escapeXml`, and `convertRSS2JSONToXML`, which rebuilds a minimal
    RSS 2.0 document from that JSON so that the feed parser can read every
    relay's output the same way (app.js only). */
module Rss2Json {
  import opened Wrappers
  import opened Js

  // ---------------------------------------------------------------------
  // Escaping with the predefined entities of XML 1.0 (section 4.6)
  // ---------------------------------------------------------------------

  /** The five characters escapeXml replaces, in the order it replaces them,
      and their entities. */
  const Specials: seq<char> := ['&', '<', '>', '"', '\'']
  const Entities: seq<string> := ["&amp;", "&lt;", "&gt;", "&quot;", "&apos;"]

  /** `escapeXml(text)`: the empty string stays empty; otherwise five global
      replacements, '&' first so that the later entities are not re-escaped. */
  function EscapeXml(text: string): string {
    if text == "" then ""
    else
      ReplaceAll(ReplaceAll(ReplaceAll(ReplaceAll(ReplaceAll(
        text, "&", "&amp;"), "<", "&lt;"), ">", "&gt;"), "\"", "&quot;"), "'", "&apos;")
  }

  /** The inverse decoder: the four entities other than &amp; first, then &amp;. */
  function UnescapeXml(text: string): string {
    ReplaceAll(ReplaceAll(ReplaceAll(ReplaceAll(ReplaceAll(
      text, "&lt;", "<"), "&gt;", ">"), "&quot;", "\""), "&apos;", "'"), "&amp;", "&")
  }

  /** Position of c among the specials, 5 when it is none of them. */
  function SpecialIndex(c: char): (j: nat)
    ensures j <= 5
    ensures j < 5 ==> Specials[j] == c
    ensures j == 5 ==> c !in Specials
  {
    if c == '&' then 0 else if c == '<' then 1 else if c == '>' then 2
    else if c == '"' then 3 else if c == '\'' then 4 else 5
  }

  /** What one input character has become after the first k escape passes. */
  function EscToken(c: char, k: nat): string {
    var j := SpecialIndex(c);
    if j < k && j < 5 then Entities[j] else [c]
  }

  /** The whole text after the first k escape passes, token by token. */
  function EscTokens(s: string, k: nat): string {
    if s == [] then [] else EscToken(s[0], k) + EscTokens(s[1..], k)
  }

  /** Escape pass k maps the tokens of pass k to those of pass k + 1. */
  lemma {:induction false} EscapePass(s: string, k: nat)
    requires k < 5
    ensures ReplaceAll(EscTokens(s, k), [Specials[k]], Entities[k]) == EscTokens(s, k + 1)
  {
    if s != [] {
      var t := EscToken(s[0], k);
      var j := SpecialIndex(s[0]);
      ReplaceCharConcat(t, EscTokens(s[1..], k), Specials[k], Entities[k]);
      EscapePass(s[1..], k);
      if j == k {
        ReplaceAllMatch([], [Specials[k]], Entities[k]);
        assert [Specials[k]] + [] == t;
      } else {
        assert Specials[k] !in t;
        ReplaceAllSkip(t, [], [Specials[k]], Entities[k]);
        assert t + [] == t;
      }
    }
  }

  lemma {:induction false} EscTokensNone(s: string)
    ensures EscTokens(s, 0) == s
  {
    if s != [] {
      EscTokensNone(s[1..]);
      assert [s[0]] + s[1..] == s;
    }
  }

  /** escapeXml replaces every special character by its entity, independently. */
  lemma EscapeXmlTokens(s: string)
    ensures EscapeXml(s) == EscTokens(s, 5)
  {
    EscTokensNone(s);
    EscapePass(s, 0);
    EscapePass(s, 1);
    EscapePass(s, 2);
    EscapePass(s, 3);
    EscapePass(s, 4);
  }

  /** None of the markup characters other than '&'. */
  predicate NoMarkup(s: string) {
    forall i :: 0 <= i < |s| ==> s[i] != '<' && s[i] != '>' && s[i] != '"' && s[i] != '\''
  }

  lemma {:induction false} EscTokensNoMarkup(s: string)
    ensures NoMarkup(EscTokens(s, 5))
  {
    if s != [] {
      EscTokensNoMarkup(s[1..]);
      var t := EscToken(s[0], 5);
      assert NoMarkup(t);
      assert EscTokens(s, 5) == t + EscTokens(s[1..], 5);
    }
  }

  /** escapeXml's output holds no '<', '>', '"' or "'", so it can stand as
      element text or as a quoted attribute value. */
  lemma EscapeXmlNoMarkup(s: string)
    ensures NoMarkup(EscapeXml(s))
    ensures '<' !in EscapeXml(s)
  {
    EscapeXmlTokens(s);
    EscTokensNoMarkup(s);
    assert NoMarkup(EscapeXml(s));
  }

  /** Decoding passes: pass d restores this special. */
  function DecodedIndex(d: nat): nat {
    if d < 4 then d + 1 else 0
  }

  /** Whether the special with index j is restored after d decoding passes. */
  predicate Restored(j: nat, d: nat) {
    if j == 0 then d >= 5 else j <= d
  }

  /** What one input character has become after escaping and d decoding passes. */
  function DecToken(c: char, d: nat): string {
    var j := SpecialIndex(c);
    if j == 5 || Restored(j, d) then [c] else Entities[j]
  }

  function DecTokens(s: string, d: nat): string {
    if s == [] then [] else DecToken(s[0], d) + DecTokens(s[1..], d)
  }

  /** Two different entities disagree at position 1 or 2. */
  function EntityMismatch(a: nat, b: nat): (i: nat)
    requires a < 5 && b < 5 && a != b
    ensures i < |Entities[a]| && i < |Entities[b]| && Entities[a][i] != Entities[b][i]
  {
    if Entities[a][1] != Entities[b][1] then 1 else 2
  }

  /** Decoding pass d maps the tokens after d passes to those after d + 1. */
  lemma {:induction false} DecodePass(s: string, d: nat)
    requires d < 5
    ensures ReplaceAll(DecTokens(s, d), Entities[DecodedIndex(d)], [Specials[DecodedIndex(d)]])
            == DecTokens(s, d + 1)
  {
    if s != [] {
      var pat, rep := Entities[DecodedIndex(d)], [Specials[DecodedIndex(d)]];
      var t, rest := DecToken(s[0], d), DecTokens(s[1..], d);
      var j := SpecialIndex(s[0]);
      DecodePass(s[1..], d);
      if j < 5 && !Restored(j, d) && j == DecodedIndex(d) {
        ReplaceAllMatch(rest, pat, rep);
      } else if j < 5 && !Restored(j, d) {
        var i := EntityMismatch(j, DecodedIndex(d));
        assert '&' !in t[1..];
        ReplaceAllMismatch(t, rest, pat, rep, i);
      } else {
        assert '&' !in t;
        ReplaceAllSkip(t, rest, pat, rep);
      }
    }
  }

  lemma {:induction false} DecTokensStart(s: string)
    ensures DecTokens(s, 0) == EscTokens(s, 5)
  {
    if s != [] {
      DecTokensStart(s[1..]);
    }
  }

  lemma {:induction false} DecTokensEnd(s: string)
    ensures DecTokens(s, 5) == s
  {
    if s != [] {
      DecTokensEnd(s[1..]);
      assert [s[0]] + s[1..] == s;
    }
  }

  /** Decoding &lt; &gt; &quot; &apos; and then &amp; gives back the text
      that escapeXml was given. */
  lemma UnescapeEscape(s: string)
    ensures UnescapeXml(EscapeXml(s)) == s
  {
    if s != "" {
      EscapeXmlTokens(s);
      DecTokensStart(s);
      DecodePass(s, 0);
      DecodePass(s, 1);
      DecodePass(s, 2);
      DecodePass(s, 3);
      DecodePass(s, 4);
      DecTokensEnd(s);
    }
  }

  // ---------------------------------------------------------------------
  // The relay's JSON and the XML rebuilt from it
  // ---------------------------------------------------------------------

  /** `json.feed`: title, description and image URL, each possibly missing. */
  datatype FeedMeta = FeedMeta(title: Option<string>, description: Option<string>, image: Option<string>)

  /** `item.enclosure`: the media link and its MIME type. */
  datatype Enclosure = Enclosure(link: Option<string>, mimeType: Option<string>)

  /** One element of `json.items`. */
  datatype Item = Item(title: Option<string>, description: Option<string>,
                       pubDate: Option<string>, enclosure: Option<Enclosure>)

  /** The XML declaration and the rss opening tag, each split after its
      name so that the name can be found in the document. */
  const XmlDeclTarget := "<?xml"
  const XmlDeclRest := " version=\"1.0\" encoding=\"UTF-8\"?>"
  const XmlDecl := XmlDeclTarget + XmlDeclRest
  const RssTag := "<rss"
  const RssRest := " version=\"2.0\">"
  const RssOpen := RssTag + RssRest
  const ChannelOpen := "<channel>"
  /** The fixed opening and closing of every converted document. */
  const Header := XmlDecl + RssOpen + ChannelOpen
  const Footer := ChannelClose + RssClose
  const ChannelClose := "</channel>"
  const RssClose := "</rss>"
  const ItemTag := "<item>"
  const ItemClose := "</item>"
  const EnclosureTag := "<enclosure"
  const ItunesOpen := "<itunes:image href=\""

  /** `<tag>` + escaped text + `</tag>`. */
  function Element(tag: string, text: string): string {
    "<" + tag + ">" + EscapeXml(text) + "</" + tag + ">"
  }

  /** The channel's title (default 'Podcast'), description (default empty)
      and, when the feed has an image, an itunes:image element. */
  function ChannelXml(feed: Option<FeedMeta>): string {
    var title := if feed.Some? then feed.value.title else None;
    var desc := if feed.Some? then feed.value.description else None;
    var image := if feed.Some? then feed.value.image else None;
    var td := Element("title", Or(title, "Podcast")) + Element("description", Or(desc, ""));
    if image.Some? && image.value != ""
    then td + (ItunesOpen + EscapeXml(image.value) + "\"/>")
    else td
  }

  /** Whether the item carries a usable enclosure link. */
  predicate HasLink(enc: Option<Enclosure>) {
    enc.Some? && enc.value.link.Some? && enc.value.link.value != ""
  }

  /** The `<enclosure>` element, present only when the link is set; its type
      defaults to audio/mpeg. */
  function EnclosureXml(enc: Option<Enclosure>): string {
    if HasLink(enc) then
      EnclosureTag + " url=\"" + EscapeXml(enc.value.link.value) + "\" type=\""
      + EscapeXml(Or(enc.value.mimeType, "audio/mpeg")) + "\"/>"
    else ""
  }

  /** One `<item>` element. */
  function ItemXml(it: Item): string {
    ItemTag + Element("title", Or(it.title, "")) + Element("description", Or(it.description, ""))
    + Element("pubDate", Or(it.pubDate, "")) + EnclosureXml(it.enclosure) + ItemClose
  }

  /** The item elements, one per JSON item, in order. */
  function ItemsXml(items: seq<Item>): string {
    if items == [] then "" else ItemsXml(items[..|items| - 1]) + ItemXml(items[|items| - 1])
  }

  /** The document `convertRSS2JSONToXML(json)` produces for a JSON value
      whose feed is `feed` and whose items are `items`. */
  function DocumentXml(feed: Option<FeedMeta>, items: seq<Item>): string {
    Header + ChannelXml(feed) + ItemsXml(items) + Footer
  }

  /** `convertRSS2JSONToXML`: the document is built by appending to a string,
      first the channel header, then one JSON item at a time, then the footer. */
  method ConvertToXml(feed: Option<FeedMeta>, items: seq<Item>) returns (xml: string)
    ensures xml == DocumentXml(feed, items)
  {
    xml := AppendChannel(feed);
    xml := AppendItems(xml, items);
    xml := xml + Footer;
  }

  /** The declaration, the rss and channel openings, and the channel's own
      elements. */
  method AppendChannel(feed: Option<FeedMeta>) returns (xml: string)
    ensures xml == Header + ChannelXml(feed)
  {
    var title := if feed.Some? then feed.value.title else None;
    var desc := if feed.Some? then feed.value.description else None;
    var image := if feed.Some? then feed.value.image else None;
    xml := Header;
    xml := xml + Element("title", Or(title, "Podcast"));
    xml := xml + Element("description", Or(desc, ""));
    if image.Some? && image.value != "" {
      xml := xml + (ItunesOpen + EscapeXml(image.value) + "\"/>");
    }
    ChannelAppended(feed);
  }

  /** The loop over `json.items`. */
  method AppendItems(head: string, items: seq<Item>) returns (xml: string)
    ensures xml == head + ItemsXml(items)
  {
    xml := head;
    var i := 0;
    assert items[..0] == [];
    while i < |items|
      invariant 0 <= i <= |items|
      invariant xml == head + ItemsXml(items[..i])
    {
      xml := AppendItem(xml, items[i]);
      ItemsAppended(head, items, i);
      i := i + 1;
    }
    assert items[..i] == items;
  }

  /** One item: its title, description and date elements, and the enclosure
      when it has a link. */
  method AppendItem(before: string, item: Item) returns (xml: string)
    ensures xml == before + ItemXml(item)
  {
    xml := before + ItemTag;
    xml := xml + Element("title", Or(item.title, ""));
    xml := xml + Element("description", Or(item.description, ""));
    xml := xml + Element("pubDate", Or(item.pubDate, ""));
    if HasLink(item.enclosure) {
      xml := xml + EnclosureXml(item.enclosure);
    }
    xml := xml + ItemClose;
    ItemPieces(before, item, xml);
  }

  /** Appending an item's pieces one by one appends ItemXml. */
  lemma ItemPieces(before: string, it: Item, after: string)
    requires var t, d, p := Element("title", Or(it.title, "")), Element("description", Or(it.description, "")),
                            Element("pubDate", Or(it.pubDate, ""));
             after == if HasLink(it.enclosure)
                      then before + ItemTag + t + d + p + EnclosureXml(it.enclosure) + ItemClose
                      else before + ItemTag + t + d + p + ItemClose
    ensures after == before + ItemXml(it)
  {
    var t, d, p, e := Element("title", Or(it.title, "")), Element("description", Or(it.description, "")),
                      Element("pubDate", Or(it.pubDate, "")), EnclosureXml(it.enclosure);
    if HasLink(it.enclosure) {
      Assoc7(before, ItemTag, t, d, p, e, ItemClose);
    } else {
      Assoc6(before, ItemTag, t, d, p, ItemClose);
      EmptyMiddle(ItemTag + t + d + p, e, ItemClose);
    }
  }

  /** The channel metadata, appended piece by piece after the header. */
  lemma ChannelAppended(feed: Option<FeedMeta>)
    ensures var title := if feed.Some? then feed.value.title else None;
            var desc := if feed.Some? then feed.value.description else None;
            var image := if feed.Some? then feed.value.image else None;
            var x := Header + Element("title", Or(title, "Podcast")) + Element("description", Or(desc, ""));
            (if image.Some? && image.value != ""
             then x + (ItunesOpen + EscapeXml(image.value) + "\"/>") else x)
            == Header + ChannelXml(feed)
  {
    var title := if feed.Some? then feed.value.title else None;
    var desc := if feed.Some? then feed.value.description else None;
    var image := if feed.Some? then feed.value.image else None;
    var t, d := Element("title", Or(title, "Podcast")), Element("description", Or(desc, ""));
    if image.Some? && image.value != "" {
      Assoc4(Header, t, d, ItunesOpen + EscapeXml(image.value) + "\"/>");
    } else {
      Assoc3(Header, t, d);
    }
  }

  /** One more item in the loop appends one more ItemXml. */
  lemma ItemsAppended(head: string, items: seq<Item>, i: nat)
    requires i < |items|
    ensures head + ItemsXml(items[..i]) + ItemXml(items[i]) == head + ItemsXml(items[..i + 1])
  {
    assert items[..i + 1][..i] == items[..i];
    Assoc3(head, ItemsXml(items[..i]), ItemXml(items[i]));
  }

  lemma Assoc3(a: string, b: string, c: string)
    ensures a + b + c == a + (b + c)
  {
  }

  lemma Assoc4(a: string, b: string, c: string, d: string)
    ensures a + b + c + d == a + (b + c + d)
  {
  }

  lemma Assoc6(a: string, b: string, c: string, d: string, e: string, f: string)
    ensures a + b + c + d + e + f == a + (b + c + d + e + f)
  {
  }

  lemma Assoc7(a: string, b: string, c: string, d: string, e: string, f: string, g: string)
    ensures a + b + c + d + e + f + g == a + (b + c + d + e + f + g)
  {
  }

  /** The two ways the counting lemmas regroup an item element and what follows it. */
  lemma ItemRegroup(a: string, t: string, d: string, p: string, e: string, c: string, r: string)
    ensures a + t + d + p + e + c + r == a + ((t + d + p + e + c) + r)
    ensures a + t + d + p + e + c + r == (a + (t + d + p)) + (e + (c + r))
  {
  }

  lemma Assoc22(a: string, b: string, c: string, d: string)
    ensures a + b + c + d == (a + b) + (c + d)
  {
  }

  lemma EmptyMiddle(a: string, e: string, b: string)
    requires e == ""
    ensures a + e + b == a + b
  {
  }

  // ---------------------------------------------------------------------
  // What the converted document holds
  // ---------------------------------------------------------------------


  /** How many JSON items carry an enclosure link. */
  function Linked(items: seq<Item>): nat {
    if items == [] then 0
    else Linked(items[..|items| - 1]) + (if HasLink(items[|items| - 1].enclosure) then 1 else 0)
  }

  /** What the counting lemmas need of a tag: it opens with '<' and differs
      from `<itunes:image` and from every other tag the document uses. */
  predicate CountedTag(pat: string) {
    |pat| >= 4 && pat[0] == '<' && ((pat[1] == 'i' && pat[3] == 'e') || pat[1] == 'e')
  }

  lemma CountedTags()
    ensures CountedTag(ItemTag) && CountedTag(EnclosureTag)
  {
  }

  /** Neither counted tag can start inside a `<tag>text</tag>` element whose
      tag begins with neither 'i' nor 'e'. */
  lemma ElementInert(tag: string, text: string, pat: string)
    requires CountedTag(pat)
    requires |tag| > 0 && '<' !in tag && tag[0] != 'i' && tag[0] != 'e'
    ensures Inert(Element(tag, text), pat)
  {
    var o, c, e := "<" + tag + ">", "</" + tag + ">", EscapeXml(text);
    assert o[1] == tag[0] && o[1..] == tag + ">";
    InertToken(o, pat, 1);
    assert c[1] == '/' && c[1..] == "/" + tag + ">";
    InertToken(c, pat, 1);
    EscapeXmlNoMarkup(text);
    InertWithout(e, pat);
    InertConcat(o, e, pat);
    InertConcat(o + e, c, pat);
    assert Element(tag, text) == o + e + c;
  }

  /** A tag token whose second character is neither 'i' nor 'e' and that
      holds no other '<' is inert for either counted tag. */
  lemma OpenInert(t: string, pat: string)
    requires CountedTag(pat) && |t| > 1 && t[0] == '<' && '<' !in t[1..] && t[1] != 'i' && t[1] != 'e'
    ensures Inert(t, pat)
  {
    InertToken(t, pat, 1);
  }

  lemma XmlDeclInert(pat: string)
    requires CountedTag(pat)
    ensures Inert(XmlDecl, pat)
  {
    assert XmlDeclTarget[1..] == "?xml";
    OpenInert(XmlDeclTarget, pat);
    InertWithout(XmlDeclRest, pat);
    InertConcat(XmlDeclTarget, XmlDeclRest, pat);
  }

  lemma RssOpenInert(pat: string)
    requires CountedTag(pat)
    ensures Inert(RssOpen, pat)
  {
    assert RssTag[1..] == "rss";
    OpenInert(RssTag, pat);
    InertWithout(RssRest, pat);
    InertConcat(RssTag, RssRest, pat);
  }

  lemma ChannelOpenInert(pat: string)
    requires CountedTag(pat)
    ensures Inert(ChannelOpen, pat)
  {
    assert ChannelOpen[1..] == "channel>";
    OpenInert(ChannelOpen, pat);
  }

  /** The fixed header holds neither counted tag. */
  lemma HeaderInert(pat: string)
    requires CountedTag(pat)
    ensures Inert(Header, pat)
  {
    XmlDeclInert(pat);
    RssOpenInert(pat);
    ChannelOpenInert(pat);
    InertConcat(XmlDecl, RssOpen, pat);
    InertConcat(XmlDecl + RssOpen, ChannelOpen, pat);
  }


  lemma CloseInert(t: string, pat: string)
    requires CountedTag(pat) && (t == ChannelClose || t == RssClose || t == ItemClose)
    ensures Inert(t, pat)
  {
    if t == ChannelClose {
      assert t[1..] == "/channel>";
    } else if t == RssClose {
      assert t[1..] == "/rss>";
    } else {
      assert t[1..] == "/item>";
    }
    OpenInert(t, pat);
  }

  /** Nor does the footer. */
  lemma FooterInert(pat: string)
    requires CountedTag(pat)
    ensures Inert(Footer, pat)
  {
    CloseInert(ChannelClose, pat);
    CloseInert(RssClose, pat);
    InertConcat(ChannelClose, RssClose, pat);
  }


  lemma ItunesInert(pat: string)
    requires CountedTag(pat)
    ensures Inert(ItunesOpen, pat)
  {
    assert ItunesOpen[1..] == "itunes:image href=\"";
    assert ItunesOpen[3] == 'u';
    if pat[1] == 'i' {
      InertToken(ItunesOpen, pat, 3);
    } else {
      InertToken(ItunesOpen, pat, 1);
    }
  }

  /** `<item>` holds no `<enclosure`. */
  lemma ItemTagInert()
    ensures Inert(ItemTag, EnclosureTag)
  {
    assert ItemTag[1..] == "item>";
    InertToken(ItemTag, EnclosureTag, 1);
  }

  /** Nor does the channel's metadata. */
  lemma ChannelInert(feed: Option<FeedMeta>, pat: string)
    requires CountedTag(pat)
    ensures Inert(ChannelXml(feed), pat)
  {
    var title := if feed.Some? then feed.value.title else None;
    var desc := if feed.Some? then feed.value.description else None;
    var image := if feed.Some? then feed.value.image else None;
    var t, d := Element("title", Or(title, "Podcast")), Element("description", Or(desc, ""));
    TitleDescriptionInert(Or(title, "Podcast"), Or(desc, ""), pat);
    if image.Some? && image.value != "" {
      ImageInert(image.value, pat);
      InertConcat(t + d, ItunesOpen + EscapeXml(image.value) + "\"/>", pat);
    }
  }

  lemma TitleDescriptionInert(title: string, desc: string, pat: string)
    requires CountedTag(pat)
    ensures Inert(Element("title", title) + Element("description", desc), pat)
  {
    ElementInert("title", title, pat);
    ElementInert("description", desc, pat);
    InertConcat(Element("title", title), Element("description", desc), pat);
  }

  lemma ImageInert(url: string, pat: string)
    requires CountedTag(pat)
    ensures Inert(ItunesOpen + EscapeXml(url) + "\"/>", pat)
  {
    var e := EscapeXml(url);
    ItunesInert(pat);
    EscapeXmlNoMarkup(url);
    InertWithout(e, pat);
    InertWithout("\"/>", pat);
    InertConcat(ItunesOpen, e, pat);
    InertConcat(ItunesOpen + e, "\"/>", pat);
  }

  /** The three text elements of an item hold neither counted tag. */
  lemma TextElementsInert(it: Item, pat: string)
    requires CountedTag(pat)
    ensures Inert(Element("title", Or(it.title, "")) + Element("description", Or(it.description, ""))
                  + Element("pubDate", Or(it.pubDate, "")), pat)
  {
    var t, d, p := Element("title", Or(it.title, "")), Element("description", Or(it.description, "")),
                   Element("pubDate", Or(it.pubDate, ""));
    ElementInert("title", Or(it.title, ""), pat);
    ElementInert("description", Or(it.description, ""), pat);
    ElementInert("pubDate", Or(it.pubDate, ""), pat);
    InertConcat(t, d, pat);
    InertConcat(t + d, p, pat);
  }

  /** The enclosure element holds no `<item>`, and holds `<enclosure` exactly
      when the item has a link. */
  lemma EnclosureCounts(enc: Option<Enclosure>, r: string)
    ensures Inert(EnclosureXml(enc), ItemTag)
    ensures Count(EnclosureXml(enc) + r, EnclosureTag)
            == (if HasLink(enc) then 1 else 0) + Count(r, EnclosureTag)
  {
    if HasLink(enc) {
      var a, b := EscapeXml(enc.value.link.value), EscapeXml(Or(enc.value.mimeType, "audio/mpeg"));
      EscapeXmlNoMarkup(enc.value.link.value);
      EscapeXmlNoMarkup(Or(enc.value.mimeType, "audio/mpeg"));
      var rest := " url=\"" + a + "\" type=\"" + b + "\"/>";
      assert '<' !in rest;
      Assoc6(EnclosureTag, " url=\"", a, "\" type=\"", b, "\"/>");
      assert EnclosureTag[1..] == "enclosure";
      InertToken(EnclosureTag, ItemTag, 1);
      InertWithout(rest, ItemTag);
      InertConcat(EnclosureTag, rest, ItemTag);
      InertWithout(rest, EnclosureTag);
      Assoc3(EnclosureTag, rest, r);
      CountMatch(rest + r, EnclosureTag);
      CountInert(rest, r, EnclosureTag);
    } else {
      assert EnclosureXml(enc) + r == r;
    }
  }

  /** Each item element holds exactly one `<item>`. */
  lemma ItemCount(it: Item, r: string)
    ensures Count(ItemXml(it) + r, ItemTag) == 1 + Count(r, ItemTag)
  {
    var t, d, p, e := Element("title", Or(it.title, "")), Element("description", Or(it.description, "")),
                      Element("pubDate", Or(it.pubDate, "")), EnclosureXml(it.enclosure);
    var body := t + d + p + e + ItemClose;
    ItemBodyInert(it);
    ItemRegroup(ItemTag, t, d, p, e, ItemClose, r);
    CountMatch(body + r, ItemTag);
    CountInert(body, r, ItemTag);
  }

  /** What follows `<item>` in an item element holds no `<item>`. */
  lemma ItemBodyInert(it: Item)
    ensures Inert(Element("title", Or(it.title, "")) + Element("description", Or(it.description, ""))
                  + Element("pubDate", Or(it.pubDate, "")) + EnclosureXml(it.enclosure) + ItemClose, ItemTag)
  {
    var t, d, p, e := Element("title", Or(it.title, "")), Element("description", Or(it.description, "")),
                      Element("pubDate", Or(it.pubDate, "")), EnclosureXml(it.enclosure);
    CountedTags();
    TextElementsInert(it, ItemTag);
    EnclosureCounts(it.enclosure, "");
    CloseInert(ItemClose, ItemTag);
    InertConcat(t + d + p, e, ItemTag);
    InertConcat(t + d + p + e, ItemClose, ItemTag);
  }

  /** Each item element holds `<enclosure` once if the item has a link and
      otherwise not at all. */
  lemma ItemEnclosureCount(it: Item, r: string)
    ensures Count(ItemXml(it) + r, EnclosureTag)
            == (if HasLink(it.enclosure) then 1 else 0) + Count(r, EnclosureTag)
  {
    var t, d, p, e := Element("title", Or(it.title, "")), Element("description", Or(it.description, "")),
                      Element("pubDate", Or(it.pubDate, "")), EnclosureXml(it.enclosure);
    CountedTags();
    TextElementsInert(it, EnclosureTag);
    ItemTagInert();
    CloseInert(ItemClose, EnclosureTag);
    InertConcat(ItemTag, t + d + p, EnclosureTag);
    var pre := ItemTag + (t + d + p);
    ItemRegroup(ItemTag, t, d, p, e, ItemClose, r);
    CountInert(pre, e + (ItemClose + r), EnclosureTag);
    EnclosureCounts(it.enclosure, ItemClose + r);
    CountInert(ItemClose, r, EnclosureTag);
  }

  /** The item elements hold one `<item>` per JSON item. */
  lemma {:induction false} ItemsCount(items: seq<Item>, r: string)
    ensures Count(ItemsXml(items) + r, ItemTag) == |items| + Count(r, ItemTag)
    decreases |items|
  {
    if items == [] {
      assert ItemsXml(items) + r == r;
    } else {
      var init, last := items[..|items| - 1], items[|items| - 1];
      assert ItemsXml(items) + r == ItemsXml(init) + (ItemXml(last) + r);
      ItemsCount(init, ItemXml(last) + r);
      ItemCount(last, r);
    }
  }

  /** The item elements hold one `<enclosure` per JSON item with a link. */
  lemma {:induction false} ItemsEnclosureCount(items: seq<Item>, r: string)
    ensures Count(ItemsXml(items) + r, EnclosureTag) == Linked(items) + Count(r, EnclosureTag)
    decreases |items|
  {
    if items == [] {
      assert ItemsXml(items) + r == r;
    } else {
      var init, last := items[..|items| - 1], items[|items| - 1];
      assert ItemsXml(items) + r == ItemsXml(init) + (ItemXml(last) + r);
      ItemsEnclosureCount(init, ItemXml(last) + r);
      ItemEnclosureCount(last, r);
    }
  }

  /** Counting in the whole document comes down to counting in its items. */
  lemma DocumentCountsItems(feed: Option<FeedMeta>, items: seq<Item>, pat: string)
    requires CountedTag(pat)
    ensures Count(DocumentXml(feed, items), pat) == Count(ItemsXml(items) + Footer, pat)
  {
    HeaderInert(pat);
    ChannelInert(feed, pat);
    InertConcat(Header, ChannelXml(feed), pat);
    Assoc22(Header, ChannelXml(feed), ItemsXml(items), Footer);
    CountInert(Header + ChannelXml(feed), ItemsXml(items) + Footer, pat);
  }

  /** The converted document has exactly one `<item>` per JSON item. */
  lemma DocumentItemCount(feed: Option<FeedMeta>, items: seq<Item>)
    ensures Count(DocumentXml(feed, items), ItemTag) == |items|
  {
    CountedTags();
    DocumentCountsItems(feed, items, ItemTag);
    ItemsCount(items, Footer);
    FooterInert(ItemTag);
    CountInertAlone(Footer, ItemTag);
  }

  /** ... and exactly one `<enclosure` per JSON item whose enclosure has a link. */
  lemma DocumentEnclosureCount(feed: Option<FeedMeta>, items: seq<Item>)
    ensures Count(DocumentXml(feed, items), EnclosureTag) == Linked(items)
  {
    CountedTags();
    DocumentCountsItems(feed, items, EnclosureTag);
    ItemsEnclosureCount(items, Footer);
    FooterInert(EnclosureTag);
    CountInertAlone(Footer, EnclosureTag);
  }

  /** The document opens with the declaration, rss and channel tags, closes
      them, has no surrounding whitespace, and names both `<?xml` and `<rss`. */
  lemma DocumentShape(feed: Option<FeedMeta>, items: seq<Item>)
    ensures var doc := DocumentXml(feed, items);
            StartsWith(doc, Header) && |Footer| <= |doc| && doc[|doc| - |Footer|..] == Footer
            && doc[0] == '<' && Trim(doc) == doc
            && Contains(doc, "<?xml") && Contains(doc, "<rss")
  {
    var doc := DocumentXml(feed, items);
    var c, i := ChannelXml(feed), ItemsXml(items);
    Assoc4(Header, c, i, Footer);
    StartsWithConcat(Header, c + i + Footer);
    SuffixConcat(Header + c + i, Footer);
    StartsWithConcat(XmlDecl + RssOpen, ChannelOpen);
    StartsWithConcat(XmlDecl, RssOpen);
    StartsWithTrans(doc, Header, XmlDecl + RssOpen);
    StartsWithTrans(doc, XmlDecl + RssOpen, XmlDecl);
    PrefixAssoc(XmlDecl, RssTag, RssRest, ChannelOpen);
    StartsWithTrans(doc, Header, XmlDecl + RssTag);
    DocumentEnds(doc);
    OpensWithNames(doc);
  }

  /** A text that opens with the declaration and closes with the footer has
      no whitespace to trim. */
  lemma DocumentEnds(doc: string)
    requires StartsWith(doc, XmlDecl) && |Footer| <= |doc| && doc[|doc| - |Footer|..] == Footer
    ensures doc[0] == '<' && Trim(doc) == doc
  {
    StartsWithConcat(XmlDeclTarget, XmlDeclRest);
    StartsWithTrans(doc, XmlDecl, XmlDeclTarget);
    assert doc[0] == XmlDeclTarget[0];
    assert doc[|doc| - 1] == Footer[|Footer| - 1] == RssClose[5];
    TrimUnchanged(doc);
  }

  /** ... and names the declaration's target and the rss tag. */
  lemma OpensWithNames(doc: string)
    requires StartsWith(doc, XmlDecl) && StartsWith(doc, XmlDecl + RssTag)
    ensures Contains(doc, "<?xml") && Contains(doc, "<rss")
  {
    StartsWithConcat(XmlDeclTarget, XmlDeclRest);
    StartsWithTrans(doc, XmlDecl, XmlDeclTarget);
    ContainsSelf(XmlDeclTarget);
    SplitAtPrefix(doc, XmlDeclTarget);
    ContainsInConcat([], XmlDeclTarget, doc[|XmlDeclTarget|..], "<?xml");
    assert [] + XmlDeclTarget == XmlDeclTarget;
    ContainsSelf(RssTag);
    SplitAtPrefix(doc, XmlDecl + RssTag);
    ContainsInConcat(XmlDecl, RssTag, doc[|XmlDecl + RssTag|..], "<rss");
  }
}
