/** Podcast URLs: the slug made from a podcast's name, the address pushed
    to the history when a podcast is opened, and the lookup that turns the
    address of a fresh page load back into a podcast. */
module Routing {
  import opened Wrappers
  import opened Js
  import opened Catalog

  // ---------------------------------------------------------------------
  // Slugs
  // ---------------------------------------------------------------------

  /** The class `[a-z0-9]`. */
  predicate IsSlugChar(c: char) {
    'a' <= c <= 'z' || '0' <= c <= '9'
  }

  /** The number of characters outside `[a-z0-9]` that s starts with. */
  function OtherRun(s: string): (n: nat)
    ensures n <= |s|
    ensures forall i | 0 <= i < n :: !IsSlugChar(s[i])
    ensures n < |s| ==> IsSlugChar(s[n])
  {
    if s != [] && !IsSlugChar(s[0]) then 1 + OtherRun(s[1..]) else 0
  }

  /** No two consecutive dashes. */
  predicate NoDoubleDash(s: string) {
    forall i | 0 <= i < |s| - 1 :: !(s[i] == '-' && s[i + 1] == '-')
  }

  /** Only `[a-z0-9]` and dashes. */
  predicate SlugCharset(s: string) {
    forall i | 0 <= i < |s| :: IsSlugChar(s[i]) || s[i] == '-'
  }

  /** `.replace(/[^a-z0-9]+/g, '-')`: each maximal run of other characters
      becomes one dash. */
  function DashRuns(s: string): (r: string)
    ensures SlugCharset(r) && NoDoubleDash(r)
    ensures s == [] <==> r == []
    ensures s != [] && IsSlugChar(s[0]) ==> r[0] == s[0]
    ensures s != [] && !IsSlugChar(s[0]) ==> r[0] == '-'
    decreases |s|
  {
    if s == [] then []
    else if IsSlugChar(s[0]) then [s[0]] + DashRuns(s[1..])
    else "-" + DashRuns(s[OtherRun(s)..])
  }

  /** The number of dashes s starts with. */
  function LeadingDashes(s: string): (n: nat)
    ensures n <= |s|
    ensures forall i | 0 <= i < n :: s[i] == '-'
    ensures n < |s| ==> s[n] != '-'
  {
    if s != [] && s[0] == '-' then 1 + LeadingDashes(s[1..]) else 0
  }

  /** The number of dashes s ends with. */
  function TrailingDashes(s: string): (n: nat)
    ensures n <= |s|
    ensures forall i | |s| - n <= i < |s| :: s[i] == '-'
    ensures n < |s| ==> s[|s| - n - 1] != '-'
  {
    if s != [] && s[|s| - 1] == '-' then 1 + TrailingDashes(s[..|s| - 1]) else 0
  }

  /** `.replace(/^-+|-+$/g, '')`: the leading run of dashes and then the
      trailing run are removed. */
  function StripDashes(s: string): string {
    var t := s[LeadingDashes(s)..];
    t[..|t| - TrailingDashes(t)]
  }

  /** `slugify(text)`. */
  function Slugify(text: string): string {
    StripDashes(DashRuns(Lower(text)))
  }

  /** The shape of every slug: `[a-z0-9]` and single dashes between them. */
  predicate IsSlug(s: string) {
    && SlugCharset(s) && NoDoubleDash(s)
    && (s != [] ==> s[0] != '-' && s[|s| - 1] != '-')
  }

  /** The characters of s in `[a-z0-9]`, in order. */
  function SlugLetters(s: string): (r: string)
    ensures forall i | 0 <= i < |r| :: IsSlugChar(r[i])
  {
    if s == [] then [] else (if IsSlugChar(s[0]) then [s[0]] else []) + SlugLetters(s[1..])
  }

  lemma {:induction false} SlugLettersConcat(a: string, b: string)
    ensures SlugLetters(a + b) == SlugLetters(a) + SlugLetters(b)
    decreases |a|
  {
    if a == [] {
      assert a + b == b;
    } else {
      assert (a + b)[0] == a[0] && (a + b)[1..] == a[1..] + b;
      SlugLettersConcat(a[1..], b);
    }
  }

  /** A string of dashes and other non-slug characters has no slug letters. */
  lemma {:induction false} SlugLettersNone(s: string)
    requires forall i | 0 <= i < |s| :: !IsSlugChar(s[i])
    ensures SlugLetters(s) == []
    decreases |s|
  {
    if s != [] {
      SlugLettersNone(s[1..]);
    }
  }

  /** Collapsing runs loses no letter or digit, and adds none. */
  lemma {:induction false} DashRunsKeepsLetters(s: string)
    ensures SlugLetters(DashRuns(s)) == SlugLetters(s)
    decreases |s|
  {
    if s != [] {
      if IsSlugChar(s[0]) {
        assert s == [s[0]] + s[1..];
        SlugLettersConcat([s[0]], DashRuns(s[1..]));
        SlugLettersConcat([s[0]], s[1..]);
        DashRunsKeepsLetters(s[1..]);
      } else {
        var n := OtherRun(s);
        assert s == s[..n] + s[n..];
        SlugLettersConcat(s[..n], s[n..]);
        SlugLettersNone(s[..n]);
        SlugLettersConcat("-", DashRuns(s[n..]));
        SlugLettersNone("-");
        DashRunsKeepsLetters(s[n..]);
      }
    }
  }

  /** Dashes around a string contribute no slug letters. */
  lemma SlugLettersAround(s: string, a: string, b: string, c: string)
    requires s == a + b + c
    requires forall i | 0 <= i < |a| :: a[i] == '-'
    requires forall i | 0 <= i < |c| :: c[i] == '-'
    ensures SlugLetters(s) == SlugLetters(b)
  {
    SlugLettersConcat(a + b, c);
    SlugLettersConcat(a, b);
    SlugLettersNone(a);
    SlugLettersNone(c);
  }

  /** Stripping dashes loses no letter or digit. */
  lemma StripDashesKeepsLetters(s: string)
    ensures SlugLetters(StripDashes(s)) == SlugLetters(s)
  {
    var a, b, c := StripParts(s);
    SlugLettersAround(s, a, b, c);
  }

  /** What StripDashes removes: a run of dashes on each side. */
  lemma StripParts(s: string) returns (a: string, b: string, c: string)
    ensures s == a + b + c && StripDashes(s) == b
    ensures forall i | 0 <= i < |a| :: a[i] == '-'
    ensures forall i | 0 <= i < |c| :: c[i] == '-'
  {
    var t;
    a, t := LeadingPart(s);
    b, c := TrailingPart(t);
    assert a + b + c == a + (b + c);
  }

  lemma LeadingPart(s: string) returns (a: string, t: string)
    ensures s == a + t && t == s[LeadingDashes(s)..]
    ensures forall i | 0 <= i < |a| :: a[i] == '-'
  {
    var n := LeadingDashes(s);
    a, t := s[..n], s[n..];
    forall i | 0 <= i < |a| ensures a[i] == '-' { assert a[i] == s[i]; }
  }

  lemma TrailingPart(t: string) returns (b: string, c: string)
    ensures t == b + c && b == t[..|t| - TrailingDashes(t)]
    ensures forall i | 0 <= i < |c| :: c[i] == '-'
  {
    var m := TrailingDashes(t);
    b, c := t[..|t| - m], t[|t| - m..];
    forall i | 0 <= i < |c| ensures c[i] == '-' { assert c[i] == t[|t| - m + i]; }
  }

  /** Stripping the dashes of a charset-respecting string without double
      dashes gives a slug. */
  lemma StripDashesShape(s: string)
    requires SlugCharset(s) && NoDoubleDash(s)
    ensures IsSlug(StripDashes(s))
  {
    var n := LeadingDashes(s);
    var t := s[n..];
    var r := t[..|t| - TrailingDashes(t)];
    assert forall i | 0 <= i < |r| :: r[i] == s[n + i];
  }

  /** Every slug has the slug shape, and it keeps every ASCII letter and
      digit of the name, lower-cased, in order. */
  lemma SlugifyShape(text: string)
    ensures IsSlug(Slugify(text))
    ensures SlugLetters(Slugify(text)) == SlugLetters(Lower(text))
  {
    StripDashesShape(DashRuns(Lower(text)));
    StripDashesKeepsLetters(DashRuns(Lower(text)));
    DashRunsKeepsLetters(Lower(text));
  }

  /** A slug contains no '/', so it is a single path segment. */
  lemma SlugHasNoSlash(s: string)
    requires IsSlug(s)
    ensures '/' !in s
  {
  }

  /** Collapsing runs changes nothing in a string that already has only
      slug characters and single dashes. */
  lemma {:induction false} DashRunsFixed(s: string)
    requires SlugCharset(s) && NoDoubleDash(s)
    ensures DashRuns(s) == s
    decreases |s|
  {
    if s != [] {
      if IsSlugChar(s[0]) {
        DashRunsFixed(s[1..]);
        assert [s[0]] + s[1..] == s;
      } else {
        assert OtherRun(s) == 1 by {
          if |s| > 1 { assert s[1] != '-'; }
        }
        DashRunsFixed(s[1..]);
        assert "-" + s[1..] == s;
      }
    }
  }

  /** A slug is its own slug. */
  lemma SlugifyFixed(s: string)
    requires IsSlug(s)
    ensures Slugify(s) == s
  {
    assert Lower(s) == s;
    DashRunsFixed(s);
    assert LeadingDashes(s) == 0;
    assert TrailingDashes(s) == 0;
  }

  /** Slugify is idempotent. */
  lemma SlugifyIdempotent(text: string)
    ensures Slugify(Slugify(text)) == Slugify(text)
  {
    SlugifyShape(text);
    SlugifyFixed(Slugify(text));
  }

  // ---------------------------------------------------------------------
  // Addresses
  // ---------------------------------------------------------------------

  datatype Page = HomePage | PodcastPage

  /** The history entry `updateURL` writes: its address and the podcast id
      kept in its state. */
  datatype HistoryEntry = HistoryEntry(page: Page, podcastId: Option<int>, url: string)

  /** "/podcast/" followed by a slug. */
  function PodcastPath(slug: string): string {
    "/" + "podcast" + "/" + slug
  }

  /** `updateURL(page, podcastId)`: "/" unless the page is a podcast whose
      (truthy, so non-zero) id names an entry of the list. */
  function UpdateUrl(podcasts: seq<PodcastEntry>, page: Page, podcastId: Option<int>): (r: HistoryEntry)
    ensures r.page == page
    ensures r.url == "/" <==> r.podcastId.None?
    ensures r.podcastId.Some? ==> page == PodcastPage && r.podcastId == podcastId && podcastId.value != 0
    ensures r.podcastId.Some? ==> match FindById(podcasts, r.podcastId.value)
                                  case None => false
                                  case Some(k) => r.url == PodcastPath(Slugify(podcasts[k].name))
    ensures (page == PodcastPage && podcastId.Some? && podcastId.value != 0
             && FindById(podcasts, podcastId.value).Some?) ==> r.podcastId.Some?
  {
    if page == PodcastPage && podcastId.Some? && podcastId.value != 0 then
      match FindById(podcasts, podcastId.value)
      case None => HistoryEntry(page, None, "/")
      case Some(k) => HistoryEntry(page, podcastId, PodcastPath(Slugify(podcasts[k].name)))
    else HistoryEntry(page, None, "/")
  }

  /** What a page load at an address asks for. */
  datatype Route = HomeRoute | PodcastRoute(slug: string) | NoRoute

  /** `handleInitialRoute`'s reading of the path: the non-empty segments
      between slashes; none is the home page, "podcast" and a second
      segment is that podcast, anything else is ignored. */
  function InitialRoute(path: string): (r: Route)
    ensures r == HomeRoute <==> NonEmpty(Split(path, '/')) == []
    ensures var parts := NonEmpty(Split(path, '/'));
            && (r.PodcastRoute? <==> |parts| >= 2 && parts[0] == "podcast")
            && (r.PodcastRoute? ==> r.slug == parts[1])
  {
    var parts := NonEmpty(Split(path, '/'));
    if |parts| == 0 then HomeRoute
    else if parts[0] == "podcast" && |parts| >= 2 then PodcastRoute(parts[1])
    else NoRoute
  }

  /** The segments of "/podcast/<slug>" for a slug without '/'. */
  lemma PodcastPathParts(slug: string)
    requires '/' !in slug
    ensures NonEmpty(Split(PodcastPath(slug), '/')) == if slug == "" then ["podcast"] else ["podcast", slug]
  {
    var p := PodcastPath(slug);
    assert p == "" + ['/'] + ("podcast" + ['/'] + slug);
    SplitAt("", "podcast" + ['/'] + slug, '/');
    SplitAt("podcast", slug, '/');
    SplitNone(slug, '/');
    assert Split(p, '/') == ["", "podcast", slug];
    assert NonEmpty([slug]) == (if slug == "" then [] else [slug]) by {
      assert [slug][1..] == [];
    }
    assert NonEmpty(["podcast", slug]) == ["podcast"] + NonEmpty([slug]) by {
      assert ["podcast", slug][1..] == [slug];
    }
    assert NonEmpty(["", "podcast", slug]) == NonEmpty(["podcast", slug]) by {
      assert ["", "podcast", slug][1..] == ["podcast", slug];
    }
  }

  /** The address of a podcast leads back to its slug, as long as the slug
      is not empty. */
  lemma RouteOfPodcastPath(slug: string)
    requires IsSlug(slug) && slug != ""
    ensures InitialRoute(PodcastPath(slug)) == PodcastRoute(slug)
  {
    PodcastPathParts(slug);
  }

  /** A podcast whose name has no ASCII letter or digit gets the address
      "/podcast/", which a page load ignores. */
  lemma EmptySlugIgnored()
    ensures InitialRoute(PodcastPath("")) == NoRoute
  {
    PodcastPathParts("");
  }

  // ---------------------------------------------------------------------
  // Looking a slug up
  // ---------------------------------------------------------------------

  /** The match `handleInitialRoute` applies to each podcast, as written:
      the slug of the name, or the id against `parseInt` of the slug, which
      reads only the slug's leading digits. */
  predicate MatchesAsWritten(p: PodcastEntry, slug: string) {
    Slugify(p.name) == slug || Some(p.id) == ParseInt(slug)
  }

  /** The first podcast matching a slug under the rule above. */
  function FindAsWritten(podcasts: seq<PodcastEntry>, slug: string): (r: Option<nat>)
    ensures r.Some? ==> r.value < |podcasts| && MatchesAsWritten(podcasts[r.value], slug)
                        && forall j | 0 <= j < r.value :: !MatchesAsWritten(podcasts[j], slug)
    ensures r.None? ==> forall j | 0 <= j < |podcasts| :: !MatchesAsWritten(podcasts[j], slug)
  {
    Find(podcasts, p => MatchesAsWritten(p, slug))
  }

  /** The intended match: the slug of the name, or the whole slug being the
      id written in decimal. */
  predicate Matches(p: PodcastEntry, slug: string) {
    Slugify(p.name) == slug || IntToString(p.id) == slug
  }

  /** The first podcast matching a slug under the intended rule. */
  function FindBySlug(podcasts: seq<PodcastEntry>, slug: string): (r: Option<nat>)
    ensures r.Some? ==> r.value < |podcasts| && Matches(podcasts[r.value], slug)
                        && forall j | 0 <= j < r.value :: !Matches(podcasts[j], slug)
    ensures r.None? ==> forall j | 0 <= j < |podcasts| :: !Matches(podcasts[j], slug)
  {
    Find(podcasts, p => Matches(p, slug))
  }

  /** The address written for a podcast leads back to that podcast when
      its slug is not empty and no earlier podcast claims the same slug:
      the page load finds it and opens its id, which selects it again. */
  lemma RouteRoundTrip(podcasts: seq<PodcastEntry>, i: nat)
    requires i < |podcasts| && podcasts[i].id != 0
    requires FindById(podcasts, podcasts[i].id) == Some(i)
    requires Slugify(podcasts[i].name) != ""
    requires forall j | 0 <= j < i :: !Matches(podcasts[j], Slugify(podcasts[i].name))
    ensures var entry := UpdateUrl(podcasts, PodcastPage, Some(podcasts[i].id));
            && entry.podcastId == Some(podcasts[i].id)
            && InitialRoute(entry.url) == PodcastRoute(Slugify(podcasts[i].name))
            && FindBySlug(podcasts, Slugify(podcasts[i].name)) == Some(i)
  {
    var slug := Slugify(podcasts[i].name);
    var entry := UpdateUrl(podcasts, PodcastPage, Some(podcasts[i].id));
    assert entry.url == PodcastPath(slug);
    SlugifyShape(podcasts[i].name);
    RouteOfPodcastPath(slug);
    FirstBySlug(podcasts, slug, i);
  }

  /** The lookup finds the first podcast that matches. */
  lemma FirstBySlug(podcasts: seq<PodcastEntry>, slug: string, i: nat)
    requires i < |podcasts| && Matches(podcasts[i], slug)
    requires forall j | 0 <= j < i :: !Matches(podcasts[j], slug)
    ensures FindBySlug(podcasts, slug) == Some(i)
  {
  }

  /** An address that names a podcast by its id, "/podcast/42", finds the
      first podcast with that id when no earlier name has that slug. */
  lemma RouteById(podcasts: seq<PodcastEntry>, i: nat)
    requires i < |podcasts|
    requires forall j | 0 <= j < i :: !Matches(podcasts[j], IntToString(podcasts[i].id))
    ensures FindBySlug(podcasts, IntToString(podcasts[i].id)) == Some(i)
  {
  }

  /** As written, the id test reads the slug's leading digits: two podcasts
      where the first has id 99 and the second is named "99 x", and the
      address of the second ("/podcast/99-x") opens the first. */
  lemma AsWrittenPrefixMatch(first: PodcastEntry, second: PodcastEntry)
    requires first.id == 99 && first.name == "a" && second.id == 7 && second.name == "99 x"
    ensures Slugify(second.name) == "99-x"
    ensures FindAsWritten([first, second], Slugify(second.name)) == Some(0)
    ensures FindBySlug([first, second], Slugify(second.name)) == Some(1)
  {
    SlugOf99x();
    AsWrittenOpensFirst(first, second, "99-x");
    IntendedOpensSecond(first, second, "99-x");
  }

  lemma AsWrittenOpensFirst(first: PodcastEntry, second: PodcastEntry, slug: string)
    requires first.id == 99 && slug == "99-x"
    ensures FindAsWritten([first, second], slug) == Some(0)
  {
    ParseIntOf99x();
    FirstAsWritten([first, second], slug, 0);
  }

  lemma IntendedOpensSecond(first: PodcastEntry, second: PodcastEntry, slug: string)
    requires first.id == 99 && first.name == "a" && Slugify(second.name) == slug && slug == "99-x"
    ensures FindBySlug([first, second], slug) == Some(1)
  {
    var ps := [first, second];
    assert Slugify(first.name) == "a" by {
      SlugifyFixed("a");
    }
    assert IntToString(99) != slug by {
      assert |IntToString(99)| == 2;
    }
    assert !Matches(ps[0], slug) && Matches(ps[1], slug);
    FirstBySlug(ps, slug, 1);
  }

  /** The as-written lookup finds the first podcast that matches. */
  lemma FirstAsWritten(podcasts: seq<PodcastEntry>, slug: string, i: nat)
    requires i < |podcasts| && MatchesAsWritten(podcasts[i], slug)
    requires forall j | 0 <= j < i :: !MatchesAsWritten(podcasts[j], slug)
    ensures FindAsWritten(podcasts, slug) == Some(i)
  {
  }

  lemma SlugOf99x()
    ensures Slugify("99 x") == "99-x"
  {
    var l := Lower("99 x");
    assert l == "99 x";
    assert OtherRun(" x") == 1;
    assert DashRuns("x") == "x";
    assert DashRuns(" x") == "-" + DashRuns("x");
    assert DashRuns("9 x") == "9" + DashRuns(" x");
    assert DashRuns(l) == "9" + DashRuns("9 x");
    assert DashRuns(l) == "99-x";
    assert LeadingDashes("99-x") == 0;
    assert TrailingDashes("99-x") == 0;
  }

  lemma ParseIntOf99x()
    ensures ParseInt("99-x") == Some(99)
  {
    var s := "99-x";
    assert LeadingWhite(s) == 0 && TrimStart(s) == s;
    assert !StartsWith(s, "0x") && !StartsWith(s, "0X");
    assert DigitRun("-x", false) == [];
    assert DigitRun(s, false) == "99";
    assert DecimalValue("99") == 99;
  }
}
