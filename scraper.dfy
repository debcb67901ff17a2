/** `scrape_mp3_links`: from the anchors of a fetched page, the links to
    ".mp3" files with their display names. The page fetch and the HTML
    parse are outside the model: the page arrives as its sequence of
    `<a>` elements in document order, and `requests.compat.urljoin` is a
    function handed in by the caller. */
module Scraper {
  import opened Wrappers
  import opened PyStr
  import opened Naming

  /** One `<a>` element: its `href` and `title` attributes, when present. */
  datatype Anchor = Anchor(href: Option<string>, title: Option<string>)

  /** One entry of the result: the resolved link and its display name. */
  datatype LinkEntry = LinkEntry(url: string, displayName: string)

  /** The anchors the loop keeps: those that have an `href` (the
      `href=True` filter of `find_all`) ending in ".mp3". */
  predicate IsMp3Anchor(a: Anchor) {
    a.href.Some? && EndsWith(a.href.value, AudioExt)
  }

  /** The entry made for a kept anchor. */
  function EntryFor(pageUrl: string, a: Anchor, urljoin: (string, string) -> string): LinkEntry
    requires a.href.Some?
  {
    LinkEntry(urljoin(pageUrl, a.href.value), DisplayName(a.title))
  }

  /** What the loop has appended after the given anchors. */
  function Mp3Links(pageUrl: string, anchors: seq<Anchor>, urljoin: (string, string) -> string): (r: seq<LinkEntry>)
    ensures |r| <= |anchors|
  {
    if anchors == [] then []
    else
      var last := anchors[|anchors| - 1];
      Mp3Links(pageUrl, anchors[..|anchors| - 1], urljoin)
        + (if IsMp3Anchor(last) then [EntryFor(pageUrl, last, urljoin)] else [])
  }

  /** The positions of the kept anchors: in range, strictly increasing, and
      holding exactly the positions of anchors with an ".mp3" href. */
  function Mp3Indices(anchors: seq<Anchor>): (idx: seq<int>)
    ensures forall k :: 0 <= k < |idx| ==> 0 <= idx[k] < |anchors|
    ensures forall j, k :: 0 <= j < k < |idx| ==> idx[j] < idx[k]
    ensures forall i :: 0 <= i < |anchors| ==> (i in idx <==> IsMp3Anchor(anchors[i]))
  {
    if anchors == [] then []
    else
      var n := |anchors| - 1;
      var before := Mp3Indices(anchors[..n]);
      assert forall i :: 0 <= i < n ==> anchors[..n][i] == anchors[i];
      before + (if IsMp3Anchor(anchors[n]) then [n] else [])
  }

  /** The result has one entry per kept anchor, in document order, each
      made from that anchor; nothing is merged or dropped. */
  lemma {:induction false} Mp3LinksSelects(pageUrl: string, anchors: seq<Anchor>, urljoin: (string, string) -> string)
    ensures var links, idx := Mp3Links(pageUrl, anchors, urljoin), Mp3Indices(anchors);
      && |links| == |idx|
      && forall k :: 0 <= k < |links| ==>
           (IsMp3Anchor(anchors[idx[k]]) && links[k] == EntryFor(pageUrl, anchors[idx[k]], urljoin))
  {
    if anchors != [] {
      var n := |anchors| - 1;
      Mp3LinksSelects(pageUrl, anchors[..n], urljoin);
      var links, idx := Mp3Links(pageUrl, anchors, urljoin), Mp3Indices(anchors);
      var before := Mp3Indices(anchors[..n]);
      forall k | 0 <= k < |links|
        ensures IsMp3Anchor(anchors[idx[k]]) && links[k] == EntryFor(pageUrl, anchors[idx[k]], urljoin)
      {
        if k < |before| {
          assert anchors[..n][before[k]] == anchors[idx[k]];
        }
      }
    }
  }

  /** No result exactly when no anchor has an ".mp3" href. */
  lemma Mp3LinksEmptyIff(pageUrl: string, anchors: seq<Anchor>, urljoin: (string, string) -> string)
    ensures Mp3Links(pageUrl, anchors, urljoin) == [] <==> forall i :: 0 <= i < |anchors| ==> !IsMp3Anchor(anchors[i])
  {
    Mp3LinksSelects(pageUrl, anchors, urljoin);
    var idx := Mp3Indices(anchors);
    if idx != [] {
      assert idx[0] in idx;
    }
  }

  /** Scraping the anchors of two parts of a page gives the two results one
      after the other: order is kept and duplicates are not removed. */
  lemma {:induction false} Mp3LinksAppend(pageUrl: string, a: seq<Anchor>, b: seq<Anchor>, urljoin: (string, string) -> string)
    ensures Mp3Links(pageUrl, a + b, urljoin) == Mp3Links(pageUrl, a, urljoin) + Mp3Links(pageUrl, b, urljoin)
  {
    if b == [] {
      assert a + b == a;
    } else {
      var n := |b| - 1;
      assert (a + b)[..|a + b| - 1] == a + b[..n];
      Mp3LinksAppend(pageUrl, a, b[..n], urljoin);
    }
  }

  /** A page repeated gives its links repeated: equal anchors are not
      merged. */
  lemma Mp3LinksKeepsDuplicates(pageUrl: string, anchors: seq<Anchor>, urljoin: (string, string) -> string)
    ensures var links := Mp3Links(pageUrl, anchors, urljoin);
      Mp3Links(pageUrl, anchors + anchors, urljoin) == links + links
  {
    Mp3LinksAppend(pageUrl, anchors, anchors, urljoin);
  }

  /** One more qualifying anchor adds its entry at the end. */
  lemma Mp3LinksKeep(pageUrl: string, s: seq<Anchor>, a: Anchor, urljoin: (string, string) -> string)
    requires IsMp3Anchor(a)
    ensures Mp3Links(pageUrl, s + [a], urljoin) == Mp3Links(pageUrl, s, urljoin) + [EntryFor(pageUrl, a, urljoin)]
  {
    assert (s + [a])[..|s|] == s;
  }

  /** One more anchor that does not qualify leaves the result unchanged. */
  lemma Mp3LinksSkip(pageUrl: string, s: seq<Anchor>, a: Anchor, urljoin: (string, string) -> string)
    requires !IsMp3Anchor(a)
    ensures Mp3Links(pageUrl, s + [a], urljoin) == Mp3Links(pageUrl, s, urljoin)
  {
    assert (s + [a])[..|s|] == s;
  }

  /** A page with a ".mp3" anchor titled "X.mp3", an anchor pointing
      elsewhere, and an untitled ".mp3" anchor gives two entries in page
      order: X, then the placeholder. */
  lemma TwoLinkPage(pageUrl: string, h1: string, h2: string, other: string, stem: string,
                    urljoin: (string, string) -> string)
    requires EndsWith(h1, AudioExt) && EndsWith(h2, AudioExt) && !EndsWith(other, AudioExt)
    requires stem != [] && !IsSpace(stem[0])
    ensures var links := Mp3Links(pageUrl, [Anchor(Some(h1), Some(stem + AudioExt)), Anchor(Some(other), None),
                                            Anchor(Some(h2), None)], urljoin);
      && |links| == 2
      && links[0] == LinkEntry(urljoin(pageUrl, h1), stem)
      && links[1] == LinkEntry(urljoin(pageUrl, h2), Placeholder)
  {
    var a := [Anchor(Some(h1), Some(stem + AudioExt)), Anchor(Some(other), None), Anchor(Some(h2), None)];
    KeepsFirstAndLast(pageUrl, a[0], a[1], a[2], urljoin);
    DisplayNameDropsExtension(stem);
    DisplayNameDefault(None);
  }

  lemma KeepsFirstAndLast(pageUrl: string, x: Anchor, y: Anchor, z: Anchor, urljoin: (string, string) -> string)
    requires IsMp3Anchor(x) && !IsMp3Anchor(y) && IsMp3Anchor(z)
    ensures var links := Mp3Links(pageUrl, [x, y, z], urljoin);
      |links| == 2 && links[0] == EntryFor(pageUrl, x, urljoin) && links[1] == EntryFor(pageUrl, z, urljoin)
  {
    var s0: seq<Anchor> := [];
    var s1 := s0 + [x];
    var s2 := s1 + [y];
    assert s2 + [z] == [x, y, z];
    Mp3LinksKeep(pageUrl, s0, x, urljoin);
    Mp3LinksSkip(pageUrl, s1, y, urljoin);
    Mp3LinksKeep(pageUrl, s2, z, urljoin);
  }

  /** `scrape_mp3_links` after the fetch and the parse: walks the anchors in
      order and appends an entry for each one whose href ends in ".mp3". */
  method ScrapeMp3Links(pageUrl: string, anchors: seq<Anchor>, urljoin: (string, string) -> string)
    returns (links: seq<LinkEntry>)
    ensures links == Mp3Links(pageUrl, anchors, urljoin)
  {
    links := [];
    for i := 0 to |anchors|
      invariant links == Mp3Links(pageUrl, anchors[..i], urljoin)
    {
      var a := anchors[i];
      assert anchors[..i + 1][..i] == anchors[..i];
      if a.href.Some? && EndsWith(a.href.value, AudioExt) {
        var fullLink := urljoin(pageUrl, a.href.value);
        var displayName := DisplayName(a.title);
        links := links + [LinkEntry(fullLink, displayName)];
      }
    }
    assert anchors[..|anchors|] == anchors;
  }
}
