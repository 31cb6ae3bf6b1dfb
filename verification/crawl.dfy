/** The crawler of the current version (Source/crawl_announcement.py): finding the new
    announcements of a board from its listing page, and reading an announcement's detail
    page in two fidelities. The HTTP requests are not modelled: each request's response is
    an input, `None` standing for a `RequestException`. */
module Crawl {
  import opened Py
  import opened Text
  import opened Html

  /** An announcement as the crawler builds it; `noticeBoardName` is filled in later by
      the pipeline with the category. */
  datatype Announcement = Announcement(
    title: string,
    url: string,
    contentHtml: seq<Node>,
    contentText: string,
    noticeBoardName: string,
    files: seq<string>)

  /** A monitored board: its listing page, the base its relative links are resolved
      against, and the highest announcement number already processed (the `number` the
      page manager attaches to each page). */
  datatype AnnouncementPage = AnnouncementPage(pageUrl: string, defaultUrl: string, number: int)

  /** What the parser finds in a listing page: no `tbody` at all, or the table with the
      stripped text of each `td._artclTdNum` cell and, for each `td._artclTdTitle` cell, the
      `href` of its `a.artclLinkView` anchor (`None` when the cell has no such anchor).
      The two cell lists are found independently, each in document order. */
  datatype ListingPage =
    | NoTable
    | Table(numberCells: seq<string>, titleCells: seq<Option<string>>)

  /** What `get_anns_url` returns: a bare empty list (its failure path), or the pair of
      new URLs and the latest number seen. */
  datatype AnnsUrls = BareList | UrlsAndNumber(urls: seq<string>, latest: int)

  /** The first anchor of an attachment list item: its `href` and its content. */
  datatype Anchor = Anchor(href: string, inner: seq<Node>)

  /** What the parser finds in a detail page: the URL the response came from (after
      redirects), the `h2.artclViewTitle` element, the `div.artclView` element, and for each
      `dd.artclInsert` the first anchor of each of its `li` items (`None` for an item
      without one). */
  datatype DetailPage = DetailPage(
    finalUrl: string,
    title: Option<Node>,
    view: Option<Node>,
    inserts: seq<seq<Option<Anchor>>>)

  /** An attachment fetched by the crawler: the URL requested and the local path written. */
  datatype Download = Download(url: string, path: string)

  const DownloadMarker := "download.do"
  const DownloadDir := "downloads"

  // ============================================================ clean_title

  /** `' '.join(title.split())`. */
  function CleanTitle(title: string): (r: string)
    ensures Normalized(r)
    ensures Split(r) == Split(title)
  {
    SplitYieldsWords(title);
    JoinIsNormalized(Split(title));
    SplitJoin(Split(title));
    JoinWords(Split(title))
  }

  /** Cleaning a cleaned title changes nothing. */
  lemma CleanTitleIdempotent(title: string)
    ensures CleanTitle(CleanTitle(title)) == CleanTitle(title)
  {
  }

  // ============================================================ get_anns_url

  /** `True` when `n` is the largest number among the all-digit cells, and is one of them. */
  ghost predicate IsLatest(cells: seq<string>, n: int) {
    && (exists j | 0 <= j < |cells| :: IsDigits(cells[j]) && ParseNat(cells[j]) == n)
    && (forall j | 0 <= j < |cells| && IsDigits(cells[j]) :: ParseNat(cells[j]) <= n)
  }

  /** The numbers of the all-digit cells, in order. */
  function DigitNumbers(cells: seq<string>): seq<nat> {
    if cells == [] then []
    else
      var last := cells[|cells| - 1];
      DigitNumbers(cells[..|cells| - 1]) + (if IsDigits(last) then [ParseNat(last)] else [])
  }

  /** The numbers collected are exactly those of the all-digit cells. */
  lemma {:induction false} DigitNumbersExact(cells: seq<string>)
    ensures forall x :: x in DigitNumbers(cells) <==>
      exists j | 0 <= j < |cells| :: IsDigits(cells[j]) && ParseNat(cells[j]) == x
  {
    if cells != [] {
      var init := cells[..|cells| - 1];
      DigitNumbersExact(init);
      forall x ensures x in DigitNumbers(cells) <==>
        exists j | 0 <= j < |cells| :: IsDigits(cells[j]) && ParseNat(cells[j]) == x
      {
        if x in DigitNumbers(cells) {
          if x in DigitNumbers(init) {
            var j :| 0 <= j < |init| && IsDigits(init[j]) && ParseNat(init[j]) == x;
            assert cells[j] == init[j];
          } else {
            assert IsDigits(cells[|cells| - 1]) && ParseNat(cells[|cells| - 1]) == x;
          }
        }
        if exists j | 0 <= j < |cells| :: IsDigits(cells[j]) && ParseNat(cells[j]) == x {
          var j :| 0 <= j < |cells| && IsDigits(cells[j]) && ParseNat(cells[j]) == x;
          if j < |init| {
            assert init[j] == cells[j];
          }
        }
      }
    }
  }

  /** Python's `max` of a non-empty list. */
  function Max(s: seq<int>): int
    requires s != []
  {
    if |s| == 1 then s[0]
    else
      var m := Max(s[..|s| - 1]);
      if s[|s| - 1] > m then s[|s| - 1] else m
  }

  /** `Max` gives an element of the list that no element exceeds. */
  lemma {:induction false} MaxIsGreatest(s: seq<int>)
    requires s != []
    ensures Max(s) in s
    ensures forall x | x in s :: x <= Max(s)
  {
    if |s| > 1 {
      var init := s[..|s| - 1];
      MaxIsGreatest(init);
      assert s == init + [s[|s| - 1]];
    }
  }

  /** The hrefs of the title cells that have a link anchor, in listing order. */
  function Linked(cells: seq<Option<string>>): seq<string> {
    if cells == [] then []
    else
      var last := cells[|cells| - 1];
      Linked(cells[..|cells| - 1]) + (if last.Some? then [last.value] else [])
  }

  /** `Linked` distributes over concatenation. */
  lemma {:induction false} LinkedConcat(a: seq<Option<string>>, b: seq<Option<string>>)
    ensures Linked(a + b) == Linked(a) + Linked(b)
    decreases |b|
  {
    if b != [] {
      var b' := b[..|b| - 1];
      assert (a + b)[..|a + b| - 1] == a + b';
      LinkedConcat(a, b');
    } else {
      assert a + b == a;
    }
  }

  function Min(x: int, y: int): int { if x <= y then x else y }

  /** The URLs `get_anns_url` collects when `difference` announcements look new: the first
      `difference` linked title cells (all of them if there are fewer), each resolved against
      the board's base, in listing order. */
  function NewUrls(cells: seq<Option<string>>, difference: int, base: string,
                   resolve: (string, string) -> string): (urls: seq<string>)
    requires difference > 0
    ensures |urls| <= difference && |urls| <= |Linked(cells)|
    ensures |urls| == difference || |urls| == |Linked(cells)|
    ensures forall k | 0 <= k < |urls| :: urls[k] == UrlJoin(resolve, base, Linked(cells)[k])
  {
    var hrefs := Linked(cells);
    seq(Min(difference, |hrefs|), k requires 0 <= k < Min(difference, |hrefs|) => UrlJoin(resolve, base, hrefs[k]))
  }

  /** A title cell without a link anchor, wherever it stands, changes nothing:
      it is skipped and does not count toward the limit. */
  lemma AnchorlessCellIgnored(cells: seq<Option<string>>, k: nat, difference: int, base: string,
                              resolve: (string, string) -> string)
    requires k <= |cells| && difference > 0
    ensures NewUrls(cells[..k] + [None] + cells[k..], difference, base, resolve)
         == NewUrls(cells, difference, base, resolve)
  {
    var none: seq<Option<string>> := [None];
    LinkedConcat(cells[..k] + none, cells[k..]);
    LinkedConcat(cells[..k], none);
    LinkedConcat(cells[..k], cells[k..]);
    assert Linked(none) == [] by { assert none[..0] == []; }
    assert cells[..k] + cells[k..] == cells;
  }

  /** What `get_anns_url` returns or raises for the listing it receives: the largest
      all-digit number, and the first `latest - number` linked titles when it is above the
      stored number. */
  function AnnsUrlsOf(page: AnnouncementPage, response: Option<ListingPage>,
                      resolve: (string, string) -> string): Outcome<AnnsUrls> {
    match response
    case None => Returned(BareList)
    case Some(NoTable) => Raised(AttributeError)
    case Some(Table(numberCells, titleCells)) =>
      var numbers := DigitNumbers(numberCells);
      if numbers == [] then Raised(ValueError)
      else
        var latest := Max(numbers);
        Returned(UrlsAndNumber(
          if latest > page.number then NewUrls(titleCells, latest - page.number, page.defaultUrl, resolve) else [],
          latest))
  }

  /** The meaning of `AnnsUrlsOf`. */
  lemma AnnsUrlsOfMeaning(page: AnnouncementPage, response: Option<ListingPage>,
                          resolve: (string, string) -> string)
    // a failed request gives a bare empty list, not the pair
    ensures response == None ==> AnnsUrlsOf(page, response, resolve) == Returned(BareList)
    // a page without a table raises
    ensures response == Some(NoTable) ==> AnnsUrlsOf(page, response, resolve) == Raised(AttributeError)
    // no all-digit number cell: max() of an empty list raises
    ensures response.Some? && response.value.Table? ==>
      (AnnsUrlsOf(page, response, resolve) == Raised(ValueError) <==>
        forall j | 0 <= j < |response.value.numberCells| :: !IsDigits(response.value.numberCells[j]))
    // otherwise the latest number is the maximum of the all-digit cells, and the URLs are
    // the new ones, none at all when the latest is not above the stored number
    ensures var r := AnnsUrlsOf(page, response, resolve);
      r.Returned? && r.value.UrlsAndNumber? ==>
      && response.Some? && response.value.Table?
      && IsLatest(response.value.numberCells, r.value.latest)
      && r.value.urls == (if r.value.latest > page.number
                          then NewUrls(response.value.titleCells, r.value.latest - page.number,
                                       page.defaultUrl, resolve)
                          else [])
    ensures var r := AnnsUrlsOf(page, response, resolve);
      r.Raised? || r.value.UrlsAndNumber? || response == None
    // nothing else raises: a table with an all-digit number cell always gives the pair
    ensures AnnsUrlsOf(page, response, resolve).Raised? ==>
      && response.Some?
      && (response.value.NoTable? ||
          forall j | 0 <= j < |response.value.numberCells| :: !IsDigits(response.value.numberCells[j]))
  {
    if response.Some? && response.value.Table? {
      var cells := response.value.numberCells;
      var numbers := DigitNumbers(cells);
      DigitNumbersExact(cells);
      forall j | 0 <= j < |cells| && IsDigits(cells[j])
        ensures ParseNat(cells[j]) in numbers
      {
      }
      if numbers != [] {
        MaxIsGreatest(numbers);
      }
    }
  }

  /** The title loop of `get_anns_url`: the links of the title cells, resolved against the
      board's base, until `difference` of them are collected. */
  method CollectNewUrls(titleCells: seq<Option<string>>, difference: int, base: string,
                        resolve: (string, string) -> string) returns (urls: seq<string>)
    requires difference > 0
    ensures urls == NewUrls(titleCells, difference, base, resolve)
  {
    urls := [];
    var k := 0;
    while k < |titleCells|
      invariant 0 <= k <= |titleCells|
      invariant |urls| == Min(difference, |Linked(titleCells[..k])|)
      invariant forall m | 0 <= m < |urls| :: urls[m] == UrlJoin(resolve, base, Linked(titleCells[..k])[m])
    {
      if |urls| >= difference {
        break;
      }
      var link := titleCells[k];
      assert titleCells[..k + 1][..k] == titleCells[..k];
      if link.Some? {
        urls := urls + [UrlJoin(resolve, base, link.value)];
      }
      k := k + 1;
    }
    LinkedConcat(titleCells[..k], titleCells[k..]);
    assert titleCells[..k] + titleCells[k..] == titleCells;
    ghost var expected := NewUrls(titleCells, difference, base, resolve);
    assert |urls| == |expected|;
    assert forall m | 0 <= m < |urls| :: urls[m] == expected[m];
  }

  /** `get_anns_url`: the latest number on the listing and the URLs of the announcements
      newer than the stored number. */
  method GetAnnsUrl(page: AnnouncementPage, response: Option<ListingPage>,
                    resolve: (string, string) -> string) returns (r: Outcome<AnnsUrls>)
    ensures r == AnnsUrlsOf(page, response, resolve)
  {
    if response == None {
      return Returned(BareList);
    }
    if response.value.NoTable? {
      return Raised(AttributeError);
    }
    var numberCells, titleCells := response.value.numberCells, response.value.titleCells;

    var numbers: seq<int> := [];
    var i := 0;
    while i < |numberCells|
      invariant 0 <= i <= |numberCells|
      invariant numbers == DigitNumbers(numberCells[..i])
    {
      var text := numberCells[i];
      if IsDigits(text) {
        numbers := numbers + [ParseNat(text)];
      }
      assert numberCells[..i + 1][..i] == numberCells[..i];
      i := i + 1;
    }
    assert numberCells[..i] == numberCells;
    if numbers == [] {
      return Raised(ValueError);
    }
    var latest := Max(numbers);

    if latest > page.number {
      var urls := CollectNewUrls(titleCells, latest - page.number, page.defaultUrl, resolve);
      return Returned(UrlsAndNumber(urls, latest));
    } else {
      return Returned(UrlsAndNumber([], latest));
    }
  }

  // ============================================================ crawl_ann_partial

  /** `crawl_ann_partial`: the cheap read of a detail page, title and plain text only. */
  function CrawlAnnPartial(url: string, response: Option<DetailPage>): (r: Outcome<Option<Announcement>>)
    ensures response == None ==> r == Returned(None)
    ensures response.Some? && (response.value.title == None || response.value.view == None) ==>
      r == Raised(AttributeError)
    ensures response.Some? && response.value.title.Some? && response.value.view.Some? ==>
      && r.Returned? && r.value.Some?
      && var a := r.value.value;
      && a.url == url
      && Normalized(a.title) && Split(a.title) == Split(GetText([response.value.title.value]))
      && a.contentText == GetText([response.value.view.value])
      && a.contentHtml == [] && a.noticeBoardName == "" && a.files == []
  {
    match response
    case None => Returned(None)
    case Some(page) =>
      if page.title == None || page.view == None then Raised(AttributeError)
      else
        Returned(Some(Announcement(
          title := CleanTitle(GetText([page.title.value])),
          url := url,
          contentHtml := [],
          contentText := GetText([page.view.value]),
          noticeBoardName := "",
          files := [])))
  }

  // ============================================================ crawl_ann: images

  /** `response.url.split('/bbs/')[0]`: the base that image and attachment references are
      resolved against. */
  function BaseUrl(finalUrl: string): (base: string)
    ensures base <= finalUrl
    ensures !Contains(base, "/bbs/")
    ensures base == finalUrl || "/bbs/" <= finalUrl[|base|..]
    ensures forall i | 0 <= i < |base| :: !("/bbs/" <= finalUrl[i..])
  {
    SplitFirstCut(finalUrl, "/bbs/");
    SplitFirst(finalUrl, "/bbs/")
  }

  /** The image rewrite of `crawl_ann`: every img descendant's `src` replaced by its
      resolution against `base` (`img_tag["src"] = urljoin(base_url, img_tag.get("src"))`).
      With an empty base and no `src` the source stores `None` as the attribute's value;
      the model leaves the attribute absent. The base is cut from an absolute URL, so this
      case does not arise. */
  function RewriteImgSrc(resolve: (string, string) -> string, base: string, ns: seq<Node>): seq<Node>
    decreases ns
  {
    if ns == [] then [] else [RewriteNodeImgSrc(resolve, base, ns[0])] + RewriteImgSrc(resolve, base, ns[1..])
  }

  function RewriteNodeImgSrc(resolve: (string, string) -> string, base: string, n: Node): Node
    decreases n
  {
    match n
    case TextNode(_) => n
    case Element(tag, attrs, classes, children) =>
      var attrs' := if tag == "img" then SetSrc(attrs, UrlJoinOpt(resolve, base, Src(n))) else attrs;
      Element(tag, attrs', classes, RewriteImgSrc(resolve, base, children))
  }

  function SetSrc(attrs: map<string, string>, src: Option<string>): map<string, string> {
    if src.Some? then attrs["src" := src.value] else attrs
  }

  /** A node with the `src` of every img removed: what the rewrite must leave alone. */
  function EraseImgSrc(ns: seq<Node>): seq<Node>
    decreases ns
  {
    if ns == [] then [] else [EraseNodeImgSrc(ns[0])] + EraseImgSrc(ns[1..])
  }

  function EraseNodeImgSrc(n: Node): Node
    decreases n
  {
    match n
    case TextNode(_) => n
    case Element(tag, attrs, classes, children) =>
      Element(tag, if tag == "img" then attrs - {"src"} else attrs, classes, EraseImgSrc(children))
  }

  /** The rewrite changes nothing but the `src` of img elements. */
  lemma {:induction false} RewriteOnlyTouchesImgSrc(resolve: (string, string) -> string, base: string, ns: seq<Node>)
    ensures EraseImgSrc(RewriteImgSrc(resolve, base, ns)) == EraseImgSrc(ns)
    decreases ns
  {
    if ns != [] {
      RewriteNodeOnlyTouchesImgSrc(resolve, base, ns[0]);
      RewriteOnlyTouchesImgSrc(resolve, base, ns[1..]);
    }
  }

  lemma {:induction false} RewriteNodeOnlyTouchesImgSrc(resolve: (string, string) -> string, base: string, n: Node)
    ensures EraseNodeImgSrc(RewriteNodeImgSrc(resolve, base, n)) == EraseNodeImgSrc(n)
    decreases n
  {
    match n
    case TextNode(_) =>
    case Element(tag, attrs, classes, children) =>
      RewriteOnlyTouchesImgSrc(resolve, base, children);
      if tag == "img" {
        var src := UrlJoinOpt(resolve, base, Src(n));
        assert SetSrc(attrs, src) - {"src"} == attrs - {"src"};
      }
  }

  /** After the rewrite, the images are the same ones in the same order, and each one's
      `src` is the resolution of its former `src`. */
  lemma {:induction false} RewriteResolvesEveryImg(resolve: (string, string) -> string, base: string, ns: seq<Node>)
    ensures |Images(RewriteImgSrc(resolve, base, ns))| == |Images(ns)|
    ensures forall k | 0 <= k < |Images(ns)| ::
      Images(ns)[k].Element? && Images(RewriteImgSrc(resolve, base, ns))[k].Element? &&
      Src(Images(RewriteImgSrc(resolve, base, ns))[k]) == UrlJoinOpt(resolve, base, Src(Images(ns)[k]))
    decreases ns
  {
    ImagesAreImgs(ns);
    ImagesAreImgs(RewriteImgSrc(resolve, base, ns));
    if ns != [] {
      RewriteNodeResolvesEveryImg(resolve, base, ns[0]);
      RewriteResolvesEveryImg(resolve, base, ns[1..]);
      var a, b := NodeImages(ns[0]), Images(ns[1..]);
      var a', b' := NodeImages(RewriteNodeImgSrc(resolve, base, ns[0])), Images(RewriteImgSrc(resolve, base, ns[1..]));
      assert Images(ns) == a + b;
      assert Images(RewriteImgSrc(resolve, base, ns)) == a' + b';
      forall k | 0 <= k < |a + b|
        ensures Src((a' + b')[k]) == UrlJoinOpt(resolve, base, Src((a + b)[k]))
      {
        if k < |a| {
          assert (a + b)[k] == a[k] && (a' + b')[k] == a'[k];
        } else {
          assert (a + b)[k] == b[k - |a|] && (a' + b')[k] == b'[k - |a|];
        }
      }
    }
  }

  lemma {:induction false} RewriteNodeResolvesEveryImg(resolve: (string, string) -> string, base: string, n: Node)
    ensures |NodeImages(RewriteNodeImgSrc(resolve, base, n))| == |NodeImages(n)|
    ensures forall k | 0 <= k < |NodeImages(n)| ::
      NodeImages(n)[k].Element? && NodeImages(RewriteNodeImgSrc(resolve, base, n))[k].Element? &&
      Src(NodeImages(RewriteNodeImgSrc(resolve, base, n))[k]) == UrlJoinOpt(resolve, base, Src(NodeImages(n)[k]))
    decreases n
  {
    NodeImagesAreImgs(n);
    NodeImagesAreImgs(RewriteNodeImgSrc(resolve, base, n));
    match n
    case TextNode(_) =>
    case Element(tag, attrs, classes, children) =>
      RewriteResolvesEveryImg(resolve, base, children);
      var n' := RewriteNodeImgSrc(resolve, base, n);
      var a, b := if tag == "img" then [n] else [], Images(children);
      var a', b' := if tag == "img" then [n'] else [], Images(RewriteImgSrc(resolve, base, children));
      assert NodeImages(n) == a + b;
      assert NodeImages(n') == a' + b';
      forall k | 0 <= k < |a + b|
        ensures Src((a' + b')[k]) == UrlJoinOpt(resolve, base, Src((a + b)[k]))
      {
        if k < |a| {
          assert (a + b)[k] == n && (a' + b')[k] == n';
        } else {
          assert (a + b)[k] == b[k - |a|] && (a' + b')[k] == b'[k - |a|];
        }
      }
  }

  /** The rewrite leaves the text of the content unchanged. */
  lemma {:induction false} RewriteKeepsText(resolve: (string, string) -> string, base: string, ns: seq<Node>)
    ensures GetText(RewriteImgSrc(resolve, base, ns)) == GetText(ns)
    decreases ns
  {
    if ns != [] {
      RewriteKeepsText(resolve, base, ns[1..]);
      match ns[0]
      case TextNode(_) =>
      case Element(_, _, _, children) => RewriteKeepsText(resolve, base, children);
    }
  }

  // ============================================================ crawl_ann: attachments

  /** The anchors of the flattened attachment items that are download links, in order. */
  function DownloadAnchors(items: seq<Option<Anchor>>): seq<Anchor> {
    if items == [] then []
    else
      var last := items[|items| - 1];
      DownloadAnchors(items[..|items| - 1]) +
        (if last.Some? && Contains(last.value.href, DownloadMarker) then [last.value] else [])
  }

  lemma {:induction false} DownloadAnchorsConcat(a: seq<Option<Anchor>>, b: seq<Option<Anchor>>)
    ensures DownloadAnchors(a + b) == DownloadAnchors(a) + DownloadAnchors(b)
    decreases |b|
  {
    if b != [] {
      var b' := b[..|b| - 1];
      assert (a + b)[..|a + b| - 1] == a + b';
      DownloadAnchorsConcat(a, b');
    } else {
      assert a + b == a;
    }
  }

  /** The attachment items of all `dd.artclInsert` lists, one after another. */
  function Flatten(inserts: seq<seq<Option<Anchor>>>): seq<Option<Anchor>> {
    if inserts == [] then [] else Flatten(inserts[..|inserts| - 1]) + inserts[|inserts| - 1]
  }

  /** The anchors `crawl_ann` downloads, in document order. */
  function Attachments(inserts: seq<seq<Option<Anchor>>>): seq<Anchor> {
    DownloadAnchors(Flatten(inserts))
  }

  /** An anchor is downloaded exactly when it is the first anchor of some attachment item
      and its href contains the download endpoint. */
  lemma {:induction false} AttachmentsExact(inserts: seq<seq<Option<Anchor>>>, a: Anchor)
    ensures a in Attachments(inserts) <==>
      Contains(a.href, DownloadMarker) &&
      exists i, j | 0 <= i < |inserts| && 0 <= j < |inserts[i]| :: inserts[i][j] == Some(a)
  {
    FlattenMembers(inserts);
    DownloadAnchorsMembers(Flatten(inserts), a);
  }

  lemma {:induction false} DownloadAnchorsMembers(items: seq<Option<Anchor>>, a: Anchor)
    ensures a in DownloadAnchors(items) <==> Contains(a.href, DownloadMarker) && Some(a) in items
  {
    if items != [] {
      var init := items[..|items| - 1];
      DownloadAnchorsMembers(init, a);
      assert items == init + [items[|items| - 1]];
    }
  }

  lemma {:induction false} FlattenMembers(inserts: seq<seq<Option<Anchor>>>)
    ensures forall x :: x in Flatten(inserts) <==>
      exists i, j | 0 <= i < |inserts| && 0 <= j < |inserts[i]| :: inserts[i][j] == x
  {
    if inserts != [] {
      var init, last := inserts[..|inserts| - 1], inserts[|inserts| - 1];
      FlattenMembers(init);
      forall x ensures x in Flatten(inserts) <==>
        exists i, j | 0 <= i < |inserts| && 0 <= j < |inserts[i]| :: inserts[i][j] == x
      {
        if x in Flatten(init) {
          var i, j :| 0 <= i < |init| && 0 <= j < |init[i]| && init[i][j] == x;
          assert inserts[i] == init[i];
        } else if x in last {
          var j :| 0 <= j < |last| && last[j] == x;
          assert inserts[|inserts| - 1][j] == x;
        }
        if exists i, j | 0 <= i < |inserts| && 0 <= j < |inserts[i]| :: inserts[i][j] == x {
          var i, j :| 0 <= i < |inserts| && 0 <= j < |inserts[i]| && inserts[i][j] == x;
          if i < |init| {
            assert init[i][j] == x;
          } else {
            assert last[j] == x;
          }
        }
      }
    }
  }

  /** The local path an attachment is written to: `os.path.join('downloads', <link text>)`. */
  function FilePath(a: Anchor): (p: string)
    ensures var name := GetText(a.inner);
      p == if name != [] && name[0] == '/' then name else "downloads/" + name
  {
    PathJoin(DownloadDir, GetText(a.inner))
  }

  /** One path per attachment, in order. */
  function FilePaths(anchors: seq<Anchor>): (paths: seq<string>)
    ensures |paths| == |anchors|
    ensures forall k | 0 <= k < |anchors| :: paths[k] == FilePath(anchors[k])
  {
    seq(|anchors|, k requires 0 <= k < |anchors| => FilePath(anchors[k]))
  }

  /** The requests made for the attachments when their references are resolved with `urljoin`. */
  function JoinedDownloads(resolve: (string, string) -> string, base: string, anchors: seq<Anchor>): (ds: seq<Download>)
    ensures |ds| == |anchors|
    ensures forall k | 0 <= k < |anchors| ::
      ds[k] == Download(UrlJoin(resolve, base, anchors[k].href), FilePath(anchors[k]))
  {
    seq(|anchors|, k requires 0 <= k < |anchors| =>
      Download(UrlJoin(resolve, base, anchors[k].href), FilePath(anchors[k])))
  }

  /** What `crawl_ann` returns or raises for the page it receives, with the attachment
      requests it makes. */
  function CrawlAnnOf(url: string, response: Option<DetailPage>, resolve: (string, string) -> string)
    : (Outcome<Option<Announcement>>, seq<Download>)
  {
    match response
    case None => (Returned(None), [])
    case Some(page) =>
      if page.title == None || page.view == None then (Raised(AttributeError), [])
      else
        var base := BaseUrl(page.finalUrl);
        var anchors := Attachments(page.inserts);
        // The view is the `div.artclView` element, never an img, so rewriting the list
        // `[view]` touches only its img descendants, as `find_all("img")` does.
        (Returned(Some(Announcement(
           title := CleanTitle(GetText([page.title.value])),
           url := url,
           contentHtml := RewriteImgSrc(resolve, base, [page.view.value]),
           contentText := GetText([page.view.value]),
           noticeBoardName := "",
           files := FilePaths(anchors)))),
         JoinedDownloads(resolve, base, anchors))
  }

  /** The attachment loop of `crawl_ann`: every download link of every `.insert` block, in
      document order, is requested and saved under the downloads directory. */
  method FetchAttachments(resolve: (string, string) -> string, base: string, inserts: seq<seq<Option<Anchor>>>)
    returns (files: seq<string>, downloads: seq<Download>)
    ensures files == FilePaths(Attachments(inserts))
    ensures downloads == JoinedDownloads(resolve, base, Attachments(inserts))
  {
    files, downloads := [], [];
    ghost var found: seq<Anchor> := [];
    var i := 0;
    while i < |inserts|
      invariant 0 <= i <= |inserts|
      invariant found == Attachments(inserts[..i])
      invariant files == FilePaths(found)
      invariant downloads == JoinedDownloads(resolve, base, found)
    {
      var items := inserts[i];
      var j := 0;
      while j < |items|
        invariant 0 <= j <= |items|
        invariant found == Attachments(inserts[..i]) + DownloadAnchors(items[..j])
        invariant files == FilePaths(found)
        invariant downloads == JoinedDownloads(resolve, base, found)
      {
        var link := items[j];
        assert items[..j + 1][..j] == items[..j];
        if link.Some? && Contains(link.value.href, DownloadMarker) {
          var fileUrl := UrlJoin(resolve, base, link.value.href);
          var path := PathJoin(DownloadDir, GetText(link.value.inner));
          downloads := downloads + [Download(fileUrl, path)];
          files := files + [path];
          found := found + [link.value];
        }
        j := j + 1;
      }
      assert items[..j] == items;
      assert inserts[..i + 1][..i] == inserts[..i];
      DownloadAnchorsConcat(Flatten(inserts[..i]), items);
      i := i + 1;
    }
    assert inserts[..i] == inserts;
  }

  /** `crawl_ann`: the full read of a detail page, with the images' references made absolute
      and the attachments downloaded. `downloads` lists the attachment requests made, in order;
      the bytes fetched and written are not modelled. */
  method CrawlAnn(url: string, response: Option<DetailPage>, resolve: (string, string) -> string)
    returns (r: Outcome<Option<Announcement>>, downloads: seq<Download>)
    ensures response == None ==> r == Returned(None) && downloads == []
    ensures response.Some? && (response.value.title == None || response.value.view == None) ==>
      r == Raised(AttributeError) && downloads == []
    ensures response.Some? && response.value.title.Some? && response.value.view.Some? ==>
      && r.Returned? && r.value.Some?
      && var page, a := response.value, r.value.value;
      && var base := BaseUrl(page.finalUrl);
      && a.url == url && a.noticeBoardName == ""
      && a.title == CleanTitle(GetText([page.title.value]))
      && a.contentHtml == RewriteImgSrc(resolve, base, [page.view.value])
      && a.contentText == GetText([page.view.value])
      && a.files == FilePaths(Attachments(page.inserts))
      && downloads == JoinedDownloads(resolve, base, Attachments(page.inserts))
    ensures (r, downloads) == CrawlAnnOf(url, response, resolve)
  {
    downloads := [];
    if response == None {
      return Returned(None), downloads;
    }
    var page := response.value;
    var base := BaseUrl(page.finalUrl);
    if page.title == None {
      return Raised(AttributeError), downloads;
    }
    var title := CleanTitle(GetText([page.title.value]));
    if page.view == None {
      return Raised(AttributeError), downloads;
    }
    var view := page.view.value;
    var contentHtml := RewriteImgSrc(resolve, base, [view]);

    var files;
    files, downloads := FetchAttachments(resolve, base, page.inserts);
    RewriteKeepsText(resolve, base, [view]);
    r := Returned(Some(Announcement(
      title := title,
      url := url,
      contentHtml := contentHtml,
      contentText := GetText(contentHtml),
      noticeBoardName := "",
      files := files)));
  }
}
