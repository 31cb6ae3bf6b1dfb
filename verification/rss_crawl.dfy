/** The crawler of the older version (together-main/Source/crawl_announcement.py): the
    announcements come from an RSS feed, and a detail page is read with placeholders for
    missing parts and with attachment links made absolute by plain concatenation. */
module RssCrawl {
  import opened Py
  import opened Text
  import opened Html
  import opened Crawl

  const FeedLimit := 10
  const TitlePlaceholder := "Title not found"
  const ContentPlaceholder := "Content not found"

  /** `urls[::-1]`. */
  function Reverse<T>(s: seq<T>): seq<T> {
    if s == [] then [] else Reverse(s[1..]) + [s[0]]
  }

  lemma {:induction false} ReverseAt<T>(s: seq<T>)
    ensures |Reverse(s)| == |s|
    ensures forall i | 0 <= i < |s| :: Reverse(s)[i] == s[|s| - 1 - i]
  {
    if s != [] {
      ReverseAt(s[1..]);
    }
  }

  /** The links of the feed's items as the parser finds them (`item.find('link')`), `None`
      for an item without a link element. */
  function Links(items: seq<Option<string>>): seq<string>
    requires forall i | 0 <= i < |items| :: items[i].Some?
  {
    seq(|items|, i requires 0 <= i < |items| => items[i].value)
  }

  /** `get_recent_anns_from_rss`: the links of the first ten items, the oldest first. An item
      among them without a link raises (`None.get_text()`). */
  function GetRecentAnnsFromRss(items: seq<Option<string>>): (r: Outcome<seq<string>>)
    ensures var k := Min(|items|, FeedLimit);
      && ((exists i | 0 <= i < k :: items[i] == None) <==> r == Raised(AttributeError))
      && (r.Raised? ==> r == Raised(AttributeError))
      && (r.Returned? ==>
            && |r.value| == k
            && forall i | 0 <= i < k :: items[k - 1 - i].Some? && r.value[i] == items[k - 1 - i].value)
  {
    var first := items[..Min(|items|, FeedLimit)];
    if exists i | 0 <= i < |first| :: first[i] == None then Raised(AttributeError)
    else
      var links := Links(first);
      ReverseAt(links);
      Returned(Reverse(links))
  }

  /** The feed never yields more than ten links. */
  lemma RecentAnnsAtMostTen(items: seq<Option<string>>)
    ensures GetRecentAnnsFromRss(items).Returned? ==> |GetRecentAnnsFromRss(items).value| <= FeedLimit
  {
  }

  /** The attachment URL of this version: an href that does not start with "http" is
      appended to the base as it is, with no reference resolution. */
  function AbsoluteFileUrl(base: string, href: string): (u: string)
    ensures StartsWith(href, "http") ==> u == href
    ensures !StartsWith(href, "http") ==> base <= u && u[|base|..] == href
  {
    if StartsWith(href, "http") then href else base + href
  }

  /** One request per attachment, in order, for its href made absolute by concatenation. */
  function ConcatenatedDownloads(base: string, anchors: seq<Anchor>): (ds: seq<Download>)
    ensures |ds| == |anchors|
    ensures forall k | 0 <= k < |anchors| ::
      ds[k] == Download(AbsoluteFileUrl(base, anchors[k].href), FilePath(anchors[k]))
  {
    seq(|anchors|, k requires 0 <= k < |anchors| =>
      Download(AbsoluteFileUrl(base, anchors[k].href), FilePath(anchors[k])))
  }

  /** The attachment loop of `crawl_ann`: every download link of every `.insert` block, in
      document order, is requested and saved under the downloads directory. */
  method FetchAttachments(base: string, inserts: seq<seq<Option<Anchor>>>)
    returns (files: seq<string>, downloads: seq<Download>)
    ensures files == FilePaths(Attachments(inserts))
    ensures downloads == ConcatenatedDownloads(base, Attachments(inserts))
  {
    files, downloads := [], [];
    ghost var found: seq<Anchor> := [];
    var i := 0;
    while i < |inserts|
      invariant 0 <= i <= |inserts|
      invariant found == Attachments(inserts[..i])
      invariant files == FilePaths(found)
      invariant downloads == ConcatenatedDownloads(base, found)
    {
      var items := inserts[i];
      var j := 0;
      while j < |items|
        invariant 0 <= j <= |items|
        invariant found == Attachments(inserts[..i]) + DownloadAnchors(items[..j])
        invariant files == FilePaths(found)
        invariant downloads == ConcatenatedDownloads(base, found)
      {
        var link := items[j];
        assert items[..j + 1][..j] == items[..j];
        if link.Some? && Contains(link.value.href, DownloadMarker) {
          var fileUrl := link.value.href;
          if !StartsWith(fileUrl, "http") {
            fileUrl := base + fileUrl;
          }
          var path := PathJoin(DownloadDir, GetText(link.value.inner));
          downloads := downloads + [Download(fileUrl, path)];
          files := files + [path];
          found := found + [link.value];
        }
        j := j + 1;
      }
      assert items[..j] == items;
      assert inserts[..i + 1][..i] == inserts[..i];
      DownloadAnchorsConcat(Flatten(inserts[..i]), items);
      i := i + 1;
    }
    assert inserts[..i] == inserts;
  }

  /** `crawl_ann` of this version. It never raises on a missing part: a missing title
      becomes "Title not found", a missing content element "Content not found" for both the
      text and the HTML. The title is stripped but not cleaned. */
  method CrawlAnn(url: string, response: Option<DetailPage>)
    returns (r: Option<Announcement>, downloads: seq<Download>)
    ensures response == None ==> r == None && downloads == []
    ensures response.Some? ==>
      && r.Some?
      && var page, a := response.value, r.value;
      && a.url == url && a.noticeBoardName == ""
      && a.title == (if page.title.Some? then GetText([page.title.value]) else TitlePlaceholder)
      && a.contentText == (if page.view.Some? then GetText([page.view.value]) else ContentPlaceholder)
      && a.contentHtml == (if page.view.Some? then [page.view.value] else [TextNode(ContentPlaceholder)])
      && a.files == FilePaths(Attachments(page.inserts))
      && downloads == ConcatenatedDownloads(BaseUrl(page.finalUrl), Attachments(page.inserts))
  {
    downloads := [];
    if response == None {
      return None, downloads;
    }
    var page := response.value;
    var base := BaseUrl(page.finalUrl);
    var title := if page.title.Some? then GetText([page.title.value]) else TitlePlaceholder;
    var contentText := if page.view.Some? then GetText([page.view.value]) else ContentPlaceholder;
    var contentHtml := if page.view.Some? then [page.view.value] else [TextNode(ContentPlaceholder)];

    var files;
    files, downloads := FetchAttachments(base, page.inserts);
    r := Some(Announcement(
      title := title,
      url := url,
      contentHtml := contentHtml,
      contentText := contentText,
      noticeBoardName := "",
      files := files));
  }
}
