# Notice-board relay: a Dafny model

The system watches university notice boards, finds the announcements published since the
last run, drops the ones it has already relayed, classifies the rest into a fixed set of
categories, and republishes the accepted ones on a course board of the learning-management
system by driving a browser.

This project models, in Dafny, the sequential logic of that pipeline:

- **Classifier** (`main/source/main.py`, `categorize_by_keywords`, `categorize_announcement`):
  exclusion keywords first, then an ordered keyword table on the title, then an oracle.
- **Pipeline** (`main/source/main.py`, `main`, `update_csv_with_announcement_numbers`): boards
  in order, URLs in order, the duplicate check, the accepted-category list, one browser session
  per published announcement, and the stored-number update. `main` catches no exception, so
  the model carries the first exception raised and stops there.
- **Crawl** (`Source/crawl_announcement.py`): the listing selection of `get_anns_url`,
  `clean_title`, `crawl_ann_partial`, and `crawl_ann` with its base-URL cut, image-source
  rewrite and attachment filter.
- **RssCrawl** (`together-main/Source/crawl_announcement.py`): the older RSS feed reader and
  its `crawl_ann`, which uses placeholders and plain concatenation.
- **Publishing** and **PublishingTrace** (`Source/selenium_service.py`): `WriteNoticeService` as
  a class whose methods append browser commands to a log. Each bounded wait takes its outcome
  from an oracle. Functions give the same logs, and lemmas describe where the browser goes,
  which files it uploads and when it saves.
- **Py**, **Text**, **Html**: the Python and library behaviour the rest relies on. This covers
  exceptions as outcomes, `os.path.join`, the guards of `urljoin`, `str.split`/`' '.join`,
  `isdigit`, `split(sep)[0]`, and an HTML node tree with `get_text(strip=True)` and `find_all('img')`.

Pages, listings and detail pages are values. The network, the HTML parser and the browser are
removed. Collaborators whose code is not part of this model are function parameters:
`answer_gpt`, `truncate_text`, `is_recent_title_duplicate`, the resolution step of `urljoin`,
`os.path.abspath`, and the wait outcomes.

How the code behaves at its edges, which the model follows:

- `get_anns_url` returns URLs in listing order (the boards list newest first), and `main`
  processes them in that order. Only the RSS reader reverses its list, so that the oldest comes first.
- A failed listing request returns a bare `[]`. `main` unpacks it into two names, which raises
  `ValueError` and ends the run.
- A failed detail request in `crawl_ann` returns `None`, and `main` then sets an attribute on
  it, which raises `AttributeError`. An element that does not appear within a wait raises
  `TimeoutException`. Both end the run.
- A wait for the file input during an upload is not caught. Only the final check after all
  uploads falls back to saving.
- The duplicate check is modelled as a function of the titles saved so far in this run. The
  module that stores titles is not part of this model, and any other state it consults is not
  captured.

## Model

| member | source | states |
|---|---|---|
| Py.PathJoin | Source/crawl_announcement.py:140 | An absolute second part replaces the first. Otherwise the result starts with the first part and ends with the second, with one `/` between them, or directly concatenated when the first is empty or already ends in `/`. |
| Py.UrlJoin | Source/crawl_announcement.py:138 | An empty base gives the reference back and an empty reference gives the base. Otherwise the result is the resolution of the reference against the base. |
| Py.UrlJoinOpt | Source/crawl_announcement.py:122-124 | An absent `src` counts as empty, so the image gets the base. With an empty base, the `src` stays as it was, absent included. |
| Text.WordLen | Source/crawl_announcement.py:25 | The length of the leading run of non-whitespace: none of its characters is whitespace, and the next one is. |
| Text.SplitYieldsWords | Source/crawl_announcement.py:25 | Every piece of `str.split()` is non-empty and free of whitespace. |
| Text.JoinIsNormalized | Source/crawl_announcement.py:25 | Joining such words with single spaces gives text with no leading, trailing or doubled whitespace. |
| Text.WordLenOfWord | Source/crawl_announcement.py:25 | A word followed by whitespace or by nothing is read back whole. |
| Text.SplitJoin | Source/crawl_announcement.py:25 | Splitting words joined by single spaces gives the same words back. |
| Text.TrimStart | Source/crawl_announcement.py:87 | The result is a suffix of the input that does not start with whitespace, and everything removed before it is whitespace. |
| Text.TrimEnd | Source/crawl_announcement.py:87 | The result is a prefix of the input that does not end with whitespace, and everything removed after it is whitespace. |
| Text.Strip | Source/crawl_announcement.py:87 | The result is a slice of the input with only whitespace before and after it, and it neither starts nor ends with whitespace. |
| Text.SplitFirstCut | Source/crawl_announcement.py:112 | `s.split(sep)[0]` is the prefix of `s` before the first occurrence of `sep`: it contains no `sep`, no occurrence of `sep` starts inside it, and it is all of `s` or `s` continues with `sep` right after it. |
| Html.ImagesAreImgs | Source/crawl_announcement.py:121 | `find_all("img")` returns img elements only. |
| Html.NodeImagesAreImgs | Source/crawl_announcement.py:121 | The same for the images under one node. |
| Crawl.CleanTitle | Source/crawl_announcement.py:24-25 | The cleaned title has no leading, trailing or doubled whitespace, and it has the same words as the raw title. |
| Crawl.CleanTitleIdempotent | Source/crawl_announcement.py:24-25 | Cleaning a cleaned title changes nothing. |
| Crawl.DigitNumbersExact | Source/crawl_announcement.py:44-47 | The numbers collected are exactly the values of the number cells whose text is all digits. |
| Crawl.MaxIsGreatest | Source/crawl_announcement.py:49 | `max` returns an element of the list, and no element is larger. |
| Crawl.LinkedConcat | Source/crawl_announcement.py:62-68 | The linked hrefs of two row lists, one after the other, are the linked hrefs of their concatenation. |
| Crawl.NewUrls | Source/crawl_announcement.py:58-68 | At most `difference` URLs are collected, and at most as many as there are linked rows. Fewer than `difference` only when the links run out. The k-th URL is the k-th linked href joined to the board's default URL. |
| Crawl.AnchorlessCellIgnored | Source/crawl_announcement.py:65-68 | Inserting a title row without a link anywhere changes nothing: it is skipped and does not count toward the limit. |
| Crawl.AnnsUrlsOfMeaning | Source/crawl_announcement.py:28-73 | A failed request gives a bare list, not the pair. A page without a table raises AttributeError. It raises ValueError exactly when no number cell is all digits, and raises nothing else. Otherwise it returns the pair: the latest number is the largest all-digit number, and the URLs are the new ones when it is above the stored number and none otherwise. |
| Crawl.CollectNewUrls | Source/crawl_announcement.py:58-68 | The loop with its `break` on the limit collects exactly `NewUrls`. |
| Crawl.GetAnnsUrl | Source/crawl_announcement.py:28-73 | The two loops of `get_anns_url` compute exactly what `AnnsUrlsOf` describes. |
| Crawl.CrawlAnnPartial | Source/crawl_announcement.py:77-100 | A failed request gives None. A missing title or content element raises AttributeError. Otherwise the result has the cleaned title, the content's stripped text, the URL, and an empty HTML body, board name and file list. |
| Crawl.BaseUrl | Source/crawl_announcement.py:112 | The base is the prefix of the final URL before the first occurrence of `/bbs/`: no occurrence starts inside it, and it is the whole URL or the URL continues with `/bbs/` right after it. |
| Crawl.RewriteOnlyTouchesImgSrc | Source/crawl_announcement.py:121-124 | Once img `src` attributes are erased, the rewritten content equals the original: nothing else changes. |
| Crawl.RewriteNodeOnlyTouchesImgSrc | Source/crawl_announcement.py:121-124 | The same for one node. |
| Crawl.RewriteResolvesEveryImg | Source/crawl_announcement.py:121-124 | The rewritten content has the same images in the same order. Each image's new `src` is its old `src` joined to the base. |
| Crawl.RewriteNodeResolvesEveryImg | Source/crawl_announcement.py:121-124 | The same for one node. |
| Crawl.RewriteKeepsText | Source/crawl_announcement.py:126-152 | The rewrite does not change the stripped text, so the text taken after it is the text before it. |
| Crawl.DownloadAnchorsConcat | Source/crawl_announcement.py:132-136 | Filtering download links distributes over concatenation. |
| Crawl.DownloadAnchorsMembers | Source/crawl_announcement.py:133-136 | An anchor is kept exactly when it is an item's first anchor and its href contains `download.do`. |
| Crawl.FlattenMembers | Source/crawl_announcement.py:129-135 | An item is among the flattened attachment items exactly when it belongs to one of the attachment lists. |
| Crawl.AttachmentsExact | Source/crawl_announcement.py:129-136 | An anchor is downloaded exactly when it is the first anchor of an item of some attachment list and its href contains `download.do`. |
| Crawl.FilePath | Source/crawl_announcement.py:139-140 | An attachment is saved as `downloads/<link text>`, or under the link text itself when that starts with `/`. |
| Crawl.FilePaths | Source/crawl_announcement.py:139-140 | There is one local path per downloaded anchor, and the k-th is the k-th anchor's path. |
| Crawl.JoinedDownloads | Source/crawl_announcement.py:137-141 | There is one request per downloaded anchor. The k-th is for the k-th href joined to the base, saved to that anchor's path. |
| Crawl.FetchAttachments | Source/crawl_announcement.py:129-144 | The nested loops produce exactly those paths and requests, in document order. |
| Crawl.CrawlAnn | Source/crawl_announcement.py:103-154 | A failed request gives None. A missing title or content raises. Otherwise the result has the cleaned title, the content with every image source resolved, the unchanged text, and the attachment paths. The requests are made in document order. The result equals `CrawlAnnOf`. |
| RssCrawl.ReverseAt | together-main/Source/crawl_announcement.py:19 | `urls[::-1]` has the same length, and its i-th element is the input's element at position n-1-i. |
| RssCrawl.GetRecentAnnsFromRss | together-main/Source/crawl_announcement.py:14-19 | Let k be the smaller of n and 10. It raises, always AttributeError, exactly when one of the first k items has no link. Otherwise result[i] is the link of item k-1-i. |
| RssCrawl.RecentAnnsAtMostTen | together-main/Source/crawl_announcement.py:17 | The feed never yields more than ten links. |
| RssCrawl.AbsoluteFileUrl | together-main/Source/crawl_announcement.py:52-53 | An href starting with `http` is unchanged. Any other href is appended to the base as it is. |
| RssCrawl.ConcatenatedDownloads | together-main/Source/crawl_announcement.py:50-56 | There is one request per downloaded anchor. The k-th is for the k-th href, with the base prepended unless it starts with `http`, saved to that anchor's path. |
| RssCrawl.FetchAttachments | together-main/Source/crawl_announcement.py:43-60 | The nested loops produce exactly the `download.do` anchors' paths and requests, in document order. |
| RssCrawl.CrawlAnn | together-main/Source/crawl_announcement.py:21-69 | A failed request gives None. A missing title gives "Title not found". A missing content element gives "Content not found" as both text and HTML. The files are the `download.do` anchors' paths. |
| Classifier.CategorizeByKeywords | main/source/main.py:27-40 | The two early-return loops compute exactly what `KeywordCategory` describes. |
| Classifier.ExclusionWins | main/source/main.py:32-34 | An exclusion keyword anywhere in title + content gives "해당없음", whatever inclusion keywords are present. |
| Classifier.NoMatchIff | main/source/main.py:36-40 | The table yields nothing exactly when none of its keywords occurs in the title. |
| Classifier.ContentOnlyExcludes | main/source/main.py:32-38 | With no exclusion, the content makes no difference to the result. |
| Classifier.ContentKeywordIgnored | main/source/main.py:36-40 | A keyword that occurs only in the content yields no category. |
| Classifier.EarliestEntryWins | main/source/main.py:36-38 | When several keywords occur in the title, the earliest table entry decides. |
| Classifier.FirstMatchFromTable | main/source/main.py:36-38 | A category found in the table is one of the table's categories. |
| Classifier.KeywordCategoryRange | main/source/main.py:12-40 | The rules answer only "해당없음", "장학금", "취업 정보" or nothing. |
| Classifier.CategorizeAnnouncement | main/source/main.py:42-52 | The oracle is asked exactly when the rules decide nothing, and the question is `truncate_text(title + "\n" + content, 1000)`. Otherwise the rules' answer is returned unchanged. |
| Publishing.ComposeBody | Source/selenium_service.py:79-88 | The body is the banner `<p>본문 링크 : <a href=URL>URL</a></p>` followed by the content with the image classes added. |
| Publishing.AddThenDropImageClasses | Source/selenium_service.py:84-86 | Removing the two classes from the end of each img's class list gives the original content back, so nothing else changed. |
| Publishing.AddThenDropNodeImageClasses | Source/selenium_service.py:84-86 | The same for one node. |
| Publishing.EveryImageGetsClasses | Source/selenium_service.py:84-86 | The images stay the same and in the same order. Each has `img-responsive` and `atto_image_button_text-bottom` after its former classes. |
| Publishing.EveryNodeImageGetsClasses | Source/selenium_service.py:84-86 | The same for one node. |
| Publishing.WriteNoticesSteps | Source/selenium_service.py:53-54 | The first command of `write_notices` opens the course. |
| Publishing.WriteNoticeService.constructor | Source/selenium_service.py:14-43 | A new session has opened the portal and logged in, and has done no wait yet. |
| Publishing.WriteNoticeService.MoveToCourse | Source/selenium_service.py:45-46 | The log gains the course URL being opened. |
| Publishing.WriteNoticeService.MoveToNoticeBoard | Source/selenium_service.py:48-51 | The log gains the board being entered. |
| Publishing.WriteNoticeService.Wait | Source/selenium_service.py:137-139 | One bounded wait: its outcome is the oracle's answer for this wait. It is logged and the wait count advances. |
| Publishing.WriteNoticeService.ClickWithJs | Source/selenium_service.py:136-140 | The log gains a wait for the control, then a click if the control appeared. The call fails if it did not. This is `ClickSteps`. |
| Publishing.WriteNoticeService.UploadFile | Source/selenium_service.py:118-134 | The log gains the commands of one upload and stops at the first wait that times out. This is `UploadFileSteps`. |
| Publishing.WriteNoticeService.UploadFiles | Source/selenium_service.py:114-116 | The files are uploaded in list order, stopping at the first timeout. This is `UploadFilesSteps`. |
| Publishing.WriteNoticeService.Submit | Source/selenium_service.py:99-112 | With no files, save is clicked. With files, they are uploaded, and save is clicked only if the file input is not found within the wait. This is `SubmitSteps`. |
| Publishing.WriteNoticeService.WriteNoticeInBoard | Source/selenium_service.py:64-112 | The method waits for the write button, clicks it, types the subject, sets the composed body, then submits. This is `WriteNoticeInBoardSteps`. |
| Publishing.WriteNoticeService.Post | Source/selenium_service.py:56-62 | A "해당없음" announcement adds nothing to the log. Any other one enters its board, writes its post and returns to the course. |
| Publishing.WriteNoticeService.PostAll | Source/selenium_service.py:56-62 | The announcements are posted in list order, stopping at the first timeout. |
| Publishing.WriteNoticeService.WriteNotices | Source/selenium_service.py:53-62 | The method opens the course, then posts all announcements. The log gains exactly `WriteNoticesSteps`. |
| Publishing.UploadFilesStopsAtTimeout | Source/selenium_service.py:114-116 | After an upload times out, the later files change nothing. |
| Publishing.PostAllStopsAtTimeout | Source/selenium_service.py:56-62 | After a post times out, the later announcements change nothing. |
| PublishingTrace.UploadsOnlyUseThePicker | Source/selenium_service.py:114-134 | Uploading only drives the file picker: it never navigates and never clicks save. |
| PublishingTrace.UploadTrace | Source/selenium_service.py:118-134 | A completed upload clicks attach, finds the file input, types the absolute path and clicks upload, in that order. A failed one ends at the wait that timed out. |
| PublishingTrace.UploadSendsItsPath | Source/selenium_service.py:127-131 | A completed upload types exactly one path, the absolute path of its file. |
| PublishingTrace.UploadsFollowFileOrder | Source/selenium_service.py:114-116 | When all uploads complete, the typed paths are the absolute paths of the files, in list order. |
| PublishingTrace.SaveRule | Source/selenium_service.py:99-112 | In a completed post, save was clicked exactly when there were no files or the file input was not found after the uploads. |
| PublishingTrace.SubmitUploadsEveryFile | Source/selenium_service.py:99-112 | A completed submit types the absolute path of every file, in order, and no other path. |
| PublishingTrace.PostUploadsEveryFile | Source/selenium_service.py:64-112 | The same holds for a whole completed post. |
| PublishingTrace.WritingStaysOnTheBoard | Source/selenium_service.py:64-112 | Writing a post never navigates. |
| PublishingTrace.PostVisits | Source/selenium_service.py:56-62 | A completed turn enters the announcement's board and returns to the course, or navigates nowhere for "해당없음". |
| PublishingTrace.PostingFollowsItinerary | Source/selenium_service.py:56-62 | The navigation of completed posting is the itinerary: for each announcement with a board, in order, enter it and return to the course. |
| PublishingTrace.WriteNoticesNavigation | Source/selenium_service.py:53-62 | A completed `write_notices` opens the course and then follows the itinerary. "해당없음" announcements cause no navigation. |
| Pipeline.UpdateCsv | main/source/main.py:54-63 | Each row whose page URL is a key of the updates gets that key's number. Every other row stays as it was, and the row order is kept. |
| Pipeline.SetNumberIdempotent | main/source/main.py:59 | Writing the same number twice is writing it once. |
| Pipeline.SetNumberCommutes | main/source/main.py:58-59 | Updates for different URLs commute, so the order of the dictionary's items does not matter. |
| Pipeline.DuplicateSkipped | main/source/main.py:85-89 | A title judged "중복" is dropped before classification. The oracle is not asked, and nothing is fetched, saved or published. |
| Pipeline.RejectedCategoryPublishesNothing | main/source/main.py:95-120 | A category outside the ten accepted ones fetches, saves and publishes nothing. |
| Pipeline.ProcessUrl | main/source/main.py:76-120 | One URL turn, with the crawl, classification and publishing methods, computes exactly `UrlStep`. |
| Pipeline.ProcessPage | main/source/main.py:74-126 | One board turn computes exactly `PageStep`. The URLs are handled in the order returned. The row's number is written only when the latest number is above the board's stored number and no exception was raised. |
| Pipeline.RunMain | main/source/main.py:65-126 | The whole run computes exactly `PagesStep` from the starting rows and stops at the first exception. |
| Pipeline.UrlsStopAtException | main/source/main.py:76-120 | After an exception, the later URLs change nothing. |
| Pipeline.PagesStopAtException | main/source/main.py:74-126 | After an exception, the later boards change nothing. |
| Pipeline.PublishRecords | main/source/main.py:107-118 | Publishing an accepted, non-duplicate announcement keeps the records in agreement. |
| Pipeline.UrlStepRecords | main/source/main.py:82-120 | One URL turn keeps the records in agreement. |
| Pipeline.UrlsStepRecords | main/source/main.py:76-120 | One board's URLs keep the records in agreement. |
| Pipeline.PageStepRecords | main/source/main.py:74-126 | One board turn keeps the records in agreement. |
| Pipeline.PagesStepRecords | main/source/main.py:74-126 | Any sequence of boards keeps the records in agreement. |
| Pipeline.RunRecords | main/source/main.py:65-126 | After a run, there is one saved title and one browser session per recorded announcement. Each was accepted, each passed the duplicate check against the titles saved before it, and each session is the one for that announcement alone. Every session completed except possibly the last, when the run ended with an exception. |
| Pipeline.SessionNavigation | main/source/main.py:117 | A completed session for one accepted announcement opens the portal, opens the course, enters the board named by the category, and returns to the course. |
| Pipeline.UrlsStepKeepsCsv | main/source/main.py:76-120 | The URL loop never touches pages.csv. |
| Pipeline.PageStepMovesOwnRows | main/source/main.py:122-126 | A board turn changes only rows with its own page URL, and only to a number above the board's stored number. |
| Pipeline.PagesStepAdvancesCursors | main/source/main.py:74-126 | Across boards, pages.csv keeps its rows, URLs and default URLs. A number changes only to one above the stored number of a board with that URL. |
| Pipeline.RunAdvancesCursors | main/source/main.py:65-126 | The same holds for a whole run from the starting rows. |

## Left out

- HTTP requests, `raise_for_status` and the bytes of downloads are not modelled. A fetch is an input value: a page, or `None` for a request exception.
- `Crawl.CrawlAnn` and `RssCrawl.CrawlAnn`: a failing attachment request or file write would raise and end the run. The model treats every download as succeeding and records only the request made and the path.
- `RssCrawl.GetRecentAnnsFromRss`: an exception from the feed request itself is not modelled; the feed arrives as its list of items.
- HTML parsing and `str(...)` serialisation are not modelled. Pages are parsed node trees. The fact that the body is a string that gets parsed again before the image classes are added is not modelled.
- `Publishing.ComposeBody`: the URL is inserted into the banner markup as it is. The model assumes it contains no character that would change how the banner parses, such as a quote or `<`.
- The in-place updates of `img["src"]` and `img["class"]` are modelled as functions that rewrite the tree. Aliasing between tags is not captured.
- `Crawl.DigitNumbers`: `str.isdigit` also accepts non-ASCII digits. Only ASCII digits are recognised here.
- An attachment anchor without an `href` raises `KeyError` in the source. Anchors are modelled as always having an href.
- `Crawl.GetAnnsUrl`: a listing anchor `a.artclLinkView` without an `href` raises `KeyError` and ends the run. A title cell is modelled as either having no anchor or having an anchor with an href, so this case is not represented.
- `Py.PathJoin`: the POSIX rules of `os.path.join` are assumed, with `/` as the separator. On Windows the separator and the test for an absolute path differ.
- The `find_element` lookups for the login fields, the subject field, the editor and the board link are assumed to succeed. A missing element (`NoSuchElementException`) is not modelled.
- Chrome options, the `.env` credentials, the concrete timeouts (10 s and 5 s) and the scrolling call are not modelled. Each wait is one answer of the oracle.
- `answer_gpt`, `truncate_text`, `is_recent_title_duplicate`, `save_title` and `PageUrlManager` are not part of this model. The first three are parameters. `save_title` appends to the run's saved titles. The list of boards is a parameter.
- pandas reading and writing, `fillna(0).astype(int)`, `gc.collect`, `print` and the `log.txt` appends are not modelled. Only the row-update rule is kept. The `updates` dictionary holds exactly one entry each time it is written, so a board turn updates with that single entry.
- The reference resolution of `urljoin` (section 5.2 of RFC 3986) is the opaque `resolve` parameter. Only its two guards for empty arguments are modelled.
