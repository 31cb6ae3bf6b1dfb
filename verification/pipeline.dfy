/** The driver of main/source/main.py: for every board, the new announcement URLs are read;
    each is fetched cheaply, checked against the duplicate ledger and classified; an accepted
    one is fetched in full, recorded, and published by a fresh browser session; finally the
    board's stored number is moved to the latest one seen. `main` catches nothing, so the
    first exception ends the run. */
module Pipeline {
  import opened Py
  import opened Crawl
  import opened Classifier
  import opened Publishing
  import opened PublishingTrace

  const CourseUrl := "https://plato.pusan.ac.kr/course/view.php?id=157301"
  /** The duplicate checker's verdict for a title already seen. */
  const DuplicateVerdict := "중복"
  /** The categories that are published; anything else, "해당없음" included, is dropped. */
  const AcceptedCategories: seq<string> := [
    "[공모전] 공학/IT/SW",
    "[공모전] 아이디어/기획",
    "[공모전] 미술/디자인/건축",
    "[공모전] 문학/수기/에세이",
    "[공모전] 기타",
    "교육/특강/프로그램",
    "장학금",
    "서포터즈",
    "봉사활동",
    "취업 정보"
  ]

  /** Everything outside the model that `main` consults. */
  datatype Env = Env(
    listing: string -> Option<ListingPage>,        // the listing page fetched from a board URL
    partial: string -> Option<DetailPage>,         // the detail page, first fetch (crawl_ann_partial)
    full: string -> Option<DetailPage>,            // the detail page, second fetch (crawl_ann)
    resolve: (string, string) -> string,           // urljoin of a base and a non-empty reference
    isDuplicate: (seq<string>, string) -> string,  // is_recent_title_duplicate, given the titles saved so far
    truncate: (string, int) -> string,             // truncate_text
    answer: string -> string,                      // answer_gpt
    absPath: string -> string,                     // os.path.abspath
    ready: nat -> nat -> bool)                     // wait outcomes of the n-th browser session

  /** What a run has done so far. */
  datatype Run = Run(
    csv: seq<AnnouncementPage>,       // the rows of pages.csv
    announcements: seq<Announcement>, // the `announcements` list
    saved: seq<string>,               // the titles given to save_title, in order
    asked: seq<string>,               // the questions put to the oracle, in order
    downloads: seq<Download>,         // the attachment requests made, in order
    sessions: seq<seq<Action>>,       // the command log of each browser session, in order
    raised: Option<PyError>)          // the exception that ended the run, if any

  function Start(csv: seq<AnnouncementPage>): Run {
    Run(csv, [], [], [], [], [], None)
  }

  // ============================================================ update_csv_with_announcement_numbers

  /** `df.loc[df['page_url'] == url, 'number'] = n`. */
  function SetNumber(rows: seq<AnnouncementPage>, url: string, n: int): seq<AnnouncementPage> {
    seq(|rows|, i requires 0 <= i < |rows| => if rows[i].pageUrl == url then rows[i].(number := n) else rows[i])
  }

  /** Setting the same number twice is setting it once. */
  lemma SetNumberIdempotent(rows: seq<AnnouncementPage>, url: string, n: int)
    ensures SetNumber(SetNumber(rows, url, n), url, n) == SetNumber(rows, url, n)
  {
  }

  /** Updates of different URLs do not interfere, so the order of the dictionary's items does
      not matter. */
  lemma SetNumberCommutes(rows: seq<AnnouncementPage>, u1: string, n1: int, u2: string, n2: int)
    requires u1 != u2
    ensures SetNumber(SetNumber(rows, u1, n1), u2, n2) == SetNumber(SetNumber(rows, u2, n2), u1, n1)
  {
  }

  /** `update_csv_with_announcement_numbers`: every row whose page URL is a key of `updates`
      gets that key's number; every other row, and the order of the rows, stay as they were. */
  method UpdateCsv(rows: seq<AnnouncementPage>, updates: map<string, int>) returns (out: seq<AnnouncementPage>)
    ensures |out| == |rows|
    ensures forall i | 0 <= i < |rows| ::
      out[i] == if rows[i].pageUrl in updates then rows[i].(number := updates[rows[i].pageUrl]) else rows[i]
  {
    out := rows;
    var pending := updates.Keys;
    while pending != {}
      invariant pending <= updates.Keys
      invariant |out| == |rows|
      invariant forall i | 0 <= i < |rows| ::
        out[i] == if rows[i].pageUrl in updates && rows[i].pageUrl !in pending
                  then rows[i].(number := updates[rows[i].pageUrl]) else rows[i]
      decreases pending
    {
      var url :| url in pending;
      out := SetNumber(out, url, updates[url]);
      pending := pending - {url};
    }
  }

  // ============================================================ main, as functions

  /** An accepted announcement: fetched in full, recorded under its category, its partial
      title saved, then published alone by a new browser session. */
  function Publish(env: Env, st: Run, url: string, title: string, category: string): Run {
    var fetched := CrawlAnnOf(url, env.full(url), env.resolve);
    var st' := st.(downloads := st.downloads + fetched.1);
    match fetched.0
    case Raised(e) => st'.(raised := Some(e))
    // `full_ann.notice_board_name = ...` on None
    case Returned(None) => st'.(raised := Some(AttributeError))
    case Returned(Some(a)) =>
      var posted := a.(noticeBoardName := category);
      var session := SessionLog(CourseUrl, [posted], env.absPath, env.ready(|st.sessions|));
      st'.(announcements := st.announcements + [posted],
           saved := st.saved + [title],
           sessions := st.sessions + [session.actions],
           raised := if session.ok then None else Some(TimeoutException))
  }

  /** One turn of the inner loop of `main`. */
  function UrlStep(env: Env, st: Run, url: string): Run {
    match CrawlAnnPartial(url, env.partial(url))
    case Raised(e) => st.(raised := Some(e))
    case Returned(None) => st
    case Returned(Some(partial)) =>
      if env.isDuplicate(st.saved, partial.title) == DuplicateVerdict then st
      else
        var category := CategoryOf(partial.title, partial.contentText, env.truncate, env.answer);
        var st' := st.(asked := st.asked + Questions(env, partial.title, partial.contentText));
        if category in AcceptedCategories then Publish(env, st', url, partial.title, category) else st'
  }

  /** The question `categorize_announcement` puts to the oracle, if any. */
  function Questions(env: Env, title: string, content: string): seq<string> {
    if KeywordCategory(title, content) == None then [OraclePrompt(env.truncate, title, content)] else []
  }

  /** The inner loop of `main`, stopping at the first exception. */
  function UrlsStep(env: Env, st: Run, urls: seq<string>): Run {
    if urls == [] then st
    else
      var before := UrlsStep(env, st, urls[..|urls| - 1]);
      if before.raised.Some? then before else UrlStep(env, before, urls[|urls| - 1])
  }

  /** One turn of the outer loop of `main`: a failed listing request returns a bare list,
      which cannot be unpacked into two names. */
  function PageStep(env: Env, st: Run, page: AnnouncementPage): Run {
    match AnnsUrlsOf(page, env.listing(page.pageUrl), env.resolve)
    case Raised(e) => st.(raised := Some(e))
    case Returned(BareList) => st.(raised := Some(ValueError))
    case Returned(UrlsAndNumber(urls, latest)) =>
      var after := UrlsStep(env, st, urls);
      if after.raised.Some? || latest <= page.number then after
      else after.(csv := SetNumber(after.csv, page.pageUrl, latest))
  }

  function PagesStep(env: Env, st: Run, pages: seq<AnnouncementPage>): Run {
    if pages == [] then st
    else
      var before := PagesStep(env, st, pages[..|pages| - 1]);
      if before.raised.Some? then before else PageStep(env, before, pages[|pages| - 1])
  }

  /** A title the checker calls "중복" is dropped before classification: the oracle is not
      asked, nothing is fetched, saved or published. */
  lemma DuplicateSkipped(env: Env, st: Run, url: string)
    requires CrawlAnnPartial(url, env.partial(url)).Returned?
    requires CrawlAnnPartial(url, env.partial(url)).value.Some?
    requires env.isDuplicate(st.saved, CrawlAnnPartial(url, env.partial(url)).value.value.title) == DuplicateVerdict
    ensures UrlStep(env, st, url) == st
  {
  }

  /** A category outside the accepted list (the rules' "해당없음" among them) fetches, saves
      and publishes nothing; at most the oracle's question is recorded. */
  lemma RejectedCategoryPublishesNothing(env: Env, st: Run, url: string)
    requires CrawlAnnPartial(url, env.partial(url)).Returned?
    requires CrawlAnnPartial(url, env.partial(url)).value.Some?
    requires var p := CrawlAnnPartial(url, env.partial(url)).value.value;
      CategoryOf(p.title, p.contentText, env.truncate, env.answer) !in AcceptedCategories
    ensures UrlStep(env, st, url) == st.(asked := UrlStep(env, st, url).asked)
  {
  }

  // ============================================================ main, as methods

  /** One turn of the inner loop of `main`. */
  method ProcessUrl(env: Env, st: Run, url: string) returns (next: Run)
    ensures next == UrlStep(env, st, url)
  {
    var partial := CrawlAnnPartial(url, env.partial(url));
    if partial.Raised? {
      return st.(raised := Some(partial.error));
    }
    if partial.value == None {
      return st;
    }
    var p := partial.value.value;
    if env.isDuplicate(st.saved, p.title) == DuplicateVerdict {
      return st;
    }
    var category, prompt := CategorizeAnnouncement(p.title, p.contentText, env.truncate, env.answer);
    next := st.(asked := st.asked + if prompt.Some? then [prompt.value] else []);
    if category !in AcceptedCategories {
      return;
    }
    var full, downloads := CrawlAnn(url, env.full(url), env.resolve);
    next := next.(downloads := st.downloads + downloads);
    if full.Raised? {
      return next.(raised := Some(full.error));
    }
    if full.value == None {
      return next.(raised := Some(AttributeError));
    }
    var posted := full.value.value.(noticeBoardName := category);
    next := next.(announcements := st.announcements + [posted], saved := st.saved + [p.title]);
    var service := new WriteNoticeService(env.ready(|st.sessions|), env.absPath);
    var ok := service.WriteNotices(CourseUrl, [posted]);
    next := next.(sessions := st.sessions + [service.log], raised := if ok then None else Some(TimeoutException));
  }

  /** One turn of the outer loop of `main`. */
  method ProcessPage(env: Env, st: Run, page: AnnouncementPage) returns (next: Run)
    requires st.raised == None
    ensures next == PageStep(env, st, page)
  {
    var listing := GetAnnsUrl(page, env.listing(page.pageUrl), env.resolve);
    if listing.Raised? {
      return st.(raised := Some(listing.error));
    }
    if listing.value.BareList? {
      return st.(raised := Some(ValueError));
    }
    var urls, latest := listing.value.urls, listing.value.latest;
    next := st;
    var j := 0;
    while j < |urls|
      invariant 0 <= j <= |urls|
      invariant next == UrlsStep(env, st, urls[..j]) && next.raised == None
    {
      assert urls[..j + 1][..j] == urls[..j];
      next := ProcessUrl(env, next, urls[j]);
      if next.raised.Some? {
        UrlsStopAtException(env, st, urls, j + 1);
        return;
      }
      j := j + 1;
    }
    assert urls[..j] == urls;
    if latest > page.number {
      var rows := UpdateCsv(next.csv, map[page.pageUrl := latest]);
      assert rows == SetNumber(next.csv, page.pageUrl, latest);
      next := next.(csv := rows);
    }
  }

  /** `main`: the boards in order, stopping at the first exception. `pages` is the list the
      page manager loads and `csv` the rows of pages.csv when the run starts. */
  method RunMain(env: Env, pages: seq<AnnouncementPage>, csv: seq<AnnouncementPage>) returns (st: Run)
    ensures st == PagesStep(env, Start(csv), pages)
  {
    st := Start(csv);
    var i := 0;
    while i < |pages|
      invariant 0 <= i <= |pages|
      invariant st == PagesStep(env, Start(csv), pages[..i]) && st.raised == None
    {
      assert pages[..i + 1][..i] == pages[..i];
      st := ProcessPage(env, st, pages[i]);
      if st.raised.Some? {
        PagesStopAtException(env, Start(csv), pages, i + 1);
        return;
      }
      i := i + 1;
    }
    assert pages[..i] == pages;
  }

  /** Once an exception is raised, the later URLs change nothing. */
  lemma {:induction false} UrlsStopAtException(env: Env, st: Run, urls: seq<string>, n: nat)
    requires 0 < n <= |urls|
    requires UrlsStep(env, st, urls[..n]).raised.Some?
    ensures UrlsStep(env, st, urls) == UrlsStep(env, st, urls[..n])
    decreases |urls|
  {
    if n < |urls| {
      assert urls[..|urls| - 1][..n] == urls[..n];
      UrlsStopAtException(env, st, urls[..|urls| - 1], n);
    } else {
      assert urls[..n] == urls;
    }
  }

  /** Once an exception is raised, the later boards change nothing. */
  lemma {:induction false} PagesStopAtException(env: Env, st: Run, pages: seq<AnnouncementPage>, n: nat)
    requires 0 < n <= |pages|
    requires PagesStep(env, st, pages[..n]).raised.Some?
    ensures PagesStep(env, st, pages) == PagesStep(env, st, pages[..n])
    decreases |pages|
  {
    if n < |pages| {
      assert pages[..|pages| - 1][..n] == pages[..n];
      PagesStopAtException(env, st, pages[..|pages| - 1], n);
    } else {
      assert pages[..n] == pages;
    }
  }

  // ============================================================ what a run guarantees

  /** The records of a run agree: one saved title and one browser session per recorded
      announcement; each was published under an accepted category, had passed the duplicate
      check against the titles saved before it, and got a session of its own that completed
      unless it is the last one and the run ended with an exception. */
  ghost predicate Recorded(env: Env, st: Run) {
    && |st.saved| == |st.announcements| == |st.sessions|
    && forall i | 0 <= i < |st.announcements| ::
         && st.announcements[i].noticeBoardName in AcceptedCategories
         && env.isDuplicate(st.saved[..i], st.saved[i]) != DuplicateVerdict
         && st.sessions[i] == SessionLog(CourseUrl, [st.announcements[i]], env.absPath, env.ready(i)).actions
         && (i + 1 < |st.sessions| || st.raised == None ==>
               SessionLog(CourseUrl, [st.announcements[i]], env.absPath, env.ready(i)).ok)
  }

  lemma PublishRecords(env: Env, st: Run, url: string, title: string, category: string)
    requires st.raised == None && Recorded(env, st)
    requires env.isDuplicate(st.saved, title) != DuplicateVerdict && category in AcceptedCategories
    ensures Recorded(env, Publish(env, st, url, title, category))
  {
    var next := Publish(env, st, url, title, category);
    if |next.announcements| != |st.announcements| {
      var n := |st.announcements|;
      assert next.saved[..n] == st.saved;
      forall i | 0 <= i < n
        ensures next.saved[..i] == st.saved[..i]
      {
      }
    }
  }

  lemma UrlStepRecords(env: Env, st: Run, url: string)
    requires st.raised == None && Recorded(env, st)
    ensures Recorded(env, UrlStep(env, st, url))
  {
    var partial := CrawlAnnPartial(url, env.partial(url));
    if partial.Returned? && partial.value.Some? {
      var p := partial.value.value;
      var category := CategoryOf(p.title, p.contentText, env.truncate, env.answer);
      if env.isDuplicate(st.saved, p.title) != DuplicateVerdict && category in AcceptedCategories {
        PublishRecords(env, st, url, p.title, category);
      }
    }
  }

  lemma {:induction false} UrlsStepRecords(env: Env, st: Run, urls: seq<string>)
    requires st.raised == None && Recorded(env, st)
    ensures Recorded(env, UrlsStep(env, st, urls))
    decreases |urls|
  {
    if urls != [] {
      UrlsStepRecords(env, st, urls[..|urls| - 1]);
      var before := UrlsStep(env, st, urls[..|urls| - 1]);
      if before.raised == None {
        UrlStepRecords(env, before, urls[|urls| - 1]);
      }
    }
  }

  lemma PageStepRecords(env: Env, st: Run, page: AnnouncementPage)
    requires st.raised == None && Recorded(env, st)
    ensures Recorded(env, PageStep(env, st, page))
  {
    var listing := AnnsUrlsOf(page, env.listing(page.pageUrl), env.resolve);
    if listing.Returned? && listing.value.UrlsAndNumber? {
      UrlsStepRecords(env, st, listing.value.urls);
    }
  }

  lemma {:induction false} PagesStepRecords(env: Env, st: Run, pages: seq<AnnouncementPage>)
    requires st.raised == None && Recorded(env, st)
    ensures Recorded(env, PagesStep(env, st, pages))
    decreases |pages|
  {
    if pages != [] {
      PagesStepRecords(env, st, pages[..|pages| - 1]);
      var before := PagesStep(env, st, pages[..|pages| - 1]);
      if before.raised == None {
        PageStepRecords(env, before, pages[|pages| - 1]);
      }
    }
  }

  /** A whole run keeps its records in agreement. */
  lemma RunRecords(env: Env, pages: seq<AnnouncementPage>, csv: seq<AnnouncementPage>)
    ensures Recorded(env, PagesStep(env, Start(csv), pages))
  {
    PagesStepRecords(env, Start(csv), pages);
  }

  /** A completed session of one announcement opens the portal, logs in, goes to the course,
      enters the board named by the announcement's category and comes back. */
  lemma SessionNavigation(a: Announcement, absPath: string -> string, ready: nat -> bool)
    requires a.noticeBoardName in AcceptedCategories
    requires SessionLog(CourseUrl, [a], absPath, ready).ok
    ensures Visits(SessionLog(CourseUrl, [a], absPath, ready).actions) ==
            [Open(PortalUrl), Open(CourseUrl), EnterBoard(a.noticeBoardName), Open(CourseUrl)]
  {
    var notices := WriteNoticesSteps(CourseUrl, [a], absPath, ready, 0);
    WriteNoticesNavigation(CourseUrl, [a], absPath, ready, 0);
    VisitsConcat([Open(PortalUrl), LogIn], notices.actions);
    assert Visits([Open(PortalUrl), LogIn]) == [Open(PortalUrl)] by {
      assert [Open(PortalUrl), LogIn][..1] == [Open(PortalUrl)];
      assert [Open(PortalUrl)][..0] == [];
    }
    assert [a][..0] == [];
    assert Itinerary(CourseUrl, [a]) == [EnterBoard(a.noticeBoardName), Open(CourseUrl)];
  }

  /** The rows of pages.csv keep their order, URLs and default URLs, and a row's number
      changes only to a number above the stored number of a board with that URL. */
  ghost predicate CursorsAdvanced(pages: seq<AnnouncementPage>, csv0: seq<AnnouncementPage>,
                                  csv: seq<AnnouncementPage>) {
    && |csv| == |csv0|
    && forall r | 0 <= r < |csv| ::
         && csv[r].pageUrl == csv0[r].pageUrl && csv[r].defaultUrl == csv0[r].defaultUrl
         && (csv[r].number == csv0[r].number ||
             exists p | p in pages :: p.pageUrl == csv[r].pageUrl && csv[r].number > p.number)
  }

  lemma {:induction false} UrlsStepKeepsCsv(env: Env, st: Run, urls: seq<string>)
    ensures UrlsStep(env, st, urls).csv == st.csv
    decreases |urls|
  {
    if urls != [] {
      UrlsStepKeepsCsv(env, st, urls[..|urls| - 1]);
    }
  }

  /** One board moves only its own rows, and only above its stored number. */
  lemma PageStepMovesOwnRows(env: Env, st: Run, page: AnnouncementPage)
    requires st.raised == None
    ensures var csv := PageStep(env, st, page).csv;
      && |csv| == |st.csv|
      && forall r | 0 <= r < |csv| ::
           && csv[r].pageUrl == st.csv[r].pageUrl && csv[r].defaultUrl == st.csv[r].defaultUrl
           && (csv[r].number == st.csv[r].number || (csv[r].pageUrl == page.pageUrl && csv[r].number > page.number))
  {
    var listing := AnnsUrlsOf(page, env.listing(page.pageUrl), env.resolve);
    if listing.Returned? && listing.value.UrlsAndNumber? {
      UrlsStepKeepsCsv(env, st, listing.value.urls);
    }
  }

  lemma {:induction false} PagesStepAdvancesCursors(env: Env, st: Run, pages: seq<AnnouncementPage>)
    requires st.raised == None
    ensures CursorsAdvanced(pages, st.csv, PagesStep(env, st, pages).csv)
    decreases |pages|
  {
    if pages != [] {
      var init, page := pages[..|pages| - 1], pages[|pages| - 1];
      PagesStepAdvancesCursors(env, st, init);
      var before := PagesStep(env, st, init);
      var after := PagesStep(env, st, pages).csv;
      if before.raised == None {
        PageStepMovesOwnRows(env, before, page);
      }
      forall r | 0 <= r < |after| && after[r].number != st.csv[r].number
        ensures exists p | p in pages :: p.pageUrl == after[r].pageUrl && after[r].number > p.number
      {
        if after[r].number != before.csv[r].number {
          assert page in pages;
        } else {
          var p :| p in init && p.pageUrl == before.csv[r].pageUrl && before.csv[r].number > p.number;
          assert p in pages;
        }
      }
    }
  }

  /** Over a whole run, pages.csv keeps its rows and only moves stored numbers forward past
      the number a board had when the run started. */
  lemma RunAdvancesCursors(env: Env, pages: seq<AnnouncementPage>, csv: seq<AnnouncementPage>)
    ensures CursorsAdvanced(pages, csv, PagesStep(env, Start(csv), pages).csv)
  {
    PagesStepAdvancesCursors(env, Start(csv), pages);
  }
}
