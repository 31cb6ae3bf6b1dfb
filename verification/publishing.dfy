/** The publisher of Source/selenium_service.py, as the sequence of browser commands it
    issues. The browser is not modelled: every bounded wait (`WebDriverWait(...).until`)
    takes its outcome from an oracle, `ready(k)` telling whether the element appeared within
    the timeout at the session's k-th wait. A wait that expires raises `TimeoutException`,
    which nothing catches except around the final file-input check. */
module Publishing {
  import opened Classifier
  import opened Html
  import opened Crawl

  const PortalUrl := "https://plato.pusan.ac.kr/"
  const BannerLabel := "본문 링크 : "
  /** The classes appended to every image of a post. */
  const ImageClasses: seq<string> := ["img-responsive", "atto_image_button_text-bottom"]

  /** The page controls the publisher waits for. */
  datatype Control =
    | WriteButton    // the "쓰기" link of a board
    | AttachButton   // the "추가 ..." button of the file picker
    | FileInput      // input[type="file"]
    | UploadButton   // the file picker's upload button
    | SaveButton     // input[type="submit"].btn-primary

  /** A browser command, or a bounded wait together with its outcome. */
  datatype Action =
    | Open(url: string)                    // driver.get(url)
    | LogIn                                // the login form filled in and submitted
    | EnterBoard(name: string)             // the board link whose label contains `name` clicked
    | Await(control: Control, found: bool) // a bounded wait for a control
    | Click(control: Control)
    | TypeSubject(subject: string)
    | SetBody(body: seq<Node>)             // the editor's innerHTML replaced
    | SendPath(path: string)               // a path typed into the file input

  /** The commands of one call, the number of waits done once it returns, and whether it
      returned (`false`: a wait expired and `TimeoutException` escaped). */
  datatype Steps = Steps(actions: seq<Action>, waits: nat, ok: bool)

  // ============================================================ the body of a post

  /** `<p>본문 링크 : <a href="URL">URL</a></p>`, as parsed. */
  function Banner(url: string): Node {
    Element("p", map[], [], [TextNode(BannerLabel), Element("a", map["href" := url], [], [TextNode(url)])])
  }

  /** Every img descendant gets the two image classes after its own classes; nothing else
      changes. */
  function AddImageClasses(ns: seq<Node>): (r: seq<Node>)
    ensures |r| == |ns|
    decreases ns
  {
    if ns == [] then [] else [AddNodeImageClasses(ns[0])] + AddImageClasses(ns[1..])
  }

  function AddNodeImageClasses(n: Node): Node
    decreases n
  {
    match n
    case TextNode(_) => n
    case Element(tag, attrs, classes, children) =>
      Element(tag, attrs, if tag == "img" then classes + ImageClasses else classes, AddImageClasses(children))
  }

  /** The body injected into the editor: the banner linking back to the source, then the
      announcement's content, with the image classes added throughout. */
  function ComposeBody(url: string, content: seq<Node>): (body: seq<Node>)
    ensures |body| == 1 + |content|
    ensures body[0] == Banner(url)
    ensures body[1..] == AddImageClasses(content)
  {
    var ns := [Banner(url)] + content;
    assert ns[0] == Banner(url) && ns[1..] == content;
    var link := Element("a", map["href" := url], [], [TextNode(url)]);
    assert AddImageClasses([TextNode(url)]) == [TextNode(url)];
    assert AddNodeImageClasses(link) == link;
    assert AddImageClasses([link]) == [link];
    assert AddImageClasses([TextNode(BannerLabel), link]) == [TextNode(BannerLabel), link];
    assert AddNodeImageClasses(Banner(url)) == Banner(url);
    assert AddImageClasses(ns) == [AddNodeImageClasses(ns[0])] + AddImageClasses(ns[1..]);
    AddImageClasses(ns)
  }

  /** Removes the two image classes from the end of every img's class list. */
  function DropImageClasses(ns: seq<Node>): seq<Node>
    decreases ns
  {
    if ns == [] then [] else [DropNodeImageClasses(ns[0])] + DropImageClasses(ns[1..])
  }

  function DropNodeImageClasses(n: Node): Node
    decreases n
  {
    match n
    case TextNode(_) => n
    case Element(tag, attrs, classes, children) =>
      var classes' :=
        if tag == "img" && |classes| >= |ImageClasses| && classes[|classes| - |ImageClasses|..] == ImageClasses
        then classes[..|classes| - |ImageClasses|] else classes;
      Element(tag, attrs, classes', DropImageClasses(children))
  }

  /** Adding the image classes loses nothing: dropping them again gives the content back.
      Since dropping touches only the end of img class lists, this says that adding changed
      nothing else. */
  lemma {:induction false} AddThenDropImageClasses(ns: seq<Node>)
    ensures DropImageClasses(AddImageClasses(ns)) == ns
    decreases ns
  {
    if ns != [] {
      AddThenDropNodeImageClasses(ns[0]);
      AddThenDropImageClasses(ns[1..]);
    }
  }

  lemma {:induction false} AddThenDropNodeImageClasses(n: Node)
    ensures DropNodeImageClasses(AddNodeImageClasses(n)) == n
    decreases n
  {
    match n
    case TextNode(_) =>
    case Element(tag, attrs, classes, children) =>
      AddThenDropImageClasses(children);
      if tag == "img" {
        var c := classes + ImageClasses;
        assert c[|c| - |ImageClasses|..] == ImageClasses;
        assert c[..|c| - |ImageClasses|] == classes;
      }
  }

  /** After the addition, the images are the same ones in the same order, each with the two
      classes after its former classes. */
  lemma {:induction false} EveryImageGetsClasses(ns: seq<Node>)
    ensures |Images(AddImageClasses(ns))| == |Images(ns)|
    ensures forall k | 0 <= k < |Images(ns)| ::
      Images(ns)[k].Element? && Images(AddImageClasses(ns))[k].Element? &&
      Images(AddImageClasses(ns))[k].classes == Images(ns)[k].classes + ImageClasses
    decreases ns
  {
    ImagesAreImgs(ns);
    ImagesAreImgs(AddImageClasses(ns));
    if ns != [] {
      EveryNodeImageGetsClasses(ns[0]);
      EveryImageGetsClasses(ns[1..]);
      var a: seq<Node>, b: seq<Node> := NodeImages(ns[0]), Images(ns[1..]);
      var a': seq<Node>, b': seq<Node> := NodeImages(AddNodeImageClasses(ns[0])), Images(AddImageClasses(ns[1..]));
      assert Images(ns) == a + b;
      assert Images(AddImageClasses(ns)) == a' + b';
      forall k | 0 <= k < |a + b|
        ensures (a' + b')[k].classes == (a + b)[k].classes + ImageClasses
      {
        if k < |a| {
          assert (a + b)[k] == a[k] && (a' + b')[k] == a'[k];
        } else {
          assert (a + b)[k] == b[k - |a|] && (a' + b')[k] == b'[k - |a|];
        }
      }
    }
  }

  lemma {:induction false} EveryNodeImageGetsClasses(n: Node)
    ensures |NodeImages(AddNodeImageClasses(n))| == |NodeImages(n)|
    ensures forall k | 0 <= k < |NodeImages(n)| ::
      NodeImages(n)[k].Element? && NodeImages(AddNodeImageClasses(n))[k].Element? &&
      NodeImages(AddNodeImageClasses(n))[k].classes == NodeImages(n)[k].classes + ImageClasses
    decreases n
  {
    NodeImagesAreImgs(n);
    NodeImagesAreImgs(AddNodeImageClasses(n));
    match n
    case TextNode(_) =>
    case Element(tag, attrs, classes, children) =>
      EveryImageGetsClasses(children);
      var n' := AddNodeImageClasses(n);
      var a: seq<Node>, b: seq<Node> := if tag == "img" then [n] else [], Images(children);
      var a': seq<Node>, b': seq<Node> := if tag == "img" then [n'] else [], Images(AddImageClasses(children));
      assert NodeImages(n) == a + b;
      assert NodeImages(n') == a' + b';
      forall k | 0 <= k < |a + b|
        ensures (a' + b')[k].classes == (a + b)[k].classes + ImageClasses
      {
        if k < |a| {
          assert (a + b)[k] == n && (a' + b')[k] == n';
        } else {
          assert (a + b)[k] == b[k - |a|] && (a' + b')[k] == b'[k - |a|];
        }
      }
  }

  // ============================================================ the commands, as functions

  /** `click_with_js`: wait for the control, then click it. */
  function ClickSteps(c: Control, ready: nat -> bool, k: nat): Steps {
    if ready(k) then Steps([Await(c, true), Click(c)], k + 1, true)
    else Steps([Await(c, false)], k + 1, false)
  }

  /** `upload_file`: open the picker, wait for the file input, type the absolute path,
      click upload. */
  function UploadFileSteps(path: string, absPath: string -> string, ready: nat -> bool, k: nat): Steps {
    var attach := ClickSteps(AttachButton, ready, k);
    if !attach.ok then attach
    else if !ready(attach.waits) then Steps(attach.actions + [Await(FileInput, false)], attach.waits + 1, false)
    else
      var upload := ClickSteps(UploadButton, ready, attach.waits + 1);
      Steps(attach.actions + [Await(FileInput, true), SendPath(absPath(path))] + upload.actions,
            upload.waits, upload.ok)
  }

  /** `upload_files`: the files one after another, stopping at the first timeout. */
  function UploadFilesSteps(files: seq<string>, absPath: string -> string, ready: nat -> bool, k: nat): Steps {
    if files == [] then Steps([], k, true)
    else
      var before := UploadFilesSteps(files[..|files| - 1], absPath, ready, k);
      if !before.ok then before
      else
        var last := UploadFileSteps(files[|files| - 1], absPath, ready, before.waits);
        Steps(before.actions + last.actions, last.waits, last.ok)
  }

  /** What `write_notice_in_board` does once subject and body are filled in: save directly
      when there are no files; otherwise upload them and save only if the file input does not
      reappear within the wait. */
  function SubmitSteps(files: seq<string>, absPath: string -> string, ready: nat -> bool, k: nat): Steps {
    if files == [] then ClickSteps(SaveButton, ready, k)
    else
      var uploads := UploadFilesSteps(files, absPath, ready, k);
      if !uploads.ok then uploads
      else if ready(uploads.waits) then
        Steps(uploads.actions + [Await(FileInput, true)], uploads.waits + 1, true)
      else
        var save := ClickSteps(SaveButton, ready, uploads.waits + 1);
        Steps(uploads.actions + [Await(FileInput, false)] + save.actions, save.waits, save.ok)
  }

  /** `write_notice_in_board`: open the editor, fill subject and body, then submit. */
  function WriteNoticeInBoardSteps(subject: string, url: string, content: seq<Node>, files: seq<string>,
                                   absPath: string -> string, ready: nat -> bool, k: nat): Steps {
    if !ready(k) then Steps([Await(WriteButton, false)], k + 1, false)
    else
      var submit := SubmitSteps(files, absPath, ready, k + 1);
      Steps([Await(WriteButton, true), Click(WriteButton), TypeSubject(subject),
             SetBody(ComposeBody(url, content))] + submit.actions, submit.waits, submit.ok)
  }

  /** One turn of `write_notices`' loop: nothing for a "해당없음" announcement, otherwise
      enter its board, write the post and go back to the course. */
  function PostSteps(courseUrl: string, a: Announcement, absPath: string -> string, ready: nat -> bool, k: nat): Steps {
    if a.noticeBoardName == NotApplicable then Steps([], k, true)
    else
      var write := WriteNoticeInBoardSteps(a.title, a.url, a.contentHtml, a.files, absPath, ready, k);
      if !write.ok then Steps([EnterBoard(a.noticeBoardName)] + write.actions, write.waits, false)
      else Steps([EnterBoard(a.noticeBoardName)] + write.actions + [Open(courseUrl)], write.waits, true)
  }

  function PostAllSteps(courseUrl: string, anns: seq<Announcement>, absPath: string -> string,
                        ready: nat -> bool, k: nat): Steps {
    if anns == [] then Steps([], k, true)
    else
      var before := PostAllSteps(courseUrl, anns[..|anns| - 1], absPath, ready, k);
      if !before.ok then before
      else
        var last := PostSteps(courseUrl, anns[|anns| - 1], absPath, ready, before.waits);
        Steps(before.actions + last.actions, last.waits, last.ok)
  }

  /** `write_notices`: go to the course, then post every announcement in turn. */
  function WriteNoticesSteps(courseUrl: string, anns: seq<Announcement>, absPath: string -> string,
                             ready: nat -> bool, k: nat): (s: Steps)
    ensures s.actions != [] && s.actions[0] == Open(courseUrl)
  {
    var posts := PostAllSteps(courseUrl, anns, absPath, ready, k);
    Steps([Open(courseUrl)] + posts.actions, posts.waits, posts.ok)
  }

  /** The browser log of a whole session: start page, login, then `write_notices`. */
  function SessionLog(courseUrl: string, anns: seq<Announcement>, absPath: string -> string,
                      ready: nat -> bool): Steps {
    var s := WriteNoticesSteps(courseUrl, anns, absPath, ready, 0);
    Steps([Open(PortalUrl), LogIn] + s.actions, s.waits, s.ok)
  }

  // ============================================================ the service

  class WriteNoticeService {
    /** The outcome of each bounded wait of this session, by its rank. */
    const ready: nat -> bool
    /** `os.path.abspath`, which depends on the working directory. */
    const absPath: string -> string
    /** The number of waits done so far. */
    var waits: nat
    /** The commands issued so far. */
    var log: seq<Action>

    /** Opens the portal and logs in (the credentials are not modelled). */
    constructor (ready: nat -> bool, absPath: string -> string)
      ensures this.ready == ready && this.absPath == absPath
      ensures log == [Open(PortalUrl), LogIn] && waits == 0
    {
      this.ready := ready;
      this.absPath := absPath;
      waits := 0;
      log := [Open(PortalUrl), LogIn];
    }

    method MoveToCourse(courseUrl: string)
      modifies this
      ensures log == old(log) + [Open(courseUrl)] && waits == old(waits)
    {
      log := log + [Open(courseUrl)];
    }

    method MoveToNoticeBoard(name: string)
      modifies this
      ensures log == old(log) + [EnterBoard(name)] && waits == old(waits)
    {
      log := log + [EnterBoard(name)];
    }

    /** A bounded wait for a control. */
    method Wait(c: Control) returns (found: bool)
      modifies this
      ensures found == ready(old(waits))
      ensures log == old(log) + [Await(c, found)] && waits == old(waits) + 1
    {
      found := ready(waits);
      log := log + [Await(c, found)];
      waits := waits + 1;
    }

    method ClickWithJs(c: Control) returns (ok: bool)
      modifies this
      ensures var s := ClickSteps(c, ready, old(waits));
        log == old(log) + s.actions && waits == s.waits && ok == s.ok
    {
      ok := Wait(c);
      if ok {
        log := log + [Click(c)];
      }
    }

    method UploadFile(path: string) returns (ok: bool)
      modifies this
      ensures var s := UploadFileSteps(path, absPath, ready, old(waits));
        log == old(log) + s.actions && waits == s.waits && ok == s.ok
    {
      ok := ClickWithJs(AttachButton);
      if !ok {
        return;
      }
      ok := Wait(FileInput);
      if !ok {
        return;
      }
      log := log + [SendPath(absPath(path))];
      ok := ClickWithJs(UploadButton);
    }

    method UploadFiles(files: seq<string>) returns (ok: bool)
      modifies this
      ensures var s := UploadFilesSteps(files, absPath, ready, old(waits));
        log == old(log) + s.actions && waits == s.waits && ok == s.ok
    {
      ghost var log0, k0 := log, waits;
      ok := true;
      var i := 0;
      while i < |files|
        invariant 0 <= i <= |files| && log0 == old(log) && k0 == old(waits)
        invariant log == log0 + UploadFilesSteps(files[..i], absPath, ready, k0).actions
        invariant waits == UploadFilesSteps(files[..i], absPath, ready, k0).waits
        invariant UploadFilesSteps(files[..i], absPath, ready, k0).ok
      {
        ghost var logMid := log;
        ok := UploadFile(files[i]);
        UploadFilesStep(files, i, absPath, ready, k0, log0, logMid, log, waits, ok);
        if !ok {
          UploadFilesStopsAtTimeout(files, i + 1, absPath, ready, k0);
          return;
        }
        i := i + 1;
      }
      assert files[..i] == files;
    }

    method Submit(files: seq<string>) returns (ok: bool)
      modifies this
      ensures var s := SubmitSteps(files, absPath, ready, old(waits));
        log == old(log) + s.actions && waits == s.waits && ok == s.ok
    {
      if files == [] {
        ok := ClickWithJs(SaveButton);
        return;
      }
      ok := UploadFiles(files);
      if !ok {
        return;
      }
      var inputShown := Wait(FileInput);
      if !inputShown {
        ok := ClickWithJs(SaveButton);
      }
    }

    method WriteNoticeInBoard(subject: string, url: string, content: seq<Node>, files: seq<string>)
      returns (ok: bool)
      modifies this
      ensures var s := WriteNoticeInBoardSteps(subject, url, content, files, absPath, ready, old(waits));
        log == old(log) + s.actions && waits == s.waits && ok == s.ok
    {
      ok := Wait(WriteButton);
      if !ok {
        return;
      }
      var compose := [Click(WriteButton), TypeSubject(subject), SetBody(ComposeBody(url, content))];
      log := log + compose;
      ghost var before := log;
      ok := Submit(files);
      assert log == old(log) + ([Await(WriteButton, true)] + compose) + (log[|before|..]);
    }

    /** One turn of `write_notices`' loop. */
    method Post(courseUrl: string, a: Announcement) returns (ok: bool)
      modifies this
      ensures var s := PostSteps(courseUrl, a, absPath, ready, old(waits));
        log == old(log) + s.actions && waits == s.waits && ok == s.ok
    {
      ok := true;
      if a.noticeBoardName != NotApplicable {
        MoveToNoticeBoard(a.noticeBoardName);
        ok := WriteNoticeInBoard(a.title, a.url, a.contentHtml, a.files);
        if ok {
          MoveToCourse(courseUrl);
        }
      }
    }

    /** The loop of `write_notices`: the announcements in order, stopping at the first
        timeout. */
    method PostAll(courseUrl: string, anns: seq<Announcement>) returns (ok: bool)
      modifies this
      ensures var s := PostAllSteps(courseUrl, anns, absPath, ready, old(waits));
        log == old(log) + s.actions && waits == s.waits && ok == s.ok
    {
      ghost var log0, k0 := log, waits;
      ok := true;
      var i := 0;
      while i < |anns|
        invariant 0 <= i <= |anns| && log0 == old(log) && k0 == old(waits)
        invariant log == log0 + PostAllSteps(courseUrl, anns[..i], absPath, ready, k0).actions
        invariant waits == PostAllSteps(courseUrl, anns[..i], absPath, ready, k0).waits
        invariant PostAllSteps(courseUrl, anns[..i], absPath, ready, k0).ok
      {
        ghost var logMid := log;
        ok := Post(courseUrl, anns[i]);
        PostAllStep(courseUrl, anns, i, absPath, ready, k0, log0, logMid, log, waits, ok);
        if !ok {
          PostAllStopsAtTimeout(courseUrl, anns, i + 1, absPath, ready, k0);
          return;
        }
        i := i + 1;
      }
      assert anns[..i] == anns;
    }

    method WriteNotices(courseUrl: string, anns: seq<Announcement>) returns (ok: bool)
      modifies this
      ensures var s := WriteNoticesSteps(courseUrl, anns, absPath, ready, old(waits));
        log == old(log) + s.actions && waits == s.waits && ok == s.ok
    {
      MoveToCourse(courseUrl);
      ok := PostAll(courseUrl, anns);
    }
  }

  /** The state after one more turn of `write_notices`' loop is the one `PostAllSteps`
      gives for one more announcement. */
  lemma PostAllStep(courseUrl: string, anns: seq<Announcement>, i: nat, absPath: string -> string,
                    ready: nat -> bool, k: nat, log0: seq<Action>, logMid: seq<Action>,
                    logNew: seq<Action>, waitsNew: nat, okNew: bool)
    requires i < |anns|
    requires logMid == log0 + PostAllSteps(courseUrl, anns[..i], absPath, ready, k).actions
    requires PostAllSteps(courseUrl, anns[..i], absPath, ready, k).ok
    requires var s := PostSteps(courseUrl, anns[i], absPath, ready, PostAllSteps(courseUrl, anns[..i], absPath, ready, k).waits);
      logNew == logMid + s.actions && waitsNew == s.waits && okNew == s.ok
    ensures var s := PostAllSteps(courseUrl, anns[..i + 1], absPath, ready, k);
      logNew == log0 + s.actions && waitsNew == s.waits && okNew == s.ok
  {
    assert anns[..i + 1][..i] == anns[..i];
  }

  /** The state after one more turn of `upload_files`' loop is the one `UploadFilesSteps`
      gives for one more file. */
  lemma UploadFilesStep(files: seq<string>, i: nat, absPath: string -> string, ready: nat -> bool, k: nat,
                        log0: seq<Action>, logMid: seq<Action>, logNew: seq<Action>, waitsNew: nat, okNew: bool)
    requires i < |files|
    requires logMid == log0 + UploadFilesSteps(files[..i], absPath, ready, k).actions
    requires UploadFilesSteps(files[..i], absPath, ready, k).ok
    requires var s := UploadFileSteps(files[i], absPath, ready, UploadFilesSteps(files[..i], absPath, ready, k).waits);
      logNew == logMid + s.actions && waitsNew == s.waits && okNew == s.ok
    ensures var s := UploadFilesSteps(files[..i + 1], absPath, ready, k);
      logNew == log0 + s.actions && waitsNew == s.waits && okNew == s.ok
  {
    assert files[..i + 1][..i] == files[..i];
  }

  /** Once an upload has timed out, the later files change nothing. */
  lemma {:induction false} UploadFilesStopsAtTimeout(files: seq<string>, n: nat, absPath: string -> string,
                                                     ready: nat -> bool, k: nat)
    requires 0 < n <= |files|
    requires !UploadFilesSteps(files[..n], absPath, ready, k).ok
    ensures UploadFilesSteps(files, absPath, ready, k) == UploadFilesSteps(files[..n], absPath, ready, k)
    decreases |files|
  {
    if n < |files| {
      assert files[..|files| - 1][..n] == files[..n];
      UploadFilesStopsAtTimeout(files[..|files| - 1], n, absPath, ready, k);
    } else {
      assert files[..n] == files;
    }
  }

  /** Once a post has timed out, the later announcements change nothing. */
  lemma {:induction false} PostAllStopsAtTimeout(courseUrl: string, anns: seq<Announcement>, n: nat,
                                                 absPath: string -> string, ready: nat -> bool, k: nat)
    requires 0 < n <= |anns|
    requires !PostAllSteps(courseUrl, anns[..n], absPath, ready, k).ok
    ensures PostAllSteps(courseUrl, anns, absPath, ready, k) == PostAllSteps(courseUrl, anns[..n], absPath, ready, k)
    decreases |anns|
  {
    if n < |anns| {
      assert anns[..|anns| - 1][..n] == anns[..n];
      PostAllStopsAtTimeout(courseUrl, anns[..|anns| - 1], n, absPath, ready, k);
    } else {
      assert anns[..n] == anns;
    }
  }
}

/** What the command log of a publishing session says: where the browser went, which files
    it uploaded, and when it saved. */
module PublishingTrace {
  import opened Html
  import opened Classifier
  import opened Crawl
  import opened Publishing

  predicate IsVisit(x: Action) {
    x.Open? || x.EnterBoard?
  }

  /** The file-picker commands of `upload_file`. */
  predicate IsUploadAction(x: Action) {
    x.SendPath? || ((x.Await? || x.Click?) && x.control in {AttachButton, FileInput, UploadButton})
  }

  /** The navigation commands of a log, in order. */
  function Visits(xs: seq<Action>): (r: seq<Action>)
    ensures |r| <= |xs|
    ensures forall i | 0 <= i < |r| :: IsVisit(r[i])
  {
    if xs == [] then []
    else Visits(xs[..|xs| - 1]) + (if IsVisit(xs[|xs| - 1]) then [xs[|xs| - 1]] else [])
  }

  /** The paths typed into the file input, in order. */
  function SentPaths(xs: seq<Action>): (r: seq<string>)
    ensures |r| <= |xs|
  {
    if xs == [] then []
    else SentPaths(xs[..|xs| - 1]) + (if xs[|xs| - 1].SendPath? then [xs[|xs| - 1].path] else [])
  }

  lemma {:induction false} VisitsConcat(a: seq<Action>, b: seq<Action>)
    ensures Visits(a + b) == Visits(a) + Visits(b)
    decreases |b|
  {
    if b == [] {
      assert a + b == a;
    } else {
      assert (a + b)[..|a + b| - 1] == a + b[..|b| - 1];
      VisitsConcat(a, b[..|b| - 1]);
    }
  }

  lemma {:induction false} SentPathsConcat(a: seq<Action>, b: seq<Action>)
    ensures SentPaths(a + b) == SentPaths(a) + SentPaths(b)
    decreases |b|
  {
    if b == [] {
      assert a + b == a;
    } else {
      assert (a + b)[..|a + b| - 1] == a + b[..|b| - 1];
      SentPathsConcat(a, b[..|b| - 1]);
    }
  }

  lemma {:induction false} NoVisits(xs: seq<Action>)
    requires forall i | 0 <= i < |xs| :: !IsVisit(xs[i])
    ensures Visits(xs) == []
    decreases |xs|
  {
    if xs != [] {
      NoVisits(xs[..|xs| - 1]);
    }
  }

  /** Uploading only ever drives the file picker: no navigation and no save. */
  lemma {:induction false} UploadsOnlyUseThePicker(files: seq<string>, absPath: string -> string,
                                                   ready: nat -> bool, k: nat)
    ensures forall i | 0 <= i < |UploadFilesSteps(files, absPath, ready, k).actions| ::
      IsUploadAction(UploadFilesSteps(files, absPath, ready, k).actions[i])
    decreases |files|
  {
    if files != [] {
      UploadsOnlyUseThePicker(files[..|files| - 1], absPath, ready, k);
    }
  }

  /** One upload that completes types exactly the absolute path of its file. */
  lemma UploadSendsItsPath(path: string, absPath: string -> string, ready: nat -> bool, k: nat)
    requires UploadFileSteps(path, absPath, ready, k).ok
    ensures SentPaths(UploadFileSteps(path, absPath, ready, k).actions) == [absPath(path)]
  {
    var before := [Await(AttachButton, true), Click(AttachButton), Await(FileInput, true)];
    var send := [SendPath(absPath(path))];
    var after := [Await(UploadButton, true), Click(UploadButton)];
    assert UploadFileSteps(path, absPath, ready, k).actions == before + (send + after);
    SentPathsConcat(before, send + after);
    SentPathsConcat(send, after);
    NoPaths(before);
    NoPaths(after);
    assert send[..0] == [];
  }

  /** One upload that completes clicks the attach control, finds the file input, types the
      absolute path and clicks upload, in that order; one that fails stops at the wait that
      timed out. */
  lemma UploadTrace(path: string, absPath: string -> string, ready: nat -> bool, k: nat)
    ensures var s := UploadFileSteps(path, absPath, ready, k);
      s.ok ==> s.actions == [Await(AttachButton, true), Click(AttachButton), Await(FileInput, true),
                             SendPath(absPath(path)), Await(UploadButton, true), Click(UploadButton)]
    ensures var s := UploadFileSteps(path, absPath, ready, k);
      !s.ok ==> s.actions != [] && s.actions[|s.actions| - 1].Await? && !s.actions[|s.actions| - 1].found
  {
  }

  /** The paths an upload run types are the absolute paths of its files, in list order,
      when no wait timed out. */
  lemma {:induction false} UploadsFollowFileOrder(files: seq<string>, absPath: string -> string,
                                                  ready: nat -> bool, k: nat)
    requires UploadFilesSteps(files, absPath, ready, k).ok
    ensures SentPaths(UploadFilesSteps(files, absPath, ready, k).actions) ==
            seq(|files|, i requires 0 <= i < |files| => absPath(files[i]))
    decreases |files|
  {
    if files != [] {
      var init := files[..|files| - 1];
      var before := UploadFilesSteps(init, absPath, ready, k);
      var last := UploadFileSteps(files[|files| - 1], absPath, ready, before.waits);
      UploadsFollowFileOrder(init, absPath, ready, k);
      SentPathsConcat(before.actions, last.actions);
      UploadSendsItsPath(files[|files| - 1], absPath, ready, before.waits);
    }
  }

  /** A post that completes has pressed save exactly when it had no files, or when the file
      input had gone once the uploads were done. */
  lemma SaveRule(subject: string, url: string, content: seq<Node>, files: seq<string>,
                 absPath: string -> string, ready: nat -> bool, k: nat)
    requires WriteNoticeInBoardSteps(subject, url, content, files, absPath, ready, k).ok
    ensures Click(SaveButton) in WriteNoticeInBoardSteps(subject, url, content, files, absPath, ready, k).actions
        <==> files == [] || !ready(UploadFilesSteps(files, absPath, ready, k + 1).waits)
  {
    UploadsOnlyUseThePicker(files, absPath, ready, k + 1);
    var uploads := UploadFilesSteps(files, absPath, ready, k + 1);
    assert Click(SaveButton) !in uploads.actions;
  }

  /** The navigation `write_notices` is meant to do: for every announcement with a board,
      enter that board and come back to the course; nothing for "해당없음". */
  function Itinerary(courseUrl: string, anns: seq<Announcement>): seq<Action> {
    if anns == [] then []
    else
      var a := anns[|anns| - 1];
      Itinerary(courseUrl, anns[..|anns| - 1]) +
        (if a.noticeBoardName == NotApplicable then [] else [EnterBoard(a.noticeBoardName), Open(courseUrl)])
  }

  /** Writing one post never navigates. */
  lemma WritingStaysOnTheBoard(subject: string, url: string, content: seq<Node>, files: seq<string>,
                               absPath: string -> string, ready: nat -> bool, k: nat)
    ensures Visits(WriteNoticeInBoardSteps(subject, url, content, files, absPath, ready, k).actions) == []
  {
    UploadsOnlyUseThePicker(files, absPath, ready, k + 1);
    NoVisits(WriteNoticeInBoardSteps(subject, url, content, files, absPath, ready, k).actions);
  }

  /** One turn of `write_notices` that completes enters the announcement's board and comes
      back, or does nothing for "해당없음". */
  lemma PostVisits(courseUrl: string, a: Announcement, absPath: string -> string, ready: nat -> bool, k: nat)
    requires PostSteps(courseUrl, a, absPath, ready, k).ok
    ensures Visits(PostSteps(courseUrl, a, absPath, ready, k).actions) ==
            if a.noticeBoardName == NotApplicable then [] else [EnterBoard(a.noticeBoardName), Open(courseUrl)]
  {
    if a.noticeBoardName != NotApplicable {
      var write := WriteNoticeInBoardSteps(a.title, a.url, a.contentHtml, a.files, absPath, ready, k);
      WritingStaysOnTheBoard(a.title, a.url, a.contentHtml, a.files, absPath, ready, k);
      VisitsConcat([EnterBoard(a.noticeBoardName)], write.actions);
      VisitsConcat([EnterBoard(a.noticeBoardName)] + write.actions, [Open(courseUrl)]);
      assert Visits([EnterBoard(a.noticeBoardName)]) == [EnterBoard(a.noticeBoardName)];
      assert Visits([Open(courseUrl)]) == [Open(courseUrl)];
    } else {
      assert Visits([]) == [];
    }
  }

  lemma {:induction false} PostingFollowsItinerary(courseUrl: string, anns: seq<Announcement>,
                                                   absPath: string -> string, ready: nat -> bool, k: nat)
    requires PostAllSteps(courseUrl, anns, absPath, ready, k).ok
    ensures Visits(PostAllSteps(courseUrl, anns, absPath, ready, k).actions) == Itinerary(courseUrl, anns)
    decreases |anns|
  {
    if anns != [] {
      var init, a := anns[..|anns| - 1], anns[|anns| - 1];
      var before := PostAllSteps(courseUrl, init, absPath, ready, k);
      var last := PostSteps(courseUrl, a, absPath, ready, before.waits);
      PostingFollowsItinerary(courseUrl, init, absPath, ready, k);
      VisitsConcat(before.actions, last.actions);
      PostVisits(courseUrl, a, absPath, ready, before.waits);
    }
  }

  /** When no wait times out, `write_notices` goes to the course first and then follows the
      itinerary: announcements marked "해당없음" cause no navigation at all. */
  lemma WriteNoticesNavigation(courseUrl: string, anns: seq<Announcement>, absPath: string -> string,
                               ready: nat -> bool, k: nat)
    requires WriteNoticesSteps(courseUrl, anns, absPath, ready, k).ok
    ensures Visits(WriteNoticesSteps(courseUrl, anns, absPath, ready, k).actions) ==
            [Open(courseUrl)] + Itinerary(courseUrl, anns)
  {
    var posts := PostAllSteps(courseUrl, anns, absPath, ready, k);
    PostingFollowsItinerary(courseUrl, anns, absPath, ready, k);
    VisitsConcat([Open(courseUrl)], posts.actions);
    assert Visits([Open(courseUrl)]) == [Open(courseUrl)];
  }

  lemma {:induction false} NoPaths(xs: seq<Action>)
    requires forall i | 0 <= i < |xs| :: !xs[i].SendPath?
    ensures SentPaths(xs) == []
    decreases |xs|
  {
    if xs != [] {
      NoPaths(xs[..|xs| - 1]);
    }
  }

  lemma SubmitUploadsEveryFile(files: seq<string>, absPath: string -> string, ready: nat -> bool, k: nat)
    requires SubmitSteps(files, absPath, ready, k).ok
    ensures SentPaths(SubmitSteps(files, absPath, ready, k).actions) ==
            seq(|files|, i requires 0 <= i < |files| => absPath(files[i]))
  {
    var submit := SubmitSteps(files, absPath, ready, k);
    if files == [] {
      NoPaths(submit.actions);
    } else {
      var uploads := UploadFilesSteps(files, absPath, ready, k);
      UploadsFollowFileOrder(files, absPath, ready, k);
      var tail := submit.actions[|uploads.actions|..];
      assert submit.actions == uploads.actions + tail;
      SentPathsConcat(uploads.actions, tail);
      NoPaths(tail);
    }
  }

  /** A post that completes has typed the absolute path of each of its files, in list
      order, and no other path. */
  lemma PostUploadsEveryFile(subject: string, url: string, content: seq<Node>, files: seq<string>,
                             absPath: string -> string, ready: nat -> bool, k: nat)
    requires WriteNoticeInBoardSteps(subject, url, content, files, absPath, ready, k).ok
    ensures SentPaths(WriteNoticeInBoardSteps(subject, url, content, files, absPath, ready, k).actions) ==
            seq(|files|, i requires 0 <= i < |files| => absPath(files[i]))
  {
    var compose := [Await(WriteButton, true), Click(WriteButton), TypeSubject(subject),
                    SetBody(ComposeBody(url, content))];
    NoPaths(compose);
    SentPathsConcat(compose, SubmitSteps(files, absPath, ready, k + 1).actions);
    SubmitUploadsEveryFile(files, absPath, ready, k + 1);
  }
}
