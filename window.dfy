/**
 * MainWindow: building the item list from a chosen folder (btnSrcDir_Click), checking
 * the two text boxes, and running every item through GenerateAndSaveAsync (btnStart_Click).
 * The source dispatches one task per item and awaits them all; here the items are
 * processed one after another in list order.
 */
module Window {
  import opened Wrappers
  import opened Thumbnails
  import opened Items
  import opened Counters

  // ---------------------------------------------------------------------------------
  // Strings
  // ---------------------------------------------------------------------------------

  /** t occurs in s starting at index i. */
  predicate OccursAt(s: string, t: string, i: int) {
    0 <= i && i + |t| <= |s| && s[i..i + |t|] == t
  }

  /** String.Contains: an ordinal search for t anywhere in s. */
  function Contains(s: string, t: string): (r: bool)
    ensures r <==> exists i :: OccursAt(s, t, i)
    decreases |s|
  {
    if |t| > |s| then
      assert forall i :: !OccursAt(s, t, i);
      false
    else if s[..|t|] == t then
      assert OccursAt(s, t, 0);
      true
    else
      OccursShift(s, t);
      Contains(s[1..], t)
  }

  /** An occurrence past the first character is an occurrence in the tail, and back. */
  lemma OccursShift(s: string, t: string)
    requires |s| > 0 && !OccursAt(s, t, 0)
    ensures (exists i :: OccursAt(s, t, i)) <==> (exists i :: OccursAt(s[1..], t, i))
  {
    forall i | OccursAt(s, t, i) ensures OccursAt(s[1..], t, i - 1) {
      assert s[1..][i - 1..i - 1 + |t|] == s[i..i + |t|];
    }
    forall i | OccursAt(s[1..], t, i) ensures OccursAt(s, t, i + 1) {
      assert s[1..][i..i + |t|] == s[i + 1..i + 1 + |t|];
    }
  }

  /** IsStaticImage: the MIME type mentions "image" and does not mention "gif". */
  function IsStaticImage(mimeType: string): (r: bool)
    ensures r <==> ((exists i :: OccursAt(mimeType, "image", i))
                    && !(exists i :: OccursAt(mimeType, "gif", i)))
  {
    Contains(mimeType, "image") && !Contains(mimeType, "gif")
  }

  /** t cannot occur in s when one of its characters appears nowhere in s. */
  lemma NoOccurrence(s: string, t: string, k: int)
    requires 0 <= k < |t| && t[k] !in s
    ensures !exists i :: OccursAt(s, t, i)
  {
    forall i ensures !OccursAt(s, t, i) {
      if 0 <= i && i + |t| <= |s| {
        assert s[i..i + |t|][k] == s[i + k];
      }
    }
  }

  /** PNG and JPEG are static images; GIF and plain text are not. */
  lemma IsStaticImageExamples()
    ensures IsStaticImage("image/png") && IsStaticImage("image/jpeg")
    ensures !IsStaticImage("image/gif") && !IsStaticImage("text/plain")
  {
    assert OccursAt("image/png", "image", 0);
    assert OccursAt("image/jpeg", "image", 0);
    NoOccurrence("image/png", "gif", 2);
    NoOccurrence("image/jpeg", "gif", 2);
    assert OccursAt("image/gif", "gif", 6);
    NoOccurrence("text/plain", "image", 1);
  }

  /** Char.IsWhiteSpace: the Unicode White_Space characters. */
  predicate IsWhiteSpace(c: char) {
    || '\U{0009}' <= c <= '\U{000D}' || c == ' ' || c == '\U{0085}' || c == '\U{00A0}'
    || c == '\U{1680}' || '\U{2000}' <= c <= '\U{200A}' || c == '\U{2028}' || c == '\U{2029}'
    || c == '\U{202F}' || c == '\U{205F}' || c == '\U{3000}'
  }

  /** String.IsNullOrWhiteSpace, with None for a null reference. */
  predicate IsNullOrWhiteSpace(text: Option<string>) {
    text.None? || forall i :: 0 <= i < |text.value| ==> IsWhiteSpace(text.value[i])
  }

  /** String.TrimStart(): drops the leading white space. */
  function TrimStart(s: string): (r: string)
    ensures |r| <= |s|
  {
    if s != [] && IsWhiteSpace(s[0]) then TrimStart(s[1..]) else s
  }

  /** A string is all white space exactly when trimming its start leaves nothing. */
  lemma {:induction false} AllWhiteSpaceIffTrimsToEmpty(s: string)
    ensures (forall i :: 0 <= i < |s| ==> IsWhiteSpace(s[i])) <==> TrimStart(s) == ""
  {
    if s != [] {
      if IsWhiteSpace(s[0]) {
        AllWhiteSpaceIffTrimsToEmpty(s[1..]);
        assert forall i :: 0 < i < |s| ==> s[i] == s[1..][i - 1];
      }
    }
  }

  /**
   * IsNullOrWhiteSpace agrees with its documented equivalent: the text is null, or it is
   * empty once its white space is trimmed.
   */
  lemma NullOrWhiteSpaceIffTrimsToEmpty(text: Option<string>)
    ensures IsNullOrWhiteSpace(text) <==> text.None? || TrimStart(text.value) == ""
  {
    if text.Some? {
      AllWhiteSpaceIffTrimsToEmpty(text.value);
    }
  }

  /** Null, empty and all-blank texts are rejected; a folder name is not. */
  lemma IsNullOrWhiteSpaceExamples()
    ensures IsNullOrWhiteSpace(None) && IsNullOrWhiteSpace(Some("")) && IsNullOrWhiteSpace(Some(" \t "))
    ensures !IsNullOrWhiteSpace(Some("out")) && !IsNullOrWhiteSpace(Some(" 120 "))
  {
    assert !IsWhiteSpace("out"[0]);
    assert !IsWhiteSpace(" 120 "[1]);
  }

  // ---------------------------------------------------------------------------------
  // The item list: Where(IsStaticImage), then OrderBy(LastWriteTime)
  // ---------------------------------------------------------------------------------

  /** The files whose MIME type (looked up from the file name) is a static image, in order. */
  function StaticImages(files: seq<FileInfo>, mimeOf: string -> string): (r: seq<FileInfo>)
    ensures |r| <= |files|
  {
    if files == [] then []
    else
      var rest := StaticImages(files[1..], mimeOf);
      if IsStaticImage(mimeOf(files[0].name)) then [files[0]] + rest else rest
  }

  /** Where keeps every static image as often as the folder lists it, and nothing else. */
  lemma {:induction false} StaticImagesSelects(files: seq<FileInfo>, mimeOf: string -> string)
    ensures var r := StaticImages(files, mimeOf);
      && (forall f :: multiset(r)[f] == if IsStaticImage(mimeOf(f.name)) then multiset(files)[f] else 0)
      && (forall f :: f in r ==> IsStaticImage(mimeOf(f.name)))
  {
    if files != [] {
      StaticImagesSelects(files[1..], mimeOf);
      assert files == [files[0]] + files[1..];
    }
  }

  /** The Where distributes over concatenation, so it keeps the folder's order. */
  lemma {:induction false} StaticImagesAppend(a: seq<FileInfo>, b: seq<FileInfo>, mimeOf: string -> string)
    ensures StaticImages(a + b, mimeOf) == StaticImages(a, mimeOf) + StaticImages(b, mimeOf)
  {
    if a != [] {
      StaticImagesAppend(a[1..], b, mimeOf);
      assert (a + b)[1..] == a[1..] + b;
    } else {
      assert a + b == b;
    }
  }

  predicate SortedByTime(s: seq<FileInfo>) {
    forall i, j :: 0 <= i < j < |s| ==> s[i].lastWriteTime <= s[j].lastWriteTime
  }

  /** The files of s written at time t, in order. */
  function WrittenAt(s: seq<FileInfo>, t: int): seq<FileInfo> {
    if s == [] then []
    else (if s[0].lastWriteTime == t then [s[0]] else []) + WrittenAt(s[1..], t)
  }

  /** Inserts x before the first element written no earlier than x. */
  function InsertByTime(x: FileInfo, s: seq<FileInfo>): (r: seq<FileInfo>)
    ensures |r| == |s| + 1
    ensures r[0] == x || (s != [] && r[0] == s[0])
  {
    if s == [] || x.lastWriteTime <= s[0].lastWriteTime then [x] + s
    else [s[0]] + InsertByTime(x, s[1..])
  }

  /** Inserting adds exactly x to the files. */
  lemma {:induction false} InsertByTimePermutes(x: FileInfo, s: seq<FileInfo>)
    ensures multiset(InsertByTime(x, s)) == multiset(s) + multiset{x}
  {
    if s != [] && x.lastWriteTime > s[0].lastWriteTime {
      InsertByTimePermutes(x, s[1..]);
      assert s == [s[0]] + s[1..];
    }
  }

  /** Inserting into a sorted list keeps it sorted. */
  lemma {:induction false} InsertByTimeSorted(x: FileInfo, s: seq<FileInfo>)
    requires SortedByTime(s)
    ensures SortedByTime(InsertByTime(x, s))
  {
    if s != [] && x.lastWriteTime > s[0].lastWriteTime {
      var rest := InsertByTime(x, s[1..]);
      InsertByTimeSorted(x, s[1..]);
      assert s[0].lastWriteTime <= rest[0].lastWriteTime;
      var r := [s[0]] + rest;
      forall i, j | 0 <= i < j < |r| ensures r[i].lastWriteTime <= r[j].lastWriteTime {
        if i > 0 {
          assert r[i] == rest[i - 1] && r[j] == rest[j - 1];
        } else if j > 1 {
          assert rest[0].lastWriteTime <= rest[j - 1].lastWriteTime;
        }
      }
    }
  }

  /** Enumerable.OrderBy(f => f.LastWriteTime): a stable sort by write time. */
  function SortByTime(s: seq<FileInfo>): (r: seq<FileInfo>)
    ensures |r| == |s|
  {
    if s == [] then [] else InsertByTime(s[0], SortByTime(s[1..]))
  }

  /** The sort's result is ordered by write time. */
  lemma {:induction false} SortByTimeSorted(s: seq<FileInfo>)
    ensures SortedByTime(SortByTime(s))
  {
    if s != [] {
      SortByTimeSorted(s[1..]);
      InsertByTimeSorted(s[0], SortByTime(s[1..]));
    }
  }

  /** The sort's result holds the same files as its input. */
  lemma {:induction false} SortByTimePermutes(s: seq<FileInfo>)
    ensures multiset(SortByTime(s)) == multiset(s)
  {
    if s != [] {
      SortByTimePermutes(s[1..]);
      InsertByTimePermutes(s[0], SortByTime(s[1..]));
      assert s == [s[0]] + s[1..];
    }
  }

  /** Inserting x only adds x to the files written at x's time, in front. */
  lemma {:induction false} InsertByTimeWrittenAt(x: FileInfo, s: seq<FileInfo>, t: int)
    ensures WrittenAt(InsertByTime(x, s), t)
         == (if x.lastWriteTime == t then [x] else []) + WrittenAt(s, t)
  {
    if s == [] || x.lastWriteTime <= s[0].lastWriteTime {
      assert ([x] + s)[1..] == s;
    } else {
      InsertByTimeWrittenAt(x, s[1..], t);
      assert ([s[0]] + InsertByTime(x, s[1..]))[1..] == InsertByTime(x, s[1..]);
      if s[0].lastWriteTime == t {
        assert x.lastWriteTime != t;
      }
    }
  }

  /** The sort is stable: files written at the same time keep their relative order. */
  lemma {:induction false} SortByTimeStable(s: seq<FileInfo>, t: int)
    ensures WrittenAt(SortByTime(s), t) == WrittenAt(s, t)
  {
    if s != [] {
      SortByTimeStable(s[1..], t);
      InsertByTimeWrittenAt(s[0], SortByTime(s[1..]), t);
    }
  }

  /** Filtering and picking out the files written at t commute. */
  lemma {:induction false} StaticImagesWrittenAt(files: seq<FileInfo>, mimeOf: string -> string, t: int)
    ensures WrittenAt(StaticImages(files, mimeOf), t) == StaticImages(WrittenAt(files, t), mimeOf)
  {
    if files != [] {
      StaticImagesWrittenAt(files[1..], mimeOf, t);
      var head := if files[0].lastWriteTime == t then [files[0]] else [];
      StaticImagesAppend(head, WrittenAt(files[1..], t), mimeOf);
      if IsStaticImage(mimeOf(files[0].name)) {
        assert ([files[0]] + StaticImages(files[1..], mimeOf))[1..] == StaticImages(files[1..], mimeOf);
      }
      if head != [] {
        assert head[1..] == [];
      }
    }
  }

  /** The files of a chosen folder that become the item list, in display order. */
  function ListImages(files: seq<FileInfo>, mimeOf: string -> string): (r: seq<FileInfo>)
    ensures |r| <= |files|
  {
    SortByTime(StaticImages(files, mimeOf))
  }

  /**
   * The list holds exactly the static images of the folder (with multiplicity), sorted by
   * write time; the files written at any one time are the folder's static images of that
   * time, in folder order.
   */
  lemma ListImagesSpec(files: seq<FileInfo>, mimeOf: string -> string)
    ensures var r := ListImages(files, mimeOf);
      && SortedByTime(r)
      && (forall f :: multiset(r)[f] == if IsStaticImage(mimeOf(f.name)) then multiset(files)[f] else 0)
      && (forall t :: WrittenAt(r, t) == StaticImages(WrittenAt(files, t), mimeOf))
  {
    var images := StaticImages(files, mimeOf);
    StaticImagesSelects(files, mimeOf);
    SortByTimeSorted(images);
    SortByTimePermutes(images);
    forall t ensures WrittenAt(SortByTime(images), t) == StaticImages(WrittenAt(files, t), mimeOf) {
      SortByTimeStable(images, t);
      StaticImagesWrittenAt(files, mimeOf, t);
    }
  }

  // ---------------------------------------------------------------------------------
  // Path.Combine
  // ---------------------------------------------------------------------------------

  predicate IsSeparator(c: char) {
    c == '\\' || c == '/' || c == ':'
  }

  /** Path.IsPathRooted: a leading separator or a drive letter. */
  predicate IsPathRooted(path: string) {
    (|path| >= 1 && (path[0] == '\\' || path[0] == '/')) || (|path| >= 2 && path[1] == ':')
  }

  /** Path.Combine(dir, name), without the invalid-character check. */
  function Combine(dir: string, name: string): (r: string)
    ensures |r| >= |name| && r[|r| - |name|..] == name
  {
    if |name| == 0 then dir
    else if |dir| == 0 then name
    else if IsPathRooted(name) then name
    else if IsSeparator(dir[|dir| - 1]) then dir + name
    else dir + "\\" + name
  }

  /**
   * Combine ends with the name; joining a relative name onto a folder keeps the folder
   * as a prefix and adds a backslash only when the folder does not already end in a
   * separator.
   */
  lemma CombineJoins(dir: string, name: string)
    ensures var r := Combine(dir, name);
      && (|name| == 0 ==> r == dir)
      && (|name| > 0 && (|dir| == 0 || IsPathRooted(name)) ==> r == name)
      && |r| >= |name| && r[|r| - |name|..] == name
      && (|dir| > 0 && |name| > 0 && !IsPathRooted(name) ==>
            && |r| >= |dir| && r[..|dir|] == dir
            && |r| == |dir| + |name| + (if IsSeparator(dir[|dir| - 1]) then 0 else 1)
            && (!IsSeparator(dir[|dir| - 1]) ==> r[|dir|] == '\\'))
  {
  }

  /** Path.GetFileName: what follows the last separator. */
  function FileName(path: string): (r: string)
    ensures |r| <= |path| && r == path[|path| - |r|..]
  {
    if path == [] || IsSeparator(path[|path| - 1]) then []
    else FileName(path[..|path| - 1]) + [path[|path| - 1]]
  }

  /** A file name after a separator (or after nothing) is recovered by FileName. */
  lemma {:induction false} FileNameAfterSeparator(prefix: string, name: string)
    requires prefix == [] || IsSeparator(prefix[|prefix| - 1])
    requires forall k :: 0 <= k < |name| ==> !IsSeparator(name[k])
    ensures FileName(prefix + name) == name
  {
    if name != [] {
      var init := name[..|name| - 1];
      assert (prefix + name)[..|prefix + name| - 1] == prefix + init;
      FileNameAfterSeparator(prefix, init);
    } else {
      assert prefix + name == prefix;
    }
  }

  /**
   * The thumbnail keeps the source's file name: the file name of Combine(dir, name) is
   * name, for any non-empty name without separators.
   */
  lemma CombineKeepsFileName(dir: string, name: string)
    requires |name| > 0 && forall k :: 0 <= k < |name| ==> !IsSeparator(name[k])
    ensures FileName(Combine(dir, name)) == name
  {
    assert !IsPathRooted(name) by {
      assert !IsSeparator(name[0]);
      if |name| >= 2 { assert !IsSeparator(name[1]); }
    }
    if |dir| == 0 {
      FileNameAfterSeparator([], name);
      assert [] + name == name;
    } else if IsSeparator(dir[|dir| - 1]) {
      FileNameAfterSeparator(dir, name);
    } else {
      FileNameAfterSeparator(dir + "\\", name);
      assert dir + "\\" + name == (dir + "\\") + name;
    }
  }

  // ---------------------------------------------------------------------------------
  // The jobs of a run
  // ---------------------------------------------------------------------------------

  /** One item's task: the item's file, ThumbnailMaxWidth, and the output folder of the run. */
  datatype Job = Job(file: FileInfo, maxWidth: int, outputDir: string) {
    /** The fileName argument of GenerateAndSaveAsync: the file's full name. */
    function Source(): string {
      file.fullName
    }

    /** The saveFileName argument: Path.Combine(outputDir, file.Name). */
    function Target(): string {
      Combine(outputDir, file.name)
    }
  }

  /**
   * Whether GenerateAndSaveAsync returns normally for the job, given the decodable files:
   * the file loads, and the thumbnail's Bitmap gets positive dimensions.
   */
  predicate Succeeds(fs: map<string, Size>, job: Job) {
    && job.Source() in fs && IsImageSize(fs[job.Source()])
    && (fs[job.Source()].width <= job.maxWidth
        || (job.maxWidth > 0 && job.maxWidth * fs[job.Source()].height >= fs[job.Source()].width))
  }

  /** The number of jobs whose GenerateAndSaveAsync throws. */
  function Failures(fs: map<string, Size>, jobs: seq<Job>): (n: nat)
    ensures n <= |jobs|
  {
    if jobs == [] then 0
    else Failures(fs, jobs[..|jobs| - 1]) + (if Succeeds(fs, jobs[|jobs| - 1]) then 0 else 1)
  }

  /** No job fails exactly when every job succeeds. */
  lemma {:induction false} NoFailuresIffAllSucceed(fs: map<string, Size>, jobs: seq<Job>)
    ensures Failures(fs, jobs) == 0 <==> forall i :: 0 <= i < |jobs| ==> Succeeds(fs, jobs[i])
  {
    if jobs != [] {
      var init := jobs[..|jobs| - 1];
      NoFailuresIffAllSucceed(fs, init);
      assert forall i :: 0 <= i < |init| ==> init[i] == jobs[i];
    }
  }

  /** Succeeds is exactly the normal return of the path overload of GenerateAndSaveAsync. */
  lemma SucceedsIffGenerateAndSaveReturns(fs: map<string, Size>, job: Job)
    ensures Succeeds(fs, job) == GenerateAndSaveFile(fs, job.Source(), job.maxWidth, job.Target()).result.Success?
  {
    GenerateAndSaveFileSavesThumbnail(fs, job.Source(), job.maxWidth, job.Target());
  }

  // ---------------------------------------------------------------------------------
  // The window
  // ---------------------------------------------------------------------------------

  /** IsEnabled of btnStart, btnSrcDir, btnDestDir and tbThumbnailMaxWidth. */
  datatype Buttons = Buttons(start: bool, srcDir: bool, destDir: bool, maxWidth: bool)

  /** How btnStart_Click ends: one of the two error boxes, the success box, or an exception. */
  datatype Outcome = DestDirMissing | MaxWidthMissing | Completed | Faulted

  /** Select(f => new ImageItem(f, State.Pending)): one fresh Pending item per file. */
  method NewPendingItems(files: seq<FileInfo>) returns (created: seq<ImageItem>)
    ensures |created| == |files|
    ensures forall k :: 0 <= k < |files| ==>
      fresh(created[k]) && created[k].file == files[k] && created[k].state == Pending
    ensures forall k, l :: 0 <= k < l < |created| ==> created[k] != created[l]
  {
    created := [];
    for i := 0 to |files|
      invariant |created| == i
      invariant forall k :: 0 <= k < i ==>
        fresh(created[k]) && created[k].file == files[k] && created[k].state == Pending
      invariant forall k, l :: 0 <= k < l < i ==> created[k] != created[l]
    {
      var item := new ImageItem(files[i], Pending);
      created := created + [item];
    }
  }

  class MainWindow {
    var counter: ThreadCounter        // Counter, ThreadCounter.Instance
    var threadNum: int                // ThreadNum, a display counter only
    var thumbnailMaxWidth: int        // ThumbnailMaxWidth
    var tasks: seq<Job>               // tasks: one entry per dispatched item
    var items: seq<ImageItem>         // lvImages.Items
    var progressValue: int            // pcbProcess.Value as last assigned outright
    var progressSteps: nat            // `increment`s added to pcbProcess.Value since then
    var buttons: Buttons

    /** The list holds distinct items: each was created by its own `new ImageItem`. */
    ghost predicate Valid()
      reads this
    {
      forall i, j :: 0 <= i < j < |items| ==> items[i] != items[j]
    }

    /**
     * The window as the designer leaves it: Counter is ThreadCounter.Instance, created on
     * first access; the initial IsEnabled values come from the layout.
     */
    constructor (statics: ThreadCounterStatics, buttons: Buttons)
      modifies statics
      ensures Valid()
      ensures counter == statics.instance && this.buttons == buttons
      ensures old(statics.instance) != null ==> counter == old(statics.instance)
      ensures old(statics.instance) == null ==> fresh(counter) && counter.count == 0
      ensures threadNum == 0 && thumbnailMaxWidth == 120 && tasks == [] && items == []
      ensures progressValue == 0 && progressSteps == 0
    {
      var shared := statics.Instance();
      counter := shared;
      this.buttons := buttons;
      threadNum := 0;
      thumbnailMaxWidth := 120;
      tasks := [];
      items := [];
      progressValue := 0;
      progressSteps := 0;
    }

    /**
     * The ThumbnailMaxWidth setter, which the binding of tbThumbnailMaxWidth calls: the
     * width the next run resizes to.
     */
    method SetThumbnailMaxWidth(v: int)
      modifies this
      ensures thumbnailMaxWidth == v
      ensures counter == old(counter) && threadNum == old(threadNum) && tasks == old(tasks)
      ensures items == old(items) && progressValue == old(progressValue)
      ensures progressSteps == old(progressSteps) && buttons == old(buttons)
    {
      thumbnailMaxWidth := v;
    }

    /**
     * btnSrcDir_Click. `listing` is the chosen folder's files, or None when no existing
     * folder was chosen. The new list holds one fresh Pending item per static image,
     * ordered by write time; Start is enabled and the progress bar cleared.
     */
    method SelectSource(listing: Option<seq<FileInfo>>, mimeOf: string -> string)
      modifies this
      ensures listing.None? ==> unchanged(this)
      ensures listing.Some? ==>
        && Valid()
        && |items| == |ListImages(listing.value, mimeOf)|
        && (forall i :: 0 <= i < |items| ==> items[i].file == ListImages(listing.value, mimeOf)[i])
        && (forall i :: 0 <= i < |items| ==> fresh(items[i]) && items[i].state == Pending)
        && (forall i, j :: 0 <= i < j < |items| ==> items[i].file.lastWriteTime <= items[j].file.lastWriteTime)
        && buttons == old(buttons).(start := true)
        && progressValue == 0 && progressSteps == 0
        && counter == old(counter) && threadNum == old(threadNum)
        && thumbnailMaxWidth == old(thumbnailMaxWidth) && tasks == old(tasks)
    {
      if listing.Some? {
        var files := ListImages(listing.value, mimeOf);
        ListImagesSpec(listing.value, mimeOf);
        items := NewPendingItems(files);
        buttons := buttons.(start := true);
        progressValue := 0;
        progressSteps := 0;
      }
    }

    /**
     * The body of one item's task: record the task, count it in ThreadNum, mark the item
     * Processing, generate and save; only when that returns is the item Solved, the
     * progress bar advanced and ThreadNum counted back down.
     */
    method ProcessItem(item: ImageItem, outputDir: string, fs: map<string, Size>) returns (ok: bool)
      modifies this, item
      ensures tasks == old(tasks) + [Job(old(item.file), thumbnailMaxWidth, outputDir)]
      ensures ok == Succeeds(fs, Job(old(item.file), thumbnailMaxWidth, outputDir))
      ensures item.file == old(item.file) && item.state == if ok then Solved else Processing
      ensures threadNum == old(threadNum) + (if ok then 0 else 1)
      ensures progressSteps == old(progressSteps) + (if ok then 1 else 0)
      ensures counter == old(counter) && items == old(items) && thumbnailMaxWidth == old(thumbnailMaxWidth)
      ensures progressValue == old(progressValue) && buttons == old(buttons)
    {
      var job := Job(item.file, thumbnailMaxWidth, outputDir);
      tasks := tasks + [job];
      threadNum := threadNum + 1;
      item.SetState(Processing);
      var run := GenerateAndSaveFile(fs, job.Source(), job.maxWidth, job.Target());
      SucceedsIffGenerateAndSaveReturns(fs, job);
      ok := run.result.Success?;
      if ok {
        item.SetState(Solved);
        progressSteps := progressSteps + 1;
        threadNum := threadNum - 1;
      }
    }

    /**
     * One turn of the foreach of btnStart_Click: item i gets its task, the items before it
     * keep theirs.
     */
    method ProcessNext(i: nat, outputDir: string, fs: map<string, Size>) returns (ok: bool)
      requires Valid() && i < |items| && |tasks| == i
      requires forall k :: 0 <= k < i ==>
        && tasks[k] == Job(items[k].file, thumbnailMaxWidth, outputDir)
        && items[k].state == if Succeeds(fs, tasks[k]) then Solved else Processing
      modifies this, items[i]
      ensures Valid() && items == old(items) && items[i].file == old(items[i].file)
      ensures counter == old(counter) && thumbnailMaxWidth == old(thumbnailMaxWidth)
      ensures progressValue == old(progressValue) && buttons == old(buttons)
      ensures |tasks| == i + 1 && tasks[..i] == old(tasks)
      ensures forall k :: 0 <= k <= i ==>
        && tasks[k] == Job(items[k].file, thumbnailMaxWidth, outputDir)
        && items[k].state == if Succeeds(fs, tasks[k]) then Solved else Processing
      ensures ok == Succeeds(fs, tasks[i])
      ensures threadNum == old(threadNum) + (if ok then 0 else 1)
      ensures progressSteps == old(progressSteps) + (if ok then 1 else 0)
    {
      ok := ProcessItem(items[i], outputDir, fs);
      assert tasks[..i] == old(tasks);
    }

    /**
     * The foreach of btnStart_Click, run one item after another: every item gets its task,
     * whatever happened to the items before it.
     */
    method ProcessAll(outputDir: string, fs: map<string, Size>) returns (faulted: bool)
      requires Valid() && tasks == []
      modifies this, items
      ensures Valid() && items == old(items)
      ensures counter == old(counter) && thumbnailMaxWidth == old(thumbnailMaxWidth)
      ensures progressValue == old(progressValue) && buttons == old(buttons)
      ensures |tasks| == |items|
      ensures forall i :: 0 <= i < |items| ==>
        && items[i].file == old(items[i].file)
        && tasks[i] == Job(items[i].file, thumbnailMaxWidth, outputDir)
        && items[i].state == if Succeeds(fs, tasks[i]) then Solved else Processing
      ensures threadNum == old(threadNum) + Failures(fs, tasks)
      ensures progressSteps == old(progressSteps) + |tasks| - Failures(fs, tasks)
      ensures faulted <==> Failures(fs, tasks) != 0
    {
      faulted := false;
      for i := 0 to |items|
        invariant Valid() && items == old(items)
        invariant counter == old(counter) && thumbnailMaxWidth == old(thumbnailMaxWidth)
        invariant progressValue == old(progressValue) && buttons == old(buttons)
        invariant forall k :: 0 <= k < |items| ==> items[k].file == old(items[k].file)
        invariant |tasks| == i
        invariant forall k :: 0 <= k < i ==>
          && tasks[k] == Job(items[k].file, thumbnailMaxWidth, outputDir)
          && items[k].state == if Succeeds(fs, tasks[k]) then Solved else Processing
        invariant threadNum == old(threadNum) + Failures(fs, tasks)
        invariant progressSteps == old(progressSteps) + i - Failures(fs, tasks)
        invariant faulted <==> Failures(fs, tasks) != 0
      {
        var ok := ProcessNext(i, outputDir, fs);
        faulted := faulted || !ok;
      }
    }

    /** The part of the start button's handler that runs once both text boxes are filled in. */
    method Generate(outputDir: string, fs: map<string, Size>) returns (outcome: Outcome)
      requires Valid()
      modifies this, counter, items
      ensures Valid() && items == old(items) && counter == old(counter)
      ensures forall i :: 0 <= i < |items| ==> items[i].file == old(items[i].file)
      ensures outcome == Completed || outcome == Faulted
      ensures thumbnailMaxWidth == old(thumbnailMaxWidth)
      ensures counter.count == 0
      ensures |tasks| == |items|
      ensures forall i :: 0 <= i < |items| ==>
        && tasks[i] == Job(items[i].file, thumbnailMaxWidth, outputDir)
        && items[i].state == if Succeeds(fs, tasks[i]) then Solved else Processing
      ensures threadNum == old(threadNum) + Failures(fs, tasks)
      ensures outcome == Completed <==> Failures(fs, tasks) == 0
      ensures outcome == Completed ==>
        && (forall i :: 0 <= i < |items| ==> items[i].state == Solved)
        && threadNum == old(threadNum)
        && progressValue == 100 && progressSteps == 0 && buttons == Buttons(false, true, true, true)
      ensures outcome == Faulted ==>
        && progressValue == old(progressValue)
        && progressSteps == old(progressSteps) + |tasks| - Failures(fs, tasks)
        && buttons == Buttons(false, false, false, false)
    {
      counter.Reset();
      tasks := [];
      buttons := Buttons(false, false, false, false);
      var faulted := ProcessAll(outputDir, fs);
      if faulted {
        return Faulted;
      }
      NoFailuresIffAllSucceed(fs, tasks);
      progressValue := 100;
      progressSteps := 0;
      buttons := Buttons(false, true, true, true);
      outcome := Completed;
    }

    /**
     * btnStart_Click. `destDirText` and `maxWidthText` are the two text boxes (None for
     * null); `fs` gives the size of every file Image.FromFile can decode. Both text boxes
     * are checked before anything runs.
     */
    method Start(destDirText: Option<string>, maxWidthText: Option<string>, fs: map<string, Size>)
      returns (outcome: Outcome)
      requires Valid()
      modifies this, counter, items
      ensures Valid() && items == old(items) && counter == old(counter)
      ensures outcome == DestDirMissing <==> IsNullOrWhiteSpace(destDirText)
      ensures outcome == MaxWidthMissing <==>
        !IsNullOrWhiteSpace(destDirText) && IsNullOrWhiteSpace(maxWidthText)
      ensures outcome == DestDirMissing || outcome == MaxWidthMissing ==>
        && unchanged(this) && unchanged(counter)
        && forall i :: 0 <= i < |items| ==> unchanged(items[i])
      ensures outcome == Completed || outcome == Faulted ==>
        && destDirText.Some?
        && thumbnailMaxWidth == old(thumbnailMaxWidth)
        && counter.count == 0
        && |tasks| == |items|
        && (forall i :: 0 <= i < |items| ==>
              && items[i].file == old(items[i].file)
              && tasks[i] == Job(items[i].file, thumbnailMaxWidth, destDirText.value)
              && items[i].state == if Succeeds(fs, tasks[i]) then Solved else Processing)
        && threadNum == old(threadNum) + Failures(fs, tasks)
        && (outcome == Completed <==> Failures(fs, tasks) == 0)
      ensures outcome == Completed ==>
        && (forall i :: 0 <= i < |items| ==> items[i].state == Solved)
        && threadNum == old(threadNum)
        && progressValue == 100 && progressSteps == 0 && buttons == Buttons(false, true, true, true)
      ensures outcome == Faulted ==>
        && progressValue == old(progressValue)
        && progressSteps == old(progressSteps) + |tasks| - Failures(fs, tasks)
        && buttons == Buttons(false, false, false, false)
    {
      if IsNullOrWhiteSpace(destDirText) {
        return DestDirMissing;
      }
      if IsNullOrWhiteSpace(maxWidthText) {
        return MaxWidthMissing;
      }
      outcome := Generate(destDirText.value, fs);
    }
  }
}
