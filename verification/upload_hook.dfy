/** The upload hook: the list of files staged for upload, the checks a
    dropped or picked batch goes through, and the state an upload moves
    through. Toasts become returned notices; the upload itself is the
    service model driven by one transport outcome per staged file. */
module UploadHook {
  import opened Options
  import opened Seqs
  import opened Text
  import opened FileUpload
  import N = Notifications

  datatype State = State(
    files: seq<FileRec>,
    uploading: bool,
    progress: Option<UploadProgress>,
    results: seq<UploadResult>,
    errors: seq<string>)

  /** The hook's options that the staging checks read. */
  datatype HookOptions = HookOptions(maxFiles: Option<int>, acceptedTypes: Option<seq<string>>)

  /** A toast the hook raises. */
  datatype Notice = Notice(kind: N.Kind, title: string, message: string)

  const Initial := State([], false, None, [], [])

  /** `options.maxFiles || 10`: absent or zero means 10. */
  function MaxFiles(opts: HookOptions): (m: int)
    ensures opts.maxFiles.None? ==> m == 10
    ensures opts.maxFiles.Some? ==> m == (if opts.maxFiles.value == 0 then 10 else opts.maxFiles.value)
  {
    if opts.maxFiles.Some? && opts.maxFiles.value != 0 then opts.maxFiles.value else 10
  }

  function IntToString(i: int): string {
    if i < 0 then "-" + NatToString(-i) else NatToString(i)
  }

  // ----- staging -----

  /** A staged file with the same name and size. */
  predicate IsDuplicate(staged: seq<FileRec>, f: FileRec) {
    exists i | 0 <= i < |staged| :: staged[i].name == f.name && staged[i].size == f.size
  }

  /** Why a candidate is turned away, checked in this order: already
      staged, not among the accepted types (when a list is given, even
      an empty one), then not a valid size. */
  function Rejection(staged: seq<FileRec>, f: FileRec, opts: HookOptions): (n: Option<Notice>)
    ensures n.None? <==>
      && !IsDuplicate(staged, f)
      && (opts.acceptedTypes.Some? ==> f.mime in opts.acceptedTypes.value)
      && IsValidFileSize(f)
    ensures IsDuplicate(staged, f) ==> n == Some(Notice(N.Warning, "Duplicate File", f.name + " is already selected"))
  {
    if IsDuplicate(staged, f) then
      Some(Notice(N.Warning, "Duplicate File", f.name + " is already selected"))
    else if opts.acceptedTypes.Some? && f.mime !in opts.acceptedTypes.value then
      Some(Notice(N.Error, "Invalid File Type", f.name + " is not an accepted file type"))
    else if !IsValidFileSize(f) then
      Some(Notice(N.Error, "File Too Large", f.name + " exceeds the maximum file size limit"))
    else None
  }

  predicate Accepted(staged: seq<FileRec>, f: FileRec, opts: HookOptions) {
    Rejection(staged, f, opts).None?
  }

  function AcceptedBy(staged: seq<FileRec>, opts: HookOptions): FileRec -> bool {
    f => Accepted(staged, f, opts)
  }

  /** The candidates that pass, in input order, with one notice per
      candidate turned away, in input order too. Candidates are compared
      with the files already staged, never with each other. */
  function Screen(staged: seq<FileRec>, batch: seq<FileRec>, opts: HookOptions): (r: (seq<FileRec>, seq<Notice>))
    ensures |r.0| + |r.1| == |batch|
    ensures forall f :: f in r.0 <==> f in batch && Accepted(staged, f, opts)
    ensures r.0 == Filter(batch, AcceptedBy(staged, opts))
    ensures NoticesFor(staged, Reject(batch, AcceptedBy(staged, opts)), r.1, opts)
  {
    if batch == [] then ([], [])
    else
      var f, tail := batch[0], batch[1..];
      var p := AcceptedBy(staged, opts);
      var rest := Screen(staged, tail, opts);
      assert Filter(batch, p) == (if p(f) then [f] else []) + Filter(tail, p);
      assert Reject(batch, p) == (if p(f) then [] else [f]) + Reject(tail, p);
      match Rejection(staged, f, opts)
      case None => ([f] + rest.0, rest.1)
      case Some(n) =>
        NoticesForCons(staged, f, Reject(tail, p), n, rest.1, opts);
        (rest.0, [n] + rest.1)
  }

  /** `notices` are the notices of the `rejected` candidates, one each,
      in the same order. */
  predicate NoticesFor(staged: seq<FileRec>, rejected: seq<FileRec>, notices: seq<Notice>, opts: HookOptions) {
    && |notices| == |rejected|
    && forall i | 0 <= i < |notices| :: Some(notices[i]) == Rejection(staged, rejected[i], opts)
  }

  /** The rejected candidates determine their notices. */
  lemma NoticesForUnique(staged: seq<FileRec>, rejected: seq<FileRec>, n1: seq<Notice>, n2: seq<Notice>, opts: HookOptions)
    requires NoticesFor(staged, rejected, n1, opts) && NoticesFor(staged, rejected, n2, opts)
    ensures n1 == n2
  {
    assert forall i | 0 <= i < |n1| :: Some(n1[i]) == Some(n2[i]);
  }

  lemma NoticesForConcat(staged: seq<FileRec>, r1: seq<FileRec>, r2: seq<FileRec>,
                         n1: seq<Notice>, n2: seq<Notice>, opts: HookOptions)
    requires NoticesFor(staged, r1, n1, opts) && NoticesFor(staged, r2, n2, opts)
    ensures NoticesFor(staged, r1 + r2, n1 + n2, opts)
  {
    forall i | 0 <= i < |n1| + |n2|
      ensures Some((n1 + n2)[i]) == Rejection(staged, (r1 + r2)[i], opts)
    {
      if i >= |n1| {
        assert (n1 + n2)[i] == n2[i - |n1|] && (r1 + r2)[i] == r2[i - |n1|];
      }
    }
  }

  lemma NoticesForCons(staged: seq<FileRec>, f: FileRec, rejected: seq<FileRec>, n: Notice,
                       notices: seq<Notice>, opts: HookOptions)
    requires NoticesFor(staged, rejected, notices, opts) && Some(n) == Rejection(staged, f, opts)
    ensures NoticesFor(staged, [f] + rejected, [n] + notices, opts)
  {
    forall i | 0 <= i < |notices| + 1
      ensures Some(([n] + notices)[i]) == Rejection(staged, ([f] + rejected)[i], opts)
    {
      if i > 0 {
        assert ([n] + notices)[i] == notices[i - 1];
        assert ([f] + rejected)[i] == rejected[i - 1];
      }
    }
  }

  /** Screening a concatenation screens each part: the kept files keep
      their input order. */
  lemma ScreenConcat(staged: seq<FileRec>, a: seq<FileRec>, b: seq<FileRec>, opts: HookOptions)
    ensures Screen(staged, a + b, opts).0 == Screen(staged, a, opts).0 + Screen(staged, b, opts).0
    ensures Screen(staged, a + b, opts).1 == Screen(staged, a, opts).1 + Screen(staged, b, opts).1
  {
    var p := AcceptedBy(staged, opts);
    FilterConcat(a, b, p);
    RejectConcat(a, b, p);
    NoticesForConcat(staged, Reject(a, p), Reject(b, p), Screen(staged, a, opts).1, Screen(staged, b, opts).1, opts);
    NoticesForUnique(staged, Reject(a + b, p), Screen(staged, a + b, opts).1,
      Screen(staged, a, opts).1 + Screen(staged, b, opts).1, opts);
  }

  /** `addFiles`. When the staged files and the whole batch together
      exceed the limit, the batch is refused as a whole and nothing
      changes; otherwise the accepted candidates are appended behind the
      staged files. */
  function AddFiles(s: State, batch: seq<FileRec>, opts: HookOptions): (r: (State, seq<Notice>))
    ensures |s.files| + |batch| > MaxFiles(opts) ==>
      r.0 == s && r.1 == [Notice(N.Warning, "Too Many Files",
        "You can only upload up to " + IntToString(MaxFiles(opts)) + " files at once")]
    ensures |s.files| + |batch| <= MaxFiles(opts) ==>
      && r.0 == s.(files := r.0.files)
      && |s.files| <= |r.0.files| && r.0.files[..|s.files|] == s.files
      && (forall f :: f in r.0.files[|s.files|..] <==> f in batch && Accepted(s.files, f, opts))
      && |r.0.files| - |s.files| + |r.1| == |batch|
    ensures |s.files| + |batch| <= MaxFiles(opts) ==>
      r.0.files == s.files + Screen(s.files, batch, opts).0 && r.1 == Screen(s.files, batch, opts).1
    ensures |s.files| + |batch| <= MaxFiles(opts) ==>
      r.0.files == s.files + Filter(batch, AcceptedBy(s.files, opts))
  {
    var limit := MaxFiles(opts);
    if |s.files| + |batch| > limit then
      (s, [Notice(N.Warning, "Too Many Files", "You can only upload up to " + IntToString(limit) + " files at once")])
    else
      var screened := Screen(s.files, batch, opts);
      var files := s.files + screened.0;
      assert files[|s.files|..] == screened.0;
      (s.(files := files), screened.1)
  }

  /** The limit is never crossed: within the limit before, within it after. */
  lemma AddFilesKeepsLimit(s: State, batch: seq<FileRec>, opts: HookOptions)
    requires |s.files| <= MaxFiles(opts)
    ensures |AddFiles(s, batch, opts).0.files| <= MaxFiles(opts)
  {
  }

  /** Two copies of one file dropped in the same batch are both staged. */
  lemma SameBatchDuplicatesBothStaged()
    ensures
      var f := FileRec("a.pdf", 1, "application/pdf", 0);
      AddFiles(Initial, [f, f], HookOptions(None, None)).0.files == [f, f]
  {
    var f := FileRec("a.pdf", 1, "application/pdf", 0);
    var opts := HookOptions(None, None);
    assert !IsDuplicate([], f);
    assert Accepted([], f, opts);
    assert Screen([], [f], opts).0 == [f];
    assert [f, f][1..] == [f];
  }

  /** A file already staged (same name and size) is never staged again. */
  lemma StagedFileNotAddedTwice(s: State, f: FileRec, opts: HookOptions)
    requires f in s.files
    ensures AddFiles(s, [f], opts).0.files == s.files
  {
    var i :| 0 <= i < |s.files| && s.files[i] == f;
    assert IsDuplicate(s.files, f);
    var r := AddFiles(s, [f], opts).0;
    if |s.files| + 1 <= MaxFiles(opts) {
      assert Screen(s.files, [f], opts).0 == [];
      assert r.files == s.files + [];
    }
  }

  /** `removeFile`: drops the file at `index`; any other index, negative
      or past the end, changes nothing. */
  function RemoveFile(s: State, index: int): (r: State)
    ensures r == s.(files := r.files)
    ensures !(0 <= index < |s.files|) ==> r.files == s.files
    ensures 0 <= index < |s.files| ==>
      && |r.files| == |s.files| - 1
      && (forall j | 0 <= j < index :: r.files[j] == s.files[j])
      && (forall j | index <= j < |r.files| :: r.files[j] == s.files[j + 1])
  {
    if 0 <= index < |s.files| then s.(files := s.files[..index] + s.files[index + 1..]) else s
  }

  /** Removing a file takes out exactly that one copy. */
  lemma RemoveFileMultiset(s: State, index: int)
    requires 0 <= index < |s.files|
    ensures multiset(RemoveFile(s, index).files) + multiset{s.files[index]} == multiset(s.files)
  {
    assert s.files == s.files[..index] + [s.files[index]] + s.files[index + 1..];
  }

  // ----- uploading -----

  /** The state `uploadFiles` sets before sending anything. */
  function BeginUpload(s: State): (r: State)
    ensures r.files == s.files && r.uploading
    ensures r.progress == Some(UploadProgress(0, 0, 0))
    ensures r.results == [] && r.errors == []
  {
    s.(uploading := true, progress := Some(UploadProgress(0, 0, 0)), results := [], errors := [])
  }

  function Plural(n: nat): string {
    if n > 1 then "s" else ""
  }

  /** `uploadFiles`, run to completion. With nothing staged it only
      warns and returns nothing (`None`). A single staged file goes
      through the single-file upload, several through the batch upload.
      On success the results replace the old ones and the call returns
      them (the success callback gets the first); on failure the error is
      appended to the (just cleared) errors and the call throws it again
      (after the error callback). Either way uploading ends and progress
      is cleared. */
  function UploadFiles(s: State, outcomes: seq<Outcome>): (r: (State, seq<Notice>, Option<Attempts>))
    requires |outcomes| == |s.files|
    ensures s.files == [] ==>
      r == (s, [Notice(N.Warning, "No Files", "Please select files to upload")], None)
    ensures s.files != [] ==>
      && r.0.files == s.files && !r.0.uploading && r.0.progress.None?
      && r.2.Some?
      && (r.2.value.Returned? <==> r.0.errors == [])
    ensures r.2.Some? && r.2.value.Returned? ==>
      var rs := r.2.value.results;
      && rs != [] && r.0.results == rs
      && r.1 == [Notice(N.Success, "Upload Successful",
                  "Successfully uploaded " + NatToString(|rs|) + " file" + Plural(|rs|))]
    ensures r.2.Some? && r.2.value.Threw? ==>
      && r.0.errors == [r.2.value.message] && r.0.results == []
      && r.1 == [Notice(N.Error, "Upload Failed", r.2.value.message)]
    ensures |s.files| == 1 ==>
      match UploadFile(s.files[0], outcomes[0])
      case Uploaded(res) => r.2 == Some(Returned([res]))
      case Failed(m) => r.2 == Some(Threw(m))
    ensures |s.files| > 1 ==>
      && (r.0.errors != [] <==> BatchOutcome(s.files, outcomes).AllFailed?)
      && match BatchOutcome(s.files, outcomes)
         case AllFailed(m) => r.2 == Some(Threw(m))
         case Completed(rs, _) => r.2 == Some(Returned(rs))
  {
    if s.files == [] then
      (s, [Notice(N.Warning, "No Files", "Please select files to upload")], None)
    else
      var b := BeginUpload(s);
      var call := UploadCall(s.files, outcomes);
      match call
      case Returned(rs) =>
        (b.(uploading := false, progress := None, results := rs),
         [Notice(N.Success, "Upload Successful",
            "Successfully uploaded " + NatToString(|rs|) + " file" + Plural(|rs|))],
         Some(call))
      case Threw(m) =>
        (b.(uploading := false, progress := None, errors := b.errors + [m]),
         [Notice(N.Error, "Upload Failed", m)],
         Some(call))
  }

  /** Whatever the number of files, an upload ends in an error exactly
      when every staged file failed; otherwise the results are those of
      the files that were stored, in staging order. */
  lemma UploadFailsIffEveryFileFails(s: State, outcomes: seq<Outcome>)
    requires |outcomes| == |s.files| && s.files != []
    ensures UploadFiles(s, outcomes).0.errors != [] <==>
      forall i | 0 <= i < |s.files| :: UploadFile(s.files[i], outcomes[i]).Failed?
    ensures UploadFiles(s, outcomes).0.errors == [] ==>
      UploadFiles(s, outcomes).0.results == Successes(s.files, outcomes)
  {
    if |s.files| == 1 {
      var f, o := s.files[0], outcomes[0];
      assert s.files[..0] == [] && outcomes[..0] == [];
      assert Successes(s.files, outcomes) == Successes([], []) + (if UploadFile(f, o).Uploaded? then [UploadFile(f, o).result] else []);
    }
  }

  /** The awaited upload: the single-file call for one file, the batch
      call for several. A call that returns has at least one result. */
  function UploadCall(files: seq<FileRec>, outcomes: seq<Outcome>): (a: Attempts)
    requires |outcomes| == |files| && files != []
    ensures a.Returned? ==> a.results != []
  {
    if |files| == 1 then
      match UploadFile(files[0], outcomes[0])
      case Uploaded(res) => Returned([res])
      case Failed(m) => Threw(m)
    else
      match BatchOutcome(files, outcomes)
      case Completed(rs, _) => Returned(rs)
      case AllFailed(m) => Threw(m)
  }

  /** How the awaited upload call ended. */
  datatype Attempts = Returned(results: seq<UploadResult>) | Threw(message: string)

  /** `resetState`: back to the state the hook starts in. */
  function ResetState(s: State): (r: State)
    ensures r.files == [] && !r.uploading && r.progress.None?
    ensures r.results == [] && r.errors == []
  {
    Initial
  }

  /** Resetting forgets everything: the state after a reset does not
      depend on the state before it, and is the start state. */
  lemma ResetForgets(s: State, t: State)
    ensures ResetState(s) == ResetState(t) == Initial
  {
  }
}
