/** The upload service: the size and type checks a file must pass, the
    progress percentage reported while a file is sent, and the sequential,
    best-effort upload of a batch. The HTTP transport is replaced by one
    abstract outcome per file, supplied by the caller in upload order. */
module FileUpload {
  import opened Options
  import opened Seqs
  import opened Numbers
  import opened Text

  /** 10 MiB. */
  const MaxFileSize: nat := 10 * 1024 * 1024

  const AllowedFileTypes: seq<string> :=
    ["application/pdf", "image/jpeg", "image/png", "image/webp", "text/plain", "application/json"]

  /** The parts of a browser `File` the checks look at. */
  datatype FileRec = FileRec(name: string, size: nat, mime: string, lastModified: int)

  // ----- validation -----

  datatype ValidationError = TooLarge | UnsupportedType(mime: string) | EmptyFile

  /** `validateFile`: the size ceiling is checked first, then the type,
      then emptiness, and the first failing check is the one reported. */
  function ValidateFile(f: FileRec): (e: Option<ValidationError>)
    ensures e == Some(TooLarge) <==> f.size > MaxFileSize
    ensures e == Some(UnsupportedType(f.mime)) <==> f.size <= MaxFileSize && f.mime !in AllowedFileTypes
    ensures e == Some(EmptyFile) <==> f.size == 0 && f.mime in AllowedFileTypes
    ensures e.None? <==> 0 < f.size <= MaxFileSize && f.mime in AllowedFileTypes
  {
    if f.size > MaxFileSize then Some(TooLarge)
    else if f.mime !in AllowedFileTypes then Some(UnsupportedType(f.mime))
    else if f.size == 0 then Some(EmptyFile)
    else None
  }

  /** The text of the error `validateFile` throws. Each starts "File ",
      and an unsupported type's message names the type. */
  function ValidationMessage(e: ValidationError): (m: string)
    ensures |m| > 5 && m[..5] == "File "
    ensures e.UnsupportedType? ==> |m| >= 10 + |e.mime| && m[..10] == "File type " && m[10..10 + |e.mime|] == e.mime
  {
    match e
    case TooLarge => "File size must be less than 10 MB"
    case UnsupportedType(t) =>
      var head, tail := "File type " + t, " is not supported. Allowed types: " + Join(AllowedFileTypes, ", ");
      assert (head + tail)[..|head|] == head;
      assert head[..10] == "File type " && head[10..] == t;
      head + tail
    case EmptyFile => "File is empty"
  }

  /** `isValidFileType`: the check behind `validateFile`'s type error,
      which is the error reported whenever the size is under the ceiling. */
  function IsValidFileType(f: FileRec): (b: bool)
    ensures f.size <= MaxFileSize ==> (b <==> ValidateFile(f) != Some(UnsupportedType(f.mime)))
    ensures !b ==> ValidateFile(f).Some?
  {
    f.mime in AllowedFileTypes
  }

  /** `isValidFileSize`: non-empty and at most 10 MiB, so a file of an
      accepted type passes `validateFile` exactly when its size is valid. */
  function IsValidFileSize(f: FileRec): (b: bool)
    ensures f.mime in AllowedFileTypes ==> (b <==> ValidateFile(f).None?)
    ensures !b <==> ValidateFile(f) == Some(TooLarge) || f.size == 0
  {
    f.size <= MaxFileSize && f.size > 0
  }

  /** Different validation errors never read the same. */
  lemma ValidationMessageInjective(a: ValidationError, b: ValidationError)
    ensures ValidationMessage(a) == ValidationMessage(b) ==> a == b
  {
    var ma, mb := ValidationMessage(a), ValidationMessage(b);
    if ma == mb {
      MessageKindLetter(a);
      MessageKindLetter(b);
      if a.UnsupportedType? && b.UnsupportedType? {
        var tail := " is not supported. Allowed types: " + Join(AllowedFileTypes, ", ");
        assert |ma| == 10 + |a.mime| + |tail|;
        assert |mb| == 10 + |b.mime| + |tail|;
        assert a.mime == ma[10..10 + |a.mime|];
      }
    }
  }

  /** The sixth letter of a message tells the kinds apart. */
  lemma MessageKindLetter(e: ValidationError)
    ensures ValidationMessage(e)[5] == match e case TooLarge => 's' case UnsupportedType(_) => 't' case EmptyFile => 'i'
  {
  }

  datatype FileInfo = FileInfo(name: string, size: nat, mime: string, lastModified: int, isValid: bool)

  /** `getFileInfo`: the file's attributes and whether it would pass. */
  function GetFileInfo(f: FileRec): (info: FileInfo)
    ensures info.name == f.name && info.size == f.size && info.mime == f.mime
    ensures info.lastModified == f.lastModified
    ensures info.isValid <==> IsValidFileType(f) && IsValidFileSize(f)
  {
    FileInfo(f.name, f.size, f.mime, f.lastModified, IsValidFileType(f) && IsValidFileSize(f))
  }

  /** The two predicates, and so `getFileInfo`, agree exactly with what
      `validateFile` accepts. */
  lemma FileInfoAgreesWithValidation(f: FileRec)
    ensures GetFileInfo(f).isValid <==> ValidateFile(f).None?
    ensures IsValidFileSize(f) <==> ValidateFile(f) != Some(TooLarge) && !(f.size == 0)
  {
  }

  // ----- progress -----

  datatype UploadProgress = UploadProgress(loaded: nat, total: nat, percentage: nat)

  /** The report made for a transport progress event: none when the
      total is unknown (zero), else the whole-number percentage sent. */
  function FileProgress(loaded: nat, total: nat): (p: Option<UploadProgress>)
    ensures p.Some? <==> total > 0
    ensures p.Some? ==> p.value.loaded == loaded && p.value.total == total
    ensures p.Some? && loaded <= total ==> p.value.percentage <= 100
    ensures p.Some? && loaded == total ==> p.value.percentage == 100
    ensures p.Some? && loaded == 0 ==> p.value.percentage == 0
    ensures p.Some? ==> p.value.percentage == Percent(loaded, total)
  {
    if total == 0 then None else Some(UploadProgress(loaded, total, Percent(loaded, total)))
  }

  /** The report made while file `i` of `n` is at `p.percentage`: the
      overall percentage `round(100 * i / n + p.percentage / n)`. */
  function AggregateProgress(i: nat, n: nat, p: UploadProgress): (r: UploadProgress)
    requires i < n
    ensures r.loaded == p.loaded && r.total == p.total
    ensures p.percentage <= 100 ==> r.percentage <= 100
    ensures i == n - 1 && p.percentage == 100 ==> r.percentage == 100
    ensures i == 0 && p.percentage == 0 ==> r.percentage == 0
    ensures 2 * n * r.percentage <= 2 * (100 * i + p.percentage) + n < 2 * n * (r.percentage + 1)
  {
    AggregateFacts(i, n, p.percentage);
    var a := 100 * i + p.percentage;
    var r := RoundDiv(a, n);
    assert 2 * n * r <= 2 * a + n < 2 * n * (r + 1);
    UploadProgress(p.loaded, p.total, r)
  }

  lemma AggregateFacts(i: nat, n: nat, pct: nat)
    requires i < n
    ensures pct <= 100 ==> RoundDiv(100 * i + pct, n) <= 100
    ensures i == n - 1 && pct == 100 ==> RoundDiv(100 * i + pct, n) == 100
    ensures i == 0 && pct == 0 ==> RoundDiv(100 * i + pct, n) == 0
  {
    if i == 0 && pct == 0 {
      RoundDivExact(0, n);
    }
    if pct <= 100 {
      RoundDivBound(100 * i + pct, n, 100);
    }
    if i == n - 1 && pct == 100 {
      RoundDivExact(100, n);
    }
  }

  /** The overall percentage never goes back: a later file, or the same
      file further along, reports at least as much. */
  lemma AggregateProgressMonotone(i: nat, p: UploadProgress, j: nat, q: UploadProgress, n: nat)
    requires i < n && j < n
    requires p.percentage <= 100 && q.percentage <= 100
    requires i < j || (i == j && p.percentage <= q.percentage)
    ensures AggregateProgress(i, n, p).percentage <= AggregateProgress(j, n, q).percentage
  {
    RoundDivMonotone(100 * i + p.percentage, 100 * j + q.percentage, n);
  }

  // ----- transport and batches -----

  /** What the server did with one upload request. */
  datatype Outcome =
    | Stored(result: UploadResult)
    | Rejected(serverMessage: Option<string>)

  datatype UploadResult = UploadResult(
    id: string, filename: string, url: string, size: nat, mimeType: string, uploadedAt: string)

  /** The end of `uploadFile`: its result, or the message of the error
      it throws. */
  datatype Attempt = Uploaded(result: UploadResult) | Failed(message: string)

  /** `uploadFile`: a file failing validation is never sent; otherwise
      the server's outcome decides, a failure carrying the server's
      message or a generic one. */
  function UploadFile(f: FileRec, o: Outcome): (a: Attempt)
    ensures a.Uploaded? <==> ValidateFile(f).None? && o.Stored?
    ensures a.Uploaded? ==> a.result == o.result
    ensures ValidateFile(f).Some? ==> a == Failed(ValidationMessage(ValidateFile(f).value))
    ensures ValidateFile(f).None? && o.Rejected? ==>
      a.Failed? && a.message == (if o.serverMessage.Some? && o.serverMessage.value != "" then o.serverMessage.value
                                 else "File upload failed")
  {
    match ValidateFile(f)
    case Some(e) => Failed(ValidationMessage(e))
    case None =>
      match o
      case Stored(result) => Uploaded(result)
      case Rejected(m) => Failed(if m.Some? && m.value != "" then m.value else "File upload failed")
  }

  /** The results of the successful uploads among the first |files|
      attempts, in input order. */
  function Successes(files: seq<FileRec>, outcomes: seq<Outcome>): seq<UploadResult>
    requires |outcomes| == |files|
    decreases |files|
  {
    if files == [] then []
    else
      var n := |files| - 1;
      var a := UploadFile(files[n], outcomes[n]);
      Successes(files[..n], outcomes[..n]) + (if a.Uploaded? then [a.result] else [])
  }

  /** The error messages of the failed uploads, in input order. */
  function Failures(files: seq<FileRec>, outcomes: seq<Outcome>): seq<string>
    requires |outcomes| == |files|
    decreases |files|
  {
    if files == [] then []
    else
      var n := |files| - 1;
      var a := UploadFile(files[n], outcomes[n]);
      Failures(files[..n], outcomes[..n]) + (if a.Failed? then [a.message] else [])
  }

  /** Every file is either a success or a failure, never both or neither. */
  lemma {:induction false} SuccessesPlusFailures(files: seq<FileRec>, outcomes: seq<Outcome>)
    requires |outcomes| == |files|
    ensures |Successes(files, outcomes)| + |Failures(files, outcomes)| == |files|
    decreases |files|
  {
    if files != [] {
      var n := |files| - 1;
      SuccessesPlusFailures(files[..n], outcomes[..n]);
    }
  }

  /** No file succeeded exactly when every file failed. */
  lemma NoSuccesses(files: seq<FileRec>, outcomes: seq<Outcome>)
    requires |outcomes| == |files|
    ensures Successes(files, outcomes) == [] <==> forall i | 0 <= i < |files| :: UploadFile(files[i], outcomes[i]).Failed?
  {
    if Successes(files, outcomes) == [] {
      NoSuccessesAllFailed(files, outcomes);
    }
    if forall i | 0 <= i < |files| :: UploadFile(files[i], outcomes[i]).Failed? {
      AllFailedNoSuccesses(files, outcomes);
    }
  }

  lemma {:induction false} NoSuccessesAllFailed(files: seq<FileRec>, outcomes: seq<Outcome>)
    requires |outcomes| == |files|
    requires Successes(files, outcomes) == []
    ensures forall i | 0 <= i < |files| :: UploadFile(files[i], outcomes[i]).Failed?
    decreases |files|
  {
    if files != [] {
      var n := |files| - 1;
      var fs, os := files[..n], outcomes[..n];
      SuccessesLast(files, outcomes);
      assert |Successes(fs, os)| == 0 && !UploadFile(files[n], outcomes[n]).Uploaded?;
      NoSuccessesAllFailed(fs, os);
      forall i | 0 <= i < |files| ensures UploadFile(files[i], outcomes[i]).Failed? {
        if i < n {
          assert fs[i] == files[i] && os[i] == outcomes[i];
          assert UploadFile(fs[i], os[i]).Failed?;
        }
      }
    }
  }

  lemma {:induction false} AllFailedNoSuccesses(files: seq<FileRec>, outcomes: seq<Outcome>)
    requires |outcomes| == |files|
    requires forall i | 0 <= i < |files| :: UploadFile(files[i], outcomes[i]).Failed?
    ensures Successes(files, outcomes) == []
    decreases |files|
  {
    if files != [] {
      var n := |files| - 1;
      var fs, os := files[..n], outcomes[..n];
      forall i | 0 <= i < n ensures UploadFile(fs[i], os[i]).Failed? {
        assert fs[i] == files[i] && os[i] == outcomes[i];
      }
      AllFailedNoSuccesses(fs, os);
      SuccessesLast(files, outcomes);
    }
  }

  /** The last file adds one result exactly when its upload succeeds. */
  lemma SuccessesLast(files: seq<FileRec>, outcomes: seq<Outcome>)
    requires |outcomes| == |files| && files != []
    ensures var n := |files| - 1;
      |Successes(files, outcomes)| == |Successes(files[..n], outcomes[..n])|
        + (if UploadFile(files[n], outcomes[n]).Uploaded? then 1 else 0)
  {
  }

  /** One failure does not stop the batch: a file that passes validation
      and is stored contributes its result wherever it sits. */
  lemma {:induction false} SuccessesOfConcat(f1: seq<FileRec>, o1: seq<Outcome>, f2: seq<FileRec>, o2: seq<Outcome>)
    requires |o1| == |f1| && |o2| == |f2|
    ensures Successes(f1 + f2, o1 + o2) == Successes(f1, o1) + Successes(f2, o2)
    decreases |f2|
  {
    if f2 != [] {
      var n := |f2| - 1;
      var F, O := f1 + f2, o1 + o2;
      var m := |F| - 1;
      assert F[m] == f2[n] && O[m] == o2[n];
      assert F[..m] == f1 + f2[..n];
      assert O[..m] == o1 + o2[..n];
      SuccessesOfConcat(f1, o1, f2[..n], o2[..n]);
      var a := UploadFile(f2[n], o2[n]);
      var tail := if a.Uploaded? then [a.result] else [];
      calc {
        Successes(F, O);
        Successes(f1 + f2[..n], o1 + o2[..n]) + tail;
        Successes(f1, o1) + Successes(f2[..n], o2[..n]) + tail;
        Successes(f1, o1) + Successes(f2, o2);
      }
    } else {
      assert f1 + f2 == f1 && o1 + o2 == o1;
    }
  }

  /** How a batch upload ends: the error it throws, or the results it
      returns together with the number of failures it logged. */
  datatype BatchResult =
    | AllFailed(message: string)
    | Completed(results: seq<UploadResult>, failed: nat)

  /** The end of a batch upload, stated from the per-file attempts: it
      fails as a whole exactly when there was a file and every one
      failed, and otherwise reports the successes and the failure count. */
  function BatchOutcome(files: seq<FileRec>, outcomes: seq<Outcome>): (r: BatchResult)
    requires |outcomes| == |files|
    ensures r.AllFailed? <==> files != [] && forall i | 0 <= i < |files| :: UploadFile(files[i], outcomes[i]).Failed?
    ensures r.AllFailed? ==> r.message == "All uploads failed: " + Join(Failures(files, outcomes), ", ")
    ensures r.Completed? ==> r.results == Successes(files, outcomes) && r.failed == |Failures(files, outcomes)|
    ensures r.Completed? && files != [] ==> r.results != []
  {
    SuccessesPlusFailures(files, outcomes);
    NoSuccesses(files, outcomes);
    var ok, failed := Successes(files, outcomes), Failures(files, outcomes);
    if |failed| > 0 && |ok| == 0 then AllFailed("All uploads failed: " + Join(failed, ", "))
    else Completed(ok, |failed|)
  }

  /** `uploadMultipleFiles`: every file is attempted once, in order, and
      a failure does not stop the rest. The call throws only when some
      upload failed and none succeeded; otherwise it returns the
      successful results in input order. */
  method UploadMultipleFiles(files: seq<FileRec>, outcomes: seq<Outcome>) returns (r: BatchResult)
    requires |outcomes| == |files|
    ensures r.AllFailed? <==> |Failures(files, outcomes)| > 0 && |Successes(files, outcomes)| == 0
    ensures r.AllFailed? ==> r.message == "All uploads failed: " + Join(Failures(files, outcomes), ", ")
    ensures r.Completed? ==> r.results == Successes(files, outcomes)
    ensures r.Completed? ==> r.failed == |Failures(files, outcomes)|
    ensures files == [] ==> r == Completed([], 0)
    ensures r == BatchOutcome(files, outcomes)
  {
    var results: seq<UploadResult> := [];
    var errors: seq<string> := [];
    var i := 0;
    while i < |files|
      invariant 0 <= i <= |files|
      invariant results == Successes(files[..i], outcomes[..i])
      invariant errors == Failures(files[..i], outcomes[..i])
    {
      var a := UploadFile(files[i], outcomes[i]);
      assert files[..i + 1][..i] == files[..i];
      assert outcomes[..i + 1][..i] == outcomes[..i];
      match a {
        case Uploaded(res) => results := results + [res];
        case Failed(m) => errors := errors + [m];
      }
      i := i + 1;
    }
    assert files[..i] == files && outcomes[..i] == outcomes;
    if |errors| > 0 && |results| == 0 {
      r := AllFailed("All uploads failed: " + Join(errors, ", "));
    } else {
      r := Completed(results, |errors|);
    }
  }

  /** When every file is valid and stored, the batch returns every
      result, in order, with no failures. */
  lemma {:induction false} AllStoredAllReturned(files: seq<FileRec>, outcomes: seq<Outcome>)
    requires |outcomes| == |files|
    requires forall i | 0 <= i < |files| :: ValidateFile(files[i]).None? && outcomes[i].Stored?
    ensures |Successes(files, outcomes)| == |files|
    ensures forall i | 0 <= i < |files| :: Successes(files, outcomes)[i] == outcomes[i].result
    ensures Failures(files, outcomes) == []
    decreases |files|
  {
    if files != [] {
      var n := |files| - 1;
      AllStoredAllReturned(files[..n], outcomes[..n]);
    }
  }
}
