/**
  Photo admission at attach time: the per-file media-type and size rule,
  the batch filter that keeps the admitted files in order, and the update
  of the `photos` entry of the error map.
 */
module Photos {
  import opened ReportTypes
  import opened Seqs
  import Validation

  /** The media types the form accepts. */
  const AllowedTypes: seq<string> := ["image/jpeg", "image/png", "image/webp"]

  /** The largest accepted file, in bytes: 5 MiB. */
  const MaxPhotoBytes: nat := 5 * 1024 * 1024

  const WrongType := "Only JPG, PNG, and WEBP files are allowed."
  const TooLarge := "File size cannot exceed 5MB."

  /** The decision on one candidate file. */
  datatype Admission = Admitted | Rejected(reason: string)

  /**
    Decides one file: the media type is checked before the size, so a file of
    the wrong type is reported as such whatever its size.
   */
  function Admit(f: File): (a: Admission)
    ensures a == Admitted <==> f.mediaType in AllowedTypes && f.size <= MaxPhotoBytes
    ensures f.mediaType !in AllowedTypes ==> a == Rejected(WrongType)
    ensures f.mediaType in AllowedTypes && f.size > MaxPhotoBytes ==> a == Rejected(TooLarge)
  {
    if f.mediaType !in AllowedTypes then Rejected(WrongType)
    else if f.size > MaxPhotoBytes then Rejected(TooLarge)
    else Admitted
  }

  /** A GIF is refused for its type whatever its size, a 1 KB JPEG is taken, and 5 MiB (5242880 bytes) is the largest size admitted. */
  lemma AdmissionExamples()
    ensures Admit(File("image/gif", 1024)) == Rejected(WrongType)
    ensures Admit(File("image/gif", 10 * 1024 * 1024)) == Rejected(WrongType)
    ensures Admit(File("image/jpeg", 1024)) == Admitted
    ensures Admit(File("image/png", 5242880)) == Admitted
    ensures Admit(File("image/png", 5242881)) == Rejected(TooLarge)
  {
    assert "image/gif" != AllowedTypes[0] && "image/gif" != AllowedTypes[1] && "image/gif" != AllowedTypes[2];
  }

  /** Every message the page can show ends with a period: both refusal reasons and the eight validation messages. */
  lemma ErrorMessagesEndWithPeriod(f: File)
    ensures Admit(f).Rejected? ==> Validation.EndsWithPeriod(Admit(f).reason)
    ensures forall k :: Validation.EndsWithPeriod(Validation.Message(k))
  {
    forall k ensures Validation.EndsWithPeriod(Validation.Message(k)) {
      Validation.MessagesEndWithPeriod(k);
    }
  }

    predicate AllAdmitted(files: seq<File>) {
    forall i :: 0 <= i < |files| ==> Admit(files[i]) == Admitted
  }

  /** The files of a batch that pass admission, in the order they were picked. */
  function Accepted(files: seq<File>): (r: seq<File>)
    ensures IsSubsequence(r, files)
    ensures forall x :: x in r <==> x in files && Admit(x) == Admitted
    ensures forall x :: multiset(r)[x] == if Admit(x) == Admitted then multiset(files)[x] else 0
    ensures |r| == |files| <==> AllAdmitted(files)
  {
    var r := Filter(files, f => Admit(f) == Admitted);
    assert AllAdmitted(files) ==> r == files by {
      if AllAdmitted(files) {
        FilterKeepsAll(files, f => Admit(f) == Admitted);
      }
    }
    assert |r| == |files| ==> AllAdmitted(files) by {
      if |r| == |files| {
        SubsequenceLength(r, files);
        forall i | 0 <= i < |files| ensures Admit(files[i]) == Admitted {
          assert files[i] in r;
        }
      }
    }
    r
  }

  /** Position `i` holds the last file of the batch that was refused. */
  ghost predicate LastRejected(files: seq<File>, i: int) {
    0 <= i < |files| && Admit(files[i]).Rejected? && AllAdmitted(files[i + 1..])
  }

  /** A batch that is not wholly admitted has a last refused file. */
  lemma {:induction false} LastRejectedExists(files: seq<File>)
    requires !AllAdmitted(files)
    ensures exists i :: LastRejected(files, i)
    decreases |files|
  {
    var n := |files| - 1;
    if Admit(files[n]).Rejected? {
      assert LastRejected(files, n);
    } else {
      var init := files[..n];
      assert !AllAdmitted(init) by {
        var j :| 0 <= j < |files| && Admit(files[j]) != Admitted;
        assert j < n && init[j] == files[j];
      }
      LastRejectedExists(init);
      var i :| LastRejected(init, i);
      assert files[i + 1..] == init[i + 1..] + [files[n]];
      assert LastRejected(files, i);
    }
  }

  /**
    The filter's side effect on the message: walking the batch from first to
    last, each refused file overwrites the message with its reason.
   */
  function RejectionScan(files: seq<File>, prior: Option<string>): (m: Option<string>)
    ensures AllAdmitted(files) ==> m == prior
    ensures forall i :: LastRejected(files, i) ==> m == Some(Admit(files[i]).reason)
    decreases |files|
  {
    if files == [] then prior
    else
      var next := match Admit(files[0]) case Admitted => prior case Rejected(why) => Some(why);
      var m := RejectionScan(files[1..], next);
      assert forall i :: LastRejected(files, i) && i > 0 ==> LastRejected(files[1..], i - 1) by {
        forall i | LastRejected(files, i) && i > 0 ensures LastRejected(files[1..], i - 1) {
          assert files[1..][i - 1 + 1..] == files[i + 1..];
        }
      }
      assert LastRejected(files, 0) ==> AllAdmitted(files[1..]);
      assert AllAdmitted(files) ==> AllAdmitted(files[1..]);
      m
  }

  /** The message the batch leaves behind: the reason of its last refused file, or none if every file was taken. */
  function LastRejection(files: seq<File>): (m: Option<string>)
    ensures m == None <==> AllAdmitted(files)
    ensures forall i :: LastRejected(files, i) ==> m == Some(Admit(files[i]).reason)
  {
    var m := RejectionScan(files, None);
    assert !AllAdmitted(files) ==> exists i :: LastRejected(files, i) by {
      if !AllAdmitted(files) {
        LastRejectedExists(files);
      }
    }
    m
  }

  /** Setting a key adds one to the key count exactly when the key was absent. */
  lemma UpdateSize(m: Errors, k: Field, v: string)
    ensures |m[k := v]| == if k in m then |m| else |m| + 1
  {
    if k in m {
      assert m[k := v].Keys == m.Keys;
    } else {
      assert m[k := v].Keys == m.Keys + {k};
    }
  }

  /**
    The error map after an attach, as the form computes it: the batch's
    message goes into a copy of the old map, and the copy is kept only when it
    has more keys than the old map; otherwise its `photos` entry is deleted.
    So the message survives only when there was no `photos` entry before, and
    an existing entry is dropped even when a file was refused.
   */
  function AttachErrorsAsWritten(errors: Errors, files: seq<File>): (r: Errors)
    ensures Photos in r <==> LastRejection(files).Some? && Photos !in errors
    ensures Photos in r ==> r[Photos] == LastRejection(files).value
    ensures forall k :: k != Photos ==> (k in r <==> k in errors)
    ensures forall k :: k != Photos && k in errors ==> r[k] == errors[k]
  {
    var copy := match LastRejection(files) case None => errors case Some(why) => errors[Photos := why];
    assert LastRejection(files).Some? ==> |copy| == if Photos in errors then |errors| else |errors| + 1 by {
      if LastRejection(files).Some? {
        UpdateSize(errors, Photos, LastRejection(files).value);
      }
    }
    if |copy| > |errors| then copy else copy - {Photos}
  }

  /**
    The error map after an attach as the message rule means it: the `photos`
    entry holds the reason of the last refused file when the batch refused
    one, and is absent when every file was taken; other entries stay.
   */
  function AttachErrors(errors: Errors, files: seq<File>): (r: Errors)
    ensures Photos in r <==> !AllAdmitted(files)
    ensures forall i :: LastRejected(files, i) ==> Photos in r && r[Photos] == Admit(files[i]).reason
    ensures forall k :: k != Photos ==> (k in r <==> k in errors)
    ensures forall k :: k != Photos && k in errors ==> r[k] == errors[k]
  {
    match LastRejection(files)
    case None => errors - {Photos}
    case Some(why) => errors[Photos := why]
  }

  /** The two updates agree whenever the old map had no `photos` entry. */
  lemma AttachErrorsAgreeWithoutPhotosEntry(errors: Errors, files: seq<File>)
    requires Photos !in errors
    ensures AttachErrorsAsWritten(errors, files) == AttachErrors(errors, files)
  {
    var a := AttachErrorsAsWritten(errors, files);
    var b := AttachErrors(errors, files);
    assert a.Keys == b.Keys;
  }

  /**
    After a failed submission has set "At least one photo is required.",
    attaching a GIF leaves the form with no photo and, as written, no message
    either; the intended update reports the wrong type.
   */
  lemma AttachErrorsAsWrittenDropsRejection()
    ensures var errors := map[Photos := Validation.PhotoRequired];
            var files := [File("image/gif", 1024)];
            && Accepted(files) == []
            && Photos !in AttachErrorsAsWritten(errors, files)
            && AttachErrors(errors, files)[Photos] == WrongType
  {
    var files := [File("image/gif", 1024)];
    AdmissionExamples();
    assert LastRejected(files, 0);
  }
}
