/**
  The report page as a state machine: the draft, the error map, the photo
  previews and the submission status, with the edit, attach, remove, submit
  and resolve steps. Each handler runs as one atomic step.
 */
module ReportSession {
  import opened ReportTypes
  import opened Seqs
  import opened Validation
  import opened Photos

  /** A preview handle for an attached photo; only its identity matters. */
  datatype Preview = Preview(serial: nat)

  datatype Status = Idle | Submitting | Success | Error

  /**
    The page's state. `nextPreview` stands in for the browser's supply of
    fresh object URLs: every preview made so far has a smaller serial.
   */
  datatype Session = Session(
    form: ReportForm,
    errors: Errors,
    previews: seq<Preview>,
    status: Status,
    nextPreview: nat)

  const InitialSession := Session(InitialForm, map[], [], Idle, 0)

  /** One preview per photo, no preview shown twice, and every preview already handed out. */
  predicate Wf(s: Session) {
    && |s.form.photos| == |s.previews|
    && Distinct(s.previews)
    && Issued(s.previews, s.nextPreview)
  }

  lemma InitialSessionWf()
    ensures Wf(InitialSession)
  {
  }

  /** Every handle in `ps` was handed out before `next`. */
  predicate Issued(ps: seq<Preview>, next: nat) {
    forall i :: 0 <= i < |ps| ==> ps[i].serial < next
  }

  /** `n` new preview handles, one per admitted file, all fresh. */
  function NewPreviews(next: nat, n: nat): (ps: seq<Preview>)
    ensures |ps| == n && Distinct(ps)
    ensures forall i :: 0 <= i < n ==> next <= ps[i].serial < next + n
  {
    seq(n, i requires 0 <= i < n => Preview(next + i))
  }

  /** Appending handles made after every existing one keeps the list duplicate-free. */
  lemma AppendNewPreviews(ps: seq<Preview>, next: nat, n: nat)
    requires Distinct(ps) && Issued(ps, next)
    ensures Distinct(ps + NewPreviews(next, n)) && Issued(ps + NewPreviews(next, n), next + n)
  {
    var added := NewPreviews(next, n);
    var all := ps + added;
    forall i, j | 0 <= i < j < |all| ensures all[i] != all[j] {
      if i >= |ps| {
        assert all[i] == added[i - |ps|] && all[j] == added[j - |ps|];
      } else if j >= |ps| {
        assert all[j] == added[j - |ps|];
      }
    }
  }

  /**
    Handling the file picker's change event. Without a file list nothing
    happens. Otherwise the admitted files are appended to the photos, one
    fresh preview per admitted file is appended to the previews, and the
    `photos` error entry is set from the batch by the corrected update
    `AttachErrors`: the page's own key-count comparison (`AttachErrorsAsWritten`)
    loses a refusal when a `photos` entry already exists.
   */
  function Attach(s: Session, picked: Option<seq<File>>): (r: Session)
    ensures picked == None ==> r == s
    ensures picked.Some? ==> r.form == s.form.(photos := s.form.photos + Accepted(picked.value))
    ensures picked.Some? ==>
      && |r.previews| == |s.previews| + |Accepted(picked.value)|
      && r.previews[..|s.previews|] == s.previews
    ensures picked.Some? ==> r.errors == AttachErrors(s.errors, picked.value) && r.status == s.status
    ensures Wf(s) ==> Wf(r)
  {
    match picked
    case None => s
    case Some(files) =>
      var ok := Accepted(files);
      var handles := NewPreviews(s.nextPreview, |ok|);
      assert Wf(s) ==> Distinct(s.previews + handles) && Issued(s.previews + handles, s.nextPreview + |ok|) by {
        if Wf(s) {
          AppendNewPreviews(s.previews, s.nextPreview, |ok|);
        }
      }
      s.(form := s.form.(photos := s.form.photos + ok),
         errors := AttachErrors(s.errors, files),
         previews := s.previews + handles,
         nextPreview := s.nextPreview + |ok|)
  }

  /**
    Attaching a single 1 KB JPEG adds exactly one photo and one preview and
    leaves no `photos` error behind.
   */
  lemma AttachOneJpeg(s: Session)
    ensures var r := Attach(s, Some([File("image/jpeg", 1024)]));
      && |r.form.photos| == |s.form.photos| + 1
      && |r.previews| == |s.previews| + 1
      && Photos !in r.errors
  {
    var files := [File("image/jpeg", 1024)];
    AdmissionExamples();
    assert AllAdmitted(files);
  }

  /** What removing a photo produces: the new state and the preview handle given back to the browser, if any. */
  datatype Removal = Removal(session: Session, revoked: Option<Preview>)

  /**
    `removeImage(index)`: the photo and the preview at `index` are dropped,
    the rest keep their order, and the preview that was at `index` is
    revoked. An index outside either list leaves that list as it was.
   */
  function RemoveImage(s: Session, index: int): (r: Removal)
    ensures 0 <= index < |s.form.photos| ==>
      r.session.form.photos == s.form.photos[..index] + s.form.photos[index + 1..]
    ensures !(0 <= index < |s.form.photos|) ==> r.session.form.photos == s.form.photos
    ensures 0 <= index < |s.previews| ==>
      r.session.previews == s.previews[..index] + s.previews[index + 1..] && r.revoked == Some(s.previews[index])
    ensures !(0 <= index < |s.previews|) ==> r.session.previews == s.previews && r.revoked == None
    ensures r.session == s.(form := s.form.(photos := r.session.form.photos), previews := r.session.previews)
    ensures Wf(s) ==> Wf(r.session)
    ensures Wf(s) && r.revoked.Some? ==>
      && r.revoked.value !in r.session.previews
      && forall p :: p in s.previews && p != r.revoked.value ==> p in r.session.previews
  {
    var photos := WithoutIndex(s.form.photos, index);
    var previews := WithoutIndex(s.previews, index);
    var revoked := if 0 <= index < |s.previews| then Some(s.previews[index]) else None;
    assert Wf(s) && revoked.Some? ==>
      (Distinct(previews) && forall p :: p in previews <==> p in s.previews && p != revoked.value) by {
      if Wf(s) && revoked.Some? {
        DeleteDistinct(s.previews, index);
      }
    }
    Removal(s.(form := s.form.(photos := photos), previews := previews), revoked)
  }

  /**
    Submitting the form. While a submission is in flight the submit control is
    disabled and nothing happens. Otherwise validation runs and its error map
    replaces the old one; a draft that passes moves the status to submitting,
    one that fails leaves the status as it was.
   */
  function Submit(s: Session): (r: Session)
    ensures s.status == Submitting ==> r == s
    ensures s.status != Submitting ==>
      && (forall k :: k in r.errors <==> FieldFails(s.form, k))
      && (forall k :: k in r.errors ==> r.errors[k] == Message(k))
      && (r.status == Submitting <==> Passes(s.form))
      && (!Passes(s.form) ==> r.status == s.status)
      && r.form == s.form && r.previews == s.previews && r.nextPreview == s.nextPreview
    ensures Wf(s) ==> Wf(r)
  {
    if s.status == Submitting then s
    else
      var v := ValidateForm(s.form);
      if v.ok then s.(errors := v.errors, status := Submitting)
      else s.(errors := v.errors)
  }

  /**
    The end of an in-flight submission, with the collaborator's verdict
    `delivered`. Delivery resets the draft to the empty form and drops every
    preview; failure keeps the draft so it can be sent again.
   */
  function Resolve(s: Session, delivered: bool): (r: Session)
    requires s.status == Submitting
    ensures delivered ==> r.status == Success && r.form == InitialForm && r.previews == []
    ensures !delivered ==> r.status == Error && r.form == s.form && r.previews == s.previews
    ensures r.errors == s.errors && r.nextPreview == s.nextPreview
    ensures Wf(s) ==> Wf(r)
  {
    if delivered then s.(status := Success, form := InitialForm, previews := [])
    else s.(status := Error)
  }

  /**
    One full submission attempt from a state with nothing in flight: a draft
    that fails validation changes neither status nor draft; one that passes
    goes through submitting to exactly one of success or error, and the draft
    is back to the empty form, with no previews left, exactly when it was
    delivered.
   */
  lemma {:induction false} SubmitOutcome(s: Session, delivered: bool)
    requires Wf(s) && s.status != Submitting
    ensures !Passes(s.form) ==> Submit(s).status == s.status && Submit(s).form == s.form
    ensures Passes(s.form) ==>
      && Submit(s).status == Submitting
      && var r := Resolve(Submit(s), delivered);
         && (r.status == Success <==> delivered)
         && (r.status == Error <==> !delivered)
         && (r.form == InitialForm <==> delivered)
         && (r.previews == [] <==> delivered)
  {
    if Passes(s.form) {
      assert !FieldFails(s.form, Photos);
      assert s.form.photos != [];
    }
  }

  /**
    Success is not followed by idle: right after a delivery the draft is
    empty, so the next submit fails validation and the status stays success.
   */
  lemma SuccessIsSticky(s: Session)
    requires s.status == Success && s.form == InitialForm
    ensures Submit(s).status == Success
    ensures forall k :: k in Submit(s).errors
  {
    forall k ensures k in Submit(s).errors {
      InitialFormFailsEveryField(k);
    }
  }

  /**
    `handleInputChange`: the text inputs and the category select write their
    values into the draft. One step may stand for several single-field
    changes. The photos are never written this way, the errors shown stay as
    they were, and nothing outside the draft changes.
   */
  function Edit(s: Session, draft: ReportForm): (r: Session)
    ensures r.form.photos == s.form.photos
    ensures && r.form.category == draft.category && r.form.address == draft.address
            && r.form.pincode == draft.pincode && r.form.district == draft.district
            && r.form.state == draft.state && r.form.reporterName == draft.reporterName
            && r.form.description == draft.description
    ensures r.errors == s.errors && r.previews == s.previews
    ensures r.status == s.status && r.nextPreview == s.nextPreview
    ensures Wf(s) ==> Wf(r)
  {
    s.(form := draft.(photos := s.form.photos))
  }

  /** A user action, or the completion of the submission in flight. */
  datatype Event =
    | EditFields(draft: ReportForm)
    | PickFiles(picked: Option<seq<File>>)
    | RemovePhoto(index: int)
    | SubmitForm
    | Complete(delivered: bool)

  /** The effect of one event; a completion only exists while a submission is in flight. */
  function Step(s: Session, e: Event): Session {
    match e
    case EditFields(draft) => Edit(s, draft)
    case PickFiles(picked) => Attach(s, picked)
    case RemovePhoto(index) => RemoveImage(s, index).session
    case SubmitForm => Submit(s)
    case Complete(delivered) => if s.status == Submitting then Resolve(s, delivered) else s
  }

  /**
    Typing while a submission is in flight: a delivery resets the draft to the
    empty form and so discards the edits, a failure keeps them, and the
    photos are those of the draft that was submitted.
   */
  lemma EditsDuringSubmission(s: Session, draft: ReportForm)
    requires s.status == Submitting
    ensures Step(Step(s, EditFields(draft)), Complete(true)).form == InitialForm
    ensures var r := Step(Step(s, EditFields(draft)), Complete(false));
      && r.status == Error
      && r.form == draft.(photos := s.form.photos)
  {
  }

  /** The state after a sequence of events. */
  function Run(s: Session, events: seq<Event>): Session
    decreases |events|
  {
    if events == [] then s else Run(Step(s, events[0]), events[1..])
  }

  /**
    Every state the page can reach keeps one preview per photo with no preview
    shared, and once the status has left idle it never comes back.
   */
  lemma {:induction false} RunPreservesWf(s: Session, events: seq<Event>)
    requires Wf(s)
    ensures Wf(Run(s, events))
    ensures s.status != Idle ==> Run(s, events).status != Idle
    decreases |events|
  {
    if events != [] {
      RunPreservesWf(Step(s, events[0]), events[1..]);
    }
  }
}
