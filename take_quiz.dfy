/** The inline exam controller of the quiz page
    (src/pages/attempt/TakeQuizPage.tsx): the same answer, mark, navigation and
    submission logic as the session hook, without a stored snapshot and without
    proctoring, with a confirmation dialog and a timer-driven auto-submit.

    Events are modelled as in the session hook: answer writes are issued into
    `inFlight` and settled by `OnAnswerWriteSettled`, mutations are logged in
    `starts` and `submits`, and the debounce timer is the slot `pendingSave`.

    The auto-submit callback is memoised on the attempt and on the submit
    mutation's pending flag only, so the submit routine it calls sees the
    question index and answers of the render in which it was last rebuilt.
    That view is the field `autoSubmitView`, refreshed exactly when the attempt
    or the pending flag changes. */
module TakeQuiz {
  import opened Wrappers
  import opened SessionRules

  const StartErrorMessage := "Failed to start exam session. Please try again."
  const SubmitErrorMessage := "Failed to submit exam. Please try again."
  const QuizLoadErrorMessage := "Failed to load quiz metadata."

  /** The question index and answers a submit routine reads. */
  datatype SubmitView = SubmitView(index: int, answers: map<string, string>)

  class Page {
    const questions: seq<string>

    var attempt: Option<Attempt>
    var started: bool
    var index: int
    var answers: map<string, string>
    var marked: set<string>
    var showSubmitModal: bool
    var error: Option<string>

    var lastSaved: map<string, string>
    var pendingSave: Option<PendingSave>
    var writes: seq<AnswerWrite>
    var inFlight: seq<AnswerWrite>

    var starts: MutationLog
    var submits: MutationLog
    var submissions: seq<string>

    /** What the memoised auto-submit callback sees. */
    var autoSubmitView: SubmitView

    ghost predicate Valid()
      reads this
    {
      && (started ==> attempt.Some?)
      && (attempt.None? ==> writes == [] && inFlight == [] && (pendingSave.Some? ==> pendingSave.value.attemptId.None?))
      && (forall w :: w in inFlight ==> w in writes)
      && |submissions| == |submits.settled|
    }

    /** The view of the current render. */
    function LiveView(): SubmitView
      reads this
    {
      SubmitView(index, answers)
    }

    /** The error page's message, shown when loading failed or an error is set. */
    function ShownError(quizLoadFailed: bool): (shown: Option<string>)
      reads this
      ensures shown.Some? <==> error.Some? || quizLoadFailed
      ensures error.Some? ==> shown == error
    {
      if error.Some? then error else if quizLoadFailed then Some(QuizLoadErrorMessage) else None
    }

    constructor (questions: seq<string>)
      ensures Valid()
      ensures this.questions == questions
      ensures attempt.None? && !started && index == 0 && answers == map[] && marked == {}
      ensures !showSubmitModal && error.None?
      ensures lastSaved == map[] && pendingSave.None? && writes == [] && inFlight == []
      ensures starts == MutationLog([]) && submits == MutationLog([]) && submissions == []
      ensures autoSubmitView == SubmitView(0, map[])
    {
      this.questions := questions;
      attempt := None;
      started := false;
      index := 0;
      answers := map[];
      marked := {};
      showSubmitModal := false;
      error := None;
      lastSaved := map[];
      pendingSave := None;
      writes := [];
      inFlight := [];
      starts := MutationLog([]);
      submits := MutationLog([]);
      submissions := [];
      autoSubmitView := SubmitView(0, map[]);
    }

    /** The start button: issue the start call. */
    method StartExam()
      requires Valid()
      modifies this`starts
      ensures Valid()
      ensures starts == old(starts).Issue()
    {
      starts := starts.Issue();
    }

    /** The start call succeeded: the page runs on the new attempt. The
        attempt changed, so the auto-submit callback is rebuilt. */
    method OnStartSuccess(k: nat, newAttempt: Attempt)
      requires Valid() && starts.CanSettle(k)
      modifies this`starts, this`attempt, this`started, this`autoSubmitView
      ensures Valid()
      ensures starts == old(starts).Settle(k)
      ensures attempt == Some(newAttempt) && started
      ensures autoSubmitView == LiveView()
    {
      starts := starts.Settle(k);
      attempt := Some(newAttempt);
      started := true;
      autoSubmitView := LiveView();
    }

    /** The start call failed: the error is set and the page stays unstarted. */
    method OnStartError(k: nat)
      requires Valid() && starts.CanSettle(k)
      modifies this`starts, this`error
      ensures Valid()
      ensures starts == old(starts).Settle(k)
      ensures error == Some(StartErrorMessage)
    {
      starts := starts.Settle(k);
      error := Some(StartErrorMessage);
    }

    /** `saveAnswerToServer`: skipped without an attempt or when the value is
        the last acknowledged one; otherwise one write is issued. */
    method SaveAnswerToServer(attemptId: Option<string>, q: string, answer: string)
      modifies this`writes, this`inFlight
      ensures writes == old(writes) + AutosaveWrites(attemptId, lastSaved, q, answer)
      ensures inFlight == old(inFlight) + AutosaveWrites(attemptId, lastSaved, q, answer)
    {
      if attemptId.None? {
        return;
      }
      if q in lastSaved && lastSaved[q] == answer {
        return;
      }
      var w := AnswerWrite(attemptId.value, q, answer, Autosave);
      writes := writes + [w];
      inFlight := inFlight + [w];
    }

    /** `handleAnswerSelect`: record the answer and replace the scheduled save. */
    method SelectAnswer(q: string, answer: string)
      requires Valid()
      modifies this`answers, this`pendingSave
      ensures Valid()
      ensures answers == old(answers)[q := answer]
      ensures forall other :: other != q ==> (other in answers <==> other in old(answers))
      ensures forall other :: other != q && other in answers ==> answers[other] == old(answers)[other]
      ensures pendingSave == Some(PendingSave(q, answer, AttemptId(attempt)))
    {
      answers := answers[q := answer];
      pendingSave := Some(PendingSave(q, answer, AttemptId(attempt)));
    }

    /** The debounce timer fires. */
    method FireSaveTimer()
      requires Valid() && pendingSave.Some?
      modifies this`pendingSave, this`writes, this`inFlight
      ensures Valid()
      ensures pendingSave.None?
      ensures var p := old(pendingSave).value;
              writes == old(writes) + AutosaveWrites(p.attemptId, lastSaved, p.questionId, p.answer)
              && inFlight == old(inFlight) + AutosaveWrites(p.attemptId, lastSaved, p.questionId, p.answer)
    {
      var p := pendingSave.value;
      pendingSave := None;
      SaveAnswerToServer(p.attemptId, p.questionId, p.answer);
    }

    /** The server answers the in-flight write `k`: an acknowledged autosave is
        recorded, a failed one is dropped silently; a pre-submit write, either
        way, continues with the submission. */
    method OnAnswerWriteSettled(k: nat, succeeded: bool)
      requires Valid() && k < |inFlight|
      modifies this`inFlight, this`lastSaved, this`submissions, this`submits, this`autoSubmitView
      ensures Valid()
      ensures inFlight == RemoveAt(old(inFlight), k)
      ensures var w := old(inFlight)[k];
              && lastSaved == (if w.purpose == Autosave && succeeded then old(lastSaved)[w.questionId := w.answer] else old(lastSaved))
              && submissions == old(submissions) + (if w.purpose == PreSubmit then [attempt.value.id] else [])
              && submits == (if w.purpose == PreSubmit then old(submits).Issue() else old(submits))
              && autoSubmitView == (if w.purpose == PreSubmit && !old(submits).IsPending() then LiveView() else old(autoSubmitView))
    {
      var w := inFlight[k];
      inFlight := RemoveAt(inFlight, k);
      if w.purpose == Autosave {
        if succeeded {
          lastSaved := lastSaved[w.questionId := w.answer];
        }
      } else {
        RequestSubmission();
      }
    }

    /** `submitExamMutation.mutate()`: when the pending flag turns on, the
        auto-submit callback is rebuilt on the current view. */
    method RequestSubmission()
      requires Valid() && attempt.Some?
      modifies this`submissions, this`submits, this`autoSubmitView
      ensures Valid()
      ensures submissions == old(submissions) + [attempt.value.id]
      ensures submits == old(submits).Issue()
      ensures autoSubmitView == if old(submits).IsPending() then old(autoSubmitView) else LiveView()
    {
      var wasPending := submits.IsPending();
      submissions := submissions + [attempt.value.id];
      submits := submits.Issue();
      if !wasPending {
        autoSubmitView := LiveView();
      }
    }

    /** `handleToggleMark`. */
    method ToggleMark(q: string)
      requires Valid()
      modifies this`marked
      ensures Valid()
      ensures marked == SessionRules.ToggleMark(old(marked), q)
    {
      marked := SessionRules.ToggleMark(marked, q);
    }

    /** `handleQuestionNavigation`: send the outgoing unsaved answer, then move. */
    method Navigate(newIndex: int)
      requires Valid()
      modifies this`index, this`writes, this`inFlight
      ensures Valid()
      ensures index == newIndex
      ensures var t := FlushTarget(questions, old(index), answers, lastSaved);
              var issued := if t.Some? then AutosaveWrites(AttemptId(attempt), lastSaved, t.value.0, t.value.1) else [];
              writes == old(writes) + issued && inFlight == old(inFlight) + issued
    {
      var t := FlushTarget(questions, index, answers, lastSaved);
      if t.Some? {
        SaveAnswerToServer(AttemptId(attempt), t.value.0, t.value.1);
      }
      index := newIndex;
    }

    /** `handlePrevious`. */
    method Previous()
      requires Valid()
      modifies this`index, this`writes, this`inFlight
      ensures Valid()
      ensures index == PrevIndex(old(index))
      ensures 0 <= old(index) < |questions| ==> 0 <= index < |questions|
      ensures var t := FlushTarget(questions, old(index), answers, lastSaved);
              var issued := if t.Some? then AutosaveWrites(AttemptId(attempt), lastSaved, t.value.0, t.value.1) else [];
              writes == old(writes) + issued && inFlight == old(inFlight) + issued
    {
      Navigate(PrevIndex(index));
    }

    /** `handleNext`. */
    method Next()
      requires Valid()
      modifies this`index, this`writes, this`inFlight
      ensures Valid()
      ensures index == NextIndex(old(index), |questions|)
      ensures 0 <= old(index) < |questions| ==> 0 <= index < |questions|
      ensures var t := FlushTarget(questions, old(index), answers, lastSaved);
              var issued := if t.Some? then AutosaveWrites(AttemptId(attempt), lastSaved, t.value.0, t.value.1) else [];
              writes == old(writes) + issued && inFlight == old(inFlight) + issued
    {
      Navigate(NextIndex(index, |questions|));
    }

    /** The header's submit button and the last question's finish button open
        the confirmation dialog; cancel closes it. */
    method SetSubmitModal(open: bool)
      modifies this`showSubmitModal
      ensures showSubmitModal == open
    {
      showSubmitModal := open;
    }

    /** `handleSubmitAttempt` as seen through `view`: nothing without an
        attempt; otherwise the view's current question, when its answer is not
        the acknowledged one, is written first and the submission follows that
        write whatever its outcome; with nothing to flush it is requested at once. */
    method SubmitWith(view: SubmitView)
      requires Valid()
      modifies this`writes, this`inFlight, this`submissions, this`submits, this`autoSubmitView
      ensures Valid()
      ensures attempt.None? ==>
                writes == old(writes) && inFlight == old(inFlight) && submissions == old(submissions)
                && submits == old(submits) && autoSubmitView == old(autoSubmitView)
      ensures var t := FlushTarget(questions, view.index, view.answers, lastSaved);
              attempt.Some? && t.Some? ==>
                var w := AnswerWrite(attempt.value.id, t.value.0, t.value.1, PreSubmit);
                writes == old(writes) + [w] && inFlight == old(inFlight) + [w]
                && submissions == old(submissions) && submits == old(submits) && autoSubmitView == old(autoSubmitView)
      ensures var t := FlushTarget(questions, view.index, view.answers, lastSaved);
              attempt.Some? && t.None? ==>
                writes == old(writes) && inFlight == old(inFlight)
                && submissions == old(submissions) + [attempt.value.id] && submits == old(submits).Issue()
                && autoSubmitView == (if old(submits).IsPending() then old(autoSubmitView) else LiveView())
    {
      if attempt.None? {
        return;
      }
      var t := FlushTarget(questions, view.index, view.answers, lastSaved);
      if t.Some? {
        var w := AnswerWrite(attempt.value.id, t.value.0, t.value.1, PreSubmit);
        writes := writes + [w];
        inFlight := inFlight + [w];
      } else {
        RequestSubmission();
      }
    }

    /** The dialog's confirm button runs the submit routine of the current render. */
    method ConfirmSubmit()
      requires Valid()
      modifies this`writes, this`inFlight, this`submissions, this`submits, this`autoSubmitView
      ensures Valid()
      ensures var t := FlushTarget(questions, index, answers, lastSaved);
              attempt.Some? && t.Some? ==>
                var w := AnswerWrite(attempt.value.id, t.value.0, t.value.1, PreSubmit);
                writes == old(writes) + [w] && inFlight == old(inFlight) + [w]
                && submissions == old(submissions) && submits == old(submits) && autoSubmitView == old(autoSubmitView)
      ensures var t := FlushTarget(questions, index, answers, lastSaved);
              attempt.Some? && t.None? ==>
                writes == old(writes) && inFlight == old(inFlight)
                && submissions == old(submissions) + [attempt.value.id] && submits == old(submits).Issue()
                && autoSubmitView == (if old(submits).IsPending() then old(autoSubmitView) else LiveView())
      ensures attempt.None? ==>
                writes == old(writes) && inFlight == old(inFlight) && submissions == old(submissions) && submits == old(submits)
                && autoSubmitView == old(autoSubmitView)
    {
      SubmitWith(LiveView());
    }

    /** `triggerAutoSubmit`, as written: with an attempt and no submission
        pending it runs the submit routine it was built with, whose view of the
        current question and answers may be out of date. */
    method TriggerAutoSubmit()
      requires Valid()
      modifies this`writes, this`inFlight, this`submissions, this`submits, this`autoSubmitView
      ensures Valid()
      ensures attempt.None? || old(submits).IsPending() ==>
                writes == old(writes) && inFlight == old(inFlight)
                && submissions == old(submissions) && submits == old(submits) && autoSubmitView == old(autoSubmitView)
      ensures var t := FlushTarget(questions, old(autoSubmitView).index, old(autoSubmitView).answers, lastSaved);
              attempt.Some? && !old(submits).IsPending() && t.Some? ==>
                var w := AnswerWrite(attempt.value.id, t.value.0, t.value.1, PreSubmit);
                writes == old(writes) + [w] && inFlight == old(inFlight) + [w]
                && submissions == old(submissions) && submits == old(submits) && autoSubmitView == old(autoSubmitView)
      // submitting turns the pending flag on, which rebuilds the callback on the live view
      ensures var t := FlushTarget(questions, old(autoSubmitView).index, old(autoSubmitView).answers, lastSaved);
              attempt.Some? && !old(submits).IsPending() && t.None? ==>
                writes == old(writes) && inFlight == old(inFlight)
                && submissions == old(submissions) + [attempt.value.id] && submits == old(submits).Issue()
                && autoSubmitView == LiveView()
    {
      if attempt.Some? && !submits.IsPending() {
        SubmitWith(autoSubmitView);
      }
    }

    /** The auto-submit with the dependencies it reads: the guard is the same,
        and the flush looks at the current question and answers. */
    method TriggerAutoSubmitLive()
      requires Valid()
      modifies this`writes, this`inFlight, this`submissions, this`submits, this`autoSubmitView
      ensures Valid()
      ensures attempt.None? || old(submits).IsPending() ==>
                writes == old(writes) && inFlight == old(inFlight)
                && submissions == old(submissions) && submits == old(submits) && autoSubmitView == old(autoSubmitView)
      // the current question's unsaved answer is written before any submission
      ensures var t := FlushTarget(questions, index, answers, lastSaved);
              attempt.Some? && !old(submits).IsPending() && t.Some? ==>
                var w := AnswerWrite(attempt.value.id, t.value.0, t.value.1, PreSubmit);
                writes == old(writes) + [w] && inFlight == old(inFlight) + [w]
                && submissions == old(submissions) && submits == old(submits) && autoSubmitView == old(autoSubmitView)
      ensures var t := FlushTarget(questions, index, answers, lastSaved);
              attempt.Some? && !old(submits).IsPending() && t.None? ==>
                writes == old(writes) && inFlight == old(inFlight)
                && submissions == old(submissions) + [attempt.value.id] && submits == old(submits).Issue()
                && autoSubmitView == LiveView()
    {
      if attempt.Some? && !submits.IsPending() {
        SubmitWith(LiveView());
      }
    }

    /** A submission succeeded (the redirect is not modelled). */
    method OnSubmitSuccess(k: nat)
      requires Valid() && submits.CanSettle(k)
      modifies this`submits, this`autoSubmitView
      ensures Valid()
      ensures submits == old(submits).Settle(k)
      ensures autoSubmitView == if old(submits).IsPending() && !submits.IsPending() then LiveView() else old(autoSubmitView)
    {
      var wasPending := submits.IsPending();
      submits := submits.Settle(k);
      if wasPending && !submits.IsPending() {
        autoSubmitView := LiveView();
      }
    }

    /** A submission failed: the error is set and the dialog closes. */
    method OnSubmitError(k: nat)
      requires Valid() && submits.CanSettle(k)
      modifies this`submits, this`error, this`showSubmitModal, this`autoSubmitView
      ensures Valid()
      ensures submits == old(submits).Settle(k)
      ensures error == Some(SubmitErrorMessage) && !showSubmitModal
      ensures autoSubmitView == if old(submits).IsPending() && !submits.IsPending() then LiveView() else old(autoSubmitView)
    {
      var wasPending := submits.IsPending();
      submits := submits.Settle(k);
      error := Some(SubmitErrorMessage);
      showSubmitModal := false;
      if wasPending && !submits.IsPending() {
        autoSubmitView := LiveView();
      }
    }
  }

  /** A fresh page whose start call has succeeded with `a`. */
  method StartedPage(questions: seq<string>, a: Attempt) returns (p: Page)
    ensures fresh(p) && p.Valid()
    ensures p.questions == questions
    ensures p.attempt == Some(a) && p.started && p.index == 0 && p.answers == map[]
    ensures p.lastSaved == map[] && p.pendingSave.None? && p.writes == [] && p.inFlight == []
    ensures p.submits == MutationLog([]) && p.submissions == [] && p.autoSubmitView == SubmitView(0, map[])
  {
    p := new Page(questions);
    p.StartExam();
    p.OnStartSuccess(0, a);
  }

  /** An answer chosen after the start and still waiting for its debounced
      save when time runs out: the auto-submit as written requests the
      submission without writing it. */
  method AutoSubmitSkipsUnsavedAnswer(a: Attempt)
  {
    var p := StartedPage(["q1"], a);
    p.SelectAnswer("q1", "A");
    p.TriggerAutoSubmit();
    assert Unsaved(p.answers, p.lastSaved, "q1");
    assert p.writes == [] && p.submissions == [a.id];
  }

  /** The same sequence with the live view writes the answer first. */
  method LiveAutoSubmitWritesAnswer(a: Attempt)
  {
    var p := StartedPage(["q1"], a);
    p.SelectAnswer("q1", "A");
    p.TriggerAutoSubmitLive();
    assert p.writes == [AnswerWrite(a.id, "q1", "A", PreSubmit)] && p.submissions == [];
    p.OnAnswerWriteSettled(0, false);
    assert p.submissions == [a.id];
  }

  /** While a submission is pending the auto-submit does nothing. */
  method AutoSubmitWaitsForPending(a: Attempt)
  {
    var p := StartedPage(["q1"], a);
    p.ConfirmSubmit();
    assert p.submissions == [a.id];
    p.TriggerAutoSubmit();
    assert p.submissions == [a.id];
  }
}
