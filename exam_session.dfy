/** The exam session controller (src/hooks/useExamSession.ts) as a state
    machine. React state slots and refs are fields; every awaited call is split
    into the event that issues it and the event that settles it:

    - `StartExam` issues a start call (`starts`), `OnStartSuccess`/`OnStartError` settle one;
    - an answer write is issued into `inFlight` and settled by `OnAnswerWriteSettled`;
    - `SubmitAttempt` and the pre-submit write issue submissions (`submits`,
      with their attempt ids in `submissions`), `OnSubmitSuccess`/`OnSubmitError`
      settle one;
    - `RestoreOnMount` reads the snapshot and issues the attempt fetch,
      `OnRestoreFetched` settles it.

    The 1-second debounce timer is the slot `pendingSave`, fired by
    `FireSaveTimer`. `localStorage` is the map `snapshots`. The quiz's question
    ids are the constant `questions`; a missing route parameter is `quizId == None`. */
module ExamSession {
  import opened Wrappers
  import opened SessionRules

  const StartErrorMessage := "Failed to start exam session. Please try again."
  const SubmitErrorMessage := "Failed to submit exam. Please try again."
  const QuizLoadErrorMessage := "Failed to load exam metadata."

  class Session {
    const quizId: Option<string>
    const questions: seq<string>

    var attempt: Option<Attempt>
    var started: bool
    var index: int
    var answers: map<string, string>
    var marked: set<string>
    var error: Option<string>

    /** `lastSavedAnswers`: the last value the server acknowledged per question. */
    var lastSaved: map<string, string>
    /** `saveTimeoutRef`: at most one scheduled save. */
    var pendingSave: Option<PendingSave>
    /** Every answer write issued, in order, and those not yet answered. */
    var writes: seq<AnswerWrite>
    var inFlight: seq<AnswerWrite>

    /** `restorationAttempted`, and the snapshot whose attempt is being fetched. */
    var restorationAttempted: bool
    var restoring: Option<SavedState>
    var snapshots: map<string, SavedState>

    var starts: MutationLog
    var submits: MutationLog
    /** The attempt id of every submission requested, in order. */
    var submissions: seq<string>

    /** Whether `quizId` is truthy. */
    predicate QuizIdGiven()
    {
      quizId.Some? && quizId.value != ""
    }

    /** The snapshot key; an absent id is interpolated as "undefined". */
    function Key(): string
    {
      StorageKey(if quizId.Some? then quizId.value else "undefined")
    }

    ghost predicate Valid()
      reads this
    {
      && (started ==> attempt.Some?)
      // nothing is written for an attempt before one exists
      && (attempt.None? ==> writes == [] && inFlight == [] && (pendingSave.Some? ==> pendingSave.value.attemptId.None?))
      && (forall w :: w in inFlight ==> w in writes)
      && (restoring.Some? ==> restoring.value.Saved?)
      && |submissions| == |submits.settled|
      // the stored snapshot, when present, mirrors the running session
      && (started && QuizIdGiven() && Key() in snapshots ==>
            snapshots[Key()] == Saved(attempt.value.id, index, marked))
    }

    /** The persist effect applied to `before`: while started with an attempt
        and a quiz id, the key holds the current attempt, index and marks. */
    function Persisted(before: map<string, SavedState>): (after: map<string, SavedState>)
      reads this
      ensures after - {Key()} == before - {Key()}
      ensures started && attempt.Some? && QuizIdGiven() ==>
                Key() in after && after[Key()] == Saved(attempt.value.id, index, marked)
      ensures !(started && attempt.Some? && QuizIdGiven()) ==> after == before
    {
      if started && attempt.Some? && QuizIdGiven() then before[Key() := Saved(attempt.value.id, index, marked)]
      else before
    }

    /** The error shown: the session's own, else the quiz-load failure. */
    function ShownError(quizLoadFailed: bool): (shown: Option<string>)
      reads this
      ensures error.Some? ==> shown == error
      ensures error.None? ==> (shown.Some? <==> quizLoadFailed)
    {
      if error.Some? then error else if quizLoadFailed then Some(QuizLoadErrorMessage) else None
    }

    constructor (quizId: Option<string>, questions: seq<string>, snapshots: map<string, SavedState>)
      ensures Valid()
      ensures this.quizId == quizId && this.questions == questions && this.snapshots == snapshots
      ensures attempt.None? && !started && index == 0 && answers == map[] && marked == {} && error.None?
      ensures lastSaved == map[] && pendingSave.None? && writes == [] && inFlight == []
      ensures !restorationAttempted && restoring.None?
      ensures starts == MutationLog([]) && submits == MutationLog([]) && submissions == []
    {
      this.quizId := quizId;
      this.questions := questions;
      this.snapshots := snapshots;
      attempt := None;
      started := false;
      index := 0;
      answers := map[];
      marked := {};
      error := None;
      lastSaved := map[];
      pendingSave := None;
      writes := [];
      inFlight := [];
      restorationAttempted := false;
      restoring := None;
      starts := MutationLog([]);
      submits := MutationLog([]);
      submissions := [];
    }

    /** `startExam`: issue the start call. */
    method StartExam()
      requires Valid()
      modifies this`starts
      ensures Valid()
      ensures starts == old(starts).Issue()
    {
      starts := starts.Issue();
    }

    /** The start call succeeded: the session runs on the new attempt, the
        initial snapshot is written, and the persist effect follows. */
    method OnStartSuccess(k: nat, newAttempt: Attempt)
      requires Valid() && starts.CanSettle(k)
      modifies this`starts, this`attempt, this`started, this`snapshots
      ensures Valid()
      ensures starts == old(starts).Settle(k)
      ensures attempt == Some(newAttempt) && started
      ensures snapshots - {Key()} == old(snapshots) - {Key()}
      ensures Key() in snapshots
      ensures snapshots[Key()] == if QuizIdGiven() then Saved(newAttempt.id, index, marked) else Saved(newAttempt.id, 0, {})
    {
      starts := starts.Settle(k);
      attempt := Some(newAttempt);
      started := true;
      snapshots := snapshots[Key() := Saved(newAttempt.id, 0, {})];
      PersistEffect();
    }

    /** The start call failed: only the error is set. */
    method OnStartError(k: nat)
      requires Valid() && starts.CanSettle(k)
      modifies this`starts, this`error
      ensures Valid()
      ensures starts == old(starts).Settle(k)
      ensures error == Some(StartErrorMessage)
    {
      starts := starts.Settle(k);
      error := Some(StartErrorMessage);
    }

    /** The persist effect, run when the started flag, the attempt, the index
        or the marked set has changed. */
    method PersistEffect()
      requires (started ==> attempt.Some?) && (restoring.Some? ==> restoring.value.Saved?)
      requires attempt.None? ==> writes == [] && inFlight == [] && (pendingSave.Some? ==> pendingSave.value.attemptId.None?)
      requires forall w :: w in inFlight ==> w in writes
      requires |submissions| == |submits.settled|
      modifies this`snapshots
      ensures Valid()
      ensures snapshots == Persisted(old(snapshots))
    {
      if started && attempt.Some? && QuizIdGiven() {
        snapshots := snapshots[Key() := Saved(attempt.value.id, index, marked)];
      }
    }

    /** `saveAnswerToServer`: skipped without an attempt or when the value is
        the last acknowledged one; otherwise one write is issued. */
    method SaveAnswerToServer(attemptId: Option<string>, q: string, answer: string)
      modifies this`writes, this`inFlight
      ensures writes == old(writes) + AutosaveWrites(attemptId, lastSaved, q, answer)
      ensures inFlight == old(inFlight) + AutosaveWrites(attemptId, lastSaved, q, answer)
    {
      if attemptId.None? {
        return;
      }
      if q in lastSaved && lastSaved[q] == answer {
        return;
      }
      var w := AnswerWrite(attemptId.value, q, answer, Autosave);
      writes := writes + [w];
      inFlight := inFlight + [w];
    }

    /** `handleAnswerSelect`: record the answer and replace the scheduled save
        with one for this edit. */
    method SelectAnswer(q: string, answer: string)
      requires Valid()
      modifies this`answers, this`pendingSave
      ensures Valid()
      ensures answers == old(answers)[q := answer]
      ensures forall other :: other != q ==> (other in answers <==> other in old(answers))
      ensures forall other :: other != q && other in answers ==> answers[other] == old(answers)[other]
      ensures pendingSave == Some(PendingSave(q, answer, AttemptId(attempt)))
    {
      answers := answers[q := answer];
      pendingSave := Some(PendingSave(q, answer, AttemptId(attempt)));
    }

    /** The debounce timer fires: the scheduled save runs with the attempt it
        captured and the acknowledgements as they are now. */
    method FireSaveTimer()
      requires Valid() && pendingSave.Some?
      modifies this`pendingSave, this`writes, this`inFlight
      ensures Valid()
      ensures pendingSave.None?
      ensures var p := old(pendingSave).value;
              writes == old(writes) + AutosaveWrites(p.attemptId, lastSaved, p.questionId, p.answer)
              && inFlight == old(inFlight) + AutosaveWrites(p.attemptId, lastSaved, p.questionId, p.answer)
    {
      var p := pendingSave.value;
      pendingSave := None;
      SaveAnswerToServer(p.attemptId, p.questionId, p.answer);
    }

    /** The server answers the in-flight write `k`. An acknowledged autosave
        is recorded, a failed one is only reported; a pre-submit write, either
        way, continues with the submission. */
    method OnAnswerWriteSettled(k: nat, succeeded: bool)
      requires Valid() && k < |inFlight|
      modifies this`inFlight, this`lastSaved, this`submissions, this`submits
      ensures Valid()
      ensures inFlight == RemoveAt(old(inFlight), k)
      ensures var w := old(inFlight)[k];
              && lastSaved == (if w.purpose == Autosave && succeeded then old(lastSaved)[w.questionId := w.answer] else old(lastSaved))
              && submissions == old(submissions) + (if w.purpose == PreSubmit then [attempt.value.id] else [])
              && submits == (if w.purpose == PreSubmit then old(submits).Issue() else old(submits))
    {
      var w := inFlight[k];
      inFlight := RemoveAt(inFlight, k);
      if w.purpose == Autosave {
        if succeeded {
          lastSaved := lastSaved[w.questionId := w.answer];
        }
      } else {
        RequestSubmission();
      }
    }

    /** `submitExamMutation.mutate()` for the current attempt. */
    method RequestSubmission()
      requires Valid() && attempt.Some?
      modifies this`submissions, this`submits
      ensures Valid()
      ensures submissions == old(submissions) + [attempt.value.id]
      ensures submits == old(submits).Issue()
    {
      submissions := submissions + [attempt.value.id];
      submits := submits.Issue();
    }

    /** `handleToggleMark`, followed by the persist effect. */
    method ToggleMark(q: string)
      requires Valid()
      modifies this`marked, this`snapshots
      ensures Valid()
      ensures marked == SessionRules.ToggleMark(old(marked), q)
      ensures snapshots == Persisted(old(snapshots))
    {
      marked := SessionRules.ToggleMark(marked, q);
      PersistEffect();
    }

    /** `handleQuestionNavigation`: send the outgoing question's unsaved answer
        (without waiting and without touching the scheduled save), then move;
        the persist effect runs when the index changed. */
    method Navigate(newIndex: int)
      requires Valid()
      modifies this`index, this`writes, this`inFlight, this`snapshots
      ensures Valid()
      ensures index == newIndex
      ensures var t := FlushTarget(questions, old(index), answers, lastSaved);
              var issued := if t.Some? then AutosaveWrites(AttemptId(attempt), lastSaved, t.value.0, t.value.1) else [];
              writes == old(writes) + issued && inFlight == old(inFlight) + issued
      ensures snapshots == if newIndex == old(index) then old(snapshots) else Persisted(old(snapshots))
    {
      var t := FlushTarget(questions, index, answers, lastSaved);
      if t.Some? {
        SaveAnswerToServer(AttemptId(attempt), t.value.0, t.value.1);
      }
      if newIndex != index {
        index := newIndex;
        PersistEffect();
      }
    }

    /** `handlePrevious`. */
    method Previous()
      requires Valid()
      modifies this`index, this`writes, this`inFlight, this`snapshots
      ensures Valid()
      ensures index == PrevIndex(old(index))
      ensures 0 <= old(index) < |questions| ==> 0 <= index < |questions|
      ensures var t := FlushTarget(questions, old(index), answers, lastSaved);
              var issued := if t.Some? then AutosaveWrites(AttemptId(attempt), lastSaved, t.value.0, t.value.1) else [];
              writes == old(writes) + issued && inFlight == old(inFlight) + issued
      ensures snapshots == if index == old(index) then old(snapshots) else Persisted(old(snapshots))
    {
      Navigate(PrevIndex(index));
    }

    /** `handleNext`. */
    method Next()
      requires Valid()
      modifies this`index, this`writes, this`inFlight, this`snapshots
      ensures Valid()
      ensures index == NextIndex(old(index), |questions|)
      ensures 0 <= old(index) < |questions| ==> 0 <= index < |questions|
      ensures var t := FlushTarget(questions, old(index), answers, lastSaved);
              var issued := if t.Some? then AutosaveWrites(AttemptId(attempt), lastSaved, t.value.0, t.value.1) else [];
              writes == old(writes) + issued && inFlight == old(inFlight) + issued
      ensures snapshots == if index == old(index) then old(snapshots) else Persisted(old(snapshots))
    {
      Navigate(NextIndex(index, |questions|));
    }

    /** `handleSubmitAttempt`: nothing without an attempt; otherwise the current
        question's unsaved answer is written first (its outcome is ignored and
        `lastSaved` is not updated) and the submission follows; with nothing to
        flush it is requested at once. There is no guard against a second call. */
    method SubmitAttempt()
      requires Valid()
      modifies this`writes, this`inFlight, this`submissions, this`submits
      ensures Valid()
      ensures attempt.None? ==>
                writes == old(writes) && inFlight == old(inFlight)
                && submissions == old(submissions) && submits == old(submits)
      ensures var t := FlushTarget(questions, index, answers, lastSaved);
              attempt.Some? && t.Some? ==>
                var w := AnswerWrite(attempt.value.id, t.value.0, t.value.1, PreSubmit);
                writes == old(writes) + [w] && inFlight == old(inFlight) + [w]
                && submissions == old(submissions) && submits == old(submits)
      ensures var t := FlushTarget(questions, index, answers, lastSaved);
              attempt.Some? && t.None? ==>
                writes == old(writes) && inFlight == old(inFlight)
                && submissions == old(submissions) + [attempt.value.id]
                && submits == old(submits).Issue()
    {
      if attempt.None? {
        return;
      }
      var t := FlushTarget(questions, index, answers, lastSaved);
      if t.Some? {
        var w := AnswerWrite(attempt.value.id, t.value.0, t.value.1, PreSubmit);
        writes := writes + [w];
        inFlight := inFlight + [w];
      } else {
        RequestSubmission();
      }
    }

    /** A submission succeeded: the snapshot is removed when there is a quiz id. */
    method OnSubmitSuccess(k: nat)
      requires Valid() && submits.CanSettle(k)
      modifies this`submits, this`snapshots
      ensures Valid()
      ensures submits == old(submits).Settle(k)
      ensures QuizIdGiven() ==> snapshots == old(snapshots) - {Key()}
      ensures !QuizIdGiven() ==> snapshots == old(snapshots)
    {
      submits := submits.Settle(k);
      if QuizIdGiven() {
        snapshots := snapshots - {Key()};
      }
    }

    /** A submission failed: the error is set. */
    method OnSubmitError(k: nat)
      requires Valid() && submits.CanSettle(k)
      modifies this`submits, this`error
      ensures Valid()
      ensures submits == old(submits).Settle(k)
      ensures error == Some(SubmitErrorMessage)
    {
      submits := submits.Settle(k);
      error := Some(SubmitErrorMessage);
    }

    /** The restore effect: at most once per mount and only with a quiz id.
        No snapshot, or an empty one, changes nothing; unreadable text is
        deleted; a readable snapshot starts the fetch of its attempt. */
    method RestoreOnMount()
      requires Valid()
      modifies this`restorationAttempted, this`restoring, this`snapshots
      ensures Valid()
      ensures restorationAttempted == (old(restorationAttempted) || QuizIdGiven())
      ensures var first := !old(restorationAttempted) && QuizIdGiven();
              && (!first || Key() !in old(snapshots) || old(snapshots)[Key()] == EmptyText ==>
                    restoring == old(restoring) && snapshots == old(snapshots))
              && (first && Key() in old(snapshots) && old(snapshots)[Key()] == Unreadable ==>
                    restoring == old(restoring) && snapshots == old(snapshots) - {Key()})
              && (first && Key() in old(snapshots) && old(snapshots)[Key()].Saved? ==>
                    restoring == Some(old(snapshots)[Key()]) && snapshots == old(snapshots))
    {
      if restorationAttempted || !QuizIdGiven() {
        return;
      }
      restorationAttempted := true;
      if Key() !in snapshots {
        return;
      }
      match snapshots[Key()]
      case EmptyText =>
      case Unreadable =>
        snapshots := snapshots - {Key()};
      case Saved(_, _, _) =>
        restoring := Some(snapshots[Key()]);
    }

    /** The attempt fetch for restoration settles: `None` when it failed. A
        failure or a submitted or expired attempt deletes the snapshot and
        leaves the session as it was; otherwise the session resumes on that
        attempt with the saved index and marks and the recorded answers. */
    method OnRestoreFetched(fetched: Option<Attempt>)
      requires Valid() && restoring.Some? && QuizIdGiven()
      modifies this`restoring, this`attempt, this`started, this`index, this`answers, this`marked, this`snapshots
      ensures Valid()
      ensures restoring.None?
      ensures fetched.None? || IsTerminal(fetched.value) ==>
                snapshots == old(snapshots) - {Key()}
                && attempt == old(attempt) && started == old(started) && index == old(index)
                && answers == old(answers) && marked == old(marked)
      ensures fetched.Some? && !IsTerminal(fetched.value) ==>
                var saved := old(restoring).value;
                && attempt == fetched && started
                && index == saved.questionIndex && marked == saved.marked
                && answers == (if fetched.value.answers.Some? then AnswersOf(fetched.value.answers.value) else old(answers))
                && snapshots == old(snapshots)[Key() := Saved(fetched.value.id, saved.questionIndex, saved.marked)]
    {
      var saved := restoring.value;
      restoring := None;
      if fetched.None? || IsTerminal(fetched.value) {
        snapshots := snapshots - {Key()};
        return;
      }
      attempt := fetched;
      started := true;
      index := saved.questionIndex;
      if fetched.value.answers.Some? {
        answers := BuildAnswerMap(fetched.value.answers.value);
      }
      marked := saved.marked;
      PersistEffect();
    }
  }

  /** A fresh session on quiz "quiz" whose start call has succeeded with `a`. */
  method StartedSession(questions: seq<string>, a: Attempt) returns (s: Session)
    ensures fresh(s) && s.Valid()
    ensures s.quizId == Some("quiz") && s.questions == questions
    ensures s.attempt == Some(a) && s.started && s.index == 0 && s.answers == map[] && s.marked == {}
    ensures s.lastSaved == map[] && s.pendingSave.None? && s.writes == [] && s.inFlight == []
    ensures s.submits == MutationLog([]) && s.submissions == []
  {
    s := new Session(Some("quiz"), questions, map[]);
    s.StartExam();
    s.OnStartSuccess(0, a);
  }

  /** Two quick edits of one question produce a single write, of the later value. */
  method DebounceKeepsLatest(a: Attempt, q: string)
  {
    var s := StartedSession([q], a);
    s.SelectAnswer(q, "A");
    s.SelectAnswer(q, "B");
    s.FireSaveTimer();
    assert s.writes == [AnswerWrite(a.id, q, "B", Autosave)];
  }

  /** Moving on inside the debounce window sends the answer at once, and the
      timer that still fires afterwards sends it a second time when the first
      write has not been acknowledged yet. */
  method NavigationLeavesTimerArmed(a: Attempt, q1: string, q2: string)
  {
    var s := StartedSession([q1, q2], a);
    s.SelectAnswer(q1, "A");
    s.Next();
    assert s.index == 1;
    assert s.writes == [AnswerWrite(a.id, q1, "A", Autosave)];
    s.FireSaveTimer();
    assert s.writes == [AnswerWrite(a.id, q1, "A", Autosave), AnswerWrite(a.id, q1, "A", Autosave)];
  }

  /** Submitting twice with nothing to flush requests two submissions. */
  method SubmitTwice(a: Attempt, q: string)
  {
    var s := StartedSession([q], a);
    s.SubmitAttempt();
    s.SubmitAttempt();
    assert s.submissions == [a.id, a.id];
  }

  /** A snapshot naming an attempt that was already submitted is deleted and
      the session does not start. */
  method RestoreSubmittedAttempt(a: Attempt)
    requires a.isSubmitted
  {
    var key := StorageKey("quiz");
    var s := new Session(Some("quiz"), ["q1"], map[key := Saved(a.id, 1, {})]);
    s.RestoreOnMount();
    s.OnRestoreFetched(Some(a));
    assert !s.started && key !in s.snapshots;
  }

  /** After a reload the session resumes on the saved question with the saved
      marks and the server's answers, and the snapshot is rewritten. */
  method ReloadResumes(id: string)
  {
    var key := StorageKey("quiz");
    var s := new Session(Some("quiz"), ["q1", "q2"], map[key := Saved(id, 1, {"q2"})]);
    s.RestoreOnMount();
    var recorded := [RecordedAnswer("q1", "A")];
    var a := Attempt(id, None, false, "in_progress", Some(recorded));
    s.OnRestoreFetched(Some(a));
    assert AnswersOf(recorded) == map["q1" := "A"] by {
      assert recorded[..0] == [];
    }
    assert s.started && s.index == 1 && s.marked == {"q2"} && s.answers == map["q1" := "A"];
    assert s.snapshots[key] == Saved(id, 1, {"q2"});
  }
}
