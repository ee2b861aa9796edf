/** The pure rules shared by both exam-taking controllers
    (src/hooks/useExamSession.ts and its inline predecessor in
    src/pages/attempt/TakeQuizPage.tsx): the remote attempt record, the
    persisted snapshot, which answer a flush sends, where previous/next lead,
    how a mark is toggled, and how recorded answers become the answer map. */
module SessionRules {
  import opened Wrappers

  /** One answer the server has recorded for an attempt. */
  datatype RecordedAnswer = RecordedAnswer(questionId: string, selectedAnswer: string)

  /** The remote attempt: `answers` is absent when the server sends none. */
  datatype Attempt = Attempt(
    id: string,
    expiresAt: Option<int>,
    isSubmitted: bool,
    status: string,
    answers: Option<seq<RecordedAnswer>>)

  const ExpiredStatus := "expired"

  /** An attempt that can no longer be taken. */
  predicate IsTerminal(a: Attempt)
  {
    a.isSubmitted || a.status == ExpiredStatus
  }

  function AttemptId(a: Option<Attempt>): Option<string>
  {
    if a.Some? then Some(a.value.id) else None
  }

  /** A stored snapshot: the attempt id, the question index and the marked
      question ids; text that `JSON.parse` rejects; or the empty string, which
      is falsy and therefore ignored. */
  datatype SavedState = Saved(attemptId: string, questionIndex: int, marked: set<string>) | Unreadable | EmptyText

  const StorageKeyPrefix := "exam_state_"

  /** `getStorageKey`. */
  function StorageKey(quizId: string): (key: string)
    ensures |key| == |StorageKeyPrefix| + |quizId|
    ensures key[..|StorageKeyPrefix|] == StorageKeyPrefix && key[|StorageKeyPrefix|..] == quizId
  {
    StorageKeyPrefix + quizId
  }

  /** Different quizzes never share a snapshot. */
  lemma StorageKeyInjective(a: string, b: string)
    ensures StorageKey(a) == StorageKey(b) <==> a == b
  {
    if StorageKey(a) == StorageKey(b) {
      assert a == StorageKey(a)[|StorageKeyPrefix|..];
    }
  }

  /** `questions[i]`: undefined outside the array. */
  function QuestionAt(questions: seq<string>, i: int): Option<string>
  {
    if 0 <= i < |questions| then Some(questions[i]) else None
  }

  /** The flush guard: the question has a (truthy, so non-empty) answer that
      differs from the last value the server acknowledged. */
  predicate Unsaved(answers: map<string, string>, lastSaved: map<string, string>, q: string)
  {
    q in answers && answers[q] != "" && !(q in lastSaved && lastSaved[q] == answers[q])
  }

  /** The question and answer a flush of the current question sends, if any. */
  function FlushTarget(questions: seq<string>, index: int, answers: map<string, string>, lastSaved: map<string, string>)
    : (t: Option<(string, string)>)
    ensures t.Some? <==> 0 <= index < |questions| && Unsaved(answers, lastSaved, questions[index])
    ensures t.Some? ==> t.value.0 == questions[index] && t.value.1 == answers[questions[index]]
    ensures t.Some? ==> t.value.1 != "" && !(t.value.0 in lastSaved && lastSaved[t.value.0] == t.value.1)
  {
    var current := QuestionAt(questions, index);
    if current.Some? && Unsaved(answers, lastSaved, current.value) then
      Some((current.value, answers[current.value]))
    else None
  }

  /** `saveAnswerToServer`'s guard: an attempt exists and the value is not the
      last one acknowledged for that question. */
  predicate ShouldSave(attemptId: Option<string>, lastSaved: map<string, string>, q: string, answer: string)
  {
    attemptId.Some? && !(q in lastSaved && lastSaved[q] == answer)
  }

  /** A flush target always passes the save guard once an attempt exists. */
  lemma FlushTargetIsSaved(questions: seq<string>, index: int, answers: map<string, string>,
                           lastSaved: map<string, string>, attemptId: Option<string>)
    requires attemptId.Some?
    requires FlushTarget(questions, index, answers, lastSaved).Some?
    ensures var t := FlushTarget(questions, index, answers, lastSaved).value;
            ShouldSave(attemptId, lastSaved, t.0, t.1)
  {
  }

  /** `Math.max(0, i - 1)`. */
  function PrevIndex(i: int): (r: int)
    ensures r >= 0 && r >= i - 1
    ensures r == i - 1 || r == 0
  {
    if i - 1 > 0 then i - 1 else 0
  }

  /** `Math.min(questionCount - 1, i + 1)`. */
  function NextIndex(i: int, questionCount: int): (r: int)
    ensures r <= questionCount - 1 && r <= i + 1
    ensures r == i + 1 || r == questionCount - 1
  {
    if questionCount - 1 < i + 1 then questionCount - 1 else i + 1
  }

  /** From a valid index, previous and next stay valid, move by at most one,
      and stop at the ends. */
  lemma StepsStayInRange(i: int, questionCount: int)
    requires 0 <= i < questionCount
    ensures 0 <= PrevIndex(i) < questionCount && 0 <= NextIndex(i, questionCount) < questionCount
    ensures PrevIndex(i) == (if i == 0 then 0 else i - 1)
    ensures NextIndex(i, questionCount) == (if i == questionCount - 1 then i else i + 1)
  {
  }

  /** With no questions loaded, "next" leads to index -1. */
  lemma NextWithoutQuestions(i: int)
    requires i >= -1
    ensures NextIndex(i, 0) == -1
  {
  }

  /** The marked set with the membership of `q` flipped. */
  function ToggleMark(marked: set<string>, q: string): (r: set<string>)
    ensures q in r <==> q !in marked
    ensures r - {q} == marked - {q}
  {
    if q in marked then marked - {q} else marked + {q}
  }

  /** Toggling the same question twice restores the set. */
  lemma ToggleTwice(marked: set<string>, q: string)
    ensures ToggleMark(ToggleMark(marked, q), q) == marked
  {
    var once := ToggleMark(marked, q);
    var twice := ToggleMark(once, q);
    assert forall x :: x in twice <==> x in marked by {
      forall x ensures x in twice <==> x in marked {
        if x != q {
          assert x in twice <==> x in twice - {q};
          assert x in marked <==> x in marked - {q};
        }
      }
    }
  }

  /** The answer map made from the recorded answers: later entries win. */
  function AnswersOf(recorded: seq<RecordedAnswer>): map<string, string>
    decreases |recorded|
  {
    if recorded == [] then map[]
    else
      var last := recorded[|recorded| - 1];
      AnswersOf(recorded[..|recorded| - 1])[last.questionId := last.selectedAnswer]
  }

  /** The questions the map answers are exactly the recorded ones. */
  lemma {:induction false} AnswersOfKeys(recorded: seq<RecordedAnswer>)
    ensures forall q :: q in AnswersOf(recorded) <==> exists k :: 0 <= k < |recorded| && recorded[k].questionId == q
    decreases |recorded|
  {
    if recorded != [] {
      var init := recorded[..|recorded| - 1];
      AnswersOfKeys(init);
      forall q ensures q in AnswersOf(recorded) <==> exists k :: 0 <= k < |recorded| && recorded[k].questionId == q {
        if q in AnswersOf(recorded) && q != recorded[|recorded| - 1].questionId {
          assert q in AnswersOf(init);
          var k :| 0 <= k < |init| && init[k].questionId == q;
          assert recorded[k].questionId == q;
        }
        if exists k :: 0 <= k < |recorded| && recorded[k].questionId == q {
          var k :| 0 <= k < |recorded| && recorded[k].questionId == q;
          if k < |init| { assert init[k].questionId == q; }
        }
      }
    }
  }

  /** Each question's value is its last recorded answer. */
  lemma {:induction false} AnswersOfLastWins(recorded: seq<RecordedAnswer>, k: nat)
    requires k < |recorded|
    requires forall j :: k < j < |recorded| ==> recorded[j].questionId != recorded[k].questionId
    ensures recorded[k].questionId in AnswersOf(recorded)
    ensures AnswersOf(recorded)[recorded[k].questionId] == recorded[k].selectedAnswer
    decreases |recorded|
  {
    if k < |recorded| - 1 {
      var init := recorded[..|recorded| - 1];
      AnswersOfLastWins(init, k);
    }
  }

  /** The `forEach` that rebuilds the answer map from a fetched attempt. */
  method BuildAnswerMap(recorded: seq<RecordedAnswer>) returns (m: map<string, string>)
    ensures m == AnswersOf(recorded)
  {
    m := map[];
    var i := 0;
    while i < |recorded|
      invariant 0 <= i <= |recorded|
      invariant m == AnswersOf(recorded[..i])
    {
      assert recorded[..i + 1][..i] == recorded[..i];
      m := m[recorded[i].questionId := recorded[i].selectedAnswer];
      i := i + 1;
    }
    assert recorded[..i] == recorded;
  }

  /** The single debounce slot: the edit a timer will save and the attempt its
      callback captured when it was scheduled. */
  datatype PendingSave = PendingSave(questionId: string, answer: string, attemptId: Option<string>)

  /** Which call site issued an answer write: the autosave path records the
      acknowledgement, the pre-submit flush does not and continues with the
      submission instead. */
  datatype Purpose = Autosave | PreSubmit

  /** One `submitAnswer` request. */
  datatype AnswerWrite = AnswerWrite(attemptId: string, questionId: string, answer: string, purpose: Purpose)

  /** The calls of one react-query mutation, oldest first, each marked once it
      has settled. `isPending` follows the most recent call only. */
  datatype MutationLog = MutationLog(settled: seq<bool>)
  {
    predicate IsPending()
    {
      |settled| > 0 && !settled[|settled| - 1]
    }

    predicate CanSettle(k: nat)
    {
      k < |settled| && !settled[k]
    }

    /** `mutate()`: one more call, pending. */
    function Issue(): (m: MutationLog)
      ensures |m.settled| == |settled| + 1 && m.settled[..|settled|] == settled
      ensures m.IsPending() && m.CanSettle(|settled|)
    {
      MutationLog(settled + [false])
    }

    /** Call `k` settles; the mutation stops pending exactly when `k` was the
        most recent call. */
    function Settle(k: nat): (m: MutationLog)
      requires CanSettle(k)
      ensures |m.settled| == |settled| && m.settled[k]
      ensures forall j :: 0 <= j < |settled| && j != k ==> m.settled[j] == settled[j]
      ensures m.IsPending() <==> IsPending() && k != |settled| - 1
    {
      MutationLog(settled[k := true])
    }
  }

  /** The writes `saveAnswerToServer` issues: one, unless there is no attempt
      or the value is the last one acknowledged. */
  function AutosaveWrites(attemptId: Option<string>, lastSaved: map<string, string>, q: string, answer: string)
    : (issued: seq<AnswerWrite>)
    ensures |issued| <= 1
    ensures issued != [] <==> ShouldSave(attemptId, lastSaved, q, answer)
    ensures issued != [] ==> issued[0] == AnswerWrite(attemptId.value, q, answer, Autosave)
  {
    if ShouldSave(attemptId, lastSaved, q, answer) then [AnswerWrite(attemptId.value, q, answer, Autosave)] else []
  }

  /** The sequence with its `k`-th element taken out. */
  function RemoveAt<T>(s: seq<T>, k: nat): (r: seq<T>)
    requires k < |s|
    ensures |r| == |s| - 1
    ensures forall x :: x in r ==> x in s
  {
    s[..k] + s[k + 1..]
  }
}
