/** The question palette (src/components/attempt/QuestionNavigation.tsx): one
    button per question index, styled by a priority rule (current, then marked,
    then answered, then none) with a dot on marked questions that are not
    current. Only the data of each button is modelled, not its layout. */
module QuestionNavigation {
  import opened Wrappers
  import SessionRules

  datatype Color = Primary | Warning | Success | Inherit

  datatype Variant = Contained | Outlined

  /** A button: its 1-based number, the index it navigates to, its style and
      whether it carries the marked dot. */
  datatype ButtonView = ButtonView(number: int, target: int, color: Color, variant: Variant, dot: bool)

  /** `answers.has(id)`: a question counts as answered whatever its value. */
  predicate IsAnswered(answers: map<string, string>, id: Option<string>)
  {
    id.Some? && id.value in answers
  }

  predicate IsMarked(marked: set<string>, id: Option<string>)
  {
    id.Some? && id.value in marked
  }

  /** The button for index `idx`. */
  function ButtonAt(idx: int, currentIndex: int, questionIds: seq<string>,
                    answers: map<string, string>, marked: set<string>): (b: ButtonView)
    ensures b.number == idx + 1 && b.target == idx
    ensures b.color == Primary <==> idx == currentIndex
    ensures b.color == Warning <==> idx != currentIndex && IsMarked(marked, SessionRules.QuestionAt(questionIds, idx))
    ensures b.color == Success <==>
              idx != currentIndex && !IsMarked(marked, SessionRules.QuestionAt(questionIds, idx)) && IsAnswered(answers, SessionRules.QuestionAt(questionIds, idx))
    ensures b.color == Inherit <==>
              idx != currentIndex && !IsMarked(marked, SessionRules.QuestionAt(questionIds, idx)) && !IsAnswered(answers, SessionRules.QuestionAt(questionIds, idx))
    ensures b.variant == Contained <==> idx == currentIndex
    ensures b.dot <==> IsMarked(marked, SessionRules.QuestionAt(questionIds, idx)) && idx != currentIndex
  {
    var id := SessionRules.QuestionAt(questionIds, idx);
    var isAnswered := IsAnswered(answers, id);
    var isMarked := IsMarked(marked, id);
    var isCurrent := currentIndex == idx;
    var color := if isCurrent then Primary else if isMarked then Warning else if isAnswered then Success else Inherit;
    var variant := if isCurrent then Contained else Outlined;
    ButtonView(idx + 1, idx, color, variant, isMarked && !isCurrent)
  }

  /** `memoizedButtons`: one button per index below `totalQuestions` (none
      when it is not positive). */
  function Buttons(totalQuestions: int, currentIndex: int, questionIds: seq<string>,
                   answers: map<string, string>, marked: set<string>): (bs: seq<ButtonView>)
    ensures |bs| == if totalQuestions > 0 then totalQuestions else 0
    ensures forall idx :: 0 <= idx < |bs| ==> bs[idx].number == idx + 1 && bs[idx].target == idx
  {
    var n := if totalQuestions > 0 then totalQuestions else 0;
    seq(n, idx requires 0 <= idx < n => ButtonAt(idx, currentIndex, questionIds, answers, marked))
  }

  /** With the current index in range exactly one button is highlighted as
      current, and it is the one for that index. */
  lemma ExactlyOneCurrent(totalQuestions: int, currentIndex: int, questionIds: seq<string>,
                          answers: map<string, string>, marked: set<string>)
    requires 0 <= currentIndex < totalQuestions
    ensures var bs := Buttons(totalQuestions, currentIndex, questionIds, answers, marked);
            && bs[currentIndex].color == Primary && bs[currentIndex].variant == Contained
            && forall idx :: 0 <= idx < |bs| && bs[idx].color == Primary ==> idx == currentIndex
  {
    var bs := Buttons(totalQuestions, currentIndex, questionIds, answers, marked);
    assert bs[currentIndex] == ButtonAt(currentIndex, currentIndex, questionIds, answers, marked);
    forall idx | 0 <= idx < |bs| && bs[idx].color == Primary
      ensures idx == currentIndex
    {
      assert bs[idx] == ButtonAt(idx, currentIndex, questionIds, answers, marked);
    }
  }

  /** Only which questions have an entry matters, not what the entry is. */
  lemma AnsweredMeansHasKey(totalQuestions: int, currentIndex: int, questionIds: seq<string>,
                            answers: map<string, string>, other: map<string, string>, marked: set<string>)
    requires answers.Keys == other.Keys
    ensures Buttons(totalQuestions, currentIndex, questionIds, answers, marked)
         == Buttons(totalQuestions, currentIndex, questionIds, other, marked)
  {
    var a := Buttons(totalQuestions, currentIndex, questionIds, answers, marked);
    var b := Buttons(totalQuestions, currentIndex, questionIds, other, marked);
    forall idx | 0 <= idx < |a|
      ensures a[idx] == b[idx]
    {
      assert IsAnswered(answers, SessionRules.QuestionAt(questionIds, idx)) == IsAnswered(other, SessionRules.QuestionAt(questionIds, idx));
    }
  }

  /** Buttons past the end of the id list are never marked or answered. */
  lemma MissingIdIsPlain(totalQuestions: int, currentIndex: int, questionIds: seq<string>,
                         answers: map<string, string>, marked: set<string>, idx: int)
    requires |questionIds| <= idx < totalQuestions && idx != currentIndex
    ensures var b := Buttons(totalQuestions, currentIndex, questionIds, answers, marked)[idx];
            b.color == Inherit && b.variant == Outlined && !b.dot
  {
    var b := Buttons(totalQuestions, currentIndex, questionIds, answers, marked)[idx];
    assert b == ButtonAt(idx, currentIndex, questionIds, answers, marked);
  }
}
