/** The proctoring monitor (src/hooks/useExamSecurity.ts): an append-only log
    of violations and a counter, fed by fullscreen, visibility and blur events
    while the exam is active.

    The browser's signals are parameters: `fullscreenElement` says whether
    `document.fullscreenElement` is set, `hidden` is `document.hidden`, `now`
    is `Date.now()`. The listeners are attached exactly while the exam is
    active (`Listening`); events that arrive otherwise reach no handler. */
module ExamSecurity {

  datatype ViolationKind = FullscreenExit | FocusLoss

  datatype Violation = Violation(kind: ViolationKind, timestamp: int, description: string)

  const FullscreenExitMessage := "Fullscreen mode exited. Please return to fullscreen immediately."
  const TabHiddenMessage := "Exam tab lost focus. Please stay on the exam page."
  const BlurMessage := "Window lost focus."

  class Monitor {
    var examActive: bool
    var isFullscreen: bool
    var violations: seq<Violation>
    var violationCount: int
    /** Calls to `requestFullscreen` issued by `EnterFullscreen`. */
    var fullscreenRequests: nat

    /** The counter always equals the length of the log. */
    ghost predicate Valid()
      reads this
    {
      violationCount == |violations|
    }

    /** Whether the fullscreen, visibility and blur listeners are attached:
        the effects install them exactly while the exam is active. */
    function Listening(): bool
      reads this
    {
      examActive
    }

    /** Mounting with the exam inactive: fullscreen assumed, nothing logged. */
    constructor ()
      ensures Valid()
      ensures !examActive && isFullscreen && violations == [] && violationCount == 0
      ensures fullscreenRequests == 0
    {
      examActive := false;
      isFullscreen := true;
      violations := [];
      violationCount := 0;
      fullscreenRequests := 0;
    }

    /** `addViolation`: when active, append one entry and count it; otherwise nothing. */
    method AddViolation(kind: ViolationKind, description: string, now: int)
      requires Valid()
      modifies this`violations, this`violationCount
      ensures Valid()
      ensures !examActive ==> violations == old(violations) && violationCount == old(violationCount)
      ensures examActive ==> violations == old(violations) + [Violation(kind, now, description)]
      ensures examActive ==> violationCount == old(violationCount) + 1
    {
      if !examActive {
        return;
      }
      violations := violations + [Violation(kind, now, description)];
      violationCount := violationCount + 1;
    }

    /** `handleFullscreenChange`: track the fullscreen state and log an exit. */
    method HandleFullscreenChange(fullscreenElement: bool, now: int)
      requires Valid()
      modifies this`isFullscreen, this`violations, this`violationCount
      ensures Valid()
      ensures isFullscreen == fullscreenElement
      ensures fullscreenElement || !examActive ==> violations == old(violations)
      ensures !fullscreenElement && examActive ==>
                violations == old(violations) + [Violation(FullscreenExit, now, FullscreenExitMessage)]
    {
      isFullscreen := fullscreenElement;
      if !fullscreenElement {
        AddViolation(FullscreenExit, FullscreenExitMessage, now);
      }
    }

    /** The `isExamActive` prop changes: on activation the listeners are
        attached and the fullscreen handler runs once straight away. */
    method SetExamActive(active: bool, fullscreenElement: bool, now: int)
      requires Valid()
      modifies this`examActive, this`isFullscreen, this`violations, this`violationCount
      ensures Valid() && examActive == active
      ensures active && !old(examActive) ==> isFullscreen == fullscreenElement
      ensures active && !old(examActive) && !fullscreenElement ==>
                violations == old(violations) + [Violation(FullscreenExit, now, FullscreenExitMessage)]
      ensures !(active && !old(examActive)) || fullscreenElement ==> violations == old(violations)
      ensures !(active && !old(examActive)) ==> isFullscreen == old(isFullscreen)
    {
      var activating := active && !examActive;
      examActive := active;
      if activating {
        HandleFullscreenChange(fullscreenElement, now);
      }
    }

    /** A `fullscreenchange` event; without a listener nothing happens. */
    method OnFullscreenChange(fullscreenElement: bool, now: int)
      requires Valid()
      modifies this`isFullscreen, this`violations, this`violationCount
      ensures Valid()
      ensures !Listening() ==> isFullscreen == old(isFullscreen) && violations == old(violations)
      ensures Listening() ==> isFullscreen == fullscreenElement
      ensures Listening() ==>
                violations == old(violations) + (if fullscreenElement then [] else [Violation(FullscreenExit, now, FullscreenExitMessage)])
    {
      if Listening() {
        HandleFullscreenChange(fullscreenElement, now);
      }
    }

    /** A `visibilitychange` event: a focus violation only when the tab is hidden. */
    method OnVisibilityChange(hidden: bool, now: int)
      requires Valid()
      modifies this`violations, this`violationCount
      ensures Valid()
      ensures violations == old(violations) + (if Listening() && hidden then [Violation(FocusLoss, now, TabHiddenMessage)] else [])
    {
      if Listening() && hidden {
        AddViolation(FocusLoss, TabHiddenMessage, now);
      }
    }

    /** A window `blur` event: always a focus violation. */
    method OnBlur(now: int)
      requires Valid()
      modifies this`violations, this`violationCount
      ensures Valid()
      ensures violations == old(violations) + (if Listening() then [Violation(FocusLoss, now, BlurMessage)] else [])
    {
      if Listening() {
        AddViolation(FocusLoss, BlurMessage, now);
      }
    }

    /** `enterFullscreen`: asks the browser for fullscreen only when no element
        is fullscreen yet. */
    method EnterFullscreen(fullscreenElement: bool) returns (requested: bool)
      modifies this`fullscreenRequests
      ensures requested <==> !fullscreenElement
      ensures fullscreenRequests == old(fullscreenRequests) + (if requested then 1 else 0)
    {
      requested := !fullscreenElement;
      if requested {
        fullscreenRequests := fullscreenRequests + 1;
      }
    }
  }

  /** Five fullscreen exits during an active exam leave five entries and a count of five. */
  method FiveExits(now: int)
  {
    var m := new Monitor();
    m.SetExamActive(true, true, now);
    m.OnFullscreenChange(false, now + 1);
    m.OnFullscreenChange(false, now + 2);
    m.OnFullscreenChange(false, now + 3);
    m.OnFullscreenChange(false, now + 4);
    m.OnFullscreenChange(false, now + 5);
    assert m.violationCount == 5 && !m.isFullscreen;
  }
}
