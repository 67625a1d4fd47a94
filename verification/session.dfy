/** The session controller as a state machine over values. The component
    holds its state in hooks and changes it from event handlers and from one
    effect; here each handler, each run of the timer effect and each firing
    of its interval is a function from the state before to the state after.
    The class in module Controller is proved against these functions. */
module Session {
  import opened Tasks

  /** Length of the task-entry phase, in seconds. */
  const TaskEntrySeconds: nat := 300
  /** Length of the wind-down phase, in seconds. */
  const WindDownSeconds: nat := 300
  /** The shortest session that may start: task entry, one minute of work,
      wind-down. */
  const MinimumMinutes: int := 11

  datatype Phase = Setup | TaskEntry | Work | WindDown | Complete

  /** What `parseInt` leaves in the minutes field: a whole number, or NaN
      when the field does not start with one. */
  datatype Minutes = NotANumber | Whole(value: int)

  /** The component's state: the phase, the session length, the countdown,
      the task list, the text in the task entry field, and the number of
      sessions completed since the page was loaded. */
  datatype State = State(
    phase: Phase,
    totalMinutes: Minutes,
    secondsLeft: int,
    tasks: seq<Task>,
    draft: string,
    completedSessions: nat)

  /** The state on first render. */
  function Initial(): State {
    State(Setup, Whole(0), 0, [], "", 0)
  }

  /** The phases in which the countdown runs. */
  predicate Ticking(p: Phase) {
    p != Setup && p != Complete
  }

  /** The fixed order of phases, which wraps round from complete to setup. */
  function NextPhase(p: Phase): Phase {
    match p
    case Setup => TaskEntry
    case TaskEntry => Work
    case Work => WindDown
    case WindDown => Complete
    case Complete => Setup
  }

  /** The start check `totalSessionMinutes >= 11`; NaN fails it. */
  predicate CanStart(m: Minutes) {
    m.Whole? && m.value >= MinimumMinutes
  }

  /** Length of the work phase: what is left of the session once task entry
      and wind-down are taken out, and never negative. For a session that may
      start, the three timed phases fill it exactly and work lasts at least a
      minute. */
  function WorkSeconds(m: Minutes): (r: nat)
    ensures m.Whole? && m.value * 60 >= TaskEntrySeconds + WindDownSeconds ==>
              TaskEntrySeconds + r + WindDownSeconds == m.value * 60
    ensures !m.Whole? || m.value * 60 <= TaskEntrySeconds + WindDownSeconds ==> r == 0
    ensures CanStart(m) ==> r >= 60
  {
    match m
    case NotANumber => 0
    case Whole(n) =>
      var workTime := n * 60 - TaskEntrySeconds - WindDownSeconds;
      if workTime > 0 then workTime else 0
  }

  /** How long a phase lasts when it is entered; the untimed phases last 0. */
  function Duration(p: Phase, m: Minutes): nat {
    match p
    case TaskEntry => TaskEntrySeconds
    case Work => WorkSeconds(m)
    case WindDown => WindDownSeconds
    case _ => 0
  }

  /** The invariant of every state the component can reach: the countdown is
      never negative and never more than its phase's length (so it is 0 in
      setup and complete), and once a session has started its length is one
      that may start. */
  predicate Valid(s: State) {
    && 0 <= s.secondsLeft <= Duration(s.phase, s.totalMinutes)
    && (s.phase != Setup ==> CanStart(s.totalMinutes))
  }

  lemma InitialValid()
    ensures Valid(Initial()) && Initial().secondsLeft == 0
  {
  }

  /** The change handler of the minutes field. Nothing but the minutes
      changes; in setup the state stays valid whatever was typed. */
  function EnterMinutes(s: State, m: Minutes): (r: State)
    ensures r.totalMinutes == m && r.(totalMinutes := s.totalMinutes) == s
    ensures Valid(s) && s.phase == Setup ==> Valid(r)
  {
    s.(totalMinutes := m)
  }

  /** handleStartSession: with an acceptable length, task entry begins with
      its full five minutes and an empty task list; otherwise (the alert)
      nothing changes. The session counter, the minutes and the entry text
      are never touched. */
  function Start(s: State): (r: State)
    ensures CanStart(s.totalMinutes) ==>
              && r.phase == TaskEntry && r.secondsLeft == TaskEntrySeconds && r.tasks == []
              && r.(phase := s.phase, secondsLeft := s.secondsLeft, tasks := s.tasks) == s
    ensures !CanStart(s.totalMinutes) ==> r == s
    ensures Valid(s) ==> Valid(r)
  {
    if CanStart(s.totalMinutes) then
      s.(secondsLeft := TaskEntrySeconds, phase := TaskEntry, tasks := [])
    else
      s
  }

  /** One run of the timer effect. Outside the ticking phases, and while the
      countdown is above 0 (when the effect only arms its interval), it
      changes nothing. When the countdown is at 0 it moves to the next phase
      and loads that phase's length; leaving wind-down is the one place the
      session counter goes up, by exactly one. */
  function Step(s: State): (r: State)
    ensures !Ticking(s.phase) || s.secondsLeft != 0 ==> r == s
    ensures Ticking(s.phase) && s.secondsLeft == 0 ==>
              && r.phase == NextPhase(s.phase)
              && r.secondsLeft == Duration(r.phase, s.totalMinutes)
              && r.completedSessions == s.completedSessions + (if s.phase == WindDown then 1 else 0)
              && r.totalMinutes == s.totalMinutes && r.tasks == s.tasks && r.draft == s.draft
    ensures Valid(s) ==> Valid(r)
  {
    if s.phase == Setup || s.phase == Complete then s
    else if s.secondsLeft == 0 then
      if s.phase == TaskEntry then
        var workTime := match s.totalMinutes
          case NotANumber => 0
          case Whole(n) => n * 60 - TaskEntrySeconds - WindDownSeconds;
        s.(secondsLeft := if workTime > 0 then workTime else 0, phase := Work)
      else if s.phase == Work then
        s.(secondsLeft := WindDownSeconds, phase := WindDown)
      else
        s.(completedSessions := s.completedSessions + 1, phase := Complete)
    else s
  }

  /** One firing of the interval. It is armed only in a ticking phase with
      the countdown away from 0 and is cleared as soon as either changes, so
      a firing takes exactly one second off and nothing else; otherwise no
      interval exists and nothing happens. The countdown never goes below 0. */
  function Tick(s: State): (r: State)
    ensures Ticking(s.phase) && s.secondsLeft != 0 ==> r == s.(secondsLeft := s.secondsLeft - 1)
    ensures !Ticking(s.phase) || s.secondsLeft == 0 ==> r == s
    ensures Valid(s) ==> Valid(r) && r.secondsLeft >= 0
  {
    if Ticking(s.phase) && s.secondsLeft != 0 then s.(secondsLeft := s.secondsLeft - 1) else s
  }

  /** handleSkipPhase: the countdown is forced to 0 and nothing else changes;
      the next run of the effect makes the transition. */
  function Skip(s: State): (r: State)
    ensures r.secondsLeft == 0 && r.(secondsLeft := s.secondsLeft) == s
    ensures Valid(s) ==> Valid(r)
  {
    s.(secondsLeft := 0)
  }

  /** The "Start Another" button: back to setup, keeping the session counter
      (and everything else). */
  function StartAnother(s: State): (r: State)
    ensures r.phase == Setup && r.completedSessions == s.completedSessions
    ensures r.(phase := s.phase) == s
    ensures Valid(s) && s.phase == Complete ==> Valid(r)
  {
    s.(phase := Setup)
  }

  /** The change handler of the task entry field. */
  function EnterTaskText(s: State, text: string): (r: State)
    ensures r.draft == text && r.(draft := s.draft) == s
    ensures Valid(s) ==> Valid(r)
  {
    s.(draft := text)
  }

  /** handleAddTask, with `now` standing for the clock reading used as the
      new task's id. A blank entry changes nothing; otherwise the entry is
      appended to the list and the field is cleared. */
  function SubmitTask(s: State, now: int): (r: State)
    ensures r.tasks == AddTask(s.tasks, now, s.draft)
    ensures r.draft == (if Trim(s.draft) == [] then s.draft else "")
    ensures r.(tasks := s.tasks, draft := s.draft) == s
    ensures Valid(s) ==> Valid(r)
  {
    if Trim(s.draft) == [] then s
    else s.(tasks := s.tasks + [Task(now, s.draft, false)], draft := "")
  }

  /** handleToggleTask on the state's list. */
  function ClickTask(s: State, id: int): (r: State)
    ensures r.tasks == ToggleTask(s.tasks, id) && r.(tasks := s.tasks) == s
    ensures Valid(s) ==> Valid(r)
  {
    s.(tasks := ToggleTask(s.tasks, id))
  }

  /** Everything that can change the state: the user's inputs, each run of
      the timer effect and each firing of its interval. */
  datatype Event =
    | MinutesTyped(minutes: Minutes)
    | StartClicked
    | TaskTyped(text: string)
    | AddClicked(now: int)
    | TaskClicked(id: int)
    | SkipClicked
    | StartAnotherClicked
    | EffectRan
    | IntervalFired

  /** Whether the control that raises `e` is on screen in phase `p`: each
      phase renders its own controls, a skip button in each ticking phase. */
  predicate OnScreen(p: Phase, e: Event) {
    match e
    case MinutesTyped(_) => p == Setup
    case StartClicked => p == Setup
    case TaskTyped(_) => p == TaskEntry
    case AddClicked(_) => p == TaskEntry
    case TaskClicked(_) => p == Work
    case SkipClicked => Ticking(p)
    case StartAnotherClicked => p == Complete
    case EffectRan => true
    case IntervalFired => true
  }

  /** The effect of one event. A control that is not on screen cannot be
      used, so its event changes nothing. Every event keeps the state valid;
      the phase either stays or moves one step along the fixed order; the
      session counter goes up by one exactly when wind-down gives way to
      complete and otherwise stays; the session length changes only in
      setup; the task list is emptied only by a start. */
  function Apply(s: State, e: Event): (r: State)
    ensures !OnScreen(s.phase, e) ==> r == s
    ensures Valid(s) ==> Valid(r)
    ensures r.phase == s.phase || r.phase == NextPhase(s.phase)
    ensures r.completedSessions
              == s.completedSessions + (if s.phase == WindDown && r.phase == Complete then 1 else 0)
    ensures r.totalMinutes != s.totalMinutes ==> s.phase == Setup && r.phase == Setup
    ensures r.tasks != s.tasks && r.tasks == [] ==> s.phase == Setup && r.phase == TaskEntry
  {
    if !OnScreen(s.phase, e) then s
    else
      match e
      case MinutesTyped(m) => EnterMinutes(s, m)
      case StartClicked => Start(s)
      case TaskTyped(text) => EnterTaskText(s, text)
      case AddClicked(now) => SubmitTask(s, now)
      case TaskClicked(id) => ClickTask(s, id)
      case SkipClicked => Skip(s)
      case StartAnotherClicked => StartAnother(s)
      case EffectRan => Step(s)
      case IntervalFired => Tick(s)
  }

  /** The state after a sequence of events. */
  function Run(s: State, events: seq<Event>): State
    decreases |events|
  {
    if events == [] then s else Run(Apply(s, events[0]), events[1..])
  }

  /** Every state reachable from a valid one is valid, and the session
      counter never goes down. */
  lemma {:induction false} RunKeepsValid(s: State, events: seq<Event>)
    requires Valid(s)
    ensures Valid(Run(s, events))
    ensures Run(s, events).completedSessions >= s.completedSessions
    decreases |events|
  {
    if events != [] {
      RunKeepsValid(Apply(s, events[0]), events[1..]);
    }
  }

  /** From the first render, whatever happens, the countdown is never
      negative and a session in progress is at least eleven minutes long. */
  lemma ReachableStates(events: seq<Event>)
    ensures Run(Initial(), events).secondsLeft >= 0
    ensures Run(Initial(), events).phase != Setup ==>
              Run(Initial(), events).totalMinutes.Whole?
              && Run(Initial(), events).totalMinutes.value >= MinimumMinutes
  {
    InitialValid();
    RunKeepsValid(Initial(), events);
  }

  /** `n` firings of the interval in a row. */
  function Ticks(s: State, n: nat): (r: State)
    ensures s.secondsLeft >= 0 ==> r.secondsLeft >= 0
    ensures Valid(s) ==> Valid(r)
    decreases n
  {
    if n == 0 then s else Ticks(Tick(s), n - 1)
  }

  /** In a ticking phase, `n` firings take exactly `n` seconds off, as long
      as the countdown does not pass 0, and change nothing else. */
  lemma {:induction false} TicksCountDown(s: State, n: nat)
    requires Ticking(s.phase) && n <= s.secondsLeft
    ensures Ticks(s, n) == s.(secondsLeft := s.secondsLeft - n)
    decreases n
  {
    if n > 0 {
      TicksCountDown(Tick(s), n - 1);
    }
  }

  /** Running the countdown down to 0, then the effect: the natural end of a
      phase. */
  function Timeout(s: State): (r: State)
    requires s.secondsLeft >= 0
    ensures r.secondsLeft >= 0
  {
    Step(Ticks(s, s.secondsLeft))
  }

  /** Skipping is the same as waiting: in a ticking phase, the state a skip
      leaves is the one the countdown reaches by itself, so the effect that
      follows makes the same transition as a natural timeout. */
  lemma SkipIsTimeout(s: State)
    requires Ticking(s.phase) && s.secondsLeft >= 0
    ensures Ticks(s, s.secondsLeft) == Skip(s)
    ensures Step(Skip(s)) == Timeout(s)
  {
    TicksCountDown(s, s.secondsLeft);
  }

  /** The effect does not transition twice: once it has moved to the next
      phase, running it again changes nothing until time passes. */
  lemma StepSettles(s: State)
    requires Valid(s)
    ensures Step(Step(s)) == Step(s)
  {
  }

  /** A whole session run to the end without skipping: started with an
      acceptable length, it passes through task entry, work and wind-down,
      whose lengths add up to exactly the minutes entered, ends complete with
      the counter one higher and leaves the length and entry text as they
      were. */
  lemma {:induction false} WholeSession(s: State)
    requires Valid(s) && s.phase == Setup && CanStart(s.totalMinutes)
    ensures var entry := Start(s);
            var work := Timeout(entry);
            var windDown := Timeout(work);
            var complete := Timeout(windDown);
            && entry.phase == TaskEntry && work.phase == Work
            && windDown.phase == WindDown && complete.phase == Complete
            && entry.secondsLeft + work.secondsLeft + windDown.secondsLeft
               == s.totalMinutes.value * 60
            && complete.completedSessions == s.completedSessions + 1
            && complete.totalMinutes == s.totalMinutes && complete.draft == s.draft
  {
    var entry := Start(s);
    TicksCountDown(entry, entry.secondsLeft);
    var work := Timeout(entry);
    TicksCountDown(work, work.secondsLeft);
    var windDown := Timeout(work);
    TicksCountDown(windDown, windDown.secondsLeft);
  }

  /** Background of the countdown display (getTimerStyle). */
  datatype Color = Plain | Green | Yellow | Red

  /** getTimerStyle: only the work phase is coloured, by the fraction
      `secondsLeft / workTime`, where `workTime` is computed without the
      floor at 0: red below a fifth, else yellow below a half, else green.
      The body decides each floating-point comparison with integers, one
      case per sign of `workTime` (a zero divisor gives NaN or an infinity,
      which NaN minutes also give); the contract states the comparisons on
      exact quotients. */
  function TimerColor(s: State): (c: Color)
    ensures c == Plain <==> s.phase != Work
    ensures s.phase == Work && s.totalMinutes.Whole?
            && s.totalMinutes.value * 60 - TaskEntrySeconds - WindDownSeconds != 0 ==>
              var fraction := (s.secondsLeft as real)
                              / ((s.totalMinutes.value * 60 - TaskEntrySeconds - WindDownSeconds) as real);
              && (c == Red <==> fraction < 0.2)
              && (c == Yellow <==> 0.2 <= fraction < 0.5)
              && (c == Green <==> 0.5 <= fraction)
  {
    if s.phase != Work then Plain
    else
      match s.totalMinutes
      case NotANumber => Green
      case Whole(n) =>
        var w := n * 60 - TaskEntrySeconds - WindDownSeconds;
        var t := s.secondsLeft;
        FractionBelow(t, w, 1, 2);
        FractionBelow(t, w, 1, 5);
        var belowHalf := if w > 0 then 2 * t < w else if w < 0 then 2 * t > w else t < 0;
        var belowFifth := if w > 0 then 5 * t < w else if w < 0 then 5 * t > w else t < 0;
        if belowFifth then Red else if belowHalf then Yellow else Green
  }

  /** `t / w < a / b` decided without division, for a non-zero `w` and a
      positive `b`. */
  lemma FractionBelow(t: int, w: int, a: int, b: int)
    requires b > 0
    ensures w > 0 ==> ((t as real) / (w as real) < (a as real) / (b as real) <==> b * t < a * w)
    ensures w < 0 ==> ((t as real) / (w as real) < (a as real) / (b as real) <==> b * t > a * w)
  {
  }

  /** In every reachable work state the work length is positive, so the
      colour follows the integer thresholds: yellow from exactly half left
      down, red from exactly a fifth left down. */
  lemma TimerColorInWork(s: State)
    requires Valid(s) && s.phase == Work
    ensures var w := WorkSeconds(s.totalMinutes);
            && w > 0
            && (TimerColor(s) == Red <==> 5 * s.secondsLeft < w)
            && (TimerColor(s) == Yellow <==> 2 * s.secondsLeft < w <= 5 * s.secondsLeft)
            && (TimerColor(s) == Green <==> w <= 2 * s.secondsLeft)
  {
  }
}
