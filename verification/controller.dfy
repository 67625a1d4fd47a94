/** The component itself: its hook state as the fields of one object, and its
    handlers, its timer effect and the effect's interval as methods that
    update those fields in place. Each method is proved to leave the object
    in the state the matching function of module Session gives, and to keep
    the invariant Session.Valid. */
module Controller {
  import opened Tasks
  import Session

  class SessionController {
    var phase: Session.Phase
    var totalSessionMinutes: Session.Minutes
    var secondsLeft: int
    var tasks: seq<Task>
    var currentTask: string
    var completedSessions: nat

    /** The fields as one value of the state machine. */
    function Snapshot(): Session.State
      reads this
    {
      Session.State(phase, totalSessionMinutes, secondsLeft, tasks, currentTask, completedSessions)
    }

    ghost predicate Valid()
      reads this
    {
      Session.Valid(Snapshot())
    }

    /** The first render: setup, length 0, no tasks, nothing completed. */
    constructor ()
      ensures Valid() && Snapshot() == Session.Initial()
    {
      phase := Session.Setup;
      totalSessionMinutes := Session.Whole(0);
      secondsLeft := 0;
      tasks := [];
      currentTask := "";
      completedSessions := 0;
    }

    /** The minutes field's change handler; the field is shown in setup only. */
    method SetMinutes(m: Session.Minutes)
      requires Valid() && phase == Session.Setup
      modifies this
      ensures Valid() && Snapshot() == Session.EnterMinutes(old(Snapshot()), m)
    {
      totalSessionMinutes := m;
    }

    /** handleStartSession; its button is shown in setup only. `started` is
        false exactly when the component shows its alert. */
    method Start() returns (started: bool)
      requires Valid() && phase == Session.Setup
      modifies this
      ensures started == Session.CanStart(old(totalSessionMinutes))
      ensures Valid() && Snapshot() == Session.Start(old(Snapshot()))
    {
      started := Session.CanStart(totalSessionMinutes);
      if started {
        secondsLeft := Session.TaskEntrySeconds;
        phase := Session.TaskEntry;
        tasks := [];
      }
    }

    /** One run of the timer effect. */
    method Step()
      requires Valid()
      modifies this
      ensures Valid() && Snapshot() == Session.Step(old(Snapshot()))
    {
      if phase == Session.Setup || phase == Session.Complete {
        return;
      }
      if secondsLeft == 0 {
        if phase == Session.TaskEntry {
          var workTime := match totalSessionMinutes
            case NotANumber => 0
            case Whole(n) => n * 60 - Session.TaskEntrySeconds - Session.WindDownSeconds;
          secondsLeft := if workTime > 0 then workTime else 0;
          phase := Session.Work;
        } else if phase == Session.Work {
          secondsLeft := Session.WindDownSeconds;
          phase := Session.WindDown;
        } else if phase == Session.WindDown {
          completedSessions := completedSessions + 1;
          phase := Session.Complete;
        }
      }
    }

    /** One firing of the interval the effect arms. */
    method Tick()
      requires Valid()
      modifies this
      ensures Valid() && Snapshot() == Session.Tick(old(Snapshot()))
      ensures secondsLeft >= 0
    {
      if Session.Ticking(phase) && secondsLeft != 0 {
        secondsLeft := secondsLeft - 1;
      }
    }

    /** handleSkipPhase; a skip button is shown in each ticking phase. */
    method Skip()
      requires Valid() && Session.Ticking(phase)
      modifies this
      ensures Valid() && Snapshot() == Session.Skip(old(Snapshot()))
    {
      secondsLeft := 0;
    }

    /** The "Start Another" button, shown once the session is complete. */
    method StartAnother()
      requires Valid() && phase == Session.Complete
      modifies this
      ensures Valid() && Snapshot() == Session.StartAnother(old(Snapshot()))
      ensures completedSessions == old(completedSessions)
    {
      phase := Session.Setup;
    }

    /** The task entry field's change handler, shown during task entry. */
    method SetCurrentTask(text: string)
      requires Valid() && phase == Session.TaskEntry
      modifies this
      ensures Valid() && Snapshot() == Session.EnterTaskText(old(Snapshot()), text)
    {
      currentTask := text;
    }

    /** handleAddTask, with `now` standing for the clock reading used as id. */
    method AddTask(now: int)
      requires Valid() && phase == Session.TaskEntry
      modifies this
      ensures Valid() && Snapshot() == Session.SubmitTask(old(Snapshot()), now)
    {
      if Trim(currentTask) != [] {
        tasks := tasks + [Task(now, currentTask, false)];
        currentTask := "";
      }
    }

    /** handleToggleTask; tasks are clickable in the work phase. */
    method ToggleTask(id: int)
      requires Valid() && phase == Session.Work
      modifies this
      ensures Valid() && Snapshot() == Session.ClickTask(old(Snapshot()), id)
    {
      tasks := Tasks.ToggleTask(tasks, id);
    }
  }
}
