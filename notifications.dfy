/** The notification bar: counters of the error, warning and info messages
    logged so far, the last message shown, and the task-progress tracker
    whose newest active task is displayed on the task bar. */
module Notifications {
  import opened Wrappers

  /** A task of the task enumeration, by its ordinal. */
  type TaskID = nat

  datatype Message = Error(text: string) | Warning(text: string) | Info(text: string)

  /** The task bar: its text, its progress ratio and whether it already
      shows the idle state. */
  datatype TaskBar = TaskBar(text: string, progress: real, ready: bool)

  /** Shows a task and its progress. */
  function ShowProgress(bar: TaskBar, text: string, progress: real): (r: TaskBar)
    ensures r.text == text && r.progress == progress && !r.ready
  {
    TaskBar(text, progress, false)
  }

  /** Shows the idle state, unless the bar already shows it. */
  function ShowReady(bar: TaskBar): (r: TaskBar)
    ensures r.ready
    ensures bar.ready ==> r == bar
    ensures !bar.ready ==> r.text == "Ready" && r.progress == 0.0
  {
    if bar.ready then bar else TaskBar("Ready", 0.0, true)
  }

  /** A bar that is ready shows "Ready" with no progress; only setting
      its text directly while it is idle breaks this. */
  predicate Idle(bar: TaskBar) {
    bar.ready ==> bar.text == "Ready" && bar.progress == 0.0
  }

  /** The tasks in progress, oldest first, and the progress ratio of each. */
  datatype Tasks = Tasks(active: seq<TaskID>, progress: map<TaskID, real>)

  /** No element occurs twice. */
  predicate NoRepeats<T(==)>(s: seq<T>) {
    s == [] || (s[0] !in s[1..] && NoRepeats(s[1..]))
  }

  /** No task is active twice, and exactly the active tasks have a
      progress. */
  predicate WellFormed(ts: Tasks) {
    NoRepeats(ts.active)
    && (forall t :: t in ts.progress ==> t in ts.active)
    && (forall t :: t in ts.active ==> t in ts.progress)
  }

  /** The list with the first occurrence of `x` removed. */
  function RemoveFirst<T(==)>(s: seq<T>, x: T): (r: seq<T>)
    ensures x !in s ==> r == s
    ensures x in s ==> |r| == |s| - 1
  {
    if s == [] then []
    else if s[0] == x then s[1..]
    else [s[0]] + RemoveFirst(s[1..], x)
  }

  /** From a list without repeats, removing `x` keeps every other element
      and no repeat. */
  lemma {:induction false} RemoveFirstDistinct<T>(s: seq<T>, x: T)
    requires NoRepeats(s)
    ensures forall y :: y in RemoveFirst(s, x) <==> y in s && y != x
    ensures NoRepeats(RemoveFirst(s, x))
  {
    if s != [] && s[0] != x {
      RemoveFirstDistinct(s[1..], x);
      assert RemoveFirst(s, x) == [s[0]] + RemoveFirst(s[1..], x);
      assert RemoveFirst(s, x)[1..] == RemoveFirst(s[1..], x);
    }
  }

  /** Appending an element that is not there yet keeps a list free of
      repeats. */
  lemma {:induction false} AppendNoRepeats<T>(s: seq<T>, x: T)
    requires NoRepeats(s) && x !in s
    ensures NoRepeats(s + [x])
  {
    if s != [] {
      assert (s + [x])[1..] == s[1..] + [x];
      AppendNoRepeats(s[1..], x);
    }
  }

  /** The task is no longer tracked; a task that is not active leaves the
      tracker as it is. */
  function WithoutTask(ts: Tasks, task: TaskID): (r: Tasks) {
    if task in ts.active then Tasks(RemoveFirst(ts.active, task), ts.progress - {task}) else ts
  }

  /** Records a task's progress: a new task is appended with its ratio, an
      active task has its ratio replaced, or is cleared once the ratio
      reaches 1. */
  function WithProgress(ts: Tasks, task: TaskID, ratio: real): (r: Tasks) {
    if task in ts.active then
      if ratio >= 1.0 then WithoutTask(ts, task) else ts.(progress := ts.progress[task := ratio])
    else
      Tasks(ts.active + [task], ts.progress[task := ratio])
  }

  /** Clearing a task removes it from the tracker and leaves the other
      tasks and their progress as they were. */
  lemma WithoutTaskRemovesOnly(ts: Tasks, task: TaskID)
    requires WellFormed(ts)
    ensures WellFormed(WithoutTask(ts, task))
    ensures task !in WithoutTask(ts, task).active && task !in WithoutTask(ts, task).progress
    ensures forall t :: t != task ==>
      (t in WithoutTask(ts, task).active <==> t in ts.active)
      && (t in ts.progress ==> WithoutTask(ts, task).progress[t] == ts.progress[t])
  {
    RemoveFirstDistinct(ts.active, task);
  }

  /** Reporting progress keeps the tracker well formed: a task is tracked
      afterwards with the new ratio exactly when the ratio is below 1 or it
      was not tracked before. */
  lemma WithProgressWellFormed(ts: Tasks, task: TaskID, ratio: real)
    requires WellFormed(ts)
    ensures WellFormed(WithProgress(ts, task, ratio))
    ensures task in WithProgress(ts, task, ratio).active <==> task !in ts.active || ratio < 1.0
    ensures task in WithProgress(ts, task, ratio).progress ==> WithProgress(ts, task, ratio).progress[task] == ratio
    ensures task !in ts.active ==> WithProgress(ts, task, ratio).active == ts.active + [task]
  {
    if task in ts.active && ratio >= 1.0 {
      WithoutTaskRemovesOnly(ts, task);
    } else if task !in ts.active {
      AppendNoRepeats(ts.active, task);
    }
  }

  /** Starting a task and clearing it again restores the tracker. */
  lemma ClearUndoesStart(ts: Tasks, task: TaskID, ratio: real)
    requires WellFormed(ts) && task !in ts.active
    ensures WithoutTask(WithProgress(ts, task, ratio), task) == ts
  {
    var a := ts.active + [task];
    assert task in a;
    RemoveFirstAppended(ts.active, task);
    assert ts.progress[task := ratio] - {task} == ts.progress;
  }

  lemma {:induction false} RemoveFirstAppended<T>(s: seq<T>, x: T)
    requires x !in s
    ensures RemoveFirst(s + [x], x) == s
  {
    if s != [] {
      assert (s + [x])[1..] == s[1..] + [x];
      RemoveFirstAppended(s[1..], x);
    }
  }

  /** What the task bar shows for a tracker: the newest active task under
      its full name with its progress, or the idle state. */
  function Shown(ts: Tasks, bar: TaskBar, taskName: TaskID -> string): (r: TaskBar)
    requires WellFormed(ts)
  {
    if ts.active == [] then ShowReady(bar)
    else
      var current := ts.active[|ts.active| - 1];
      ShowProgress(bar, taskName(current), ts.progress[current])
  }

  /** The task bar shows the newest active task and its progress, or
      "Ready" with no progress when no task is active. */
  lemma ShownIsNewestOrReady(ts: Tasks, bar: TaskBar, taskName: TaskID -> string)
    requires WellFormed(ts) && Idle(bar)
    ensures Idle(Shown(ts, bar, taskName))
    ensures ts.active != [] ==>
      Shown(ts, bar, taskName).text == taskName(ts.active[|ts.active| - 1])
      && Shown(ts, bar, taskName).progress == ts.progress[ts.active[|ts.active| - 1]]
    ensures ts.active == [] ==> Shown(ts, bar, taskName).text == "Ready" && Shown(ts, bar, taskName).progress == 0.0
  {
  }

  /** The notification bar. `taskName` gives a task's full name for the
      task bar. */
  class NotificationBar {
    var errorMessages: seq<string>
    var warningMessages: seq<string>
    var infoMessages: seq<string>
    /** The message the last-message bar shows, with its style. */
    var lastMessage: Option<Message>
    var activeTasks: seq<TaskID>
    var tasksProgress: map<TaskID, real>
    var taskBar: TaskBar
    const taskName: TaskID -> string

    function Tracker(): Tasks
      reads this
    {
      Tasks(activeTasks, tasksProgress)
    }

    predicate Valid()
      reads this
    {
      WellFormed(Tracker())
    }

    constructor (taskName: TaskID -> string)
      ensures Valid() && Tracker() == Tasks([], map[])
      ensures errorMessages == [] && warningMessages == [] && infoMessages == []
    {
      errorMessages, warningMessages, infoMessages := [], [], [];
      lastMessage := None;
      activeTasks, tasksProgress := [], map[];
      taskBar := TaskBar("", 0.0, false);
      this.taskName := taskName;
    }

    /** The number shown beside the error icon: zero exactly when there is
        no message for `ShowLastError` to show. */
    function ErrorCount(): (n: nat)
      reads this
      ensures n == 0 <==> errorMessages == []
    {
      |errorMessages|
    }

    /** The number shown beside the warning icon: zero exactly when there is
        no message for `ShowLastWarning` to show. */
    function WarningCount(): (n: nat)
      reads this
      ensures n == 0 <==> warningMessages == []
    {
      |warningMessages|
    }

    /** The number shown beside the information icon: zero exactly when there is
        no message for `ShowLastInfo` to show. */
    function InfoCount(): (n: nat)
      reads this
      ensures n == 0 <==> infoMessages == []
    {
      |infoMessages|
    }

    /** Logs an error: it is counted and shown as the last message. */
    method AddError(message: string)
      modifies this
      ensures errorMessages == old(errorMessages) + [message] && ErrorCount() == old(ErrorCount()) + 1
      ensures lastMessage == Some(Error(message))
      ensures warningMessages == old(warningMessages) && infoMessages == old(infoMessages)
      ensures Tracker() == old(Tracker()) && taskBar == old(taskBar)
    {
      errorMessages := errorMessages + [message];
      lastMessage := Some(Error(message));
    }

    /** Logs a warning: it is counted and shown as the last message. */
    method AddWarning(message: string)
      modifies this
      ensures warningMessages == old(warningMessages) + [message] && WarningCount() == old(WarningCount()) + 1
      ensures lastMessage == Some(Warning(message))
      ensures errorMessages == old(errorMessages) && infoMessages == old(infoMessages)
      ensures Tracker() == old(Tracker()) && taskBar == old(taskBar)
    {
      warningMessages := warningMessages + [message];
      lastMessage := Some(Warning(message));
    }

    /** Logs an information message: it is counted and shown as the last
        message. */
    method AddInfo(message: string)
      modifies this
      ensures infoMessages == old(infoMessages) + [message] && InfoCount() == old(InfoCount()) + 1
      ensures lastMessage == Some(Info(message))
      ensures errorMessages == old(errorMessages) && warningMessages == old(warningMessages)
      ensures Tracker() == old(Tracker()) && taskBar == old(taskBar)
    {
      infoMessages := infoMessages + [message];
      lastMessage := Some(Info(message));
    }

    /** Shows the newest error again; without errors nothing changes. */
    method ShowLastError()
      modifies this
      ensures errorMessages == [] ==> lastMessage == old(lastMessage)
      ensures errorMessages != [] ==> lastMessage == Some(Error(errorMessages[|errorMessages| - 1]))
      ensures errorMessages == old(errorMessages) && warningMessages == old(warningMessages)
      ensures infoMessages == old(infoMessages) && Tracker() == old(Tracker()) && taskBar == old(taskBar)
    {
      if errorMessages != [] {
        lastMessage := Some(Error(errorMessages[|errorMessages| - 1]));
      }
    }

    /** Shows the newest warning again, styled as a warning; without
        warnings nothing changes. */
    method ShowLastWarning()
      modifies this
      ensures warningMessages == [] ==> lastMessage == old(lastMessage)
      ensures warningMessages != [] ==> lastMessage == Some(Warning(warningMessages[|warningMessages| - 1]))
      ensures errorMessages == old(errorMessages) && warningMessages == old(warningMessages)
      ensures infoMessages == old(infoMessages) && Tracker() == old(Tracker()) && taskBar == old(taskBar)
    {
      if warningMessages != [] {
        lastMessage := Some(Warning(warningMessages[|warningMessages| - 1]));
      }
    }

    /** Shows the newest warning again as the bar does it: styled as an
        error. */
    method ShowLastWarningAsWritten()
      modifies this
      ensures warningMessages == [] ==> lastMessage == old(lastMessage)
      ensures warningMessages != [] ==> lastMessage == Some(Error(warningMessages[|warningMessages| - 1]))
      ensures errorMessages == old(errorMessages) && warningMessages == old(warningMessages)
      ensures infoMessages == old(infoMessages) && Tracker() == old(Tracker()) && taskBar == old(taskBar)
    {
      if warningMessages != [] {
        lastMessage := Some(Error(warningMessages[|warningMessages| - 1]));
      }
    }

    /** Shows the newest information message again, styled as one; without
        any nothing changes. */
    method ShowLastInfo()
      modifies this
      ensures infoMessages == [] ==> lastMessage == old(lastMessage)
      ensures infoMessages != [] ==> lastMessage == Some(Info(infoMessages[|infoMessages| - 1]))
      ensures errorMessages == old(errorMessages) && warningMessages == old(warningMessages)
      ensures infoMessages == old(infoMessages) && Tracker() == old(Tracker()) && taskBar == old(taskBar)
    {
      if infoMessages != [] {
        lastMessage := Some(Info(infoMessages[|infoMessages| - 1]));
      }
    }

    /** Shows the newest information message again as the bar does it:
        styled as an error. */
    method ShowLastInfoAsWritten()
      modifies this
      ensures infoMessages == [] ==> lastMessage == old(lastMessage)
      ensures infoMessages != [] ==> lastMessage == Some(Error(infoMessages[|infoMessages| - 1]))
      ensures errorMessages == old(errorMessages) && warningMessages == old(warningMessages)
      ensures infoMessages == old(infoMessages) && Tracker() == old(Tracker()) && taskBar == old(taskBar)
    {
      if infoMessages != [] {
        lastMessage := Some(Error(infoMessages[|infoMessages| - 1]));
      }
    }

    /** Redraws the task bar from the tracker. */
    method UpdateTaskBar()
      requires Valid()
      modifies this
      ensures Valid() && taskBar == Shown(Tracker(), old(taskBar), taskName)
      ensures old(Idle(taskBar)) ==> Idle(taskBar)
      ensures Tracker() == old(Tracker()) && lastMessage == old(lastMessage)
      ensures errorMessages == old(errorMessages) && warningMessages == old(warningMessages)
      ensures infoMessages == old(infoMessages)
    {
      if |activeTasks| == 0 {
        taskBar := ShowReady(taskBar);
      } else {
        var currentTaskID := activeTasks[|activeTasks| - 1];
        taskBar := ShowProgress(taskBar, taskName(currentTaskID), tasksProgress[currentTaskID]);
      }
    }

    /** Stops tracking a task and redraws the task bar. */
    method ClearTask(taskID: TaskID)
      requires Valid()
      modifies this
      ensures Valid() && Tracker() == WithoutTask(old(Tracker()), taskID)
      ensures taskBar == Shown(Tracker(), old(taskBar), taskName)
      ensures lastMessage == old(lastMessage) && errorMessages == old(errorMessages)
      ensures warningMessages == old(warningMessages) && infoMessages == old(infoMessages)
    {
      WithoutTaskRemovesOnly(Tracker(), taskID);
      if taskID in activeTasks {
        tasksProgress := tasksProgress - {taskID};
        activeTasks := RemoveFirst(activeTasks, taskID);
      }
      UpdateTaskBar();
    }

    /** Writes a text on the task bar, leaving its progress and its idle
        flag alone. */
    method SetTaskText(text: string)
      modifies this
      ensures taskBar == old(taskBar).(text := text)
      ensures Tracker() == old(Tracker()) && lastMessage == old(lastMessage)
      ensures errorMessages == old(errorMessages) && warningMessages == old(warningMessages)
      ensures infoMessages == old(infoMessages)
    {
      taskBar := taskBar.(text := text);
    }

    /** Records a task's progress and redraws the task bar; a ratio of 1 or
        more completes an active task. */
    method SetTaskProgress(taskID: TaskID, progressRatio: real)
      requires Valid()
      modifies this
      ensures Valid() && Tracker() == WithProgress(old(Tracker()), taskID, progressRatio)
      ensures taskBar == Shown(Tracker(), if taskID in old(activeTasks) && progressRatio >= 1.0
                                       then Shown(Tracker(), old(taskBar), taskName) else old(taskBar), taskName)
      ensures lastMessage == old(lastMessage) && errorMessages == old(errorMessages)
      ensures warningMessages == old(warningMessages) && infoMessages == old(infoMessages)
    {
      WithProgressWellFormed(Tracker(), taskID, progressRatio);
      if taskID in activeTasks {
        if progressRatio >= 1.0 {
          ClearTask(taskID);
        } else {
          tasksProgress := tasksProgress[taskID := progressRatio];
        }
      } else {
        tasksProgress := tasksProgress[taskID := progressRatio];
        activeTasks := activeTasks + [taskID];
      }
      UpdateTaskBar();
    }
  }
}
