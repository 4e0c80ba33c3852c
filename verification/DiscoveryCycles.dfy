/** What a listener does over its poll cycles, whatever happens around it: every family is visited and
    every listed id is polled, the shutdown flag is checked, and failures are reported. */
module DiscoveryCycles {
  import opened Wrappers
  import opened Discovery
  import opened DiscoveryInvariants

  // ---------------------------------------------------------------- stations of a run

  /** In the run listener `l` makes a step that satisfies `f`, told by where it stands and what is chosen. */
  predicate Passes(s: State, evs: seq<Event>, l: ListenerId, f: (ListenerPc, Choice) -> bool)
    decreases |evs|
  {
    evs != [] && Enabled(s, evs[0]) &&
    ((evs[0].ListenerStep? && evs[0].l == l && f(s.listeners[l].pc, evs[0].choice))
     || Passes(Apply(s, evs[0]), evs[1..], l, f))
  }

  /** A listener leaves the places `stays` only by a step that satisfies `f`. */
  ghost predicate OnlyThrough(l: ListenerId, stays: ListenerPc -> bool, f: (ListenerPc, Choice) -> bool) {
    forall s, c | Enabled(s, ListenerStep(l, c)) && stays(s.listeners[l].pc) && !f(s.listeners[l].pc, c) ::
      stays(StepListener(s, l, c).listeners[l].pc)
  }

  lemma OthersDoNotMove(s: State, ev: Event, l: ListenerId)
    requires Enabled(s, ev) && l < |s.listeners| && !(ev.ListenerStep? && ev.l == l)
    ensures l < |Apply(s, ev).listeners| && Apply(s, ev).listeners[l] == s.listeners[l]
  {
    if ev.ListenerStep? { OthersWait(s, ev.l, ev.choice, l); }
  }

  lemma {:induction false} LeavesThrough(s: State, evs: seq<Event>, s': State, l: ListenerId,
                                         stays: ListenerPc -> bool, f: (ListenerPc, Choice) -> bool)
    requires Run(s, evs, s') && OnlyThrough(l, stays, f) && l < |s.listeners| && stays(s.listeners[l].pc)
    ensures l < |s'.listeners| && (stays(s'.listeners[l].pc) || Passes(s, evs, l, f))
    decreases |evs|
  {
    if evs != [] {
      var ev := evs[0];
      if ev.ListenerStep? && ev.l == l {
        OthersWait(s, l, ev.choice, l);
        if !f(s.listeners[l].pc, ev.choice) {
          LeavesThrough(Apply(s, ev), evs[1..], s', l, stays, f);
        } else {
          KeepsListener(Apply(s, ev), evs[1..], s', l);
        }
      } else {
        OthersDoNotMove(s, ev, l);
        LeavesThrough(Apply(s, ev), evs[1..], s', l, stays, f);
      }
    }
  }

  lemma {:induction false} KeepsListener(s: State, evs: seq<Event>, s': State, l: ListenerId)
    requires Run(s, evs, s') && l < |s.listeners|
    ensures l < |s'.listeners|
    decreases |evs|
  {
    if evs != [] {
      if evs[0].ListenerStep? { OthersWait(s, evs[0].l, evs[0].choice, l); }
      KeepsListener(Apply(s, evs[0]), evs[1..], s', l);
    }
  }

  // ---------------------------------------------------------------- one enumeration

  /** The listener is between the enumeration of family `k` and the next stage. */
  predicate InStage(pc: ListenerPc, k: Kind) {
    || ((pc.Scan? || pc.Purge? || pc.PurgeSend? || pc.Poll? || pc.CheckHandle? || pc.Open?) && pc.kind == k)
    || (pc.SpawnSend? && k.Ledger?)
  }

  /** And has not polled this id yet. */
  predicate ToPoll(pc: ListenerPc, k: Kind, id: Id) {
    InStage(pc, k) &&
    match pc
    case Scan(_, connected) => id in connected
    case Purge(_, connected, _) => id in connected
    case PurgeSend(_, connected) => id in connected
    case Poll(_, todo) => id in todo
    case CheckHandle(_, _, todo) => id in todo
    case Open(_, _, todo) => id in todo
    case SpawnSend(todo) => id in todo
    case _ => false
  }

  predicate Polls(pc: ListenerPc, k: Kind, id: Id) {
    pc.Poll? && pc.kind == k && pc.todo != [] && pc.todo[0] == id
  }

  lemma PollingGoesOn(l: ListenerId, k: Kind, id: Id)
    ensures OnlyThrough(l, (pc: ListenerPc) => ToPoll(pc, k, id), (pc: ListenerPc, _: Choice) => Polls(pc, k, id))
  {
    forall s, c | Enabled(s, ListenerStep(l, c)) && ToPoll(s.listeners[l].pc, k, id) && !Polls(s.listeners[l].pc, k, id)
      ensures ToPoll(StepListener(s, l, c).listeners[l].pc, k, id)
    {
      var pc := s.listeners[l].pc;
      if pc.Poll? { assert pc.todo == [pc.todo[0]] + pc.todo[1..]; }
    }
  }

  /** Once an enumeration has listed an id, the stage does not end before the id was polled, whatever
      becomes of the other ids and whatever others do. */
  lemma EveryIdIsPolled(s: State, evs: seq<Event>, s': State, l: ListenerId, k: Kind, id: Id)
    requires Run(s, evs, s') && l < |s.listeners| && s.listeners[l].pc.Scan? && s.listeners[l].pc.kind == k
    requires id in s.listeners[l].pc.connected
    requires l < |s'.listeners| && !InStage(s'.listeners[l].pc, k)
    ensures Passes(s, evs, l, (pc: ListenerPc, _: Choice) => Polls(pc, k, id))
  {
    PollingGoesOn(l, k, id);
    LeavesThrough(s, evs, s', l, (pc: ListenerPc) => ToPoll(pc, k, id), (pc: ListenerPc, _: Choice) => Polls(pc, k, id));
  }

  lemma ScanNext(s: State, l: ListenerId, c: Choice, k: Kind, ids: seq<Id>)
    requires Enabled(s, ListenerStep(l, c)) && StepListener(s, l, c).listeners[l].pc == Scan(k, ids)
    ensures s.listeners[l].pc == Enumerate(k) && c == Found(ids)
  {}

  /** A cleanup works only on what an enumeration of its family found: one that fails evicts nothing. */
  lemma CleanupNeedsEnumeration(s: State, evs: seq<Event>, s': State, l: ListenerId, k: Kind, ids: seq<Id>)
    requires Run(s, evs, s') && l < |s.listeners| && s.listeners[l].pc != Scan(k, ids)
    requires l < |s'.listeners| && s'.listeners[l].pc == Scan(k, ids)
    ensures Passes(s, evs, l, (pc: ListenerPc, c: Choice) => pc == Enumerate(k) && c == Found(ids))
  {
    var stays := (pc: ListenerPc) => pc != Scan(k, ids);
    var f := (pc: ListenerPc, c: Choice) => pc == Enumerate(k) && c == Found(ids);
    forall s, c | Enabled(s, ListenerStep(l, c)) && stays(s.listeners[l].pc) && !f(s.listeners[l].pc, c)
      ensures stays(StepListener(s, l, c).listeners[l].pc)
    {
      if StepListener(s, l, c).listeners[l].pc == Scan(k, ids) { ScanNext(s, l, c, k, ids); }
    }
    LeavesThrough(s, evs, s', l, stays, f);
  }

  // ---------------------------------------------------------------- the cycle

  function Rank(k: Kind): nat {
    match k
    case SpecterSimulator => 0
    case Specter => 1
    case Jade => 2
    case LedgerSimulator => 3
    case BitBox02 => 4
    case Coldcard => 5
    case Ledger => 6
  }

  /** The families the listener is through with in this cycle, counted; all of them when it sleeps. */
  function Through(pc: ListenerPc): nat {
    match pc
    case Starting => 0
    case ShutdownCheck => 0
    case Refresh => 0
    case SpawnSend(_) => 6
    case Sleeping => 7
    case Exited => 0
    case _ => Rank(pc.kind)
  }

  /** The first step of a family's handler. */
  predicate Visits(pc: ListenerPc, k: Kind) {
    pc == if IsSimulator(k) then SimMap(k) else Enumerate(k)
  }

  predicate NotVisited(pc: ListenerPc, k: Kind) {
    !Begun(pc) || Through(pc) < Rank(k) || Visits(pc, k)
  }

  predicate Begun(pc: ListenerPc) {
    !pc.Starting? && !pc.ShutdownCheck? && !pc.Refresh? && !pc.Exited?
  }

  lemma FamiliesInTurn(l: ListenerId, k: Kind)
    ensures OnlyThrough(l, (pc: ListenerPc) => NotVisited(pc, k), (pc: ListenerPc, _: Choice) => Visits(pc, k))
  {
    forall s, c | Enabled(s, ListenerStep(l, c)) && NotVisited(s.listeners[l].pc, k) && !Visits(s.listeners[l].pc, k)
      ensures NotVisited(StepListener(s, l, c).listeners[l].pc, k)
    {
      VisitsNext(s, l, c, k);
    }
  }

  /** Within a family's stage, and at its end. */
  lemma StageNext(s: State, l: ListenerId, c: Choice)
    requires Enabled(s, ListenerStep(l, c)) && IsFamilyStage(s.listeners[l].pc)
    ensures var pc, next := s.listeners[l].pc, StepListener(s, l, c).listeners[l].pc;
            var k := if pc.SpawnSend? then Ledger else pc.kind;
            next == After(k) || (IsFamilyStage(next) && Through(next) == Through(pc))
  {}

  lemma VisitsNext(s: State, l: ListenerId, c: Choice, k: Kind)
    requires Enabled(s, ListenerStep(l, c)) && NotVisited(s.listeners[l].pc, k) && !Visits(s.listeners[l].pc, k)
    ensures NotVisited(StepListener(s, l, c).listeners[l].pc, k)
  {
    if IsFamilyStage(s.listeners[l].pc) { StageVisits(s, l, c, k); }
  }

  lemma StageVisits(s: State, l: ListenerId, c: Choice, k: Kind)
    requires Enabled(s, ListenerStep(l, c)) && IsFamilyStage(s.listeners[l].pc)
    requires NotVisited(s.listeners[l].pc, k) && !Visits(s.listeners[l].pc, k)
    ensures NotVisited(StepListener(s, l, c).listeners[l].pc, k)
  {
    StageNext(s, l, c);
    var pc := s.listeners[l].pc;
    NextVisited(if pc.SpawnSend? then Ledger else pc.kind, k);
  }

  lemma NextVisited(j: Kind, k: Kind)
    requires Rank(j) < Rank(k)
    ensures NotVisited(After(j), k)
  {}

  /** A listener does not go to sleep before it has visited every family, whatever fails on the way. */
  lemma CycleVisitsAll(s: State, evs: seq<Event>, s': State, l: ListenerId, k: Kind)
    requires Run(s, evs, s') && l < |s.listeners| && !Begun(s.listeners[l].pc)
    requires l < |s'.listeners| && s'.listeners[l].pc.Sleeping?
    ensures Passes(s, evs, l, (pc: ListenerPc, _: Choice) => Visits(pc, k))
  {
    FamiliesInTurn(l, k);
    LeavesThrough(s, evs, s', l, (pc: ListenerPc) => NotVisited(pc, k), (pc: ListenerPc, _: Choice) => Visits(pc, k));
  }

  predicate FindsFlagLowered(pc: ListenerPc, c: Choice) {
    pc.ShutdownCheck? && c.Proceed?
  }

  predicate Refreshes(pc: ListenerPc, c: Choice) {
    pc.Refresh? && c.Proceed?
  }

  predicate Wakes(pc: ListenerPc, c: Choice) {
    pc.Sleeping?
  }

  predicate NotRefreshing(pc: ListenerPc) {
    !pc.Refresh?
  }

  predicate NotBegun(pc: ListenerPc) {
    !Begun(pc)
  }

  lemma BegunNext(s: State, l: ListenerId, c: Choice)
    requires Enabled(s, ListenerStep(l, c)) && Begun(s.listeners[l].pc) != Begun(StepListener(s, l, c).listeners[l].pc)
    ensures if Begun(s.listeners[l].pc) then Wakes(s.listeners[l].pc, c) else Refreshes(s.listeners[l].pc, c)
  {}

  lemma RefreshNext(s: State, l: ListenerId, c: Choice)
    requires Enabled(s, ListenerStep(l, c)) && StepListener(s, l, c).listeners[l].pc.Refresh?
    ensures FindsFlagLowered(s.listeners[l].pc, c)
  {
    if Begun(s.listeners[l].pc) { BegunNext(s, l, c); }
  }

  lemma Stations(l: ListenerId)
    ensures OnlyThrough(l, NotRefreshing, FindsFlagLowered)
    ensures OnlyThrough(l, Begun, Wakes) && OnlyThrough(l, NotBegun, Refreshes)
  {
    forall s, c | Enabled(s, ListenerStep(l, c))
      ensures StepListener(s, l, c).listeners[l].pc.Refresh? ==> FindsFlagLowered(s.listeners[l].pc, c)
      ensures Begun(s.listeners[l].pc) && !Begun(StepListener(s, l, c).listeners[l].pc) ==> Wakes(s.listeners[l].pc, c)
      ensures !Begun(s.listeners[l].pc) && Begun(StepListener(s, l, c).listeners[l].pc) ==> Refreshes(s.listeners[l].pc, c)
    {
      if StepListener(s, l, c).listeners[l].pc.Refresh? { RefreshNext(s, l, c); }
      if Begun(s.listeners[l].pc) != Begun(StepListener(s, l, c).listeners[l].pc) { BegunNext(s, l, c); }
    }
  }

  /** No refresh without a look at the shutdown flag that found it lowered, no cycle without a refresh
      that succeeded, and no end of a cycle without sleep. */
  lemma CycleNeedsCheck(s: State, evs: seq<Event>, s': State, l: ListenerId)
    requires Run(s, evs, s') && l < |s.listeners| && l < |s'.listeners|
    ensures !s.listeners[l].pc.Refresh? && s'.listeners[l].pc.Refresh? ==> Passes(s, evs, l, FindsFlagLowered)
    ensures !Begun(s.listeners[l].pc) && Begun(s'.listeners[l].pc) ==> Passes(s, evs, l, Refreshes)
    ensures Begun(s.listeners[l].pc) && !Begun(s'.listeners[l].pc) ==> Passes(s, evs, l, Wakes)
  {
    Stations(l);
    if NotRefreshing(s.listeners[l].pc) { LeavesThrough(s, evs, s', l, NotRefreshing, FindsFlagLowered); }
    if Begun(s.listeners[l].pc) {
      LeavesThrough(s, evs, s', l, Begun, Wakes);
    } else {
      LeavesThrough(s, evs, s', l, NotBegun, Refreshes);
    }
  }

  predicate Any(pc: ListenerPc, c: Choice) {
    true
  }

  /** A listener that could not initialise, or has found the flag raised, never steps again. */
  lemma ExitIsFinal(s: State, evs: seq<Event>, s': State, l: ListenerId)
    requires Run(s, evs, s') && evs != [] && evs[0] == ListenerStep(l, Fail)
    requires s.listeners[l].pc.Starting? || s.listeners[l].pc.ShutdownCheck?
    ensures l < |s'.listeners| && s'.listeners[l].pc.Exited?
    ensures !Passes(Apply(s, evs[0]), evs[1..], l, Any)
  {
    var next := Apply(s, evs[0]);
    OthersWait(s, l, Fail, l);
    NeverPasses(next, evs[1..], s', l);
  }

  lemma {:induction false} NeverPasses(s: State, evs: seq<Event>, s': State, l: ListenerId)
    requires Run(s, evs, s') && l < |s.listeners| && s.listeners[l].pc.Exited?
    ensures l < |s'.listeners| && s'.listeners[l].pc.Exited? && !Passes(s, evs, l, Any)
    decreases |evs|
  {
    if evs != [] {
      OthersDoNotMove(s, evs[0], l);
      NeverPasses(Apply(s, evs[0]), evs[1..], s', l);
    }
  }

  // ---------------------------------------------------------------- messages

  function CountOf(m: Msg, queue: seq<Msg>): nat {
    if queue == [] then 0 else CountOf(m, queue[1..]) + if queue[0] == m then 1 else 0
  }

  lemma {:induction false} CountPosted(m: Msg, queue: seq<Msg>, x: Msg)
    ensures CountOf(m, queue + [x]) == CountOf(m, queue) + if x == m then 1 else 0
  {
    if queue == [] {
      assert queue + [x] == [x] && [x][1..] == [];
    } else {
      assert (queue + [x])[1..] == queue[1..] + [x];
      CountPosted(m, queue[1..], x);
    }
  }

  /** A failed initialisation or refresh. */
  predicate IsFailure(s: State, ev: Event)
    requires Enabled(s, ev)
  {
    ev.ListenerStep? && ev.choice.Fail? && (s.listeners[ev.l].pc.Starting? || s.listeners[ev.l].pc.Refresh?)
  }

  function Failures(s: State, evs: seq<Event>): nat
    decreases |evs|
  {
    if evs == [] || !Enabled(s, evs[0]) then 0
    else Failures(Apply(s, evs[0]), evs[1..]) + if IsFailure(s, evs[0]) then 1 else 0
  }

  /** The messages of this kind that the consumer takes out of the queue. */
  function Received(m: Msg, s: State, evs: seq<Event>): nat
    decreases |evs|
  {
    if evs == [] || !Enabled(s, evs[0]) then 0
    else Received(m, Apply(s, evs[0]), evs[1..]) + if evs[0].Receive? && s.queue[0] == m then 1 else 0
  }

  lemma ErrorPosted(s: State, ev: Event)
    requires Enabled(s, ev) && !ev.Receive?
    ensures CountOf(Error, Apply(s, ev).queue) == CountOf(Error, s.queue) + if IsFailure(s, ev) then 1 else 0
  {
    QueueGrows(s, ev);
    var q := Apply(s, ev).queue;
    if q != s.queue { CountPosted(Error, s.queue, q[|s.queue|]); }
  }

  /** A step other than the consumer's posts at most one message, and an error exactly for a failure. */
  lemma QueueGrows(s: State, ev: Event)
    requires Enabled(s, ev) && !ev.Receive?
    ensures var q := Apply(s, ev).queue;
            if IsFailure(s, ev) then q == s.queue + [Error] else q == s.queue || q == s.queue + [Update]
  {
    if ev.ListenerStep? { ListenerQueueGrows(s, ev.l, ev.choice); }
  }

  lemma ListenerQueueGrows(s: State, l: ListenerId, c: Choice)
    requires Enabled(s, ListenerStep(l, c))
    ensures var q := StepListener(s, l, c).queue;
            if IsFailure(s, ListenerStep(l, c)) then q == s.queue + [Error] else q == s.queue || q == s.queue + [Update]
  {}

  /** Every failure is reported by one error message and nothing else is: what is still queued and what
      was received make up the failures of the run. */
  lemma {:induction false} FailuresAreReported(s: State, evs: seq<Event>, s': State)
    requires Run(s, evs, s')
    ensures CountOf(Error, s'.queue) + Received(Error, s, evs) == CountOf(Error, s.queue) + Failures(s, evs)
    decreases |evs|
  {
    if evs != [] {
      if !evs[0].Receive? { ErrorPosted(s, evs[0]); }
      FailuresAreReported(Apply(s, evs[0]), evs[1..], s');
    }
  }

  // ---------------------------------------------------------------- one update per write

  function OwesSend(pc: TaskPc): nat {
    if pc.Sending? then 1 else 0
  }

  function ListenerOwes(pc: ListenerPc): nat {
    if pc.PurgeSend? || pc.SpawnSend? then 1 else 0
  }

  function TasksOwe(tasks: seq<Task>): nat {
    if tasks == [] then 0 else TasksOwe(tasks[1..]) + OwesSend(tasks[0].pc)
  }

  function ListenersOwe(listeners: seq<Listener>): nat {
    if listeners == [] then 0 else ListenersOwe(listeners[1..]) + ListenerOwes(listeners[0].pc)
  }

  /** Updates on their way: queued, or to be sent by a thread that has done its write. */
  function OnTheWay(s: State): nat {
    CountOf(Update, s.queue) + TasksOwe(s.tasks) + ListenersOwe(s.listeners)
  }

  lemma {:induction false} TaskOwesAt(tasks: seq<Task>, t: nat, task: Task)
    requires t < |tasks|
    ensures TasksOwe(tasks[t := task]) + OwesSend(tasks[t].pc) == TasksOwe(tasks) + OwesSend(task.pc)
  {
    if t == 0 {
      assert tasks[t := task][1..] == tasks[1..];
    } else {
      assert tasks[t := task][1..] == tasks[1..][t - 1 := task];
      TaskOwesAt(tasks[1..], t - 1, task);
    }
  }

  lemma {:induction false} TaskAdded(tasks: seq<Task>, task: Task)
    ensures TasksOwe(tasks + [task]) == TasksOwe(tasks) + OwesSend(task.pc)
  {
    if tasks == [] {
      assert tasks + [task] == [task];
    } else {
      assert (tasks + [task])[1..] == tasks[1..] + [task];
      TaskAdded(tasks[1..], task);
    }
  }

  lemma {:induction false} ListenerOwesAt(listeners: seq<Listener>, l: nat, me: Listener)
    requires l < |listeners|
    ensures ListenersOwe(listeners[l := me]) + ListenerOwes(listeners[l].pc) == ListenersOwe(listeners) + ListenerOwes(me.pc)
  {
    if l == 0 {
      assert listeners[l := me][1..] == listeners[1..];
    } else {
      assert listeners[l := me][1..] == listeners[1..][l - 1 := me];
      ListenerOwesAt(listeners[1..], l - 1, me);
    }
  }

  lemma {:induction false} ListenerAdded(listeners: seq<Listener>, me: Listener)
    ensures ListenersOwe(listeners + [me]) == ListenersOwe(listeners) + ListenerOwes(me.pc)
  {
    if listeners == [] {
      assert listeners + [me] == [me];
    } else {
      assert (listeners + [me])[1..] == listeners[1..] + [me];
      ListenerAdded(listeners[1..], me);
    }
  }

  /** What calls for an update: a cleanup that removes something, the spawn of a task for a HID Ledger,
      another task's insertion, the removal of an entry that is there, and the failure of an unlock. */
  predicate CallsForUpdate(s: State, ev: Event)
    requires Enabled(s, ev)
  {
    match ev
    case ListenerStep(l, c) => s.listeners[l].pc.Purge? || (s.listeners[l].pc.Open? && s.listeners[l].pc.kind.Ledger? && c.Proceed?)
    case TaskStep(t, what) =>
      var task := s.tasks[t];
      || (what.Write? && !task.kind.Ledger?)
      || (what.Remove? && (task.id in s.devices || task.pc.Unlocking?))
    case _ => false
  }

  function UpdatesDue(s: State, evs: seq<Event>): nat
    decreases |evs|
  {
    if evs == [] || !Enabled(s, evs[0]) then 0
    else UpdatesDue(Apply(s, evs[0]), evs[1..]) + if CallsForUpdate(s, evs[0]) then 1 else 0
  }

  lemma TaskUpdates(s: State, t: TaskId, what: TaskChoice)
    requires TasksOk(s) && Enabled(s, TaskStep(t, what))
    ensures OnTheWay(StepTask(s, t, what)) == OnTheWay(s) + if CallsForUpdate(s, TaskStep(t, what)) then 1 else 0
  {
    var s' := StepTask(s, t, what);
    assert TaskOk(s, t);
    TaskStepKeepsOwners(s, t, what);
    TaskOwesAt(s.tasks, t, s'.tasks[t]);
    CountPosted(Update, s.queue, Update);
  }

  lemma ListenerUpdates(s: State, l: ListenerId, c: Choice)
    requires ListenersOk(s) && Enabled(s, ListenerStep(l, c))
    ensures OnTheWay(StepListener(s, l, c)) == OnTheWay(s) + if CallsForUpdate(s, ListenerStep(l, c)) then 1 else 0
  {
    var s' := StepListener(s, l, c);
    ListenerAlone(s, l, c);
    ListenerOwesAt(s.listeners, l, s'.listeners[l]);
    ListenerDebt(s, l, c);
    CountPosted(Update, s.queue, Update);
    CountPosted(Update, s.queue, Error);
    if s'.tasks != s.tasks { TaskAdded(s.tasks, s'.tasks[|s.tasks|]); }
  }

  lemma ListenerAlone(s: State, l: ListenerId, c: Choice)
    requires Enabled(s, ListenerStep(l, c))
    ensures var s' := StepListener(s, l, c);
            |s'.listeners| == |s.listeners| && s'.listeners == s.listeners[l := s'.listeners[l]]
  {
    forall m | 0 <= m < |s.listeners| ensures |StepListener(s, l, c).listeners| == |s.listeners|
      ensures m != l ==> StepListener(s, l, c).listeners[m] == s.listeners[m]
    {
      OthersWait(s, l, c, m);
    }
    OthersWait(s, l, c, l);
  }

  /** What a listener step does to its own debt, the queue and the tasks. */
  lemma ListenerDebt(s: State, l: ListenerId, c: Choice)
    requires Enabled(s, ListenerStep(l, c)) && PcOk(s, s.listeners[l])
    ensures var s', pc, calls := StepListener(s, l, c), s.listeners[l].pc, CallsForUpdate(s, ListenerStep(l, c));
            && ListenerOwes(s'.listeners[l].pc) == (if calls then 1 else 0)
            && (ListenerOwes(pc) == 1 ==> s'.queue == s.queue + [Update] && !calls)
            && (ListenerOwes(pc) == 0 ==> s'.queue == s.queue || s'.queue == s.queue + [Error])
            && (s'.tasks == s.tasks || exists task :: s'.tasks == s.tasks + [task] && task.pc.Connecting?)
  {}

  /** The consumer is told once for each write that calls for it and for nothing else: over any run the
      updates received and on the way at the end are those on the way before and those called for. */
  lemma {:induction false} OneUpdatePerWrite(s: State, evs: seq<Event>, s': State)
    requires Inv(s) && Run(s, evs, s')
    ensures OnTheWay(s') + Received(Update, s, evs) == OnTheWay(s) + UpdatesDue(s, evs)
    decreases |evs|
  {
    if evs != [] {
      match evs[0] {
        case TaskStep(t, what) => TaskUpdates(s, t, what);
        case ListenerStep(l, c) => ListenerUpdates(s, l, c);
        case StartListener => ListenerAdded(s.listeners, Listener(Starting, map[], map[]));
        case Receive =>
        case List =>
      }
      StepKeepsInv(s, evs[0]);
      OneUpdatePerWrite(Apply(s, evs[0]), evs[1..], s');
    }
  }

  // ---------------------------------------------------------------- the map

  function At(devices: map<Id, Entry>, id: Id): Option<Entry> {
    if id in devices then Some(devices[id]) else None
  }

  /** What an event makes of the entry at this id: an insertion by a task of the id, a removal by such a
      task or by a cleanup that selected the id, or nothing. */
  function Writes(s: State, ev: Event, id: Id): Option<Option<Entry>>
    requires Enabled(s, ev)
  {
    match ev
    case TaskStep(t, Write(e)) => if s.tasks[t].id == id then Some(Some(e)) else None
    case TaskStep(t, Remove) => if s.tasks[t].id == id then Some(None) else None
    case ListenerStep(l, _) =>
      if s.listeners[l].pc.Purge? && id in s.listeners[l].pc.victims then Some(None) else None
    case _ => None
  }

  /** The last of these in a run, or `start` if there is none. */
  function LastWrite(s: State, evs: seq<Event>, id: Id, start: Option<Entry>): Option<Entry>
    decreases |evs|
  {
    if evs == [] || !Enabled(s, evs[0]) then start
    else
      var w := Writes(s, evs[0], id);
      LastWrite(Apply(s, evs[0]), evs[1..], id, if w.Some? then w.value else start)
  }

  lemma MapStep(s: State, ev: Event, id: Id)
    requires Enabled(s, ev)
    ensures At(Apply(s, ev).devices, id) ==
            if Writes(s, ev, id).Some? then Writes(s, ev, id).value else At(s.devices, id)
  {
    if ev.ListenerStep? && !s.listeners[ev.l].pc.Purge? { ListenerStepAdds(s, ev.l, ev.choice); }
  }

  /** At every id the map holds what was last written there, whoever wrote it, and nothing else. */
  lemma {:induction false} MapIsLastWrite(s: State, evs: seq<Event>, s': State, id: Id)
    requires Run(s, evs, s')
    ensures At(s'.devices, id) == LastWrite(s, evs, id, At(s.devices, id))
    decreases |evs|
  {
    if evs != [] {
      MapStep(s, evs[0], id);
      MapIsLastWrite(Apply(s, evs[0]), evs[1..], s', id);
    }
  }

  // ---------------------------------------------------------------- the cells of locked devices

  /** A cell is full only from the insertion of a `Locked` entry until its task takes the device; only a
      Jade's, found locked again after an unlock, stays full. */
  predicate CellOk(s: State, t: TaskId) {
    t < |s.tasks| &&
    var task := s.tasks[t];
    task.pc == Sending(TakeCell) || task.pc.Taking? || (task.kind.Jade? && (task.pc == Sending(Return) || task.pc.Finished?))
  }

  predicate CellsOk(s: State) {
    forall t | t in s.cells :: CellOk(s, t)
  }

  lemma TaskStepKeepsCells(s: State, t: TaskId, what: TaskChoice)
    requires CellsOk(s) && Enabled(s, TaskStep(t, what))
    ensures CellsOk(StepTask(s, t, what))
  {
    forall u | u in StepTask(s, t, what).cells ensures CellOk(StepTask(s, t, what), u) {
      assert u in s.cells ==> CellOk(s, u);
    }
  }

  lemma ListenerStepKeepsCells(s: State, l: ListenerId, c: Choice)
    requires CellsOk(s) && Enabled(s, ListenerStep(l, c))
    ensures CellsOk(StepListener(s, l, c))
  {
    ListenerStepKeepsTaskList(s, l, c);
    forall u | u in s.cells ensures CellOk(StepListener(s, l, c), u) {
      assert CellOk(s, u);
    }
  }

  lemma ListenerStepKeepsTaskList(s: State, l: ListenerId, c: Choice)
    requires Enabled(s, ListenerStep(l, c))
    ensures StepListener(s, l, c).cells == s.cells && s.tasks <= StepListener(s, l, c).tasks
  {
    if !s.listeners[l].pc.Purge? { ListenerStepAdds(s, l, c); }
  }

  lemma {:induction false} RunKeepsCells(s: State, evs: seq<Event>, s': State)
    requires CellsOk(s) && Run(s, evs, s')
    ensures CellsOk(s')
    decreases |evs|
  {
    if evs != [] {
      match evs[0] {
        case TaskStep(t, what) => TaskStepKeepsCells(s, t, what);
        case ListenerStep(l, c) => ListenerStepKeepsCells(s, l, c);
        case _ =>
          var next := Apply(s, evs[0]);
          assert next.cells == s.cells && next.tasks == s.tasks;
          forall t | t in next.cells ensures CellOk(next, t) { assert CellOk(s, t); }
      }
      RunKeepsCells(Apply(s, evs[0]), evs[1..], s');
    }
  }

  /** While a task unlocks a device the cell it took it from is empty, and no other task's step fills it:
      the device is in one place only. */
  lemma UnlockingHasEmptyCell(s: State, t: TaskId)
    requires Reachable(s) && t < |s.tasks| && s.tasks[t].pc.Unlocking?
    ensures t !in s.cells
    ensures forall u, what | u != t && Enabled(s, TaskStep(u, what)) :: t !in StepTask(s, u, what).cells
  {
    var evs :| Run(Initial, evs, s);
    RunKeepsCells(Initial, evs, s);
    assert t in s.cells ==> CellOk(s, t);
  }

  // ---------------------------------------------------------------- what an entry can be

  /** A BitBox02 is `Locked` until it was unlocked and `Supported` from then on; only a Jade can be
      `Locked` besides; a Specter and its simulator are never `Unsupported`. */
  predicate FitsKind(e: Entry) {
    match e.kind
    case BitBox02 => if e.round == 0 then e.Locked? else e.Supported?
    case Jade => true
    case Specter => e.Supported?
    case SpecterSimulator => e.Supported?
    case _ => !e.Locked? && e.round == 0
  }

  predicate AllFit(s: State) {
    forall id | id in s.devices :: FitsKind(s.devices[id])
  }

  lemma StepKeepsFit(s: State, ev: Event)
    requires AllFit(s) && Enabled(s, ev)
    ensures AllFit(Apply(s, ev))
  {
    forall id | id in Apply(s, ev).devices ensures FitsKind(Apply(s, ev).devices[id]) {
      MapStep(s, ev, id);
    }
  }

  lemma {:induction false} RunKeepsFit(s: State, evs: seq<Event>, s': State)
    requires AllFit(s) && Run(s, evs, s')
    ensures AllFit(s')
    decreases |evs|
  {
    if evs != [] {
      StepKeepsFit(s, evs[0]);
      RunKeepsFit(Apply(s, evs[0]), evs[1..], s');
    }
  }

  lemma EntriesFitTheirKind(s: State, id: Id)
    requires Reachable(s) && id in s.devices
    ensures FitsKind(s.devices[id])
  {
    var evs :| Run(Initial, evs, s);
    RunKeepsFit(Initial, evs, s);
  }
}
