/** What every interleaving of listeners, tasks and consumer keeps. */
module DiscoveryInvariants {
  import opened Discovery

  // ---------------------------------------------------------------- the invariant

  predicate AllEnumerable(k: Kind, ids: seq<Id>) {
    !IsSimulator(k) && forall id | id in ids :: Enumerable(k, id)
  }

  /** Each listener polls ids of the right family and spawns only over a handle that is not busy. */
  predicate PcOk(s: State, me: Listener) {
    match me.pc
    case SimMap(k) => IsSimulator(k)
    case SimHandle(k) => IsSimulator(k)
    case SimSpawn(k) => IsSimulator(k) && !Busy(s, me, HandleKey(k, SimulatorId(k)))
    case Enumerate(k) => !IsSimulator(k)
    case Scan(k, connected) => AllEnumerable(k, connected)
    case Purge(k, connected, victims) => AllEnumerable(k, connected)
    case PurgeSend(k, connected) => AllEnumerable(k, connected)
    case Poll(k, todo) => AllEnumerable(k, todo)
    case CheckHandle(k, id, todo) => AllEnumerable(k, todo) && Enumerable(k, id)
    case Open(k, id, todo) =>
      AllEnumerable(k, todo) && Enumerable(k, id) && !Busy(s, me, HandleKey(k, id))
    case SpawnSend(todo) => AllEnumerable(Ledger, todo)
    case _ => true
  }

  predicate IsFor(task: Task, l: ListenerId, h: HandleKey) {
    task.owner == l && task.kind == h.kind && task.id == h.id
  }

  predicate HandlesOk(s: State, l: ListenerId)
    requires l < |s.listeners|
  {
    var me := s.listeners[l];
    forall h | h in me.handles :: me.handles[h] < |s.tasks| && IsFor(s.tasks[me.handles[h]], l, h)
  }

  predicate ListenersOk(s: State) {
    forall l | 0 <= l < |s.listeners| :: PcOk(s, s.listeners[l]) && HandlesOk(s, l)
  }

  predicate TaskOk(s: State, t: TaskId)
    requires t < |s.tasks|
  {
    var me := s.tasks[t];
    && me.owner < |s.listeners|
    && (if IsSimulator(me.kind) then me.id == SimulatorId(me.kind) else Enumerable(me.kind, me.id))
    && (InCharge(me.pc) ==> me.kind.BitBox02? || me.kind.Jade?)
    && (InCharge(me.pc) && !me.pc.Unlocking? ==> t in s.cells)
    && (me.kind.Ledger? ==> !me.pc.Sending?)
    && !me.pc.Panicked?
  }

  predicate TasksOk(s: State) {
    forall t | 0 <= t < |s.tasks| :: TaskOk(s, t)
  }

  /** Who answers for a `Locked` entry: its task before the final write, or, for a Jade, nobody. */
  predicate Answered(task: Task, e: Entry) {
    e.Locked? ==>
      if e.round == 0 then InCharge(task.pc) || (e.kind.Jade? && task.pc.Abandoned?)
      else e.kind.Jade? && (task.pc == Sending(Return) || task.pc.Finished?)
  }

  predicate EntryOk(s: State, id: Id)
    requires id in s.devices
  {
    var e := s.devices[id];
    && e.session < |s.tasks|
    && s.tasks[e.session].id == id
    && s.tasks[e.session].kind == e.kind
    && e.round <= 1
    && Answered(s.tasks[e.session], e)
  }

  predicate EntriesOk(s: State) {
    forall id | id in s.devices :: EntryOk(s, id)
  }

  predicate Differ(a: map<Id, Entry>, b: map<Id, Entry>, id: Id) {
    (id in a) != (id in b) || (id in a && a[id] != b[id])
  }

  /** Some thread sits between its map write and its send. */
  ghost predicate SendPending(s: State) {
    || (exists t :: 0 <= t < |s.tasks| && s.tasks[t].pc.Sending?)
    || (exists l :: 0 <= l < |s.listeners| && s.listeners[l].pc.PurgeSend?)
  }

  /** The consumer will still re-read the map. */
  ghost predicate RereadDue(s: State) {
    Update in s.queue || s.consumer.refreshing || SendPending(s)
  }

  ghost predicate NotifiedAt(s: State, id: Id) {
    Differ(s.consumer.view, s.devices, id) ==> RereadDue(s)
  }

  ghost predicate Notified(s: State) {
    forall id :: !IsHidLedgerId(id) ==> NotifiedAt(s, id)
  }

  /** The consumer will still learn that an id it shows is gone. */
  ghost predicate RemovalNotifiedAt(s: State, id: Id) {
    id in s.consumer.view && id !in s.devices ==> RereadDue(s)
  }

  ghost predicate RemovalsNotified(s: State) {
    forall id :: RemovalNotifiedAt(s, id)
  }

  ghost function LiveTasks(s: State, l: ListenerId, h: HandleKey): set<TaskId> {
    set t | 0 <= t < |s.tasks| && IsFor(s.tasks[t], l, h) && !Done(s.tasks[t].pc)
  }

  /** Live tasks that the listener no longer holds a handle for. */
  ghost function Untracked(s: State, l: ListenerId, h: HandleKey): set<TaskId>
    requires l < |s.listeners|
  {
    set t | t in LiveTasks(s, l, h) && !(h in s.listeners[l].handles && s.listeners[l].handles[h] == t)
  }

  ghost predicate DropsCover(s: State, l: ListenerId, h: HandleKey)
    requires l < |s.listeners|
  {
    |Untracked(s, l, h)| <= DropCount(s.listeners[l], h)
  }

  ghost predicate AllDropsCover(s: State) {
    forall l, h | 0 <= l < |s.listeners| :: DropsCover(s, l, h)
  }

  ghost predicate Inv(s: State) {
    ListenersOk(s) && TasksOk(s) && EntriesOk(s) && Notified(s) && RemovalsNotified(s) && AllDropsCover(s)
  }

  // ---------------------------------------------------------------- task steps

  lemma TaskStepKeepsTasks(s: State, t: TaskId, what: TaskChoice)
    requires TasksOk(s) && Enabled(s, TaskStep(t, what))
    ensures TasksOk(StepTask(s, t, what))
  {
    var s' := StepTask(s, t, what);
    forall u | 0 <= u < |s'.tasks| ensures TaskOk(s', u) {
      assert TaskOk(s, u) && TaskOk(s, t);
    }
  }

  /** A task step changes no task but its own, and of that only where it stands. */
  lemma TaskStepKeepsOwners(s: State, t: TaskId, what: TaskChoice)
    requires Enabled(s, TaskStep(t, what))
    ensures var s' := StepTask(s, t, what);
            && s'.listeners == s.listeners && |s'.tasks| == |s.tasks|
            && s'.tasks == s.tasks[t := s.tasks[t].(pc := s'.tasks[t].pc)] && !Done(s.tasks[t].pc)
  {}

  lemma TaskStepKeepsListeners(s: State, t: TaskId, what: TaskChoice)
    requires ListenersOk(s) && Enabled(s, TaskStep(t, what))
    ensures ListenersOk(StepTask(s, t, what))
  {
    var s' := StepTask(s, t, what);
    TaskStepKeepsOwners(s, t, what);
    forall l | 0 <= l < |s'.listeners| ensures PcOk(s', s'.listeners[l]) && HandlesOk(s', l) {
      TasksMoveOn(s, s', t, l);
    }
  }

  lemma TasksMoveOn(s: State, s': State, t: TaskId, l: ListenerId)
    requires ListenersOk(s) && s'.listeners == s.listeners && l < |s.listeners|
    requires t < |s.tasks| && |s'.tasks| == |s.tasks| && !Done(s.tasks[t].pc)
    requires s'.tasks == s.tasks[t := s.tasks[t].(pc := s'.tasks[t].pc)]
    ensures PcOk(s', s.listeners[l]) && HandlesOk(s', l)
  {
    assert PcOk(s, s.listeners[l]) && HandlesOk(s, l);
    assert forall h :: Busy(s', s.listeners[l], h) ==> Busy(s, s.listeners[l], h);
  }

  lemma TaskStepKeepsEntries(s: State, t: TaskId, what: TaskChoice)
    requires TasksOk(s) && EntriesOk(s) && Enabled(s, TaskStep(t, what))
    ensures EntriesOk(StepTask(s, t, what))
  {
    var s' := StepTask(s, t, what);
    assert TaskOk(s, t);
    forall id | id in s'.devices ensures EntryOk(s', id) {
      if id in s.devices { assert EntryOk(s, id); }
    }
  }

  lemma TaskStepNotifies(s: State, t: TaskId, what: TaskChoice)
    requires TasksOk(s) && Notified(s) && Enabled(s, TaskStep(t, what))
    ensures Notified(StepTask(s, t, what))
  {
    var s' := StepTask(s, t, what);
    var me := s.tasks[t];
    assert TaskOk(s, t);
    forall id | !IsHidLedgerId(id) ensures NotifiedAt(s', id) {
      assert NotifiedAt(s, id);
      if me.pc.Sending? {
        assert s'.queue[|s.queue|] == Update;
      } else if s'.tasks[t].pc.Sending? {
      } else {
        assert Differ(s'.consumer.view, s'.devices, id) == Differ(s.consumer.view, s.devices, id);
        if u :| 0 <= u < |s.tasks| && s.tasks[u].pc.Sending? {
          assert s'.tasks[u].pc.Sending?;
        }
      }
    }
  }

  lemma TaskStepNotifiesRemovals(s: State, t: TaskId, what: TaskChoice)
    requires RemovalsNotified(s) && Enabled(s, TaskStep(t, what))
    ensures RemovalsNotified(StepTask(s, t, what))
  {
    var s' := StepTask(s, t, what);
    var me := s.tasks[t];
    forall id ensures RemovalNotifiedAt(s', id) {
      assert RemovalNotifiedAt(s, id);
      if me.pc.Sending? {
        assert s'.queue[|s.queue|] == Update;
      } else if s'.tasks[t].pc.Sending? {
      } else {
        assert id in s.devices ==> id in s'.devices;
        if u :| 0 <= u < |s.tasks| && s.tasks[u].pc.Sending? {
          assert s'.tasks[u].pc.Sending?;
        }
      }
    }
  }

  lemma SubsetIsSmaller<T>(a: set<T>, b: set<T>)
    requires a <= b
    ensures |a| <= |b|
  {
    if a != {} {
      var x :| x in a;
      SubsetIsSmaller(a - {x}, b - {x});
    }
  }

  lemma TaskStepKeepsDrops(s: State, t: TaskId, what: TaskChoice)
    requires AllDropsCover(s) && Enabled(s, TaskStep(t, what))
    ensures AllDropsCover(StepTask(s, t, what))
  {
    var s' := StepTask(s, t, what);
    forall l, h | 0 <= l < |s'.listeners| ensures DropsCover(s', l, h) {
      assert DropsCover(s, l, h);
      assert LiveTasks(s', l, h) <= LiveTasks(s, l, h);
      SubsetIsSmaller(Untracked(s', l, h), Untracked(s, l, h));
    }
  }

  // ---------------------------------------------------------------- listener steps

  lemma ListenerStepKeepsTasks(s: State, l: ListenerId, c: Choice)
    requires TasksOk(s) && ListenersOk(s) && Enabled(s, ListenerStep(l, c))
    ensures TasksOk(StepListener(s, l, c))
  {
    var s' := StepListener(s, l, c);
    assert PcOk(s, s.listeners[l]);
    forall t | 0 <= t < |s'.tasks| ensures TaskOk(s', t) {
      if t < |s.tasks| { assert TaskOk(s, t); }
    }
  }

  lemma SpawnKeepsHandles(s: State, l: ListenerId, g: HandleKey, next: ListenerPc, m: ListenerId)
    requires l < |s.listeners| && m < |s.listeners| && HandlesOk(s, m)
    ensures HandlesOk(Spawn(s, l, g, next), m)
  {}

  lemma PurgeKeepsHandles(s: State, l: ListenerId, m: ListenerId)
    requires l < |s.listeners| && s.listeners[l].pc.Purge? && m < |s.listeners| && HandlesOk(s, m)
    ensures HandlesOk(PurgeVictims(s, l), m)
  {}

  lemma ListenerStepKeepsHandles(s: State, l: ListenerId, c: Choice, m: ListenerId)
    requires ListenersOk(s) && Enabled(s, ListenerStep(l, c)) && m < |s.listeners|
    ensures HandlesOk(StepListener(s, l, c), m)
  {
    assert HandlesOk(s, m);
    var me := s.listeners[l];
    if me.pc.Purge? {
      PurgeKeepsHandles(s, l, m);
    } else if me.pc.SimSpawn? {
      var k := me.pc.kind;
      SpawnKeepsHandles(s, l, HandleKey(k, SimulatorId(k)), After(k), m);
    } else if me.pc.Open? && c.Proceed? {
      var Open(k, id, todo) := me.pc;
      SpawnKeepsHandles(s, l, HandleKey(k, id), if k.Ledger? then SpawnSend(todo) else Poll(k, todo), m);
    } else {
      var s' := StepListener(s, l, c);
      assert s'.tasks == s.tasks;
      assert forall h :: h in s'.listeners[m].handles ==>
               h in s.listeners[m].handles && s'.listeners[m].handles[h] == s.listeners[m].handles[h];
    }
  }

  lemma HandleCheckKeepsOwnPc(s: State, l: ListenerId)
    requires l < |s.listeners| && PcOk(s, s.listeners[l])
    requires s.listeners[l].pc.SimHandle? || s.listeners[l].pc.CheckHandle?
    ensures PcOk(StepListener(s, l, Proceed), StepListener(s, l, Proceed).listeners[l])
  {}

  /** What an enumeration found, its cleanup and its polling speak of ids of one family. */
  lemma FamilyStepKeepsOwnPc(s: State, l: ListenerId, c: Choice)
    requires Enabled(s, ListenerStep(l, c)) && PcOk(s, s.listeners[l])
    requires IsFamilyStage(s.listeners[l].pc) && !s.listeners[l].pc.CheckHandle?
    ensures PcOk(StepListener(s, l, c), StepListener(s, l, c).listeners[l])
  {}

  lemma ListenerStepKeepsOwnPc(s: State, l: ListenerId, c: Choice)
    requires ListenersOk(s) && Enabled(s, ListenerStep(l, c))
    ensures PcOk(StepListener(s, l, c), StepListener(s, l, c).listeners[l])
  {
    var pc := s.listeners[l].pc;
    assert PcOk(s, s.listeners[l]);
    if pc.SimHandle? || pc.CheckHandle? {
      HandleCheckKeepsOwnPc(s, l);
    } else if IsFamilyStage(pc) {
      FamilyStepKeepsOwnPc(s, l, c);
    }
  }

  lemma ListenerStepKeepsOtherPc(s: State, l: ListenerId, c: Choice, m: ListenerId)
    requires ListenersOk(s) && Enabled(s, ListenerStep(l, c)) && m < |s.listeners| && m != l
    ensures PcOk(StepListener(s, l, c), s.listeners[m])
  {
    var s' := StepListener(s, l, c);
    assert PcOk(s, s.listeners[m]) && HandlesOk(s, m);
    assert forall h :: h in s.listeners[m].handles ==> Busy(s', s.listeners[m], h) == Busy(s, s.listeners[m], h);
  }

  lemma ListenerStepKeepsListeners(s: State, l: ListenerId, c: Choice)
    requires ListenersOk(s) && Enabled(s, ListenerStep(l, c))
    ensures ListenersOk(StepListener(s, l, c))
  {
    var s' := StepListener(s, l, c);
    forall m | 0 <= m < |s'.listeners| ensures PcOk(s', s'.listeners[m]) && HandlesOk(s', m) {
      ListenerStepKeepsHandles(s, l, c, m);
      if m == l {
        ListenerStepKeepsOwnPc(s, l, c);
      } else {
        ListenerStepKeepsOtherPc(s, l, c, m);
      }
    }
  }

  lemma ListenerStepKeepsEntries(s: State, l: ListenerId, c: Choice)
    requires EntriesOk(s) && Enabled(s, ListenerStep(l, c))
    ensures EntriesOk(StepListener(s, l, c))
  {
    var s' := StepListener(s, l, c);
    forall id | id in s'.devices ensures EntryOk(s', id) {
      assert EntryOk(s, id);
    }
  }

  predicate IsFamilyStage(pc: ListenerPc) {
    pc.Enumerate? || pc.Scan? || pc.Purge? || pc.PurgeSend? || pc.Poll? || pc.CheckHandle? || pc.Open? || pc.SpawnSend?
  }

  lemma OthersWaitForFamily(s: State, l: ListenerId, c: Choice, m: ListenerId)
    requires Enabled(s, ListenerStep(l, c)) && m < |s.listeners| && IsFamilyStage(s.listeners[l].pc)
    ensures |StepListener(s, l, c).listeners| == |s.listeners|
    ensures m != l ==> StepListener(s, l, c).listeners[m] == s.listeners[m]
  {}

  lemma OthersWait(s: State, l: ListenerId, c: Choice, m: ListenerId)
    requires Enabled(s, ListenerStep(l, c)) && m < |s.listeners|
    ensures |StepListener(s, l, c).listeners| == |s.listeners|
    ensures m != l ==> StepListener(s, l, c).listeners[m] == s.listeners[m]
  {
    if IsFamilyStage(s.listeners[l].pc) { OthersWaitForFamily(s, l, c, m); }
  }

  /** A listener step that does not change the map takes nothing away. */
  lemma ListenerStepAdds(s: State, l: ListenerId, c: Choice)
    requires Enabled(s, ListenerStep(l, c)) && !s.listeners[l].pc.Purge?
    ensures var s' := StepListener(s, l, c);
            s'.devices == s.devices && s'.consumer == s.consumer && s.queue <= s'.queue && s.tasks <= s'.tasks
  {}

  lemma ListenerStepKeepsDue(s: State, l: ListenerId, c: Choice)
    requires Enabled(s, ListenerStep(l, c)) && !s.listeners[l].pc.Purge? && RereadDue(s)
    ensures RereadDue(StepListener(s, l, c))
  {
    var s' := StepListener(s, l, c);
    ListenerStepAdds(s, l, c);
    if s.listeners[l].pc.PurgeSend? {
      assert s'.queue[|s.queue|] == Update;
    } else if t :| 0 <= t < |s.tasks| && s.tasks[t].pc.Sending? {
      assert s'.tasks[t].pc.Sending?;
    } else if m :| 0 <= m < |s.listeners| && s.listeners[m].pc.PurgeSend? {
      OthersWait(s, l, c, m);
      assert s'.listeners[m].pc.PurgeSend?;
    }
  }

  lemma PurgeIsDue(s: State, l: ListenerId)
    requires l < |s.listeners| && s.listeners[l].pc.Purge?
    ensures RereadDue(PurgeVictims(s, l))
  {
    assert PurgeVictims(s, l).listeners[l].pc.PurgeSend?;
  }

  lemma ListenerStepNotifies(s: State, l: ListenerId, c: Choice)
    requires Notified(s) && RemovalsNotified(s) && Enabled(s, ListenerStep(l, c))
    ensures Notified(StepListener(s, l, c)) && RemovalsNotified(StepListener(s, l, c))
  {
    if s.listeners[l].pc.Purge? {
      PurgeIsDue(s, l);
    } else {
      ListenerStepAdds(s, l, c);
      if RereadDue(s) { ListenerStepKeepsDue(s, l, c); }
      forall id ensures RemovalNotifiedAt(StepListener(s, l, c), id)
                ensures !IsHidLedgerId(id) ==> NotifiedAt(StepListener(s, l, c), id)
      {
        assert RemovalNotifiedAt(s, id);
        assert !IsHidLedgerId(id) ==> NotifiedAt(s, id);
      }
    }
  }

  lemma PurgeKeepsDrops(s: State, l: ListenerId, m: ListenerId, h: HandleKey)
    requires l < |s.listeners| && s.listeners[l].pc.Purge? && m < |s.listeners|
    requires DropsCover(s, m, h)
    ensures DropsCover(PurgeVictims(s, l), m, h)
  {
    var s' := PurgeVictims(s, l);
    var me, me' := s.listeners[l], s'.listeners[l];
    assert LiveTasks(s', m, h) == LiveTasks(s, m, h);
    if m == l && h in me.handles && h !in me'.handles {
      assert Untracked(s', m, h) <= Untracked(s, m, h) + {me.handles[h]};
      SubsetIsSmaller(Untracked(s', m, h), Untracked(s, m, h) + {me.handles[h]});
    } else {
      assert Untracked(s', m, h) == Untracked(s, m, h);
    }
  }

  lemma SpawnKeepsDrops(s: State, l: ListenerId, g: HandleKey, next: ListenerPc, m: ListenerId, h: HandleKey)
    requires l < |s.listeners| && m < |s.listeners| && HandlesOk(s, l)
    requires !Busy(s, s.listeners[l], g)
    requires DropsCover(s, m, h)
    ensures DropsCover(Spawn(s, l, g, next), m, h)
  {
    var s' := Spawn(s, l, g, next);
    assert Untracked(s', m, h) <= Untracked(s, m, h);
    SubsetIsSmaller(Untracked(s', m, h), Untracked(s, m, h));
  }

  lemma SameTasksKeepDrops(s: State, s': State, m: ListenerId, h: HandleKey)
    requires m < |s.listeners| && m < |s'.listeners| && DropsCover(s, m, h)
    requires s'.tasks == s.tasks && s'.listeners[m].drops == s.listeners[m].drops
    requires forall g | Busy(s, s.listeners[m], g) ::
               g in s'.listeners[m].handles && s'.listeners[m].handles[g] == s.listeners[m].handles[g]
    ensures DropsCover(s', m, h)
  {
    assert LiveTasks(s', m, h) == LiveTasks(s, m, h);
    assert Untracked(s', m, h) <= Untracked(s, m, h);
    SubsetIsSmaller(Untracked(s', m, h), Untracked(s, m, h));
  }

  lemma QuietStepKeepsDrops(s: State, l: ListenerId, c: Choice, m: ListenerId, h: HandleKey)
    requires Enabled(s, ListenerStep(l, c)) && m < |s.listeners| && DropsCover(s, m, h)
    requires !s.listeners[l].pc.Purge? && !s.listeners[l].pc.SimSpawn? && !(s.listeners[l].pc.Open? && c.Proceed?)
    ensures DropsCover(StepListener(s, l, c), m, h)
  {
    SameTasksKeepDrops(s, StepListener(s, l, c), m, h);
  }

  lemma ListenerStepKeepsDrops(s: State, l: ListenerId, c: Choice)
    requires ListenersOk(s) && AllDropsCover(s) && Enabled(s, ListenerStep(l, c))
    ensures AllDropsCover(StepListener(s, l, c))
  {
    var s' := StepListener(s, l, c);
    var me := s.listeners[l];
    assert PcOk(s, me) && HandlesOk(s, l);
    forall m, h | 0 <= m < |s'.listeners| ensures DropsCover(s', m, h) {
      assert DropsCover(s, m, h);
      if me.pc.Purge? {
        PurgeKeepsDrops(s, l, m, h);
      } else if me.pc.SimSpawn? {
        var k := me.pc.kind;
        SpawnKeepsDrops(s, l, HandleKey(k, SimulatorId(k)), After(k), m, h);
      } else if me.pc.Open? && c.Proceed? {
        var Open(k, id, todo) := me.pc;
        SpawnKeepsDrops(s, l, HandleKey(k, id), if k.Ledger? then SpawnSend(todo) else Poll(k, todo), m, h);
      } else {
        QuietStepKeepsDrops(s, l, c, m, h);
      }
    }
  }

  // ---------------------------------------------------------------- every step, every run

  lemma OtherStepKeepsInv(s: State, ev: Event)
    requires Inv(s) && Enabled(s, ev) && (ev.StartListener? || ev.Receive? || ev.List?)
    ensures Inv(Apply(s, ev))
  {
    var s' := Apply(s, ev);
    forall l | 0 <= l < |s'.listeners| ensures PcOk(s', s'.listeners[l]) && HandlesOk(s', l) {
      if l < |s.listeners| { assert PcOk(s, s.listeners[l]) && HandlesOk(s, l); }
    }
    forall t | 0 <= t < |s'.tasks| ensures TaskOk(s', t) {
      assert TaskOk(s, t);
    }
    forall id | id in s'.devices ensures EntryOk(s', id) {
      assert EntryOk(s, id);
    }
    forall id | !IsHidLedgerId(id) ensures NotifiedAt(s', id) {
      assert NotifiedAt(s, id);
      if l :| 0 <= l < |s.listeners| && s.listeners[l].pc.PurgeSend? {
        assert s'.listeners[l].pc.PurgeSend?;
      }
    }
    forall id ensures RemovalNotifiedAt(s', id) {
      assert RemovalNotifiedAt(s, id);
      if l :| 0 <= l < |s.listeners| && s.listeners[l].pc.PurgeSend? {
        assert s'.listeners[l].pc.PurgeSend?;
      }
    }
    forall l, h | 0 <= l < |s'.listeners| ensures DropsCover(s', l, h) {
      assert LiveTasks(s', l, h) == LiveTasks(s, l, h);
      if l < |s.listeners| {
        assert DropsCover(s, l, h);
        assert Untracked(s', l, h) == Untracked(s, l, h);
      } else {
        forall t | 0 <= t < |s.tasks| ensures s.tasks[t].owner != l {
          assert TaskOk(s, t);
        }
        assert Untracked(s', l, h) == {};
      }
    }
  }

  lemma StepKeepsInv(s: State, ev: Event)
    requires Inv(s) && Enabled(s, ev)
    ensures Inv(Apply(s, ev))
  {
    match ev
    case ListenerStep(l, c) =>
      ListenerStepKeepsTasks(s, l, c);
      ListenerStepKeepsListeners(s, l, c);
      ListenerStepKeepsEntries(s, l, c);
      ListenerStepNotifies(s, l, c);
      ListenerStepKeepsDrops(s, l, c);
    case TaskStep(t, what) =>
      TaskStepKeepsTasks(s, t, what);
      TaskStepKeepsListeners(s, t, what);
      TaskStepKeepsEntries(s, t, what);
      TaskStepNotifies(s, t, what);
      TaskStepNotifiesRemovals(s, t, what);
      TaskStepKeepsDrops(s, t, what);
    case _ =>
      OtherStepKeepsInv(s, ev);
  }

  lemma {:induction false} RunKeepsInv(s: State, evs: seq<Event>, s': State)
    requires Inv(s) && Run(s, evs, s')
    ensures Inv(s')
    decreases |evs|
  {
    if evs != [] {
      StepKeepsInv(s, evs[0]);
      RunKeepsInv(Apply(s, evs[0]), evs[1..], s');
    }
  }

  lemma ReachableInv(s: State)
    requires Reachable(s)
    ensures Inv(s)
  {
    var evs :| Run(Initial, evs, s);
    RunKeepsInv(Initial, evs, s);
  }

  // ---------------------------------------------------------------- main results

  /** No interleaving loses an update of an id other than a HID Ledger's. */
  lemma UpdatesAreNotLost(s: State, id: Id)
    requires Reachable(s) && !IsHidLedgerId(id)
    ensures Differ(s.consumer.view, s.devices, id) ==>
              Update in s.queue || s.consumer.refreshing || SendPending(s)
  {
    ReachableInv(s);
    assert NotifiedAt(s, id);
  }

  /** For any id, a HID Ledger's included, a removal is never lost: only an insertion can be. */
  lemma RemovalsAreNotLost(s: State, id: Id)
    requires Reachable(s)
    ensures id in s.consumer.view && id !in s.devices ==>
              Update in s.queue || s.consumer.refreshing || SendPending(s)
  {
    ReachableInv(s);
    assert RemovalNotifiedAt(s, id);
  }

  /** A `Locked` BitBox02 entry is answered for by exactly the live task whose connection it holds:
      that task works on this id, has inserted the entry and still has its final write to do.  So no
      such entry outlives its task. */
  lemma LockedBitBoxHasTask(s: State, id: Id)
    requires Reachable(s) && id in s.devices && s.devices[id].Locked? && s.devices[id].kind.BitBox02?
    ensures var t := s.devices[id].session;
            && t < |s.tasks| && s.tasks[t].id == id && s.tasks[t].kind.BitBox02?
            && InCharge(s.tasks[t].pc) && !Done(s.tasks[t].pc)
  {
    ReachableInv(s);
    assert EntryOk(s, id);
  }

  /** A `Locked` Jade entry is without a task in charge exactly when its task gave up after the
      unlock, or found the Jade locked again. */
  lemma LockedJadeWithoutTask(s: State, id: Id)
    requires Reachable(s) && id in s.devices && s.devices[id].Locked? && s.devices[id].kind.Jade?
    ensures var e := s.devices[id];
            e.session < |s.tasks| && s.tasks[e.session].id == id &&
            (!InCharge(s.tasks[e.session].pc) <==> s.tasks[e.session].pc.Abandoned? || e.round == 1)
  {
    ReachableInv(s);
    assert EntryOk(s, id);
  }

  /** The final write of a BitBox02 task leaves no `Locked` entry at its id, whoever wrote it, and no
      `Locked` entry of its own connection anywhere; it touches no other id and its `Update` comes next. */
  lemma FinalWriteUnlocks(s: State, t: TaskId, what: TaskChoice)
    requires Reachable(s) && Enabled(s, TaskStep(t, what)) && s.tasks[t].kind.BitBox02? && s.tasks[t].pc.Unlocking?
    ensures var s' := Apply(s, TaskStep(t, what));
            var id := s.tasks[t].id;
            && (id in s'.devices ==> s'.devices[id].Supported? && s'.devices[id].session == t)
            && (forall k | k in s'.devices && s'.devices[k].Locked? :: s'.devices[k].session != t)
            && s'.devices - {id} == s.devices - {id}
            && s'.tasks[t].pc == Sending(Return)
  {
    ReachableInv(s);
    forall k | k in s.devices ensures s.devices[k].session == t ==> k == s.tasks[t].id {
      assert EntryOk(s, k);
    }
  }

  /** A task that has inserted a `Locked` entry always finds its device in the cell, so the
      `unreachable!()` of the BitBox02 task is never reached. */
  lemma NoTaskPanics(s: State, t: TaskId)
    requires Reachable(s) && t < |s.tasks|
    ensures !s.tasks[t].pc.Panicked?
    ensures s.tasks[t].pc.Taking? ==> t in s.cells
  {
    ReachableInv(s);
    assert TaskOk(s, t);
  }

  /** Within one listener run the live tasks of an id never exceed one plus the number of times
      cleanup dropped the handle of that id. */
  lemma TaskBound(s: State, l: ListenerId, h: HandleKey)
    requires Reachable(s) && l < |s.listeners|
    ensures |LiveTasks(s, l, h)| <= 1 + DropCount(s.listeners[l], h)
  {
    ReachableInv(s);
    assert DropsCover(s, l, h);
    var handles := s.listeners[l].handles;
    var tracked := if h in handles then {handles[h]} else {};
    SubsetIsSmaller(LiveTasks(s, l, h), Untracked(s, l, h) + tracked);
  }

  /** Live tasks for a handle, of the first `n` listeners. */
  ghost function LiveBelow(s: State, h: HandleKey, n: nat): set<TaskId> {
    set t | 0 <= t < |s.tasks| && s.tasks[t].owner < n && IsFor(s.tasks[t], s.tasks[t].owner, h) && !Done(s.tasks[t].pc)
  }

  function DropBound(s: State, h: HandleKey, n: nat): nat
    requires n <= |s.listeners|
  {
    if n == 0 then 0 else DropBound(s, h, n - 1) + 1 + DropCount(s.listeners[n - 1], h)
  }

  lemma {:induction false} TaskBoundBelow(s: State, h: HandleKey, n: nat)
    requires Reachable(s) && n <= |s.listeners|
    ensures |LiveBelow(s, h, n)| <= DropBound(s, h, n)
  {
    if n == 0 {
      assert LiveBelow(s, h, n) == {};
    } else {
      TaskBoundBelow(s, h, n - 1);
      TaskBound(s, n - 1, h);
      assert LiveBelow(s, h, n) == LiveBelow(s, h, n - 1) + LiveTasks(s, n - 1, h);
    }
  }

  /** Over all listeners the live tasks of an id are at most the sum of one plus the drops of each. */
  lemma TaskBoundOverall(s: State, h: HandleKey)
    requires Reachable(s)
    ensures |set t | 0 <= t < |s.tasks| && s.tasks[t].kind == h.kind && s.tasks[t].id == h.id && !Done(s.tasks[t].pc)|
            <= DropBound(s, h, |s.listeners|)
  {
    ReachableInv(s);
    TaskBoundBelow(s, h, |s.listeners|);
    forall t | 0 <= t < |s.tasks| ensures s.tasks[t].owner < |s.listeners| {
      assert TaskOk(s, t);
    }
    assert LiveBelow(s, h, |s.listeners|) ==
           set t | 0 <= t < |s.tasks| && s.tasks[t].kind == h.kind && s.tasks[t].id == h.id && !Done(s.tasks[t].pc);
  }

  /** A listener spawns a task for a handle only while that handle has no unfinished task. */
  lemma SpawnsOverIdleHandle(s: State, l: ListenerId, c: Choice)
    requires Reachable(s) && Enabled(s, ListenerStep(l, c))
    requires |Apply(s, ListenerStep(l, c)).tasks| > |s.tasks|
    ensures var t := Apply(s, ListenerStep(l, c)).tasks[|s.tasks|];
            var h := HandleKey(t.kind, t.id);
            t.owner == l && !Busy(s, s.listeners[l], h) &&
            |LiveTasks(s, l, h)| <= DropCount(s.listeners[l], h)
  {
    ReachableInv(s);
    var t := Apply(s, ListenerStep(l, c)).tasks[|s.tasks|];
    var h := HandleKey(t.kind, t.id);
    assert PcOk(s, s.listeners[l]) && HandlesOk(s, l) && DropsCover(s, l, h);
    assert LiveTasks(s, l, h) == Untracked(s, l, h);
  }
}
