/** When the two reads before a spawn can be overtaken by the insertion they are meant to prevent. */
module DiscoveryRaces {
  import opened Wrappers
  import opened Discovery
  import opened DiscoveryInvariants
  import opened DiscoveryRuns

  // ---------------------------------------------------------------- runs without a listener step

  predicate IsQuiet(ev: Event) {
    ev.TaskStep? || ev.Receive? || ev.List?
  }

  /** Only tasks and the consumer act. */
  predicate QuietRun(s: State, evs: seq<Event>, s': State)
    decreases |evs|
  {
    if evs == [] then s == s'
    else IsQuiet(evs[0]) && Enabled(s, evs[0]) && QuietRun(Apply(s, evs[0]), evs[1..], s')
  }

  lemma {:induction false} QuietThen(s: State, evs: seq<Event>, mid: State, more: seq<Event>, s': State)
    requires QuietRun(s, evs, mid) && QuietRun(mid, more, s')
    ensures QuietRun(s, evs + more, s')
    decreases |evs|
  {
    if evs == [] {
      assert evs + more == more;
    } else {
      QuietThen(Apply(s, evs[0]), evs[1..], mid, more, s');
      assert (evs + more)[1..] == evs[1..] + more;
    }
  }

  predicate CanInsert(pc: TaskPc) {
    pc.Connecting? || InCharge(pc)
  }

  /** Some task of this id has not done its last insertion. */
  ghost predicate MayAppear(s: State, id: Id) {
    exists t :: 0 <= t < |s.tasks| && s.tasks[t].id == id && CanInsert(s.tasks[t].pc)
  }

  lemma QuietStepKeepsAbsent(s: State, ev: Event, id: Id)
    requires IsQuiet(ev) && Enabled(s, ev) && id !in s.devices && !MayAppear(s, id)
    ensures id !in Apply(s, ev).devices && !MayAppear(Apply(s, ev), id)
  {
    var s' := Apply(s, ev);
    forall u | 0 <= u < |s'.tasks| && s'.tasks[u].id == id ensures !CanInsert(s'.tasks[u].pc) {
      assert s.tasks[u].id == id && !CanInsert(s.tasks[u].pc);
    }
  }

  lemma {:induction false} QuietRunKeepsAbsent(s: State, evs: seq<Event>, s': State, id: Id)
    requires QuietRun(s, evs, s') && id !in s.devices && !MayAppear(s, id)
    ensures id !in s'.devices && !MayAppear(s', id)
    decreases |evs|
  {
    if evs != [] {
      QuietStepKeepsAbsent(s, evs[0], id);
      QuietRunKeepsAbsent(Apply(s, evs[0]), evs[1..], s', id);
    }
  }

  // ---------------------------------------------------------------- running a task to its end

  function StepsLeft(pc: TaskPc): nat {
    match pc
    case Connecting => 6
    case Sending(TakeCell) => 5
    case Taking => 4
    case Unlocking => 3
    case Sending(Return) => 2
    case _ => 0
  }

  /** A choice with which the task inserts an entry if it still can. */
  function Inserting(s: State, t: TaskId): TaskChoice
    requires t < |s.tasks|
  {
    var me := s.tasks[t];
    if me.pc.Connecting? then Write(if me.kind.BitBox02? then Locked(me.kind, t, 0) else Supported(me.kind, t, 0))
    else if me.pc.Unlocking? then Write(Supported(me.kind, t, 1))
    else Continue
  }

  lemma InsertingStep(s: State, t: TaskId)
    requires TasksOk(s) && t < |s.tasks| && !Done(s.tasks[t].pc)
    ensures TaskMay(t, s.tasks[t], Inserting(s, t))
    ensures var s' := StepTask(s, t, Inserting(s, t));
            var pc, pc' := s.tasks[t].pc, s'.tasks[t].pc;
            && StepsLeft(pc') < StepsLeft(pc)
            && s'.listeners == s.listeners && s'.tasks == s.tasks[t := s.tasks[t].(pc := pc')]
            && (forall id | id in s.devices :: id in s'.devices)
            && (pc.Connecting? || pc.Unlocking? ==> s.tasks[t].id in s'.devices)
            && (CanInsert(pc) && !CanInsert(pc') ==> s.tasks[t].id in s'.devices)
  {
    assert TaskOk(s, t);
  }

  /** Run alone, a task can always finish, and if it still could insert its id it has. */
  lemma {:induction false} RunOut(s: State, t: TaskId) returns (evs: seq<Event>, s': State)
    requires TasksOk(s) && t < |s.tasks|
    ensures QuietRun(s, evs, s') && TasksOk(s') && s'.listeners == s.listeners
    ensures |s'.tasks| == |s.tasks| && Done(s'.tasks[t].pc) && s'.tasks == s.tasks[t := s.tasks[t].(pc := s'.tasks[t].pc)]
    ensures forall id | id in s.devices :: id in s'.devices
    ensures CanInsert(s.tasks[t].pc) ==> s.tasks[t].id in s'.devices
    decreases StepsLeft(s.tasks[t].pc)
  {
    if Done(s.tasks[t].pc) {
      evs, s' := [], s;
    } else {
      InsertingStep(s, t);
      var ev := TaskStep(t, Inserting(s, t));
      TaskStepKeepsTasks(s, t, Inserting(s, t));
      var rest;
      rest, s' := RunOut(Apply(s, ev), t);
      evs := [ev] + rest;
      assert evs[1..] == rest;
    }
  }

  // ---------------------------------------------------------------- the map read

  /** Some run of tasks and the consumer puts the id in the map. */
  ghost predicate Appears(s: State, id: Id) {
    exists evs, s' :: QuietRun(s, evs, s') && id in s'.devices
  }

  /** An absent id can appear by steps of tasks and the consumer exactly if one of its tasks has not
      done its last insertion. */
  lemma AppearsIff(s: State, id: Id)
    requires Reachable(s) && id !in s.devices
    ensures Appears(s, id) <==> MayAppear(s, id)
  {
    ReachableInv(s);
    if MayAppear(s, id) {
      var t :| 0 <= t < |s.tasks| && s.tasks[t].id == id && CanInsert(s.tasks[t].pc);
      var evs, s' := RunOut(s, t);
      assert QuietRun(s, evs, s') && id in s'.devices;
      assert Appears(s, id);
    } else if Appears(s, id) {
      var evs, s' :| QuietRun(s, evs, s') && id in s'.devices;
      QuietRunKeepsAbsent(s, evs, s', id);
    }
  }

  // ---------------------------------------------------------------- the handle read and the spawn

  /** The handle whose task a listener that has just read the map will look at. */
  function ReadsNext(pc: ListenerPc): Option<HandleKey> {
    match pc
    case CheckHandle(k, id, _) => Some(HandleKey(k, id))
    case SimHandle(k) => Some(HandleKey(k, SimulatorId(k)))
    case _ => None
  }

  /** The handle for which the listener's next step may spawn a task. */
  function SpawnsNext(pc: ListenerPc): Option<HandleKey> {
    match pc
    case Open(k, id, _) => Some(HandleKey(k, id))
    case SimSpawn(k) => Some(HandleKey(k, SimulatorId(k)))
    case _ => None
  }

  /** Tasks and the consumer act, the listener reads the handle, they act again: it is about to spawn
      a task for an id that is in the map. */
  ghost predicate SpawnsOver(s: State, l: ListenerId, h: HandleKey, evs: seq<Event>, mid: State, more: seq<Event>, s': State) {
    && l < |s.listeners| && QuietRun(s, evs, mid)
    && Enabled(mid, ListenerStep(l, Proceed)) && QuietRun(Apply(mid, ListenerStep(l, Proceed)), more, s')
    && l < |s'.listeners| && SpawnsNext(s'.listeners[l].pc) == Some(h) && h.id in s'.devices
  }

  lemma {:induction false} QuietRunKeepsListeners(s: State, evs: seq<Event>, s': State)
    requires QuietRun(s, evs, s')
    ensures s'.listeners == s.listeners
    decreases |evs|
  {
    if evs != [] { QuietRunKeepsListeners(Apply(s, evs[0]), evs[1..], s'); }
  }

  lemma HandleReadKeepsRest(s: State, l: ListenerId)
    requires l < |s.listeners| && ReadsNext(s.listeners[l].pc).Some?
    ensures Enabled(s, ListenerStep(l, Proceed))
    ensures var s' := Apply(s, ListenerStep(l, Proceed));
            var h := ReadsNext(s.listeners[l].pc).value;
            && s'.devices == s.devices && s'.tasks == s.tasks && |s'.listeners| == |s.listeners|
            && (!Busy(s, s.listeners[l], h) ==> SpawnsNext(s'.listeners[l].pc) == Some(h))
  {}

  /** Some quiet run ends with the id in the map and the handle not busy. */
  lemma OvertakenRead(s: State, l: ListenerId, h: HandleKey) returns (evs: seq<Event>, s': State)
    requires Inv(s) && l < |s.listeners| && MayAppear(s, h.id)
    ensures QuietRun(s, evs, s') && s'.listeners == s.listeners
    ensures h.id in s'.devices && !Busy(s', s'.listeners[l], h)
  {
    var u :| 0 <= u < |s.tasks| && s.tasks[u].id == h.id && CanInsert(s.tasks[u].pc);
    evs, s' := [], s;
    if Busy(s, s.listeners[l], h) {
      evs, s' := RunOut(s, s.listeners[l].handles[h]);
    }
    var more, end := RunOut(s', u);
    QuietThen(s, evs, s', more, end);
    evs, s' := evs + more, end;
  }

  /** A listener that has just read that an id is absent can, without any other listener's step, come
      to spawn a task for that id while it is in the map, exactly if some task of the id had not done
      its last insertion at the time of the read.  This covers every family and both simulators. */
  lemma SpawnOverIff(s: State, l: ListenerId, h: HandleKey)
    requires Reachable(s) && l < |s.listeners| && ReadsNext(s.listeners[l].pc) == Some(h) && h.id !in s.devices
    ensures (exists evs, mid, more, s' :: SpawnsOver(s, l, h, evs, mid, more, s')) <==> MayAppear(s, h.id)
  {
    ReachableInv(s);
    if MayAppear(s, h.id) {
      var evs, mid := OvertakenRead(s, l, h);
      HandleReadKeepsRest(mid, l);
      var s' := Apply(mid, ListenerStep(l, Proceed));
      assert QuietRun(s', [], s');
      assert SpawnsOver(s, l, h, evs, mid, [], s');
    }
    if evs, mid, more, s' :| SpawnsOver(s, l, h, evs, mid, more, s') {
      if !MayAppear(s, h.id) {
        QuietRunKeepsAbsent(s, evs, mid, h.id);
        QuietRunKeepsListeners(s, evs, mid);
        HandleReadKeepsRest(mid, l);
        assert !MayAppear(Apply(mid, ListenerStep(l, Proceed)), h.id);
        QuietRunKeepsAbsent(Apply(mid, ListenerStep(l, Proceed)), more, s', h.id);
      }
    }
  }
}
