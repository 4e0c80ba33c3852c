/** Whole runs of the discovery service: what stays put, what each cleanup removes, and which
    stronger claims some run refutes. */
module DiscoveryRuns {
  import opened Discovery
  import opened DiscoveryInvariants

  // ---------------------------------------------------------------- steady state

  lemma OnePrefix(id: Id, j: Kind, k: Kind)
    requires !IsSimulator(j) && !IsSimulator(k) && HasPrefix(id, j) && HasPrefix(id, k)
    ensures j == k
  {
    assert id[0] == Prefix(j)[0] == Prefix(k)[0];
  }

  /** Nothing the listener has already decided can hit the entry of `id`. */
  predicate Harmless(pc: ListenerPc, id: Id) {
    match pc
    case Scan(k, connected) => HasPrefix(id, k) ==> id in connected
    case Purge(_, _, victims) => id !in victims
    case CheckHandle(_, next, _) => next != id
    case Open(_, next, _) => next != id
    case _ => true
  }

  predicate Idle(s: State, id: Id) {
    forall t | 0 <= t < |s.tasks| && s.tasks[t].id == id :: Done(s.tasks[t].pc)
  }

  predicate Settled(s: State, id: Id) {
    && id != SPECTER_SIMULATOR_ID && id != LEDGER_SIMULATOR_ID
    && id in s.devices
    && Idle(s, id)
    && forall l | 0 <= l < |s.listeners| :: Harmless(s.listeners[l].pc, id)
  }

  /** If the event enumerates the family of `id`, it lists `id` as connected. */
  predicate Lists(s: State, ev: Event, id: Id) {
    ev.ListenerStep? && ev.l < |s.listeners| && s.listeners[ev.l].pc.Enumerate? && ev.choice.Found? &&
    HasPrefix(id, s.listeners[ev.l].pc.kind)
    ==> id in ev.choice.ids
  }

  function TasksFor(s: State, id: Id): set<TaskId> {
    set t | 0 <= t < |s.tasks| && s.tasks[t].id == id
  }

  /** The entry at `id` and the tasks for it are what they were. */
  predicate Untouched(s: State, s': State, id: Id) {
    id in s.devices && id in s'.devices && s'.devices[id] == s.devices[id] && TasksFor(s', id) == TasksFor(s, id)
  }

  lemma SettledTaskStep(s: State, t: TaskId, what: TaskChoice, id: Id)
    requires TasksOk(s) && Settled(s, id) && Enabled(s, TaskStep(t, what))
    ensures Settled(StepTask(s, t, what), id) && Untouched(s, StepTask(s, t, what), id)
  {}

  lemma SettledPcStep(s: State, l: ListenerId, c: Choice, id: Id)
    requires ListenersOk(s) && Settled(s, id) && Enabled(s, ListenerStep(l, c)) && Lists(s, ListenerStep(l, c), id)
    ensures Harmless(StepListener(s, l, c).listeners[l].pc, id)
    ensures id in StepListener(s, l, c).devices && StepListener(s, l, c).devices[id] == s.devices[id]
  {
    assert PcOk(s, s.listeners[l]) && Harmless(s.listeners[l].pc, id);
  }

  /** No listener spawns a task for a settled id. */
  lemma SettledSpawnsOthers(s: State, l: ListenerId, c: Choice, id: Id)
    requires ListenersOk(s) && Settled(s, id) && Enabled(s, ListenerStep(l, c))
    ensures var s' := StepListener(s, l, c);
            && s.tasks <= s'.tasks && |s'.tasks| <= |s.tasks| + 1
            && (|s'.tasks| > |s.tasks| ==> s'.tasks[|s.tasks|].id != id)
  {
    assert PcOk(s, s.listeners[l]) && Harmless(s.listeners[l].pc, id);
  }

  lemma SettledListenerStep(s: State, l: ListenerId, c: Choice, id: Id)
    requires ListenersOk(s) && Settled(s, id) && Enabled(s, ListenerStep(l, c)) && Lists(s, ListenerStep(l, c), id)
    ensures Settled(StepListener(s, l, c), id) && Untouched(s, StepListener(s, l, c), id)
  {
    var s' := StepListener(s, l, c);
    SettledPcStep(s, l, c, id);
    SettledSpawnsOthers(s, l, c, id);
    forall m | 0 <= m < |s'.listeners| ensures Harmless(s'.listeners[m].pc, id) {
      OthersWait(s, l, c, m);
    }
  }

  lemma SettledStep(s: State, ev: Event, id: Id)
    requires Inv(s) && Settled(s, id) && Enabled(s, ev) && Lists(s, ev, id)
    ensures Settled(Apply(s, ev), id) && Untouched(s, Apply(s, ev), id)
  {
    match ev
    case TaskStep(t, what) => SettledTaskStep(s, t, what, id);
    case ListenerStep(l, c) => SettledListenerStep(s, l, c, id);
    case _ =>
      var s' := Apply(s, ev);
      assert forall m :: 0 <= m < |s.listeners| ==> s'.listeners[m] == s.listeners[m];
  }

  /** A run in which every enumeration of the family of `id` lists `id`. */
  predicate ListingRun(s: State, evs: seq<Event>, id: Id, s': State)
    decreases |evs|
  {
    if evs == [] then s == s'
    else Enabled(s, evs[0]) && Lists(s, evs[0], id) && ListingRun(Apply(s, evs[0]), evs[1..], id, s')
  }

  /** Over any number of cycles, whatever happens to other ids, a settled entry is never changed
      and no task is spawned for it. */
  lemma {:induction false} SettledForever(s: State, evs: seq<Event>, id: Id, s': State)
    requires Reachable(s) && Settled(s, id) && ListingRun(s, evs, id, s')
    ensures Settled(s', id) && Untouched(s, s', id)
    decreases |evs|
  {
    if evs != [] {
      ReachableInv(s);
      SettledStep(s, evs[0], id);
      var next := Go(s, evs[0]);
      SettledForever(next, evs[1..], id, s');
    }
  }

  // ---------------------------------------------------------------- cleanup

  /** Cleanups of different families neither see nor undo one another. */
  lemma CleanupsCommute(devices: map<Id, Entry>, j: Kind, js: seq<Id>, k: Kind, ks: seq<Id>)
    requires !IsSimulator(j) && !IsSimulator(k) && j != k
    ensures Victims(devices - Victims(devices, k, ks), j, js) == Victims(devices, j, js)
    ensures Victims(devices, j, js) !! Victims(devices, k, ks)
    ensures var first := devices - Victims(devices, j, js);
            var second := devices - Victims(devices, k, ks);
            first - Victims(first, k, ks) == second - Victims(second, j, js)
  {
    forall id | HasPrefix(id, j) ensures !HasPrefix(id, k) {
      if HasPrefix(id, k) { OnePrefix(id, j, k); }
    }
    var first := devices - Victims(devices, j, js);
    var second := devices - Victims(devices, k, ks);
    assert Victims(first, k, ks) == Victims(devices, k, ks);
    assert Victims(second, j, js) == Victims(devices, j, js);
  }

  /** The prefix of each simulator's family matches the simulator id, and no Ledger enumeration can
      list the Ledger simulator, so every Ledger cleanup evicts it while no other family's does. */
  lemma LedgerSimulatorIsEvicted(devices: map<Id, Entry>, k: Kind, connected: seq<Id>)
    requires AllEnumerable(k, connected) && LEDGER_SIMULATOR_ID in devices
    ensures LEDGER_SIMULATOR_ID in Victims(devices, k, connected) <==> k.Ledger?
  {
    assert HasPrefix(LEDGER_SIMULATOR_ID, Ledger);
    if HasPrefix(LEDGER_SIMULATOR_ID, k) { OnePrefix(LEDGER_SIMULATOR_ID, k, Ledger); }
  }

  lemma SpecterSimulatorIsEvicted(devices: map<Id, Entry>, k: Kind, connected: seq<Id>)
    requires AllEnumerable(k, connected) && SPECTER_SIMULATOR_ID in devices
    ensures SPECTER_SIMULATOR_ID in Victims(devices, k, connected)
            <==> k.Specter? && SPECTER_SIMULATOR_ID !in connected
  {
    assert HasPrefix(SPECTER_SIMULATOR_ID, Specter);
    if HasPrefix(SPECTER_SIMULATOR_ID, k) { OnePrefix(SPECTER_SIMULATOR_ID, k, Specter); }
  }

  /** What a listener that does not act has decided stays decided. */
  lemma {:induction false} ListenerWaits(s: State, evs: seq<Event>, l: ListenerId, s': State)
    requires Run(s, evs, s') && l < |s.listeners|
    requires forall i | 0 <= i < |evs| :: !(evs[i].ListenerStep? && evs[i].l == l)
    ensures l < |s'.listeners| && s'.listeners[l] == s.listeners[l]
    decreases |evs|
  {
    if evs != [] {
      assert Apply(s, evs[0]).listeners[l] == s.listeners[l];
      ListenerWaits(Apply(s, evs[0]), evs[1..], l, s');
    }
  }

  /** Does the cleanup the listener is about to begin evict the entry?  `s'` is reached from the end of
      the scan by steps of others, in which the entry may be written again. */
  ghost predicate Evicts(s: State, l: ListenerId, evs: seq<Event>, s': State, id: Id)
    requires Enabled(s, ListenerStep(l, Proceed))
  {
    && Run(StepListener(s, l, Proceed), evs, s')
    && (forall i | 0 <= i < |evs| :: !(evs[i].ListenerStep? && evs[i].l == l))
    && l < |s'.listeners| && s'.listeners[l].pc.Purge?
    && id in s'.listeners[l].pc.victims && id !in StepListener(s', l, Proceed).devices
  }

  /** Whatever others do between its two locks, a cleanup evicts a simulator's entry that its scan saw
      exactly if it is the Ledger family's, for the Ledger simulator, and exactly if it is the Specter
      family's and no port is named like the simulator, for the Specter simulator. */
  lemma CleanupEvictsSimulators(s: State, l: ListenerId, evs: seq<Event>, s': State)
    requires Reachable(s) && l < |s.listeners| && s.listeners[l].pc.Scan?
    requires Run(StepListener(s, l, Proceed), evs, s')
    requires forall i | 0 <= i < |evs| :: !(evs[i].ListenerStep? && evs[i].l == l)
    ensures var k, connected := s.listeners[l].pc.kind, s.listeners[l].pc.connected;
            && (LEDGER_SIMULATOR_ID in s.devices ==>
                  (Evicts(s, l, evs, s', LEDGER_SIMULATOR_ID) <==> k.Ledger?))
            && (SPECTER_SIMULATOR_ID in s.devices ==>
                  (Evicts(s, l, evs, s', SPECTER_SIMULATOR_ID) <==> k.Specter? && SPECTER_SIMULATOR_ID !in connected))
  {
    var k, connected := s.listeners[l].pc.kind, s.listeners[l].pc.connected;
    ReachableInv(s);
    assert PcOk(s, s.listeners[l]);
    ListenerWaits(StepListener(s, l, Proceed), evs, l, s');
    if LEDGER_SIMULATOR_ID in s.devices { LedgerSimulatorIsEvicted(s.devices, k, connected); }
    if SPECTER_SIMULATOR_ID in s.devices { SpecterSimulatorIsEvicted(s.devices, k, connected); }
  }

  // ---------------------------------------------------------------- building runs

  lemma {:induction false} RunThen(s: State, evs: seq<Event>, mid: State, ev: Event)
    requires Run(s, evs, mid) && Enabled(mid, ev)
    ensures Run(s, evs + [ev], Apply(mid, ev))
    decreases |evs|
  {
    if evs == [] {
      assert [ev][1..] == [];
      assert evs + [ev] == [ev];
    } else {
      RunThen(Apply(s, evs[0]), evs[1..], mid, ev);
      assert (evs + [ev])[1..] == evs[1..] + [ev];
    }
  }

  lemma Go(s: State, ev: Event) returns (s': State)
    requires Reachable(s) && Enabled(s, ev)
    ensures s' == Apply(s, ev) && Reachable(s')
  {
    var evs :| Run(Initial, evs, s);
    RunThen(Initial, evs, s, ev);
    s' := Apply(s, ev);
  }

  /** The only listener takes a step. */
  lemma Listen(s: State, c: Choice) returns (s': State)
    requires Reachable(s) && |s.listeners| == 1 && ListenerMay(s.listeners[0].pc, c)
    ensures s' == StepListener(s, 0, c) && Reachable(s') && |s'.listeners| == 1
  {
    s' := Go(s, ListenerStep(0, c));
  }

  const SIM := HandleKey(SpecterSimulator, SPECTER_SIMULATOR_ID)

  /** First cycle up to the Jade enumeration: one task is looking for the Specter simulator. */
  lemma ReachJade() returns (s: State)
    ensures Reachable(s)
    ensures s == State(map[], [Task(SpecterSimulator, SPECTER_SIMULATOR_ID, 0, Connecting)], {},
                       [Listener(Enumerate(Jade), map[SIM := 0], map[])], [], Consumer(map[], false))
  {
    assert Run(Initial, [], Initial);
    s := Go(Initial, StartListener);
    s := Listen(s, Proceed);
    s := Listen(s, Proceed);
    s := Listen(s, Proceed);
    assert s.listeners[0].pc == SimMap(SpecterSimulator);
    s := Listen(s, Proceed);
    s := Listen(s, Proceed);
    assert s.listeners[0] == Listener(SimSpawn(SpecterSimulator), map[], map[]);
    s := Listen(s, Proceed);
    s := Listen(s, Fail);
  }

  /** While the map is empty a family without devices changes nothing but the listener's place. */
  lemma NoDevices(s: State, k: Kind) returns (s': State)
    requires Reachable(s) && |s.listeners| == 1 && s.listeners[0].pc == Enumerate(k) && s.devices == map[]
    ensures Reachable(s') && s' == WithListener(s, 0, s.listeners[0].(pc := After(k)))
  {
    s' := Listen(s, Found([]));
    s' := Listen(s', Proceed);
    s' := Listen(s', Proceed);
  }

  /** From the Ledger simulator stage to the Ledger enumeration, the map being empty. */
  lemma ToLedger(s: State) returns (s': State)
    requires Reachable(s) && |s.listeners| == 1 && s.listeners[0].pc == SimMap(LedgerSimulator)
    requires s.devices == map[] && HandleKey(LedgerSimulator, LEDGER_SIMULATOR_ID) !in s.listeners[0].handles
    ensures Reachable(s') && |s'.listeners| == 1 && s'.listeners[0].pc == Enumerate(Ledger)
    ensures s'.tasks == s.tasks + [Task(LedgerSimulator, LEDGER_SIMULATOR_ID, 0, Connecting)]
    ensures s'.listeners[0].handles ==
            s.listeners[0].handles[HandleKey(LedgerSimulator, LEDGER_SIMULATOR_ID) := |s.tasks|]
    ensures s'.devices == s.devices && s'.cells == s.cells && s'.queue == s.queue && s'.consumer == s.consumer
  {
    s' := Listen(s, Proceed);
    s' := Listen(s', Proceed);
    assert s'.listeners[0].pc == SimSpawn(LedgerSimulator);
    s' := Listen(s', Proceed);
    s' := NoDevices(s', BitBox02);
    s' := NoDevices(s', Coldcard);
  }

  /** From an enumeration that finds one absent id without a handle to the spawn of its task. */
  lemma SpawnOne(s: State, k: Kind, id: Id) returns (s': State)
    requires Reachable(s) && |s.listeners| == 1 && s.listeners[0].pc == Enumerate(k) && s.devices == map[]
    requires Enumerable(k, id) && HandleKey(k, id) !in s.listeners[0].handles
    ensures Reachable(s')
    ensures s' == Spawn(s, 0, HandleKey(k, id), if k.Ledger? then SpawnSend([]) else Poll(k, []))
  {
    s' := Listen(s, Found([id]));
    s' := Listen(s', Proceed);
    s' := Listen(s', Proceed);
    assert s'.listeners[0].pc == CheckHandle(k, id, []);
    s' := Listen(s', Proceed);
    s' := Listen(s', Proceed);
  }

  // ---------------------------------------------------------------- refuted claims

  lemma LedgerSpawned(id: Id) returns (s: State)
    requires IsHidLedgerId(id)
    ensures Reachable(s) && |s.listeners| == 1 && s.listeners[0].pc == SpawnSend([])
    ensures |s.tasks| == 3 && s.tasks[2] == Task(Ledger, id, 0, Connecting)
    ensures s.tasks[0].pc == Connecting && s.tasks[1].pc == Connecting
    ensures s.devices == map[] && s.queue == [] && s.consumer == Consumer(map[], false)
  {
    s := ReachJade();
    s := NoDevices(s, Jade);
    s := ToLedger(s);
    s := SpawnOne(s, Ledger, id);
  }

  /** The `Update` of the spawn is read before the Ledger's task has done anything. */
  lemma LedgerUpdateIsSpent(id: Id) returns (s: State)
    requires IsHidLedgerId(id)
    ensures Reachable(s) && |s.listeners| == 1 && s.listeners[0].pc == Poll(Ledger, [])
    ensures |s.tasks| == 3 && s.tasks[2] == Task(Ledger, id, 0, Connecting)
    ensures s.tasks[0].pc == Connecting && s.tasks[1].pc == Connecting
    ensures s.queue == [] && s.consumer == Consumer(map[], false)
  {
    s := LedgerSpawned(id);
    s := Listen(s, Proceed);
    assert s.queue == [Update];
    s := Go(s, Receive);
    s := Go(s, List);
  }

  /** For every HID Ledger id some run ends with the Ledger in the map, the consumer's view without
      it, and no re-read due: the only `Update` was sent at the spawn, before the insert. */
  lemma LedgerUpdateIsLost(id: Id) returns (s: State)
    requires IsHidLedgerId(id)
    ensures Reachable(s) && id in s.devices && id !in s.consumer.view && !RereadDue(s)
  {
    s := LedgerUpdateIsSpent(id);
    s := Go(s, TaskStep(2, Write(Supported(Ledger, 2, 0))));
    assert forall t :: 0 <= t < |s.tasks| ==> !s.tasks[t].pc.Sending?;
  }

  /** Exactly the ids of HID Ledgers can change behind the consumer's back. */
  lemma NotifiedUnlessHidLedger(id: Id)
    ensures (forall s: State :: Reachable(s) ==> NotifiedAt(s, id)) <==> !IsHidLedgerId(id)
  {
    if IsHidLedgerId(id) {
      var s := LedgerUpdateIsLost(id);
      assert !NotifiedAt(s, id);
    } else {
      forall s: State | Reachable(s) ensures NotifiedAt(s, id) {
        UpdatesAreNotLost(s, id);
      }
    }
  }

  /** Every Jade id can get stuck: its entry is `Locked`, no task is in charge, and no continuation
      that keeps listing the Jade ever changes the entry or spawns another task. */
  lemma JadeCanStayLocked(id: Id) returns (s: State)
    requires Enumerable(Jade, id)
    ensures Reachable(s) && id in s.devices && s.devices[id].Locked? && Idle(s, id)
    ensures forall evs, s' :: ListingRun(s, evs, id, s') ==> Untouched(s, s', id)
  {
    OnePrefixOnly(id);
    s := ReachJade();
    s := SpawnOne(s, Jade, id);
    s := Go(s, TaskStep(1, Write(Locked(Jade, 1, 0))));
    s := Go(s, TaskStep(1, Continue));
    s := Go(s, TaskStep(1, Continue));
    s := Go(s, TaskStep(1, GiveUp));
    assert Settled(s, id);
    forall evs, s' | ListingRun(s, evs, id, s') ensures Untouched(s, s', id) {
      SettledForever(s, evs, id, s');
    }
  }

  /** A Jade that is unlocked but found locked again stays in the map as `Locked`, its task finished. */
  lemma JadeCanBeFoundLockedAgain(id: Id) returns (s: State)
    requires Enumerable(Jade, id)
    ensures Reachable(s) && id in s.devices && s.devices[id].Locked? && s.devices[id].round == 1 && Idle(s, id)
  {
    OnePrefixOnly(id);
    s := ReachJade();
    s := SpawnOne(s, Jade, id);
    s := Go(s, TaskStep(1, Write(Locked(Jade, 1, 0))));
    s := Go(s, TaskStep(1, Continue));
    s := Go(s, TaskStep(1, Continue));
    s := Go(s, TaskStep(1, Write(Locked(Jade, 1, 1))));
    s := Go(s, TaskStep(1, Continue));
  }

  /** From an enumeration that finds an absent id without a handle to its failed open. */
  lemma OpenFails(s: State, id: Id, more: seq<Id>) returns (s': State)
    requires Reachable(s) && |s.listeners| == 1 && s.listeners[0].pc == Enumerate(Ledger) && s.devices == map[]
    requires HandleKey(Ledger, id) !in s.listeners[0].handles && forall x | x in [id] + more :: Enumerable(Ledger, x)
    ensures Reachable(s') && s' == WithListener(s, 0, s.listeners[0].(pc := Poll(Ledger, more)))
  {
    s' := Listen(s, Found([id] + more));
    s' := Listen(s', Proceed);
    s' := Listen(s', Proceed);
    assert ([id] + more)[1..] == more;
    assert s'.listeners[0].pc == CheckHandle(Ledger, id, more);
    s' := Listen(s', Proceed);
    s' := Listen(s', Fail);
  }

  /** A HID Ledger that cannot be opened leaves no trace: the next id is polled and no task exists for it. */
  lemma LedgerOpenCanFail(id: Id, more: seq<Id>) returns (s: State)
    requires forall x | x in [id] + more :: IsHidLedgerId(x)
    ensures Reachable(s) && |s.listeners| == 1 && s.listeners[0].pc == Poll(Ledger, more)
    ensures id !in s.devices && (forall t | t in s.tasks :: t.id != id)
  {
    assert IsHidLedgerId(id) by { assert id in [id] + more; }
    assert id[0] == 'l' && SPECTER_SIMULATOR_ID[0] == 's';
    s := ReachJade();
    s := NoDevices(s, Jade);
    s := ToLedger(s);
    s := OpenFails(s, id, more);
  }

  lemma OnePrefixOnly(id: Id)
    requires HasPrefix(id, Jade)
    ensures id != SPECTER_SIMULATOR_ID && id != LEDGER_SIMULATOR_ID
  {
    assert id[0] == 'j';
  }

  /** From the Ledger enumeration through the next cycle to the Jade enumeration, the map being empty
      and the task that looks for the Specter simulator still running. */
  lemma NextCycle(s: State) returns (s': State)
    requires Reachable(s) && |s.listeners| == 1 && s.listeners[0].pc == Enumerate(Ledger) && s.devices == map[]
    requires Busy(s, s.listeners[0], SIM)
    ensures Reachable(s') && s' == WithListener(s, 0, s.listeners[0].(pc := Enumerate(Jade)))
  {
    s' := NoDevices(s, Ledger);
    s' := Listen(s', Proceed);
    s' := Listen(s', Proceed);
    s' := Listen(s', Proceed);
    s' := Listen(s', Proceed);
    assert s'.listeners[0].pc == SimHandle(SpecterSimulator);
    s' := Listen(s', Proceed);
    s' := Listen(s', Fail);
  }

  lemma JadeInSecondCycle(id: Id) returns (s: State)
    requires Enumerable(Jade, id)
    ensures Reachable(s) && |s.listeners| == 1 && s.listeners[0].pc == Enumerate(Jade) && s.devices == map[]
    ensures |s.tasks| == 3 && s.tasks[1] == Task(Jade, id, 0, Connecting)
    ensures HandleKey(Jade, id) in s.listeners[0].handles && s.listeners[0].handles[HandleKey(Jade, id)] == 1
  {
    s := ReachJade();
    s := SpawnOne(s, Jade, id);
    s := Listen(s, Proceed);
    s := ToLedger(s);
    s := NextCycle(s);
  }

  lemma JadeBetweenReads(id: Id) returns (s: State)
    requires Enumerable(Jade, id)
    ensures Reachable(s) && |s.listeners| == 1 && s.listeners[0].pc == CheckHandle(Jade, id, [])
    ensures |s.tasks| == 3 && s.tasks[1] == Task(Jade, id, 0, Connecting)
    ensures HandleKey(Jade, id) in s.listeners[0].handles && s.listeners[0].handles[HandleKey(Jade, id)] == 1
  {
    s := JadeInSecondCycle(id);
    s := Listen(s, Found([id]));
    s := Listen(s, Proceed);
    s := Listen(s, Proceed);
  }

  /** The two reads of `should_poll` are not one: a task can insert its device between them, so a
      second task is spawned for an id that is in the map. */
  lemma SpawnWhilePresent(id: Id) returns (s: State, s': State)
    requires Enumerable(Jade, id)
    ensures Reachable(s) && id in s.devices && Enabled(s, ListenerStep(0, Proceed))
    ensures s' == Apply(s, ListenerStep(0, Proceed))
    ensures |s'.tasks| > |s.tasks| && s'.tasks[|s.tasks|].id == id
  {
    s := JadeBetweenReads(id);
    s := Go(s, TaskStep(1, Write(Supported(Jade, 1, 0))));
    assert s.tasks[1].pc == Sending(Return) && id in s.devices;
    s := Go(s, TaskStep(1, Continue));
    assert s.tasks[1].pc == Finished;
    s := Listen(s, Proceed);
    assert s.listeners[0].pc == Open(Jade, id, []);
    s' := Go(s, ListenerStep(0, Proceed));
  }
}
