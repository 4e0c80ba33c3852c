/** The two helpers every device family shares: what the steps of the poll check decide, and the
    cleanup in the imperative form of the program, tied to the steps of `Discovery`. */
module DeviceRegistry {
  import opened Discovery
  import opened DiscoveryInvariants

  /** What one family's handler works on: the shared map, its own join handles and the channel. */
  class Registry {
    var devices: map<Id, Entry>
    var handles: map<Id, TaskId>
    var queue: seq<Msg>

    constructor (devices: map<Id, Entry>, handles: map<Id, TaskId>, queue: seq<Msg>)
      ensures this.devices == devices && this.handles == handles && this.queue == queue
    {
      this.devices, this.handles, this.queue := devices, handles, queue;
    }

    /** Drop the entries of a family that are no longer connected, with their handles; one `Update`
        tells of all of them, and none is sent when nothing was dropped. */
    method CleanupDisconnected(connectedIds: seq<Id>, k: Kind)
      modifies this
      ensures forall id :: id in devices <==>
                id in old(devices) && (HasPrefix(id, k) ==> id in connectedIds)
      ensures forall id | id in devices :: devices[id] == old(devices)[id]
      ensures handles == old(handles) - Victims(old(devices), k, connectedIds)
      ensures devices == old(devices) ==> queue == old(queue)
      ensures devices != old(devices) ==> queue == old(queue) + [Update]
    {
      var currentIds: set<Id> := devices.Keys;
      var idsToRemove: set<Id> := {};
      while currentIds != {}
        invariant currentIds <= devices.Keys
        invariant idsToRemove == Victims(devices, k, connectedIds) - currentIds
      {
        var id :| id in currentIds;
        currentIds := currentIds - {id};
        if HasPrefix(id, k) && id !in connectedIds {
          idsToRemove := idsToRemove + {id};
        }
      }
      ghost var victims := Victims(devices, k, connectedIds);
      assert idsToRemove == victims;
      if idsToRemove != {} {
        while idsToRemove != {}
          invariant idsToRemove <= victims
          invariant devices == old(devices) - (victims - idsToRemove)
          invariant handles == old(handles) - (victims - idsToRemove)
          invariant queue == old(queue)
        {
          var id :| id in idsToRemove;
          devices := devices - {id};
          handles := handles - {id};
          idsToRemove := idsToRemove - {id};
        }
        ghost var gone :| gone in victims;
        assert gone in old(devices) && gone !in devices;
        queue := queue + [Update];
      }
    }
  }

  /** The step system's cleanup, with no other thread in between. */
  function CleanupSteps(s: State, l: ListenerId): State
    requires l < |s.listeners| && s.listeners[l].pc.Scan?
  {
    var scanned := StepListener(s, l, Proceed);
    if scanned.listeners[l].pc.Poll? then scanned
    else StepListener(StepListener(scanned, l, Proceed), l, Proceed)
  }

  /** Undisturbed, the three steps of the step system do what `CleanupDisconnected` promises. */
  lemma CleanupStepsMeetContract(s: State, l: ListenerId)
    requires l < |s.listeners| && s.listeners[l].pc.Scan?
    ensures var k, connected := s.listeners[l].pc.kind, s.listeners[l].pc.connected;
            var s' := CleanupSteps(s, l);
            && s'.listeners[l].pc == Poll(k, connected)
            && (forall id :: id in s'.devices <==> id in s.devices && (HasPrefix(id, k) ==> id in connected))
            && (forall id | id in s'.devices :: s'.devices[id] == s.devices[id])
            && (forall id :: HandleKey(k, id) in s'.listeners[l].handles <==>
                  HandleKey(k, id) in s.listeners[l].handles && id !in Victims(s.devices, k, connected))
            && s'.queue == (if s'.devices == s.devices then s.queue else s.queue + [Update])
            && s'.tasks == s.tasks
  {
    var k, connected := s.listeners[l].pc.kind, s.listeners[l].pc.connected;
    var victims := Victims(s.devices, k, connected);
    var s' := CleanupSteps(s, l);
    assert forall id :: id in victims <==> id in s.devices && HasPrefix(id, k) && id !in connected;
    if victims == {} {
      assert s'.devices == s.devices;
    } else {
      var gone :| gone in victims;
      assert s'.devices == s.devices - victims;
      assert gone in s.devices && gone !in s'.devices;
      assert s'.queue == s.queue + [Update];
    }
  }

  /** What the two reads of the step system decide, undisturbed, in a reachable state: an id is polled
      exactly if it is absent from the map and every live task this listener has for it is one whose
      handle cleanup dropped. */
  lemma PollStepsDecide(s: State, l: ListenerId)
    requires Reachable(s) && l < |s.listeners| && s.listeners[l].pc.Poll? && s.listeners[l].pc.todo != []
    ensures var Poll(k, todo) := s.listeners[l].pc;
            var h := HandleKey(k, todo[0]);
            var read := StepListener(s, l, Proceed);
            var end := if read.listeners[l].pc.CheckHandle? then StepListener(read, l, Proceed) else read;
            && (end.listeners[l].pc == Open(k, todo[0], todo[1..]) <==>
                  todo[0] !in s.devices && LiveTasks(s, l, h) == Untracked(s, l, h))
            && (end.listeners[l].pc != Open(k, todo[0], todo[1..]) ==> end.listeners[l].pc == Poll(k, todo[1..]))
            && end.devices == s.devices && end.tasks == s.tasks
  {
    var Poll(k, todo) := s.listeners[l].pc;
    var h := HandleKey(k, todo[0]);
    var me := s.listeners[l];
    ReachableInv(s);
    assert HandlesOk(s, l);
    if Busy(s, me, h) {
      assert me.handles[h] in LiveTasks(s, l, h) && me.handles[h] !in Untracked(s, l, h);
    } else {
      assert LiveTasks(s, l, h) == Untracked(s, l, h);
    }
    var read := StepListener(s, l, Proceed);
    if read.listeners[l].pc.CheckHandle? {
      assert Busy(read, read.listeners[l], h) == Busy(s, me, h);
    }
  }

  /** The same for the two reads of a simulator's handler: it is tried exactly if its id is absent and
      its last task, if any, is done, and otherwise the next family's turn comes. */
  lemma SimulatorStepsDecide(s: State, l: ListenerId)
    requires Reachable(s) && l < |s.listeners| && s.listeners[l].pc.SimMap?
    ensures var k := s.listeners[l].pc.kind;
            var h := HandleKey(k, SimulatorId(k));
            var read := StepListener(s, l, Proceed);
            var end := if read.listeners[l].pc.SimHandle? then StepListener(read, l, Proceed) else read;
            && (end.listeners[l].pc == SimSpawn(k) <==> h.id !in s.devices && LiveTasks(s, l, h) == Untracked(s, l, h))
            && (end.listeners[l].pc != SimSpawn(k) ==> end.listeners[l].pc == After(k))
            && end.devices == s.devices && end.tasks == s.tasks
  {
    var k, me := s.listeners[l].pc.kind, s.listeners[l];
    var h := HandleKey(k, SimulatorId(k));
    ReachableInv(s);
    assert HandlesOk(s, l) && PcOk(s, me);
    if Busy(s, me, h) {
      assert me.handles[h] in LiveTasks(s, l, h) && me.handles[h] !in Untracked(s, l, h);
    } else {
      assert LiveTasks(s, l, h) == Untracked(s, l, h);
    }
  }

  /** A task is spawned exactly by a simulator's handler or by an open that succeeds; it is for the id
      polled, has yet to connect, and is the one tracked by the handle from then on. */
  lemma SpawnIsTracked(s: State, l: ListenerId, c: Choice)
    requires Enabled(s, ListenerStep(l, c))
    ensures var s', pc := StepListener(s, l, c), s.listeners[l].pc;
            var spawns := pc.SimSpawn? || (pc.Open? && c.Proceed?);
            && |s'.listeners| == |s.listeners|
            && s'.tasks[..|s.tasks|] == s.tasks && |s'.tasks| == |s.tasks| + (if spawns then 1 else 0)
            && (spawns ==>
                  var id := if pc.SimSpawn? then SimulatorId(pc.kind) else pc.id;
                  var h := HandleKey(pc.kind, id);
                  && s'.tasks[|s.tasks|] == Task(pc.kind, id, l, Connecting)
                  && h in s'.listeners[l].handles && s'.listeners[l].handles[h] == |s.tasks|)
  {
    OthersWait(s, l, c, l);
  }

  /** Of the families only the serial ones can fail to enumerate, and only those on the HID bus to open;
      so a listed serial device that is polled is always tried. */
  lemma WhatCanFail(s: State, l: ListenerId)
    requires l < |s.listeners|
    ensures var pc := s.listeners[l].pc;
            && (pc.Enumerate? && !IsSimulator(pc.kind) ==> (Enabled(s, ListenerStep(l, Fail)) <==> pc.kind.Specter? || pc.kind.Jade?))
            && (pc.Open? && !IsSimulator(pc.kind) ==>
                  (Enabled(s, ListenerStep(l, Fail)) <==> pc.kind.BitBox02? || pc.kind.Coldcard? || pc.kind.Ledger?))
  {}

  /** A task can end without any write exactly if it is not a HID Ledger's, which always gets an entry;
      before its first write it can remove the id exactly if it is a simulator's; and an unlock can always
      fail, but only a Jade's can end without a write. */
  lemma WhatTasksCanDo(s: State, t: TaskId)
    requires t < |s.tasks|
    ensures var pc, k := s.tasks[t].pc, s.tasks[t].kind;
            && (pc.Connecting? ==> (Enabled(s, TaskStep(t, GiveUp)) <==> k != Ledger))
            && (pc.Connecting? ==> (Enabled(s, TaskStep(t, Remove)) <==> k.SpecterSimulator? || k.LedgerSimulator?))
            && (pc.Unlocking? ==> Enabled(s, TaskStep(t, Remove)))
            && (pc.Unlocking? ==> (Enabled(s, TaskStep(t, GiveUp)) <==> k.Jade?))
  {}
}
