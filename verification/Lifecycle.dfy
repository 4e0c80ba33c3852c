/** Reference-counted `start` and `stop` at the granularity of their atomic operations.

    Any number of client threads call `start` and `stop`; the atomics, the handle cell and the
    shutdown flag are shared with the listener threads. */
module Lifecycle {
  import opened Wrappers

  datatype Pc =
    | Idle
    // start, after a fetch_add that found 0
    | StoreRunning
    | SpawnThread
    | StoreHandle(listener: nat)
    // stop
    | Load
    | Exchange(current: nat, seen: nat)
    | StoreStopped
    | TakeHandle

  /** `made` counts the changes this thread has made to the count.  Of its running or last `stop`:
      the changes other threads had made when it was called, its failed exchanges, and its loads and
      exchanges so far. */
  datatype Thread = Thread(pc: Pc, made: nat, entered: int, fails: nat, steps: nat)

  datatype Listener = Fresh | Polling | Gone

  datatype Flip = Up | Down

  /** After `handle` come history variables: completed `fetch_add`s, successful exchanges, the
      0-to-1 and 1-to-0 transitions in order, thread spawns and stores of `true`. */
  datatype State = State(
    count: nat,
    shutdown: bool,
    threads: seq<Thread>,
    listeners: seq<Listener>,
    handle: Option<nat>,
    starts: nat,
    decrements: nat,
    flips: seq<Flip>,
    spawns: nat,
    stores: nat)

  function Initial(n: nat): State {
    State(0, false, seq(n, _ => Thread(Idle, 0, 0, 0, 0)), [], None, 0, 0, [], 0, 0)
  }

  function Changes(s: State): nat {
    s.starts + s.decrements
  }

  /** Changes of the count made by other threads. */
  function ByOthers(s: State, t: Thread): int {
    Changes(s) - t.made
  }

  datatype Event = CallStart(th: nat) | CallStop(th: nat) | Step(th: nat) | Listen(l: nat, initFails: bool)

  predicate Enabled(s: State, ev: Event) {
    match ev
    case CallStart(th) => th < |s.threads| && s.threads[th].pc.Idle?
    case CallStop(th) => th < |s.threads| && s.threads[th].pc.Idle?
    case Step(th) => th < |s.threads| && !s.threads[th].pc.Idle?
    case Listen(l, _) => l < |s.listeners| && !s.listeners[l].Gone?
  }

  function Put(s: State, th: nat, me: Thread): State
    requires th < |s.threads|
  {
    s.(threads := s.threads[th := me])
  }

  function StepThread(s: State, th: nat): State
    requires th < |s.threads| && !s.threads[th].pc.Idle?
  {
    var me := s.threads[th];
    match me.pc
    case StoreRunning => Put(s.(shutdown := false), th, me.(pc := SpawnThread))
    case SpawnThread =>
      Put(s.(listeners := s.listeners + [Fresh], spawns := s.spawns + 1), th,
          me.(pc := StoreHandle(|s.listeners|)))
    case StoreHandle(l) => Put(s.(handle := Some(l)), th, me.(pc := Idle))
    case Load =>
      Put(s, th, me.(steps := me.steps + 1,
                     pc := if s.count == 0 then Idle else Exchange(s.count, Changes(s))))
    case Exchange(current, _) =>
      if s.count == current && current > 0 then
        Put(s.(count := current - 1, decrements := s.decrements + 1,
               flips := if current == 1 then s.flips + [Down] else s.flips), th,
            me.(steps := me.steps + 1, made := me.made + 1, pc := if current == 1 then StoreStopped else Idle))
      else
        Put(s, th, me.(steps := me.steps + 1, fails := me.fails + 1, pc := Load))
    case StoreStopped => Put(s.(shutdown := true, stores := s.stores + 1), th, me.(pc := TakeHandle))
    case TakeHandle => Put(s.(handle := None), th, me.(pc := Idle))
  }

  function Apply(s: State, ev: Event): State
    requires Enabled(s, ev)
  {
    match ev
    case CallStart(th) =>
      Put(s.(count := s.count + 1, starts := s.starts + 1,
             flips := if s.count == 0 then s.flips + [Up] else s.flips), th,
          s.threads[th].(made := s.threads[th].made + 1, pc := if s.count == 0 then StoreRunning else Idle))
    case CallStop(th) => Put(s, th, Thread(Load, s.threads[th].made, ByOthers(s, s.threads[th]), 0, 0))
    case Step(th) => StepThread(s, th)
    case Listen(l, initFails) =>
      s.(listeners := s.listeners[l :=
           if s.listeners[l].Fresh? then (if initFails then Gone else Polling)
           else if s.shutdown then Gone else Polling])
  }

  predicate AllIdle(s: State) {
    forall t | t in s.threads :: t.pc.Idle?
  }

  predicate Live(s: State, l: nat) {
    l < |s.listeners| && !s.listeners[l].Gone?
  }

  ghost predicate NoneLive(s: State) {
    forall l :: !Live(s, l)
  }

  /** How clients behave.  `Serial`: a call begins only after the previous one has returned.
      `NoCalls`: no call begins. */
  datatype Discipline = Free | Serial | NoCalls

  ghost predicate Allowed(s: State, ev: Event, d: Discipline) {
    && Enabled(s, ev)
    && (d.NoCalls? ==> !ev.CallStart? && !ev.CallStop?)
    && (!d.Free? && (ev.CallStart? || ev.CallStop?) ==> AllIdle(s))
  }

  ghost predicate Run(s: State, evs: seq<Event>, d: Discipline, s': State)
    decreases |evs|
  {
    if evs == [] then s == s'
    else Allowed(s, evs[0], d) && Run(Apply(s, evs[0]), evs[1..], d, s')
  }

  // ---------------------------------------------------------------- any number of threads

  ghost function CountIf(ts: seq<Thread>, f: Thread -> bool): nat {
    if ts == [] then 0 else CountIf(ts[1..], f) + if f(ts[0]) then 1 else 0
  }

  lemma {:induction false} CountUpdate(ts: seq<Thread>, i: nat, t: Thread, f: Thread -> bool)
    requires i < |ts|
    ensures CountIf(ts[i := t], f) == CountIf(ts, f) - (if f(ts[i]) then 1 else 0) + if f(t) then 1 else 0
  {
    if i == 0 {
      assert ts[i := t][1..] == ts[1..];
    } else {
      CountUpdate(ts[1..], i - 1, t, f);
      assert ts[i := t][1..] == ts[1..][i - 1 := t];
    }
  }

  lemma {:induction false} CountNone(ts: seq<Thread>, f: Thread -> bool)
    requires forall t | t in ts :: !f(t)
    ensures CountIf(ts, f) == 0
  {
    if ts != [] { CountNone(ts[1..], f); }
  }

  predicate OwesSpawn(t: Thread) { t.pc.StoreRunning? || t.pc.SpawnThread? }

  predicate OwesStop(t: Thread) { t.pc.StoreStopped? }

  predicate Alternates(flips: seq<Flip>) {
    forall i | 0 <= i < |flips| :: flips[i] == if i % 2 == 0 then Up else Down
  }

  /** What a thread inside the compare-and-swap loop knows: each failed exchange is charged to a
      change of the count made by another thread since it entered. */
  predicate LoopOk(s: State, t: Thread) {
    match t.pc
    case Load => t.steps == 2 * t.fails && t.entered + t.made + t.fails <= Changes(s)
    case Exchange(current, seen) =>
      && current > 0 && t.steps == 2 * t.fails + 1
      && t.entered + t.made + t.fails <= seen <= Changes(s)
      && (s.count != current ==> seen < Changes(s))
    case _ => true
  }

  ghost predicate Inv(s: State) {
    && s.starts == s.count + s.decrements
    && Alternates(s.flips)
    && (|s.flips| % 2 == 1 <==> s.count > 0)
    && s.spawns + CountIf(s.threads, OwesSpawn) == (|s.flips| + 1) / 2
    && s.stores + CountIf(s.threads, OwesStop) == |s.flips| / 2
    && forall th | 0 <= th < |s.threads| :: LoopOk(s, s.threads[th])
  }

  lemma OtherLoopKept(s: State, ev: Event, t: Thread)
    requires s.starts >= s.decrements && Enabled(s, ev) && LoopOk(s, t)
    ensures LoopOk(Apply(s, ev), t)
  {}

  lemma OwnLoopKept(s: State, ev: Event)
    requires Enabled(s, ev) && !ev.Listen? && LoopOk(s, s.threads[ev.th])
    ensures LoopOk(Apply(s, ev), Apply(s, ev).threads[ev.th])
  {}

  lemma StepKeepsLoops(s: State, ev: Event, th: nat)
    requires Inv(s) && Enabled(s, ev) && th < |s.threads|
    ensures LoopOk(Apply(s, ev), Apply(s, ev).threads[th])
  {
    assert LoopOk(s, s.threads[th]);
    if !ev.Listen? && ev.th == th {
      OwnLoopKept(s, ev);
    } else {
      assert Apply(s, ev).threads[th] == s.threads[th];
      OtherLoopKept(s, ev, s.threads[th]);
    }
  }

  lemma FlipAppended(flips: seq<Flip>)
    requires Alternates(flips)
    ensures Alternates(flips + [if |flips| % 2 == 0 then Up else Down])
  {}

  lemma StepKeepsFlips(s: State, ev: Event)
    requires Inv(s) && Enabled(s, ev)
    ensures var s' := Apply(s, ev);
            s'.starts == s'.count + s'.decrements && Alternates(s'.flips) && (|s'.flips| % 2 == 1 <==> s'.count > 0)
  {
    FlipAppended(s.flips);
    assert ev.CallStart? && s.count == 0 ==> Apply(s, ev).flips == s.flips + [Up];
  }

  lemma SpawnDebtMoves(s: State, ev: Event)
    requires Inv(s) && Enabled(s, ev) && !ev.Listen?
    ensures var s', t := Apply(s, ev), Apply(s, ev).threads[ev.th];
            (|s'.flips| + 1) / 2 - (|s.flips| + 1) / 2
            == s'.spawns - s.spawns + (if OwesSpawn(t) then 1 else 0) - (if OwesSpawn(s.threads[ev.th]) then 1 else 0)
  {
    if ev.Step? && s.threads[ev.th].pc.Exchange? {
      assert LoopOk(s, s.threads[ev.th]);
    }
  }

  lemma StopDebtMoves(s: State, ev: Event)
    requires Inv(s) && Enabled(s, ev) && !ev.Listen?
    ensures var s', t := Apply(s, ev), Apply(s, ev).threads[ev.th];
            |s'.flips| / 2 - |s.flips| / 2
            == s'.stores - s.stores + (if OwesStop(t) then 1 else 0) - (if OwesStop(s.threads[ev.th]) then 1 else 0)
  {
    if ev.Step? && s.threads[ev.th].pc.Exchange? {
      assert LoopOk(s, s.threads[ev.th]);
    }
  }

  lemma StepKeepsDebts(s: State, ev: Event)
    requires Inv(s) && Enabled(s, ev)
    ensures var s' := Apply(s, ev);
            && s'.spawns + CountIf(s'.threads, OwesSpawn) == (|s'.flips| + 1) / 2
            && s'.stores + CountIf(s'.threads, OwesStop) == |s'.flips| / 2
  {
    if !ev.Listen? {
      SpawnDebtMoves(s, ev);
      StopDebtMoves(s, ev);
      var t := Apply(s, ev).threads[ev.th];
      assert Apply(s, ev).threads == s.threads[ev.th := t];
      CountUpdate(s.threads, ev.th, t, OwesSpawn);
      CountUpdate(s.threads, ev.th, t, OwesStop);
    }
  }

  lemma StepKeepsInv(s: State, ev: Event)
    requires Inv(s) && Enabled(s, ev)
    ensures Inv(Apply(s, ev))
  {
    StepKeepsFlips(s, ev);
    StepKeepsDebts(s, ev);
    forall th | 0 <= th < |Apply(s, ev).threads| ensures LoopOk(Apply(s, ev), Apply(s, ev).threads[th]) {
      StepKeepsLoops(s, ev, th);
    }
  }

  lemma {:induction false} RunKeepsInv(s: State, evs: seq<Event>, d: Discipline, s': State)
    requires Inv(s) && Run(s, evs, d, s')
    ensures Inv(s')
    decreases |evs|
  {
    if evs != [] {
      StepKeepsInv(s, evs[0]);
      RunKeepsInv(Apply(s, evs[0]), evs[1..], d, s');
    }
  }

  lemma ReachableInv(n: nat, evs: seq<Event>, d: Discipline, s: State)
    requires Run(Initial(n), evs, d, s)
    ensures Inv(s)
  {
    CountNone(Initial(n).threads, OwesSpawn);
    CountNone(Initial(n).threads, OwesStop);
    RunKeepsInv(Initial(n), evs, d, s);
  }

  /** In every interleaving the count is the starts minus the successful decrements, and the 0-to-1
      and 1-to-0 transitions strictly alternate, beginning with 0-to-1. */
  lemma CountAndFlips(n: nat, evs: seq<Event>, d: Discipline, s: State)
    requires Run(Initial(n), evs, d, s)
    ensures s.decrements <= s.starts && s.count == s.starts - s.decrements
    ensures Alternates(s.flips) && (s.count > 0 <==> s.flips != [] && s.flips[|s.flips| - 1] == Up)
  {
    ReachableInv(n, evs, d, s);
  }

  lemma {:induction false} FlipCounts(flips: seq<Flip>)
    requires Alternates(flips)
    ensures multiset(flips)[Up] == (|flips| + 1) / 2 && multiset(flips)[Down] == |flips| / 2
  {
    if flips != [] {
      FlipCounts(flips[..|flips| - 1]);
      assert flips == flips[..|flips| - 1] + [flips[|flips| - 1]];
    }
  }

  /** Once no call is under way, a listener has been spawned for each 0-to-1 transition and the
      shutdown flag has been raised for each 1-to-0 transition, and for nothing else. */
  lemma SpawnsMatchFlips(n: nat, evs: seq<Event>, d: Discipline, s: State)
    requires Run(Initial(n), evs, d, s)
    requires forall t | t in s.threads :: t.pc.Idle?
    ensures s.spawns == multiset(s.flips)[Up] && s.stores == multiset(s.flips)[Down]
  {
    ReachableInv(n, evs, d, s);
    FlipCounts(s.flips);
    CountNone(s.threads, OwesSpawn);
    CountNone(s.threads, OwesStop);
  }

  predicate InLoop(t: Thread) { t.pc.Load? || t.pc.Exchange? }

  function StopsCalled(s: State, evs: seq<Event>): nat
    decreases |evs|
  {
    if evs == [] || !Enabled(s, evs[0]) then 0
    else StopsCalled(Apply(s, evs[0]), evs[1..]) + if evs[0].CallStop? then 1 else 0
  }

  /** A `stop` finds the count at 0 and returns. */
  predicate GivesUp(s: State, ev: Event) {
    ev.Step? && ev.th < |s.threads| && s.threads[ev.th].pc.Load? && s.count == 0
  }

  function StopsGivenUp(s: State, evs: seq<Event>): nat
    decreases |evs|
  {
    if evs == [] || !Enabled(s, evs[0]) then 0
    else StopsGivenUp(Apply(s, evs[0]), evs[1..]) + if GivesUp(s, evs[0]) then 1 else 0
  }

  lemma LoopEntered(s: State, ev: Event)
    requires Enabled(s, ev)
    ensures var s' := Apply(s, ev);
            CountIf(s'.threads, InLoop) + (s'.decrements - s.decrements) + (if GivesUp(s, ev) then 1 else 0)
            == CountIf(s.threads, InLoop) + (if ev.CallStop? then 1 else 0)
  {
    if !ev.Listen? {
      var t := Apply(s, ev).threads[ev.th];
      assert Apply(s, ev).threads == s.threads[ev.th := t];
      CountUpdate(s.threads, ev.th, t, InLoop);
    }
  }

  /** Every call of `stop` is in its loop, has lowered the count once, or has found it at 0: in every
      interleaving the calls made are accounted for by these three. */
  lemma {:induction false} StopsAreAccountedFor(s: State, evs: seq<Event>, d: Discipline, s': State)
    requires Run(s, evs, d, s')
    ensures CountIf(s'.threads, InLoop) + s'.decrements + StopsGivenUp(s, evs) ==
            CountIf(s.threads, InLoop) + s.decrements + StopsCalled(s, evs)
    decreases |evs|
  {
    if evs != [] {
      LoopEntered(s, evs[0]);
      StopsAreAccountedFor(Apply(s, evs[0]), evs[1..], d, s');
    }
  }

  /** While a `stop` is still in its loop it has taken at most two steps for each change that others
      made to the count since it was called, plus one. */
  lemma StopIsBounded(n: nat, evs: seq<Event>, d: Discipline, s: State, th: nat)
    requires Run(Initial(n), evs, d, s) && th < |s.threads|
    requires s.threads[th].pc.Load? || s.threads[th].pc.Exchange?
    ensures var t := s.threads[th];
            t.fails <= ByOthers(s, t) - t.entered && t.steps <= 2 * (ByOthers(s, t) - t.entered) + 1
  {
    ReachableInv(n, evs, d, s);
    assert LoopOk(s, s.threads[th]);
  }

  /** An exchange that nothing has disturbed since the load succeeds: the loop is left. */
  lemma UndisturbedExchangeSucceeds(n: nat, evs: seq<Event>, d: Discipline, s: State, th: nat)
    requires Run(Initial(n), evs, d, s) && th < |s.threads|
    requires s.threads[th].pc.Exchange? && s.threads[th].pc.seen == Changes(s)
    ensures var s' := Apply(s, Step(th));
            s'.count == s.count - 1 && !s'.threads[th].pc.Load? && !s'.threads[th].pc.Exchange?
  {
    ReachableInv(n, evs, d, s);
    assert LoopOk(s, s.threads[th]);
  }

  // ---------------------------------------------------------------- calls that do not overlap

  /** The state of the flag at each point of the one call under way. */
  predicate CallOk(s: State, pc: Pc) {
    match pc
    case Idle => true
    case StoreRunning => s.count > 0
    case SpawnThread => s.count > 0 && !s.shutdown
    case StoreHandle(_) => s.count > 0 && !s.shutdown
    case Load => true
    case Exchange(current, _) => s.count == current > 0
    case StoreStopped => s.count == 0 && s.starts > 0
    case TakeHandle => s.count == 0 && s.shutdown && s.starts > 0
  }

  predicate FlagUnsettled(pc: Pc) {
    pc.StoreRunning? || pc.StoreStopped?
  }

  ghost predicate SerialInv(s: State) {
    && (forall i, j | 0 <= i < |s.threads| && 0 <= j < |s.threads| ::
          s.threads[i].pc.Idle? || s.threads[j].pc.Idle? || i == j)
    && (forall i | 0 <= i < |s.threads| :: CallOk(s, s.threads[i].pc))
    && ((forall i | 0 <= i < |s.threads| :: !FlagUnsettled(s.threads[i].pc)) && s.starts > 0 ==>
          (s.shutdown <==> s.count == 0))
    && (s.count > 0 ==> s.starts > 0)
  }

  lemma SerialCallStart(s: State, th: nat)
    requires SerialInv(s) && Enabled(s, CallStart(th)) && AllIdle(s)
    ensures SerialInv(Apply(s, CallStart(th)))
  {
    var s' := Apply(s, CallStart(th));
    assert forall i :: 0 <= i < |s.threads| ==> s.threads[i].pc.Idle?;
    if s.count == 0 { assert FlagUnsettled(s'.threads[th].pc); }
  }

  lemma SerialCallStop(s: State, th: nat)
    requires SerialInv(s) && Enabled(s, CallStop(th)) && AllIdle(s)
    ensures SerialInv(Apply(s, CallStop(th)))
  {
    var s' := Apply(s, CallStop(th));
    assert forall i :: 0 <= i < |s.threads| ==> s.threads[i].pc.Idle?;
  }

  lemma SerialThreadStep(s: State, th: nat)
    requires SerialInv(s) && Enabled(s, Step(th))
    ensures SerialInv(Apply(s, Step(th)))
  {
    var s' := Apply(s, Step(th));
    assert CallOk(s, s.threads[th].pc);
    assert forall i :: 0 <= i < |s.threads| && i != th ==> s.threads[i].pc.Idle? && s'.threads[i] == s.threads[i];
    if FlagUnsettled(s'.threads[th].pc) {
    } else if !FlagUnsettled(s.threads[th].pc) {
      assert forall i :: 0 <= i < |s.threads| ==> !FlagUnsettled(s.threads[i].pc);
    }
  }

  lemma SerialListen(s: State, l: nat, initFails: bool)
    requires SerialInv(s) && Enabled(s, Listen(l, initFails))
    ensures SerialInv(Apply(s, Listen(l, initFails)))
  {
    var s' := Apply(s, Listen(l, initFails));
    forall i | 0 <= i < |s.threads| ensures CallOk(s', s'.threads[i].pc) {
      assert CallOk(s, s.threads[i].pc);
    }
    assert forall i :: 0 <= i < |s.threads| ==> s'.threads[i] == s.threads[i];
  }

  lemma {:induction false} SerialRunKeepsInv(s: State, evs: seq<Event>, d: Discipline, s': State)
    requires SerialInv(s) && Run(s, evs, d, s') && !d.Free?
    ensures SerialInv(s')
    decreases |evs|
  {
    if evs != [] {
      match evs[0] {
        case CallStart(th) => SerialCallStart(s, th);
        case CallStop(th) => SerialCallStop(s, th);
        case Step(th) => SerialThreadStep(s, th);
        case Listen(l, initFails) => SerialListen(s, l, initFails);
      }
      SerialRunKeepsInv(Apply(s, evs[0]), evs[1..], d, s');
    }
  }

  /** Between calls that never overlap, and after the first start, the shutdown flag is lowered
      exactly while somebody holds the service. */
  lemma FlagTellsCount(n: nat, evs: seq<Event>, d: Discipline, s: State)
    requires Run(Initial(n), evs, d, s) && !d.Free? && AllIdle(s) && s.starts > 0
    ensures !s.shutdown <==> s.count > 0
  {
    SerialRunKeepsInv(Initial(n), evs, d, s);
    assert forall i :: 0 <= i < |s.threads| ==> s.threads[i].pc.Idle?;
  }

  // ---------------------------------------------------------------- one listener at a time

  ghost predicate OneLive(s: State) {
    forall i, j | Live(s, i) && Live(s, j) :: i == j
  }

  ghost predicate NoneOwesSpawn(s: State) {
    forall i | 0 <= i < |s.threads| :: !OwesSpawn(s.threads[i])
  }

  /** At most one thread owes a spawn, no listener is live while one does, and no two are live. */
  ghost predicate Lone(s: State) {
    && OneLive(s)
    && (NoneOwesSpawn(s) || NoneLive(s))
    && forall i, j | 0 <= i < |s.threads| && 0 <= j < |s.threads| ::
         OwesSpawn(s.threads[i]) && OwesSpawn(s.threads[j]) ==> i == j
  }

  predicate FlipsUp(s: State, ev: Event) {
    ev.CallStart? && s.count == 0
  }

  lemma OthersKeepOwing(s: State, ev: Event, i: nat)
    requires Enabled(s, ev) && i < |s.threads| && (ev.Listen? || ev.th != i)
    ensures Apply(s, ev).threads[i] == s.threads[i]
  {}

  /** Only a 0-to-1 transition makes a thread owe a spawn. */
  lemma OwedBefore(s: State, ev: Event, i: nat)
    requires Enabled(s, ev) && !FlipsUp(s, ev) && i < |s.threads| && OwesSpawn(Apply(s, ev).threads[i])
    ensures OwesSpawn(s.threads[i])
  {}

  lemma SpawnKeepsLone(s: State, th: nat)
    requires Lone(s) && th < |s.threads| && s.threads[th].pc.SpawnThread?
    ensures Lone(Apply(s, Step(th)))
  {
    var s' := Apply(s, Step(th));
    assert OwesSpawn(s.threads[th]);
    forall l: nat | Live(s', l) ensures l == |s.listeners| {
      if l < |s.listeners| { assert Live(s, l); }
    }
    forall i | 0 <= i < |s'.threads| ensures !OwesSpawn(s'.threads[i]) {
      if i != th { OthersKeepOwing(s, Step(th), i); }
    }
  }

  lemma StepKeepsLone(s: State, ev: Event)
    requires Lone(s) && Enabled(s, ev) && (FlipsUp(s, ev) ==> NoneLive(s) && NoneOwesSpawn(s))
    ensures Lone(Apply(s, ev))
  {
    var s' := Apply(s, ev);
    if ev.Step? && s.threads[ev.th].pc.SpawnThread? {
      SpawnKeepsLone(s, ev.th);
    } else {
      assert forall l :: Live(s', l) ==> Live(s, l);
      if FlipsUp(s, ev) {
        assert forall i :: 0 <= i < |s.threads| && i != ev.th ==> s'.threads[i] == s.threads[i];
      } else {
        forall i | 0 <= i < |s'.threads| && OwesSpawn(s'.threads[i]) ensures OwesSpawn(s.threads[i]) {
          OwedBefore(s, ev, i);
        }
      }
    }
  }

  /** Any interleaving in which no 0-to-1 transition happens while a listener is live or a spawn is owed. */
  ghost predicate LoneRun(s: State, evs: seq<Event>, s': State)
    decreases |evs|
  {
    if evs == [] then s == s'
    else
      && Enabled(s, evs[0]) && (FlipsUp(s, evs[0]) ==> NoneLive(s) && NoneOwesSpawn(s))
      && LoneRun(Apply(s, evs[0]), evs[1..], s')
  }

  lemma {:induction false} LoneRunKeepsLone(s: State, evs: seq<Event>, s': State)
    requires Lone(s) && LoneRun(s, evs, s')
    ensures Lone(s')
    decreases |evs|
  {
    if evs != [] {
      StepKeepsLone(s, evs[0]);
      LoneRunKeepsLone(Apply(s, evs[0]), evs[1..], s');
    }
  }

  /** Calls may overlap in any way: as long as no 0-to-1 transition happens while a listener is live
      or a spawn is owed, no two listeners are ever live together. */
  lemma AtMostOneListener(n: nat, evs: seq<Event>, s: State)
    requires LoneRun(Initial(n), evs, s)
    ensures OneLive(s)
  {
    LoneRunKeepsLone(Initial(n), evs, s);
  }

  lemma {:induction false} NoCallsIsLone(s: State, evs: seq<Event>, s': State)
    requires Run(s, evs, NoCalls, s')
    ensures LoneRun(s, evs, s')
    decreases |evs|
  {
    if evs != [] { NoCallsIsLone(Apply(s, evs[0]), evs[1..], s'); }
  }

  // ---------------------------------------------------------------- when a listener leaves

  /** At some step of the run the listener fails to initialise or, polling, finds the flag raised. */
  predicate ToldToLeave(s: State, evs: seq<Event>, l: nat)
    decreases |evs|
  {
    evs != [] && Enabled(s, evs[0]) &&
    ((evs[0].Listen? && evs[0].l == l && if s.listeners[l].Fresh? then evs[0].initFails else s.shutdown)
     || ToldToLeave(Apply(s, evs[0]), evs[1..], l))
  }

  lemma OtherListenersStay(s: State, ev: Event, l: nat)
    requires Enabled(s, ev) && l < |s.listeners| && !(ev.Listen? && ev.l == l)
    ensures l < |Apply(s, ev).listeners| && Apply(s, ev).listeners[l] == s.listeners[l]
  {}

  lemma {:induction false} GoneStays(s: State, evs: seq<Event>, d: Discipline, s': State, l: nat)
    requires Run(s, evs, d, s') && l < |s.listeners| && s.listeners[l].Gone?
    ensures !Live(s', l)
    decreases |evs|
  {
    if evs != [] {
      OtherListenersStay(s, evs[0], l);
      GoneStays(Apply(s, evs[0]), evs[1..], d, s', l);
    }
  }

  /** A live listener leaves in a run exactly if it is told to: neither a stop nor a start ends it. */
  lemma {:induction false} LeavesIfTold(s: State, evs: seq<Event>, d: Discipline, s': State, l: nat)
    requires Run(s, evs, d, s') && Live(s, l)
    ensures !Live(s', l) <==> ToldToLeave(s, evs, l)
    decreases |evs|
  {
    if evs != [] {
      var next := Apply(s, evs[0]);
      if !(evs[0].Listen? && evs[0].l == l) { OtherListenersStay(s, evs[0], l); }
      if next.listeners[l].Gone? {
        GoneStays(next, evs[1..], d, s', l);
      } else {
        LeavesIfTold(next, evs[1..], d, s', l);
      }
    }
  }

  // ---------------------------------------------------------------- building runs

  ghost predicate Leads(s: State, d: Discipline, s': State) {
    exists evs: seq<Event> :: Run(s, evs, d, s')
  }

  ghost predicate Reachable(n: nat, d: Discipline, s: State) {
    Leads(Initial(n), d, s)
  }

  lemma Stay(s: State, d: Discipline)
    ensures Leads(s, d, s)
  {
    assert Run(s, [], d, s);
  }

  lemma {:induction false} RunThen(s: State, evs: seq<Event>, d: Discipline, mid: State, ev: Event)
    requires Run(s, evs, d, mid) && Allowed(mid, ev, d)
    ensures Run(s, evs + [ev], d, Apply(mid, ev))
    decreases |evs|
  {
    if evs == [] {
      assert [ev][1..] == [];
      assert evs + [ev] == [ev];
    } else {
      RunThen(Apply(s, evs[0]), evs[1..], d, mid, ev);
      assert (evs + [ev])[1..] == evs[1..] + [ev];
    }
  }

  lemma Go(s0: State, d: Discipline, s: State, ev: Event) returns (s': State)
    requires Leads(s0, d, s) && Allowed(s, ev, d)
    ensures s' == Apply(s, ev) && Leads(s0, d, s')
  {
    var evs :| Run(s0, evs, d, s);
    RunThen(s0, evs, d, s, ev);
    s' := Apply(s, ev);
  }

  /** A start that has found 0 runs to its end. */
  lemma FinishStart(s0: State, d: Discipline, s: State, th: nat) returns (s': State)
    requires Leads(s0, d, s) && th < |s.threads| && s.threads[th].pc == StoreRunning
    ensures Leads(s0, d, s')
    ensures s' == s.(shutdown := false, listeners := s.listeners + [Fresh], handle := Some(|s.listeners|),
                     spawns := s.spawns + 1, threads := s.threads[th := s.threads[th].(pc := Idle)])
  {
    s' := Go(s0, d, s, Step(th));
    assert s'.threads[th].pc == SpawnThread;
    s' := Go(s0, d, s', Step(th));
    assert s'.threads[th].pc == StoreHandle(|s.listeners|);
    s' := Go(s0, d, s', Step(th));
    assert s'.threads == s.threads[th := s.threads[th].(pc := Idle)];
  }

  /** A whole undisturbed start that finds the service stopped. */
  lemma WholeStart(s0: State, d: Discipline, s: State, th: nat) returns (s': State)
    requires Leads(s0, d, s) && Allowed(s, CallStart(th), d) && s.count == 0
    ensures Leads(s0, d, s')
    ensures s' == s.(count := 1, shutdown := false, listeners := s.listeners + [Fresh],
                     handle := Some(|s.listeners|), starts := s.starts + 1,
                     flips := s.flips + [Up], spawns := s.spawns + 1,
                     threads := s.threads[th := s.threads[th].(made := s.threads[th].made + 1)])
  {
    var t := s.threads[th];
    s' := Go(s0, d, s, CallStart(th));
    s' := FinishStart(s0, d, s', th);
    assert s'.threads == s.threads[th := t.(made := t.made + 1)];
  }

  /** The last holder's stop up to the point where the count is 0 and the flag not yet raised. */
  lemma HalfStop(s0: State, d: Discipline, s: State, th: nat) returns (s': State)
    requires Leads(s0, d, s) && Allowed(s, CallStop(th), d) && s.count == 1
    ensures Leads(s0, d, s')
    ensures s' == s.(count := 0, decrements := s.decrements + 1, flips := s.flips + [Down],
                     threads := s.threads[th := Thread(StoreStopped, s.threads[th].made + 1, ByOthers(s, s.threads[th]), 0, 2)])
  {
    s' := Go(s0, d, s, CallStop(th));
    s' := Go(s0, d, s', Step(th));
    s' := Go(s0, d, s', Step(th));
  }

  lemma FinishStop(s0: State, d: Discipline, s: State, th: nat) returns (s': State)
    requires Leads(s0, d, s) && th < |s.threads| && s.threads[th].pc == StoreStopped
    ensures Leads(s0, d, s')
    ensures s' == s.(shutdown := true, handle := None, stores := s.stores + 1,
                     threads := s.threads[th := s.threads[th].(pc := Idle)])
  {
    s' := Go(s0, d, s, Step(th));
    s' := Go(s0, d, s', Step(th));
  }

  // ---------------------------------------------------------------- what a start achieves

  /** The effect of a start on the count, the flag, the listeners and the handle. */
  predicate Started(count: nat, flag: bool, listeners: nat, handle: Option<nat>,
                    count': nat, flag': bool, listeners': nat, handle': Option<nat>) {
    && count' == count + 1
    && if count == 0 then !flag' && listeners' == listeners + 1 && handle' == Some(listeners)
       else flag' == flag && listeners' == listeners && handle' == handle
  }

  /** After a start that no other call overlaps the flag is lowered, whatever the count was, and from
      zero there is a new live listener: the service is held and running. */
  lemma StartHoldsService(n: nat, d: Discipline, s: State, th: nat) returns (s': State)
    requires Reachable(n, d, s) && !d.Free? && Allowed(s, CallStart(th), d)
    ensures Reachable(n, d, s') && AllIdle(s') && !s'.shutdown
    ensures Started(s.count, s.shutdown, |s.listeners|, s.handle, s'.count, s'.shutdown, |s'.listeners|, s'.handle)
    ensures s.count == 0 ==> Live(s', |s.listeners|)
  {
    if s.count == 0 {
      s' := WholeStart(Initial(n), d, s, th);
    } else {
      var evs :| Run(Initial(n), evs, d, s);
      ReachableInv(n, evs, d, s);
      FlagTellsCount(n, evs, d, s);
      s' := Go(Initial(n), d, s, CallStart(th));
    }
  }

  // ---------------------------------------------------------------- what a stop achieves

  /** The effect of a stop on the count, the flag and the handle. */
  predicate Released(count: nat, flag: bool, handle: Option<nat>, count': nat, flag': bool, handle': Option<nat>) {
    if count == 0 then count' == 0 && flag' == flag && handle' == handle
    else count' == count - 1 && if count == 1 then flag' && handle' == None else flag' == flag && handle' == handle
  }

  /** A stop that no other call overlaps gives up one holder, and only the last one's raises the flag
      and drops the handle; while somebody holds the service the flag stays lowered.  No listener is
      touched. */
  lemma StopReleasesService(n: nat, d: Discipline, s: State, th: nat) returns (s': State)
    requires Reachable(n, d, s) && !d.Free? && Allowed(s, CallStop(th), d)
    ensures Reachable(n, d, s') && AllIdle(s') && s'.listeners == s.listeners
    ensures Released(s.count, s.shutdown, s.handle, s'.count, s'.shutdown, s'.handle)
    ensures s.starts > 0 ==> (s'.shutdown <==> s'.count == 0)
  {
    var s0 := Initial(n);
    var evs :| Run(s0, evs, d, s);
    if s.starts > 0 { FlagTellsCount(n, evs, d, s); }
    if s.count == 1 {
      s' := HalfStop(s0, d, s, th);
      s' := FinishStop(s0, d, s', th);
    } else {
      s' := Go(s0, d, s, CallStop(th));
      s' := Go(s0, d, s', Step(th));
      if s.count > 1 { s' := Go(s0, d, s', Step(th)); }
    }
  }

  // ---------------------------------------------------------------- a second listener

  /** A thread that owes a spawn makes it; nothing else about the listeners or other threads changes. */
  lemma MakeSpawn(s0: State, s: State, i: nat) returns (s': State)
    requires Leads(s0, NoCalls, s) && i < |s.threads| && OwesSpawn(s.threads[i])
    ensures Leads(s0, NoCalls, s') && s'.listeners == s.listeners + [Fresh] && |s'.threads| == |s.threads|
    ensures forall j | 0 <= j < |s.threads| && j != i :: s'.threads[j] == s.threads[j]
  {
    s' := s;
    if s.threads[i].pc.StoreRunning? {
      s' := Go(s0, NoCalls, s', Step(i));
    }
    s' := Go(s0, NoCalls, s', Step(i));
  }

  lemma SpawnBesideLive(s: State, th: nat, l: nat) returns (s': State)
    requires Enabled(s, CallStart(th)) && s.count == 0 && Live(s, l)
    ensures Leads(Apply(s, CallStart(th)), NoCalls, s') && Live(s', l) && Live(s', |s.listeners|)
  {
    var s1 := Apply(s, CallStart(th));
    Stay(s1, NoCalls);
    s' := MakeSpawn(s1, s1, th);
  }

  lemma SpawnBesideOwed(s: State, th: nat, i: nat) returns (s': State)
    requires Enabled(s, CallStart(th)) && s.count == 0 && i < |s.threads| && OwesSpawn(s.threads[i])
    ensures Leads(Apply(s, CallStart(th)), NoCalls, s') && Live(s', |s.listeners|) && Live(s', |s.listeners| + 1)
  {
    var s1 := Apply(s, CallStart(th));
    Stay(s1, NoCalls);
    s' := MakeSpawn(s1, s1, i);
    s' := MakeSpawn(s1, s', th);
  }

  lemma StartIsLone(s: State, th: nat)
    requires Enabled(s, CallStart(th)) && NoneLive(s) && NoneOwesSpawn(s)
    ensures Lone(Apply(s, CallStart(th)))
  {
    StepKeepsLone(s, CallStart(th));
  }

  /** From any state whatever, a 0-to-1 start can bring about two live listeners, without any further
      call, exactly when as it begins a listener is live or another start still owes its spawn. */
  lemma SecondListenerIff(s: State, th: nat)
    requires Enabled(s, CallStart(th)) && s.count == 0
    ensures (forall s': State :: Leads(Apply(s, CallStart(th)), NoCalls, s') ==> OneLive(s'))
            <==> NoneLive(s) && NoneOwesSpawn(s)
  {
    var s1 := Apply(s, CallStart(th));
    if l :| Live(s, l) {
      var s' := SpawnBesideLive(s, th, l);
      assert !OneLive(s');
    } else if i :| 0 <= i < |s.threads| && OwesSpawn(s.threads[i]) {
      var s' := SpawnBesideOwed(s, th, i);
      assert !OneLive(s');
    } else {
      StartIsLone(s, th);
      forall s': State | Leads(s1, NoCalls, s') ensures OneLive(s') {
        var evs :| Run(s1, evs, NoCalls, s');
        NoCallsIsLone(s1, evs, s');
        LoneRunKeepsLone(s1, evs, s');
      }
    }
  }

  /** With overlapping calls that happens without any live listener: one thread's start has not spawned
      yet when another stops and starts again. */
  lemma LateSpawnKeepsBoth() returns (s: State, s': State)
    ensures Reachable(2, Free, s) && s.count == 0 && NoneLive(s) && Enabled(s, CallStart(1))
    ensures Leads(Apply(s, CallStart(1)), NoCalls, s') && Live(s', 0) && Live(s', 1)
  {
    var s0 := Initial(2);
    Stay(s0, Free);
    s := Go(s0, Free, s0, CallStart(0));
    s := HalfStop(s0, Free, s, 1);
    s := FinishStop(s0, Free, s, 1);
    s' := SpawnBesideOwed(s, 1, 0);
  }

  /** One client that stops and quickly starts again, without ever overlapping two calls, gets a
      second listener while the first, which never saw the raised flag, keeps running. */
  lemma QuickRestartKeepsBoth() returns (s: State)
    ensures Reachable(1, Serial, s) && AllIdle(s) && s.count == 1
    ensures Live(s, 0) && Live(s, 1) && !s.shutdown
  {
    s := Initial(1);
    Stay(s, Serial);
    s := WholeStart(Initial(1), Serial, s, 0);
    s := HalfStop(Initial(1), Serial, s, 0);
    s := FinishStop(Initial(1), Serial, s, 0);
    s := WholeStart(Initial(1), Serial, s, 0);
  }

  // ---------------------------------------------------------------- a flag that misleads

  predicate FlipsDown(s: State, ev: Event) {
    ev.Step? && ev.th < |s.threads| && s.threads[ev.th].pc.Exchange? && s.threads[ev.th].pc.current == s.count == 1
  }

  /** Thread `a` still owes the flag store opposite to the one this flip will owe. */
  predicate Disorderly(s: State, ev: Event, a: nat) {
    a < |s.threads| &&
    ((FlipsUp(s, ev) && s.threads[a].pc.StoreStopped?) || (FlipsDown(s, ev) && s.threads[a].pc.StoreRunning?))
  }

  /** Any interleaving in which no flip overtakes the opposite store. */
  ghost predicate OrderlyRun(s: State, evs: seq<Event>, s': State)
    decreases |evs|
  {
    if evs == [] then s == s'
    else
      && Enabled(s, evs[0]) && (forall a :: !Disorderly(s, evs[0], a))
      && OrderlyRun(Apply(s, evs[0]), evs[1..], s')
  }

  ghost predicate OrderlyInv(s: State) {
    && (forall i | 0 <= i < |s.threads| ::
          (s.threads[i].pc.StoreRunning? ==> s.count > 0) && (s.threads[i].pc.StoreStopped? ==> s.count == 0))
    && (forall i, j | 0 <= i < |s.threads| && 0 <= j < |s.threads| ::
          FlagUnsettled(s.threads[i].pc) && FlagUnsettled(s.threads[j].pc) ==> i == j)
    && (s.count > 0 ==> s.starts > 0)
    && ((forall i | 0 <= i < |s.threads| :: !FlagUnsettled(s.threads[i].pc)) && s.starts > 0 ==>
          (!s.shutdown <==> s.count > 0))
  }

  lemma OrderlyCallStart(s: State, th: nat)
    requires OrderlyInv(s) && Enabled(s, CallStart(th)) && forall a :: !Disorderly(s, CallStart(th), a)
    ensures OrderlyInv(Apply(s, CallStart(th)))
  {
    var s' := Apply(s, CallStart(th));
    assert forall i :: 0 <= i < |s.threads| && i != th ==> s'.threads[i] == s.threads[i];
    if s.count == 0 {
      forall i | 0 <= i < |s.threads| ensures !FlagUnsettled(s.threads[i].pc) {
        assert !Disorderly(s, CallStart(th), i);
      }
      assert FlagUnsettled(s'.threads[th].pc);
    } else {
      assert forall i :: 0 <= i < |s.threads| ==> FlagUnsettled(s'.threads[i].pc) == FlagUnsettled(s.threads[i].pc);
    }
  }

  lemma OrderlyFlipDown(s: State, th: nat)
    requires OrderlyInv(s) && FlipsDown(s, Step(th)) && forall a :: !Disorderly(s, Step(th), a)
    ensures OrderlyInv(Apply(s, Step(th)))
  {
    var s' := Apply(s, Step(th));
    forall i | 0 <= i < |s.threads| ensures !FlagUnsettled(s.threads[i].pc) {
      assert !Disorderly(s, Step(th), i);
    }
    assert forall i :: 0 <= i < |s.threads| && i != th ==> s'.threads[i] == s.threads[i];
    assert FlagUnsettled(s'.threads[th].pc);
  }

  lemma OrderlyStep(s: State, th: nat)
    requires OrderlyInv(s) && Enabled(s, Step(th)) && forall a :: !Disorderly(s, Step(th), a)
    ensures OrderlyInv(Apply(s, Step(th)))
  {
    var s' := Apply(s, Step(th));
    assert forall i :: 0 <= i < |s.threads| && i != th ==> s'.threads[i] == s.threads[i];
    if FlipsDown(s, Step(th)) {
      OrderlyFlipDown(s, th);
    } else if FlagUnsettled(s.threads[th].pc) {
      assert forall i :: 0 <= i < |s.threads| ==> !FlagUnsettled(s'.threads[i].pc);
    } else {
      assert forall i :: 0 <= i < |s.threads| ==> FlagUnsettled(s'.threads[i].pc) == FlagUnsettled(s.threads[i].pc);
      assert s'.count > 0 <==> s.count > 0;
    }
  }

  lemma {:induction false} OrderlyRunKeepsInv(s: State, evs: seq<Event>, s': State)
    requires OrderlyInv(s) && OrderlyRun(s, evs, s')
    ensures OrderlyInv(s')
    decreases |evs|
  {
    if evs != [] {
      match evs[0] {
        case CallStart(th) => OrderlyCallStart(s, th);
        case Step(th) => OrderlyStep(s, th);
        case CallStop(th) =>
          var next := Apply(s, evs[0]);
          assert forall i :: 0 <= i < |s.threads| ==> FlagUnsettled(next.threads[i].pc) == FlagUnsettled(s.threads[i].pc);
        case Listen(_, _) =>
      }
      OrderlyRunKeepsInv(Apply(s, evs[0]), evs[1..], s');
    }
  }

  /** Calls may overlap in any way: as long as no flip happens while another thread owes the opposite
      store, the flag tells the count whenever no store is owed. */
  lemma FlagTellsCountIfOrderly(n: nat, evs: seq<Event>, s: State)
    requires OrderlyRun(Initial(n), evs, s) && s.starts > 0
    requires forall t | t in s.threads :: !FlagUnsettled(t.pc)
    ensures !s.shutdown <==> s.count > 0
  {
    OrderlyRunKeepsInv(Initial(n), evs, s);
    assert forall i :: 0 <= i < |s.threads| ==> !FlagUnsettled(s.threads[i].pc);
  }

  /** Steps a thread needs to finish its call when it runs alone. */
  function Rank(s: State, pc: Pc): nat {
    match pc
    case Idle => 0
    case StoreHandle(_) => 1
    case TakeHandle => 1
    case SpawnThread => 2
    case StoreStopped => 2
    case StoreRunning => 3
    case Load => if s.count == 0 then 1 else 4
    case Exchange(current, _) => if s.count == current > 0 then 3 else if s.count == 0 then 2 else 5
  }

  /** Run alone, a thread finishes its call; a stop may lower the count, nothing raises it. */
  lemma {:induction false} Settle(s0: State, s: State, th: nat) returns (s': State)
    requires Leads(s0, Free, s) && th < |s.threads|
    ensures Leads(s0, Free, s') && |s'.threads| == |s.threads| && s'.threads[th].pc.Idle?
    ensures forall i | 0 <= i < |s.threads| && i != th :: s'.threads[i] == s.threads[i]
    ensures s'.count <= s.count && s'.starts == s.starts
    decreases Rank(s, s.threads[th].pc)
  {
    if s.threads[th].pc.Idle? {
      s' := s;
    } else {
      var next := Go(s0, Free, s, Step(th));
      s' := Settle(s0, next, th);
    }
  }

  lemma {:induction false} SettleOthers(s0: State, s: State, a: nat, k: nat) returns (s': State)
    requires Leads(s0, Free, s) && a < |s.threads| && k <= |s.threads|
    ensures Leads(s0, Free, s') && |s'.threads| == |s.threads| && s'.threads[a] == s.threads[a]
    ensures forall i | 0 <= i < k && i != a :: s'.threads[i].pc.Idle?
    ensures s'.count <= s.count && s'.starts == s.starts
    decreases k
  {
    if k == 0 {
      s' := s;
    } else {
      s' := SettleOthers(s0, s, a, k - 1);
      if k - 1 != a {
        s' := Settle(s0, s', k - 1);
      }
    }
  }

  /** After a flip that overtakes the opposite store some continuation ends with every call returned
      and the flag contradicting the count for good: the overtaken store comes last. */
  lemma DisorderlyFlipMisleads(n: nat, s: State, ev: Event, a: nat) returns (s': State)
    requires Reachable(n, Free, s) && Enabled(s, ev) && Disorderly(s, ev, a)
    ensures Leads(Apply(s, ev), Free, s') && AllIdle(s') && s'.starts > 0
    ensures s'.shutdown <==> s'.count > 0
  {
    var evs :| Run(Initial(n), evs, Free, s);
    ReachableInv(n, evs, Free, s);
    var s1 := Apply(s, ev);
    Stay(s1, Free);
    assert s1.threads[a] == s.threads[a];
    s' := SettleOthers(s1, s1, a, |s1.threads|);
    if FlipsUp(s, ev) {
      if s'.count == 0 {
        s' := WholeStart(s1, Free, s', ev.th);
      }
      s' := FinishStop(s1, Free, s', a);
    } else {
      s' := FinishStart(s1, Free, s', a);
    }
  }

  /** Such a run exists: the `stop` of one thread raises the flag after the `start` of another has
      lowered it, and every listener leaves although the service is still held. */
  lemma OverlapLosesListener() returns (s: State)
    ensures Reachable(2, Free, s) && AllIdle(s) && s.count == 1 && s.shutdown && NoneLive(s)
  {
    var s0 := Initial(2);
    Stay(s0, Free);
    s := WholeStart(s0, Free, s0, 0);
    s := HalfStop(s0, Free, s, 0);
    s := WholeStart(s0, Free, s, 1);
    s := FinishStop(s0, Free, s, 0);
    assert s.listeners == [Fresh, Fresh];
    s := Go(s0, Free, s, Listen(0, false));
    s := Go(s0, Free, s, Listen(0, false));
    s := Go(s0, Free, s, Listen(1, false));
    s := Go(s0, Free, s, Listen(1, false));
    assert s.listeners == [Gone, Gone];
  }

  // ---------------------------------------------------------------- the methods

  /** The shared fields of the service.  `changes` counts the changes made to `refCount`, `raises` the
      stores of `true` to `shutdown` and `drops` those of `None` to `listenerHandle`. */
  class HwiService {
    var refCount: nat
    var shutdown: bool
    var listeners: nat
    var listenerHandle: Option<nat>
    ghost var changes: nat
    ghost var raises: nat
    ghost var drops: nat

    constructor ()
      ensures refCount == 0 && !shutdown && listeners == 0 && listenerHandle == None
      ensures changes == 0 && raises == 0 && drops == 0
    {
      refCount, shutdown, listeners, listenerHandle := 0, false, 0, None;
      changes, raises, drops := 0, 0, 0;
    }

    /** Any number of steps of other threads, which change the count at most up to `limit` times.
        `others` are their raises and drops so far; `quiet` means that so far they did nothing. */
    method Interference(ghost limit: nat, ghost before: (nat, nat), ghost quietBefore: bool)
      returns (ghost others: (nat, nat), ghost quiet: bool)
      requires changes <= limit
      modifies this
      ensures old(changes) <= changes <= limit && before.0 <= others.0 && before.1 <= others.1
      ensures raises - others.0 == old(raises) - before.0 && drops - others.1 == old(drops) - before.1
      ensures changes == old(changes) ==> refCount == old(refCount)
      ensures quiet ==> quietBefore && others == before && changes == old(changes)
      ensures quiet ==> shutdown == old(shutdown) && listeners == old(listeners) && listenerHandle == old(listenerHandle)
    {
      others, quiet := before, quietBefore;
    }

    /** A start that nothing interferes with. */
    method Start()
      modifies this
      ensures Started(old(refCount), old(shutdown), old(listeners), old(listenerHandle),
                      refCount, shutdown, listeners, listenerHandle)
      ensures changes == old(changes) + 1 && raises == old(raises) && drops == old(drops)
    {
      var prevCount := refCount;
      refCount, changes := refCount + 1, changes + 1;
      if prevCount == 0 {
        shutdown := false;
        var handle := listeners;
        listeners := listeners + 1;
        listenerHandle := Some(handle);
      }
    }

    /** Decrement only when the count is positive, other threads acting between any two atomic
        operations.  Each further attempt is paid for by a change others made, so the loop ends whenever
        they make finitely many.  `found` is the count the last exchange found, `left` the count it left,
        `others` the raises and drops of other threads; what remains is the call's own, and it raises
        the flag and drops the handle once if it left zero and never otherwise. */
    method Stop(ghost limit: nat)
      returns (stopped: bool, attempts: nat, ghost found: nat, ghost left: nat, ghost others: (nat, nat), ghost quiet: bool)
      requires changes < limit
      modifies this
      ensures attempts <= 1 + changes - old(changes)
      ensures stopped ==> changes > old(changes) && attempts <= changes - old(changes)
      ensures stopped ==> found > 0 && left == found - 1
      ensures raises - old(raises) - others.0 == if stopped && left == 0 then 1 else 0
      ensures drops - old(drops) - others.1 == if stopped && left == 0 then 1 else 0
      ensures stopped && left == 0 ==> listenerHandle == None
      ensures !stopped ==> refCount == 0
      ensures quiet ==> others == (0, 0) && listeners == old(listeners)
      ensures quiet ==> Released(old(refCount), old(shutdown), old(listenerHandle), refCount, shutdown, listenerHandle)
    {
      attempts, found, left, others, quiet := 0, 0, 0, (0, 0), true;
      while true
        invariant old(changes) + attempts <= changes < limit
        invariant raises == old(raises) + others.0 && drops == old(drops) + others.1
        invariant quiet ==> attempts == 0 && others == (0, 0) && changes == old(changes) && refCount == old(refCount)
        invariant quiet ==> shutdown == old(shutdown) && listeners == old(listeners) && listenerHandle == old(listenerHandle)
        decreases limit - changes
      {
        attempts := attempts + 1;
        var current := refCount;
        if current == 0 {
          return false, attempts, found, left, others, quiet;
        }
        others, quiet := Interference(limit - 1, others, quiet);
        found := refCount;
        if refCount == current {
          refCount, changes := current - 1, changes + 1;
          left := refCount;
          if current == 1 {
            others, quiet := Interference(limit, others, quiet);
            shutdown, raises := true, raises + 1;
            others, quiet := Interference(limit, others, quiet);
            listenerHandle, drops := None, drops + 1;
          }
          return true, attempts, found, left, others, quiet;
        }
      }
    }
  }
}
