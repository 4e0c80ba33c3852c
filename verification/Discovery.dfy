/** Device discovery as a step system.

    One listener thread per 0-to-1 `start` polls, cleans up and spawns one task per device id.
    Tasks race with the listener and with one another on the mutex-protected device map and
    then send `Update` messages to the consumer.  Every lock section, `is_finished` read, spawn
    and send is one step; the outcome of device I/O is part of the event. */
module Discovery {
  type Id = string

  /** A task is named by its position in `State.tasks`, a listener by its position in `State.listeners`. */
  type TaskId = nat
  type ListenerId = nat

  // In the order of the poll cycle.
  datatype Kind = SpecterSimulator | Specter | Jade | LedgerSimulator | BitBox02 | Coldcard | Ledger

  predicate IsSimulator(k: Kind) {
    k.SpecterSimulator? || k.LedgerSimulator?
  }

  const SPECTER_SIMULATOR_ID: Id := "specter-simulator"
  const LEDGER_SIMULATOR_ID: Id := "ledger-simulator"

  function SimulatorId(k: Kind): Id {
    if k.SpecterSimulator? then SPECTER_SIMULATOR_ID else LEDGER_SIMULATOR_ID
  }

  /** The prefix with which `cleanup_disconnected` is called for a device family. */
  function Prefix(k: Kind): string {
    match k
    case Specter => "specter-"
    case Jade => "jade-"
    case BitBox02 => "bitbox-"
    case Coldcard => "coldcard-"
    case Ledger => "ledger-"
    case SpecterSimulator => SPECTER_SIMULATOR_ID
    case LedgerSimulator => LEDGER_SIMULATOR_ID
  }

  predicate HasPrefix(id: Id, k: Kind) {
    Prefix(k) <= id
  }

  /** Ids of Ledgers on the HID bus; they end in a vendor and a product number, so none is the simulator's. */
  predicate IsHidLedgerId(id: Id) {
    HasPrefix(id, Ledger) && id != LEDGER_SIMULATOR_ID
  }

  /** The ids that enumerating a family can produce. */
  predicate Enumerable(k: Kind, id: Id) {
    HasPrefix(id, k) && (k.Ledger? ==> IsHidLedgerId(id))
  }

  /** A map entry.  `session` is the task whose connection the entry holds; `round` is 0 for the
      first entry a task writes and 1 for the one it writes after an unlock. */
  datatype Entry =
    | Locked(kind: Kind, session: TaskId, round: nat)
    | Supported(kind: Kind, session: TaskId, round: nat)
    | Unsupported(kind: Kind, session: TaskId, round: nat)

  datatype AfterSend = Return | TakeCell

  /** Where a task stands.  `Abandoned` is the return of an unlocked Jade that could not be read. */
  datatype TaskPc =
    | Connecting
    | Sending(andThen: AfterSend)
    | Taking
    | Unlocking
    | Finished
    | Abandoned
    | Panicked

  datatype Task = Task(kind: Kind, id: Id, owner: ListenerId, pc: TaskPc)

  /** `JoinHandle::is_finished`. */
  predicate Done(pc: TaskPc) {
    pc.Finished? || pc.Abandoned? || pc.Panicked?
  }

  /** The task has put a `Locked` entry in the map and still has its final write to do. */
  predicate InCharge(pc: TaskPc) {
    pc == Sending(TakeCell) || pc.Taking? || pc.Unlocking?
  }

  datatype ListenerPc =
    | Starting
    | ShutdownCheck
    | Refresh
    | SimMap(kind: Kind)
    | SimHandle(kind: Kind)
    | SimSpawn(kind: Kind)
    | Enumerate(kind: Kind)
    | Scan(kind: Kind, connected: seq<Id>)
    | Purge(kind: Kind, connected: seq<Id>, victims: set<Id>)
    | PurgeSend(kind: Kind, connected: seq<Id>)
    | Poll(kind: Kind, todo: seq<Id>)
    | CheckHandle(kind: Kind, id: Id, todo: seq<Id>)
    | Open(kind: Kind, id: Id, todo: seq<Id>)
    | SpawnSend(todo: seq<Id>)
    | Sleeping
    | Exited

  datatype HandleKey = HandleKey(kind: Kind, id: Id)

  /** A listener owns its join handles.  `drops` counts, per handle, how often cleanup dropped it. */
  datatype Listener = Listener(pc: ListenerPc, handles: map<HandleKey, TaskId>, drops: map<HandleKey, nat>)

  datatype Msg = Update | Error

  /** A consumer that re-reads `list()` on every `Update`; `refreshing` holds between the two. */
  datatype Consumer = Consumer(view: map<Id, Entry>, refreshing: bool)

  /** `cells` holds the tasks whose `LockedDevice` cell is still full. */
  datatype State = State(
    devices: map<Id, Entry>,
    tasks: seq<Task>,
    cells: set<TaskId>,
    listeners: seq<Listener>,
    queue: seq<Msg>,
    consumer: Consumer)

  const Initial: State := State(map[], [], {}, [], [], Consumer(map[], false))

  // ---------------------------------------------------------------- events

  datatype Choice = Proceed | Fail | Found(ids: seq<Id>)

  datatype TaskChoice = Continue | Write(entry: Entry) | Remove | GiveUp

  datatype Event =
    | StartListener
    | ListenerStep(l: ListenerId, choice: Choice)
    | TaskStep(t: TaskId, what: TaskChoice)
    | Receive
    | List

  // ---------------------------------------------------------------- listener

  /** The stage that follows a family in the poll cycle. */
  function After(k: Kind): ListenerPc {
    match k
    case SpecterSimulator => Enumerate(Specter)
    case Specter => Enumerate(Jade)
    case Jade => SimMap(LedgerSimulator)
    case LedgerSimulator => Enumerate(BitBox02)
    case BitBox02 => Enumerate(Coldcard)
    case Coldcard => Enumerate(Ledger)
    case Ledger => Sleeping
  }

  predicate IsSerial(k: Kind) {
    k.Specter? || k.Jade?
  }

  predicate ListenerMay(pc: ListenerPc, c: Choice) {
    match pc
    case Exited => false
    case Starting => !c.Found?
    case ShutdownCheck => !c.Found?
    case Refresh => !c.Found?
    case Enumerate(k) =>
      (c.Found? && forall id | id in c.ids :: Enumerable(k, id)) || (c.Fail? && IsSerial(k))
    case Open(k, _, _) => c.Proceed? || (c.Fail? && !IsSerial(k))
    case _ => c.Proceed?
  }

  /** The entries a cleanup of family `k` selects under its first lock. */
  function Victims(devices: map<Id, Entry>, k: Kind, connected: seq<Id>): set<Id> {
    set id | id in devices && HasPrefix(id, k) && id !in connected
  }

  /** Is the tracked task of this handle still running? */
  predicate Busy(s: State, me: Listener, h: HandleKey) {
    h in me.handles && me.handles[h] < |s.tasks| && !Done(s.tasks[me.handles[h]].pc)
  }

  function WithListener(s: State, l: ListenerId, me: Listener): State
    requires l < |s.listeners|
  {
    s.(listeners := s.listeners[l := me])
  }

  function Post(s: State, m: Msg): State {
    s.(queue := s.queue + [m])
  }

  function Spawn(s: State, l: ListenerId, h: HandleKey, next: ListenerPc): State
    requires l < |s.listeners|
  {
    var me := s.listeners[l];
    WithListener(s.(tasks := s.tasks + [Task(h.kind, h.id, l, Connecting)]), l,
                 me.(pc := next, handles := me.handles[h := |s.tasks|]))
  }

  function DropCount(me: Listener, h: HandleKey): nat {
    if h in me.drops then me.drops[h] else 0
  }

  /** Second lock of a cleanup: the entries go, and with each entry the handle if there is one. */
  function PurgeVictims(s: State, l: ListenerId): State
    requires l < |s.listeners| && s.listeners[l].pc.Purge?
  {
    var me := s.listeners[l];
    var k, victims := me.pc.kind, me.pc.victims;
    var dropped := set h | h in me.handles && h.kind == k && h.id in victims;
    WithListener(s.(devices := s.devices - victims), l,
                 Listener(PurgeSend(k, me.pc.connected),
                          me.handles - dropped,
                          map h | h in me.drops.Keys + dropped ::
                            DropCount(me, h) + if h in dropped then 1 else 0))
  }

  function StepListener(s: State, l: ListenerId, c: Choice): State
    requires l < |s.listeners| && ListenerMay(s.listeners[l].pc, c)
  {
    var me := s.listeners[l];
    var goto := (pc: ListenerPc) => WithListener(s, l, me.(pc := pc));
    match me.pc
    case Starting => if c.Fail? then Post(goto(Exited), Error) else goto(ShutdownCheck)
    case ShutdownCheck => goto(if c.Fail? then Exited else Refresh)
    case Refresh =>
      if c.Fail? then Post(goto(ShutdownCheck), Error) else goto(SimMap(SpecterSimulator))
    case SimMap(k) => goto(if SimulatorId(k) in s.devices then After(k) else SimHandle(k))
    case SimHandle(k) =>
      var h := HandleKey(k, SimulatorId(k));
      if Busy(s, me, h) then goto(After(k))
      else WithListener(s, l, me.(pc := SimSpawn(k), handles := me.handles - {h}))
    case SimSpawn(k) => Spawn(s, l, HandleKey(k, SimulatorId(k)), After(k))
    case Enumerate(k) => goto(if c.Fail? then After(k) else Scan(k, c.ids))
    case Scan(k, connected) =>
      var victims := Victims(s.devices, k, connected);
      goto(if victims == {} then Poll(k, connected) else Purge(k, connected, victims))
    case Purge(_, _, _) => PurgeVictims(s, l)
    case PurgeSend(k, connected) => Post(goto(Poll(k, connected)), Update)
    case Poll(k, todo) =>
      goto(if todo == [] then After(k)
           else if todo[0] in s.devices then Poll(k, todo[1..])
           else CheckHandle(k, todo[0], todo[1..]))
    case CheckHandle(k, id, todo) =>
      goto(if Busy(s, me, HandleKey(k, id)) then Poll(k, todo) else Open(k, id, todo))
    case Open(k, id, todo) =>
      if c.Fail? then goto(Poll(k, todo))
      else Spawn(s, l, HandleKey(k, id), if k.Ledger? then SpawnSend(todo) else Poll(k, todo))
    case SpawnSend(todo) => Post(goto(Poll(Ledger, todo)), Update)
    case Sleeping => goto(ShutdownCheck)
  }

  // ---------------------------------------------------------------- tasks

  /** The first entry a task of this kind can insert. */
  predicate FirstWrite(k: Kind, t: TaskId, e: Entry) {
    && e.kind == k && e.session == t && e.round == 0
    && match k
       case SpecterSimulator => e.Supported?
       case Specter => e.Supported?
       case BitBox02 => e.Locked?
       case Jade => true
       case _ => !e.Locked?
  }

  /** What an unlock can insert in place of the `Locked` entry. */
  predicate FinalWrite(k: Kind, t: TaskId, e: Entry) {
    && e.kind == k && e.session == t && e.round == 1
    && (k.Jade? || (k.BitBox02? && e.Supported?))
  }

  predicate TaskMay(t: TaskId, me: Task, what: TaskChoice) {
    match me.pc
    case Connecting =>
      (match what
       case Continue => false
       case Write(e) => FirstWrite(me.kind, t, e)
       case Remove => IsSimulator(me.kind)
       case GiveUp => !me.kind.Ledger?)
    case Sending(_) => what.Continue?
    case Taking => what.Continue?
    case Unlocking =>
      (match what
       case Continue => false
       case Write(e) => FinalWrite(me.kind, t, e)
       case Remove => true
       case GiveUp => me.kind.Jade?)
    case _ => false
  }

  function WithTask(s: State, t: TaskId, pc: TaskPc): State
    requires t < |s.tasks|
  {
    s.(tasks := s.tasks[t := s.tasks[t].(pc := pc)])
  }

  /** Insert an entry; a `Locked` entry comes with a full cell. */
  function Insert(s: State, t: TaskId, e: Entry, next: TaskPc): State
    requires t < |s.tasks|
  {
    WithTask(s.(devices := s.devices[s.tasks[t].id := e],
                cells := if e.Locked? then s.cells + {t} else s.cells), t, next)
  }

  function StepTask(s: State, t: TaskId, what: TaskChoice): State
    requires t < |s.tasks| && TaskMay(t, s.tasks[t], what)
  {
    var me := s.tasks[t];
    match me.pc
    case Connecting =>
      (match what
       case Write(e) =>
         Insert(s, t, e,
                if me.kind.Ledger? then Finished else if e.Locked? then Sending(TakeCell) else Sending(Return))
       case Remove =>
         WithTask(s.(devices := s.devices - {me.id}), t,
                  if me.id in s.devices then Sending(Return) else Finished)
       case _ => WithTask(s, t, Finished))
    case Sending(andThen) =>
      Post(WithTask(s, t, if andThen.Return? then Finished else Taking), Update)
    case Taking =>
      if t in s.cells then WithTask(s.(cells := s.cells - {t}), t, Unlocking)
      else WithTask(s, t, if me.kind.BitBox02? then Panicked else Finished)
    case Unlocking =>
      (match what
       case Write(e) => Insert(s, t, e, Sending(Return))
       case Remove => WithTask(s.(devices := s.devices - {me.id}), t, Sending(Return))
       case _ => WithTask(s, t, Abandoned))
    case _ => s
  }

  // ---------------------------------------------------------------- runs

  predicate Enabled(s: State, ev: Event) {
    match ev
    case StartListener => true
    case ListenerStep(l, c) => l < |s.listeners| && ListenerMay(s.listeners[l].pc, c)
    case TaskStep(t, what) => t < |s.tasks| && TaskMay(t, s.tasks[t], what)
    case Receive => s.queue != [] && !s.consumer.refreshing
    case List => true
  }

  function Apply(s: State, ev: Event): State
    requires Enabled(s, ev)
  {
    match ev
    case StartListener => s.(listeners := s.listeners + [Listener(Starting, map[], map[])])
    case ListenerStep(l, c) => StepListener(s, l, c)
    case TaskStep(t, what) => StepTask(s, t, what)
    case Receive =>
      s.(queue := s.queue[1..], consumer := Consumer(s.consumer.view, s.queue[0].Update?))
    case List => s.(consumer := Consumer(s.devices, false))
  }

  /** `s'` is reached from `s` by performing `evs` in order. */
  predicate Run(s: State, evs: seq<Event>, s': State)
    decreases |evs|
  {
    if evs == [] then s == s'
    else Enabled(s, evs[0]) && Run(Apply(s, evs[0]), evs[1..], s')
  }

  ghost predicate Reachable(s: State) {
    exists evs: seq<Event> :: Run(Initial, evs, s)
  }
}
