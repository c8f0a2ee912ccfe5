/** The playground registry as values: each operation cut at its waits, every call
    in flight with the wait it stands at, and the sweep that destroys what expired. */
module RegistrySpec {
  import opened Basics

  datatype Status = Starting | Running | Stopping | Stopped | Error

  /** A playground record. `disk` is what resuming needs: the overlay, the root
      filesystem or the container. `failed` and `releases` only record history:
      whether its create failed, and how often its slot was given back. */
  datatype Rec = Rec(slot: nat, deadline: Option<nat>, status: Status, hasVm: bool, disk: bool,
                     failed: bool, releases: nat)

  /** The registered records, the slots in use, and every record ever made. */
  datatype State<!R(==)> = State(max: nat, vms: set<R>, slots: set<nat>, recs: map<R, Rec>)

  // ---------------------------------------------------------------------------
  // Slots

  function LowestFree(slots: set<nat>, from: nat, max: nat): (s: Option<nat>)
    ensures s.Some? ==> from <= s.value <= max && s.value !in slots
    ensures s.Some? ==> forall k :: from <= k < s.value ==> k in slots
    ensures s.None? ==> forall k :: from <= k <= max ==> k in slots
    decreases max + 1 - from
  {
    if from > max then None
    else if from !in slots then Some(from)
    else LowestFree(slots, from + 1, max)
  }

  // ---------------------------------------------------------------------------
  // What each stretch between two waits does

  function Set<R>(s: State<R>, r: R, rec: Rec): State<R> {
    s.(recs := s.recs[r := rec])
  }

  function SetStatus<R>(s: State<R>, r: R, status: Status): State<R>
    requires r in s.recs
  {
    Set(s, r, s.recs[r].(status := status))
  }

  function Release<R>(s: State<R>, r: R): State<R>
    requires r in s.recs
  {
    Set(s, r, s.recs[r].(releases := s.recs[r].releases + 1)).(slots := s.slots - {s.recs[r].slot})
  }

  /** The slot a create would get: none at the limit, else the lowest free one. */
  function NextSlot<R>(s: State<R>): Option<nat> {
    if |s.vms| >= s.max then None else LowestFree(s.slots, 1, s.max)
  }

  /** Admission: the slot and the record, in one step. */
  function Admit<R>(s: State<R>, r: R, slot: nat, deadline: Option<nat>, hasVm: bool): State<R> {
    s.(vms := s.vms + {r}, slots := s.slots + {slot},
       recs := s.recs[r := Rec(slot, deadline, Starting, hasVm, false, false, 0)])
  }

  /** A create that failed: the state it shows while its VM is being stopped. */
  function Fail<R>(s: State<R>, r: R): State<R>
    requires r in s.recs
  {
    Set(s, r, s.recs[r].(status := Error, failed := true))
  }

  function SetDisk<R>(s: State<R>, r: R, disk: bool): State<R>
    requires r in s.recs
  {
    Set(s, r, s.recs[r].(disk := disk))
  }

  /** Stopping a VM removes its disk, if the removal succeeds. */
  function Stop<R>(s: State<R>, r: R, removed: bool): State<R>
    requires r in s.recs
  {
    if removed then SetDisk(s, r, false) else s
  }

  function Unregister<R>(s: State<R>, r: R): State<R>
    requires r in s.recs
  {
    Release(s.(vms := s.vms - {r}), r)
  }

  // ---------------------------------------------------------------------------
  // Calls in flight

  /** Where a call waits, and for which record. */
  datatype Wait<R> =
    | CreateStart(r: R)     // for the VM to start
    | CreateTtyd(r: R)      // for the terminal server
    | CreateStop(r: R)      // rolling back: for the VM to stop
    | SuspendTtyd(r: R)
    | SuspendVm(r: R)
    | ResumeStart(r: R)     // for a start that will find the disk missing if it is
    | ResumeVm(r: R)        // for the VM, whose disk was found
    | ResumeTtyd(r: R)
    | DestroyTtyd(r: R)
    | DestroyStop(r: R)

  /** The expiry sweep: the clock it read, what it found expired, what is left to destroy. */
  datatype Sweep<!R(==)> = Idle | Sweeping(now: nat, found: set<R>, todo: seq<R>)

  type CallId = nat

  /** The sweep destroys through a call of its own. */
  const REAPER: CallId := 0

  datatype World<!R(==)> = World(s: State<R>, calls: map<CallId, Wait<R>>, sweep: Sweep<R>, clock: nat)

  datatype Action<R> =
    | Create(c: CallId, r: R, ttl: nat, vmMade: bool)   // ttl 0: never; vmMade: the VM object was made
    | Suspend(c: CallId, r: R)
    | Resume(c: CallId, r: R, looks: bool)    // looks: for the disk, before the first wait
    | Destroy(c: CallId, r: R)
    | Provision(c: CallId)                  // a starting VM has made its disk
    | DiskFound(c: CallId)                  // a start that did not look first finds the disk
    | Continue(c: CallId, ok: bool)         // what the call waits for ended, well or not
    | Cancel(c: CallId)
    | FoundDead(r: R)                       // listing sees that the VM process has exited
    | Tick(elapsed: nat)
    | Wake(order: seq<R>)                   // the sweep reads the clock
    | NextExpired                           // the sweep turns to its next record
    | SweepDone

  function Await<R>(w: World<R>, s: State<R>, c: CallId, at: Wait<R>): World<R> {
    w.(s := s, calls := w.calls[c := at])
  }

  function Return<R>(w: World<R>, s: State<R>, c: CallId): World<R> {
    w.(s := s, calls := w.calls - {c})
  }

  predicate Expired<R>(s: State<R>, now: nat, r: R) {
    r in s.vms && r in s.recs && s.recs[r].deadline.Some? && now >= s.recs[r].deadline.value
  }

  function BeginDestroy<R>(w: World<R>, c: CallId, r: R): World<R> {
    if c in w.calls || r !in w.s.vms || r !in w.s.recs then w
    else Await(w, SetStatus(w.s, r, Stopping), c, DestroyTtyd(r))
  }

  /** A wait ends. `ok` is whether it ended well; failures that the code suppresses
      go on like successes, and a stop's `ok` says whether its removal succeeded. */
  function Resumed<R>(w: World<R>, c: CallId, ok: bool): World<R>
    requires c in w.calls && w.calls[c].r in w.s.recs
  {
    var s, r := w.s, w.calls[c].r;
    match w.calls[c]
    case CreateStart(_) =>
      if ok then Await(w, SetStatus(s, r, Running), c, CreateTtyd(r))
      else Await(w, Fail(s, r), c, CreateStop(r))
    case CreateTtyd(_) =>
      if ok then Return(w, s, c) else Await(w, Fail(s, r), c, CreateStop(r))
    case CreateStop(_) =>
      Return(w, Release(Stop(s, r, ok), r), c)
    case SuspendTtyd(_) =>
      Await(w, s, c, SuspendVm(r))
    case SuspendVm(_) =>
      Return(w, SetStatus(s, r, if ok then Stopped else Error), c)
    case ResumeStart(_) =>
      Return(w, SetStatus(s, r, Error), c)     // without the disk it cannot end well
    case ResumeVm(_) =>
      if ok then Await(w, SetStatus(s, r, Running), c, ResumeTtyd(r))
      else Return(w, SetStatus(s, r, Error), c)
    case ResumeTtyd(_) =>
      Return(w, if ok then s else SetStatus(s, r, Error), c)
    case DestroyTtyd(_) =>
      if s.recs[r].hasVm then Await(w, s, c, DestroyStop(r)) else Return(w, Unregister(s, r), c)
    case DestroyStop(_) =>
      Return(w, Unregister(Stop(s, r, ok), r), c)
  }

  /** The registry once a create has been admitted. */
  function Admission<R>(w: World<R>, r: R, ttl: nat, vmMade: bool): State<R>
    requires NextSlot(w.s).Some?
  {
    Admit(w.s, r, NextSlot(w.s).value, if ttl == 0 then None else Some(w.clock + ttl), vmMade)
  }

  /** create() up to its first wait. `ttl` 0 means never; without a VM object the
      record fails at once and gives its slot back. */
  function BeginCreate<R>(w: World<R>, c: CallId, r: R, ttl: nat, vmMade: bool): World<R> {
    if c in w.calls || r in w.s.recs || NextSlot(w.s).None? then w
    else
      var s := Admission(w, r, ttl, vmMade);
      if vmMade then Await(w, s, c, CreateStart(r)) else w.(s := Release(Fail(s, r), r))
  }

  /** suspend() up to its first wait: only a running VM without a deadline. */
  function BeginSuspend<R>(w: World<R>, c: CallId, r: R): World<R> {
    if c in w.calls || r !in w.s.vms || r !in w.s.recs then w
    else
      var rec := w.s.recs[r];
      if !rec.hasVm || rec.status != Running || rec.deadline.Some? then w
      else Await(w, SetStatus(w.s, r, Stopping), c, SuspendTtyd(r))
  }

  /** resume() up to its first wait: without its disk the VM cannot come back. Some
      backends look for the disk at once, others find out from the start that fails. */
  function BeginResume<R>(w: World<R>, c: CallId, r: R, looks: bool): World<R> {
    if c in w.calls || r !in w.s.vms || r !in w.s.recs then w
    else
      var rec := w.s.recs[r];
      if !rec.hasVm || rec.status == Running then w
      else if !looks then Await(w, SetStatus(w.s, r, Starting), c, ResumeStart(r))
      else if rec.disk then Await(w, SetStatus(w.s, r, Starting), c, ResumeVm(r))
      else w.(s := SetStatus(w.s, r, Error))
  }

  function FoundDisk<R>(w: World<R>, c: CallId): World<R> {
    if c in w.calls && w.calls[c].ResumeStart? && w.calls[c].r in w.s.recs && w.s.recs[w.calls[c].r].disk
    then w.(calls := w.calls[c := ResumeVm(w.calls[c].r)]) else w
  }

  function Provisioned<R>(w: World<R>, c: CallId): World<R> {
    if c in w.calls && w.calls[c].CreateStart? && w.calls[c].r in w.s.recs
    then w.(s := SetDisk(w.s, w.calls[c].r, true)) else w
  }

  function Listed<R>(w: World<R>, r: R): World<R> {
    if r in w.s.vms && r in w.s.recs && w.s.recs[r].status == Running && w.s.recs[r].hasVm
    then w.(s := SetStatus(w.s, r, Stopped)) else w
  }

  function Found<R>(w: World<R>): set<R> {
    set r | r in w.s.vms && Expired(w.s, w.clock, r)
  }

  function Woken<R>(w: World<R>, order: seq<R>): World<R> {
    if w.sweep.Idle? && (set r | r in order) == Found(w)
    then w.(sweep := Sweeping(w.clock, Found(w), order)) else w
  }

  function SweepNext<R>(w: World<R>): World<R> {
    if w.sweep.Sweeping? && w.sweep.todo != [] && REAPER !in w.calls then
      BeginDestroy(w, REAPER, w.sweep.todo[0]).(sweep := w.sweep.(todo := w.sweep.todo[1..]))
    else w
  }

  predicate SweepFinished<R>(w: World<R>) {
    w.sweep.Sweeping? && w.sweep.todo == [] && REAPER !in w.calls
  }

  /** One atomic step; an action that is not enabled changes nothing. */
  function Step<R>(w: World<R>, a: Action<R>): World<R> {
    match a
    case Create(c, r, ttl, vmMade) => if c == REAPER then w else BeginCreate(w, c, r, ttl, vmMade)
    case Suspend(c, r) => if c == REAPER then w else BeginSuspend(w, c, r)
    case Resume(c, r, looks) => if c == REAPER then w else BeginResume(w, c, r, looks)
    case Destroy(c, r) => if c == REAPER then w else BeginDestroy(w, c, r)
    case Provision(c) => Provisioned(w, c)
    case DiskFound(c) => FoundDisk(w, c)
    case Continue(c, ok) => if c in w.calls && w.calls[c].r in w.s.recs then Resumed(w, c, ok) else w
    case Cancel(c) => if c == REAPER then w else w.(calls := w.calls - {c})
    case FoundDead(r) => Listed(w, r)
    case Tick(elapsed) => w.(clock := w.clock + elapsed)
    case Wake(order) => Woken(w, order)
    case NextExpired => SweepNext(w)
    case SweepDone => if SweepFinished(w) then w.(sweep := Idle) else w
  }

  function Run<R>(w: World<R>, actions: seq<Action<R>>): World<R> {
    if actions == [] then w else Step(Run(w, actions[..|actions| - 1]), actions[|actions| - 1])
  }

  function Init<R>(max: nat): World<R> {
    World(State(max, {}, {}, map[]), map[], Idle, 0)
  }
}
