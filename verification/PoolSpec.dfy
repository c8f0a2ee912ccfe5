/** The warm pool as values, and the protocol of callers, refill tasks and drains that
    share it. Only acquiring and draining take the lock; refilling does not. */
module PoolSpec {
  import opened Basics

  type Cid = nat
  type CallId = nat

  /** The started containers kept ready, the refill task last begun, and the refill
      tasks that have not finished. */
  datatype Pool<!T(==)> = Pool(size: nat, ready: seq<Cid>, current: Option<T>, running: set<T>)

  /** A new refill task unless the last one is still running. */
  function RefillSoon<T>(p: Pool<T>, task: T): Pool<T> {
    if p.current.Some? && p.current.value in p.running then p
    else p.(current := Some(task), running := p.running + {task})
  }

  /** The refill loop's test: go on creating, or finish. */
  function RefillCheck<T>(p: Pool<T>, task: T): Pool<T> {
    if |p.ready| < p.size then p else p.(running := p.running - {task})
  }

  function PopLast<T>(p: Pool<T>): Pool<T>
    requires p.ready != []
  {
    p.(ready := p.ready[..|p.ready| - 1])
  }

  function Last<T>(p: Pool<T>): Cid
    requires p.ready != []
  {
    p.ready[|p.ready| - 1]
  }

  // ---------------------------------------------------------------------------
  // Calls in flight

  datatype CallAt = WaitLock | Probing | CreatingOwn | WaitDrain

  /** The lock is held only while a popped container is being probed. */
  datatype Lock = Free | Held(holder: CallId, probing: Cid)

  /** `creating`: refill tasks waiting for a container to be made. `made`, `handed`,
      `dead` and `drained` record every container's history. */
  datatype World<!T(==)> = World(
    p: Pool<T>, lock: Lock, calls: map<CallId, CallAt>, creating: set<T>,
    made: set<Cid>, handed: seq<Cid>, dead: multiset<Cid>, drained: multiset<Cid>)

  datatype Action<T> =
    | BeginAcquire(c: CallId)
    | GetLock(c: CallId)
    | Probed(c: CallId, alive: bool, task: T)
    | OwnCreated(c: CallId, cid: Cid, task: T)
    | OwnFailed(c: CallId)
    | BeginDrain(c: CallId)
    | GetDrainLock(c: CallId)
    | TaskRuns(t: T)                      // a scheduled refill task gets its first turn
    | TaskCreated(t: T, cid: Cid)
    | TaskFailed(t: T)

  function PopOrLeave<T>(w: World<T>, c: CallId): World<T> {
    if w.p.ready != [] then
      w.(p := PopLast(w.p), lock := Held(c, Last(w.p)), calls := w.calls[c := Probing])
    else
      w.(lock := Free, calls := w.calls[c := CreatingOwn])
  }

  /** A task not used before; a task that is still needed gets a fresh name. */
  predicate FreshTask<T>(w: World<T>, task: T) {
    task !in w.p.running && w.p.current != Some(task)
  }

  predicate Enabled<T>(w: World<T>, a: Action<T>) {
    match a
    case BeginAcquire(c) => c !in w.calls
    case GetLock(c) => c in w.calls && w.calls[c].WaitLock? && w.lock.Free?
    case Probed(c, _, task) => c in w.calls && w.calls[c].Probing? && w.lock.Held? && w.lock.holder == c && FreshTask(w, task)
    case OwnCreated(c, cid, task) => c in w.calls && w.calls[c].CreatingOwn? && cid !in w.made && FreshTask(w, task)
    case OwnFailed(c) => c in w.calls && w.calls[c].CreatingOwn?
    case BeginDrain(c) => c !in w.calls
    case GetDrainLock(c) => c in w.calls && w.calls[c].WaitDrain? && w.lock.Free?
    case TaskRuns(t) => t in w.p.running && t !in w.creating
    case TaskCreated(t, cid) => t in w.p.running && t in w.creating && cid !in w.made
    case TaskFailed(t) => t in w.p.running && t in w.creating
  }

  /** After the refill test a task that goes on is creating. */
  function Tested<T>(w: World<T>, t: T): World<T> {
    var p := RefillCheck(w.p, t);
    w.(p := p, creating := if t in p.running then w.creating + {t} else w.creating - {t})
  }

  /** One atomic step; an action that is not enabled changes nothing. */
  function Step<T>(w: World<T>, a: Action<T>): World<T> {
    if !Enabled(w, a) then w
    else match a
      case BeginAcquire(c) => w.(calls := w.calls[c := WaitLock])
      case GetLock(c) => PopOrLeave(w, c)
      case Probed(c, alive, task) =>
        if alive then
          w.(p := RefillSoon(w.p, task), lock := Free, calls := w.calls - {c}, handed := w.handed + [w.lock.probing])
        else PopOrLeave(w.(dead := w.dead + multiset{w.lock.probing}, lock := Free), c)
      case OwnCreated(c, cid, task) =>
        w.(p := RefillSoon(w.p, task), calls := w.calls - {c}, made := w.made + {cid}, handed := w.handed + [cid])
      case OwnFailed(c) => w.(calls := w.calls - {c})
      case BeginDrain(c) => w.(calls := w.calls[c := WaitDrain])
      case GetDrainLock(c) =>
        w.(p := w.p.(ready := []), calls := w.calls - {c}, drained := w.drained + multiset(w.p.ready))
      case TaskRuns(t) => Tested(w, t)
      case TaskCreated(t, cid) => Tested(w.(p := w.p.(ready := w.p.ready + [cid]), made := w.made + {cid}), t)
      case TaskFailed(t) => w.(p := w.p.(running := w.p.running - {t}), creating := w.creating - {t})
  }

  function Run<T>(w: World<T>, actions: seq<Action<T>>): World<T> {
    if actions == [] then w else Step(Run(w, actions[..|actions| - 1]), actions[|actions| - 1])
  }

  /** The pool after the server's first refill_soon(). */
  function Init<T>(size: nat, task: T): World<T> {
    World(RefillSoon(Pool(size, [], None, {}), task), Free, map[], {}, {}, [], multiset{}, multiset{})
  }

  // ---------------------------------------------------------------------------
  // Conservation

  function InProbe<T>(w: World<T>): multiset<Cid> {
    if w.lock.Held? then multiset{w.lock.probing} else multiset{}
  }

  /** Every container made is ready, being probed, handed to a caller, dropped as dead
      or drained: in one of these places, once. */
  ghost predicate Conserved<T>(w: World<T>) {
    multiset(w.p.ready) + InProbe(w) + multiset(w.handed) + w.dead + w.drained == multiset(w.made)
  }

  lemma ReadySplits(ready: seq<Cid>)
    requires ready != []
    ensures multiset(ready) == multiset(ready[..|ready| - 1]) + multiset{ready[|ready| - 1]}
  {
    assert ready == ready[..|ready| - 1] + [ready[|ready| - 1]];
  }

  lemma MadeGrows(made: set<Cid>, cid: Cid)
    requires cid !in made
    ensures multiset(made + {cid}) == multiset(made) + multiset{cid}
  {
  }

  lemma PopConserves<T>(w: World<T>, c: CallId)
    requires Conserved(w) && w.lock.Free?
    ensures Conserved(PopOrLeave(w, c))
  {
    if w.p.ready != [] {
      ReadySplits(w.p.ready);
    }
  }

  lemma ProbedConserves<T>(w: World<T>, a: Action<T>)
    requires Conserved(w) && a.Probed? && Enabled(w, a)
    ensures Conserved(Step(w, a))
  {
    if !a.alive {
      PopConserves(w.(dead := w.dead + multiset{w.lock.probing}, lock := Free), a.c);
    }
  }

  lemma CreatedConserves<T>(w: World<T>, a: Action<T>)
    requires Conserved(w) && (a.OwnCreated? || a.TaskCreated?) && Enabled(w, a)
    ensures Conserved(Step(w, a))
  {
    if a.OwnCreated? {
      OwnCreatedConserves(w, a);
    } else {
      TaskCreatedConserves(w, a);
    }
  }

  lemma OwnCreatedConserves<T>(w: World<T>, a: Action<T>)
    requires Conserved(w) && a.OwnCreated? && Enabled(w, a)
    ensures Conserved(Step(w, a))
  {
    hide RefillSoon;
    var w' := Step(w, a);
    MadeGrows(w.made, a.cid);
    RefillSoonReady(w.p, a.task);
    assert multiset(w'.handed) == multiset(w.handed) + multiset{a.cid};
  }

  lemma TaskCreatedConserves<T>(w: World<T>, a: Action<T>)
    requires Conserved(w) && a.TaskCreated? && Enabled(w, a)
    ensures Conserved(Step(w, a))
  {
    hide RefillCheck;
    var w' := Step(w, a);
    MadeGrows(w.made, a.cid);
    RefillCheckReady(w.p.(ready := w.p.ready + [a.cid]), a.t);
    assert multiset(w'.p.ready) == multiset(w.p.ready) + multiset{a.cid};
  }

  lemma RefillSoonReady<T>(p: Pool<T>, task: T)
    ensures RefillSoon(p, task).ready == p.ready
  {
  }

  lemma RefillCheckReady<T>(p: Pool<T>, task: T)
    ensures RefillCheck(p, task).ready == p.ready
  {
  }

  lemma DrainConserves<T>(w: World<T>, a: Action<T>)
    requires Conserved(w) && a.GetDrainLock? && Enabled(w, a)
    ensures Conserved(Step(w, a))
  {
  }

  /** A drain leaves pool `p` and takes away `ids`, each of them a container made and, from
      then on, drained. */
  ghost predicate DrainLeaves<T>(w: World<T>, c: CallId, p: Pool<T>, ids: seq<Cid>) {
    var next := Step(w, GetDrainLock(c));
    && next.p == p && Conserved(next)
    && next.drained == w.drained + multiset(ids) && multiset(ids) <= multiset(w.made)
  }

  /** A drain moves what is ready, and nothing else, to the drained containers. */
  lemma DrainTakesAll<T>(w: World<T>, c: CallId)
    requires Conserved(w) && Enabled(w, GetDrainLock(c))
    ensures DrainLeaves(w, c, w.p.(ready := []), w.p.ready)
  {
    DrainConserves(w, GetDrainLock(c));
    assert multiset(w.p.ready) <= multiset(w.p.ready) + InProbe(w) + multiset(w.handed) + w.dead + w.drained;
  }

  lemma StepConserves<T>(w: World<T>, a: Action<T>)
    requires Conserved(w)
    ensures Conserved(Step(w, a))
  {
    hide PopOrLeave;
    if !Enabled(w, a) {
    } else if a.GetLock? {
      PopConserves(w, a.c);
    } else if a.Probed? {
      ProbedConserves(w, a);
    } else if a.OwnCreated? || a.TaskCreated? {
      CreatedConserves(w, a);
    } else if a.GetDrainLock? {
      DrainConserves(w, a);
    } else {
      SamePlaces(w, Step(w, a));
    }
  }

  lemma SamePlaces<T>(w: World<T>, w': World<T>)
    requires Conserved(w)
    requires w'.p.ready == w.p.ready && w'.lock == w.lock && w'.made == w.made
    requires w'.handed == w.handed && w'.dead == w.dead && w'.drained == w.drained
    ensures Conserved(w')
  {
  }

  lemma StepLockOk<T>(w: World<T>, a: Action<T>)
    requires LockOk(w)
    ensures LockOk(Step(w, a))
  {
    hide RefillSoon, RefillCheck;
  }

  /** The holder of the lock, and nobody else, is probing. */
  predicate LockOk<T>(w: World<T>) {
    && (w.lock.Held? ==> w.lock.holder in w.calls && w.calls[w.lock.holder].Probing?)
    && (forall c :: c in w.calls && w.calls[c].Probing? ==> w.lock.Held? && w.lock.holder == c)
  }

  // ---------------------------------------------------------------------------
  // One refiller, and the bound

  /** At most one refill task is unfinished, and it creates only below the bound. */
  predicate Bounded<T>(w: World<T>) {
    && (forall t :: t in w.p.running ==> w.p.current == Some(t))
    && w.creating <= w.p.running
    && |w.p.ready| <= w.p.size
    && (w.creating != {} ==> |w.p.ready| < w.p.size)
  }

  lemma StepBounded<T>(w: World<T>, a: Action<T>)
    requires Bounded(w)
    ensures Bounded(Step(w, a)) && Step(w, a).p.size == w.p.size
  {
  }

  /** In every run, whatever fails: containers are conserved, no id is handed out
      twice, at most one refill task runs and the pool never exceeds its size. */
  lemma {:induction false} PoolSafe<T>(size: nat, task: T, actions: seq<Action<T>>)
    ensures var w := Run(Init(size, task), actions);
            && Conserved(w) && LockOk(w) && Bounded(w)
            && w.p.size == size && |w.p.ready| <= size && |w.p.running| <= 1
  {
    hide Step, Conserved, LockOk;
    if actions == [] {
      InitSafe(size, task);
    } else {
      var w := Run(Init(size, task), actions[..|actions| - 1]);
      PoolSafe(size, task, actions[..|actions| - 1]);
      StepConserves(w, actions[|actions| - 1]);
      StepLockOk(w, actions[|actions| - 1]);
      StepBounded(w, actions[|actions| - 1]);
    }
    AtMostOne(Run(Init(size, task), actions));
  }

  lemma InitSafe<T>(size: nat, task: T)
    ensures var w := Init(size, task); Conserved(w) && LockOk(w) && Bounded(w)
  {
  }

  lemma AtMostOne<T>(w: World<T>)
    requires Bounded(w)
    ensures |w.p.running| <= 1
  {
    if w.p.running != {} {
      var t :| t in w.p.running;
      assert w.p.running == {t};
    }
  }

  /** No container is handed to two callers, or handed out and kept. */
  lemma HandedOnce<T>(w: World<T>, i: nat, j: nat)
    requires Conserved(w) && i < j < |w.handed|
    ensures w.handed[i] != w.handed[j] && w.handed[i] !in w.p.ready
  {
    var h := w.handed;
    assert h == h[..i] + [h[i]] + h[i + 1..];
    assert h[j] in h[i + 1..];
    assert multiset(h)[h[i]] == multiset(h[..i])[h[i]] + 1 + multiset(h[i + 1..])[h[i]];
    assert multiset(w.made)[h[i]] <= 1;
    assert (multiset(w.p.ready) + InProbe(w) + multiset(h) + w.dead + w.drained)[h[i]] <= 1;
  }

  // ---------------------------------------------------------------------------
  // Full at rest

  predicate Acquiring(at: CallAt) {
    !at.WaitDrain?
  }

  function Acquirers<T>(w: World<T>): set<CallId> {
    set c | c in w.calls && Acquiring(w.calls[c])
  }

  /** A pool that is not full has a refill task running or an acquire in flight, which
      will ask for a refill. */
  predicate Covered<T>(w: World<T>) {
    |w.p.ready| < w.p.size ==> w.p.running != {} || Acquirers(w) != {}
  }

  /** A failed creation or a drain that takes away the last cover of a deficit. */
  predicate Uncovers<T>(w: World<T>, a: Action<T>) {
    && Enabled(w, a)
    && ( || (a.OwnFailed? && |w.p.ready| < w.p.size && w.p.running == {} && Acquirers(w) == {a.c})
         || (a.TaskFailed? && |w.p.ready| < w.p.size && w.p.running == {a.t} && Acquirers(w) == {})
         || (a.GetDrainLock? && w.p.size > 0 && w.p.running == {} && Acquirers(w) == {}))
  }

  /** An acquire goes on or gets its container. */
  lemma AcquireCovers<T>(w: World<T>, a: Action<T>)
    requires Bounded(w) && Enabled(w, a) && (a.BeginAcquire? || a.GetLock? || a.Probed? || a.OwnCreated?)
    ensures Step(w, a).p.running != {} || Acquirers(Step(w, a)) != {}
  {
    var w' := Step(w, a);
    if a.OwnCreated? || (a.Probed? && a.alive) {
      assert w'.p.current.Some? && w'.p.current.value in w'.p.running;
    } else {
      assert a.c in w'.calls && Acquiring(w'.calls[a.c]);
      assert a.c in Acquirers(w');
    }
  }

  lemma FailureUncoversIff<T>(w: World<T>, a: Action<T>)
    requires Covered(w) && Enabled(w, a) && (a.OwnFailed? || a.TaskFailed?)
    ensures Covered(Step(w, a)) <==> !Uncovers(w, a)
  {
    var w' := Step(w, a);
    if a.OwnFailed? {
      assert a.c in Acquirers(w) && Acquirers(w') == Acquirers(w) - {a.c};
    } else {
      assert Acquirers(w') == Acquirers(w) && w'.p.running == w.p.running - {a.t};
    }
  }

  lemma DrainUncoversIff<T>(w: World<T>, a: Action<T>)
    requires Covered(w) && Enabled(w, a) && (a.BeginDrain? || a.GetDrainLock?)
    ensures Covered(Step(w, a)) <==> !Uncovers(w, a)
  {
    assert Acquirers(Step(w, a)) == Acquirers(w);
  }

  lemma TaskKeepsCover<T>(w: World<T>, a: Action<T>)
    requires Covered(w) && Bounded(w) && Enabled(w, a) && (a.TaskRuns? || a.TaskCreated?)
    ensures Covered(Step(w, a))
  {
    assert Acquirers(Step(w, a)) == Acquirers(w);
  }

  /** Nothing but that leaves a deficit uncovered. */
  lemma StepCoveredIff<T>(w: World<T>, a: Action<T>)
    requires Covered(w) && Bounded(w)
    ensures Covered(Step(w, a)) <==> !Uncovers(w, a)
  {
    if !Enabled(w, a) {
    } else if a.OwnFailed? || a.TaskFailed? {
      hide Step, Covered, Uncovers;
      FailureUncoversIff(w, a);
    } else if a.BeginDrain? || a.GetDrainLock? {
      hide Step, Covered, Uncovers;
      DrainUncoversIff(w, a);
    } else if a.TaskRuns? || a.TaskCreated? {
      hide Step, Covered;
      TaskKeepsCover(w, a);
    } else {
      hide Step;
      AcquireCovers(w, a);
    }
  }

  ghost predicate CoveredThroughout<T>(size: nat, task: T, actions: seq<Action<T>>) {
    && Covered(Run(Init(size, task), actions))
    && (actions != [] ==> CoveredThroughout(size, task, actions[..|actions| - 1]))
  }

  ghost predicate SomeUncovers<T>(size: nat, task: T, actions: seq<Action<T>>) {
    && actions != []
    && var front := actions[..|actions| - 1];
    || Uncovers(Run(Init(size, task), front), actions[|actions| - 1])
    || SomeUncovers(size, task, front)
  }

  lemma {:induction false} CoveredIff<T>(size: nat, task: T, actions: seq<Action<T>>)
    ensures CoveredThroughout(size, task, actions) <==> !SomeUncovers(size, task, actions)
  {
    hide Step, Uncovers, Covered, Bounded;
    if actions == [] {
      InitCovered(size, task);
    } else {
      var front := actions[..|actions| - 1];
      CoveredIff(size, task, front);
      PoolSafe(size, task, front);
      if CoveredThroughout(size, task, front) {
        StepCoveredIff(Run(Init(size, task), front), actions[|actions| - 1]);
      }
    }
  }

  lemma InitCovered<T>(size: nat, task: T)
    ensures Covered(Init(size, task))
  {
    assert task in Init(size, task).p.running;
  }

  /** In a run without failed creations and drains the pool is full whenever no
      acquire is in flight and no refill task is running. */
  lemma FullAtRest<T>(size: nat, task: T, actions: seq<Action<T>>)
    requires forall i :: 0 <= i < |actions| ==>
               !actions[i].OwnFailed? && !actions[i].TaskFailed? && !actions[i].GetDrainLock?
    ensures var w := Run(Init(size, task), actions);
            w.p.running == {} && Acquirers(w) == {} ==> |w.p.ready| == size
  {
    PoolSafe(size, task, actions);
    NothingUncovers(size, task, actions);
    CoveredIff(size, task, actions);
  }

  lemma {:induction false} NothingUncovers<T>(size: nat, task: T, actions: seq<Action<T>>)
    requires forall i :: 0 <= i < |actions| ==>
               !actions[i].OwnFailed? && !actions[i].TaskFailed? && !actions[i].GetDrainLock?
    ensures !SomeUncovers(size, task, actions)
  {
    hide Run, Init;
    if actions != [] {
      NothingUncovers(size, task, actions[..|actions| - 1]);
    }
  }
}
