/** What a probe's verdict does: who is handed which container, and which are dropped. */
module PoolHistory {
  import opened Basics
  import opened PoolSpec

  // ---------------------------------------------------------------------------
  // One step

  /** Call `a.c` holds the lock, probes container `x` and finds it alive. */
  predicate FoundAlive<T>(w: World<T>, a: Action<T>, x: Cid) {
    Enabled(w, a) && a.Probed? && w.lock == Held(a.c, x) && a.alive
  }

  predicate FoundDead<T>(w: World<T>, a: Action<T>, x: Cid) {
    Enabled(w, a) && a.Probed? && w.lock == Held(a.c, x) && !a.alive
  }

  /** Call `a.c` found none ready and has made container `x` itself. */
  predicate MadeOwn<T>(w: World<T>, a: Action<T>, x: Cid) {
    Enabled(w, a) && a.OwnCreated? && a.cid == x
  }

  predicate HandsOver<T>(w: World<T>, a: Action<T>, x: Cid) {
    FoundAlive(w, a, x) || MadeOwn(w, a, x)
  }

  /** A container is handed over exactly by its probe finding it alive or by the call that
      made it for itself, and that call is then over. */
  lemma StepHands<T>(w: World<T>, a: Action<T>)
    ensures forall x :: HandsOver(w, a, x) ==> Step(w, a).handed == w.handed + [x] && a.c !in Step(w, a).calls
    ensures (forall x :: !HandsOver(w, a, x)) ==> Step(w, a).handed == w.handed
  {
    hide RefillSoon, RefillCheck;
    if Enabled(w, a) && a.Probed? && a.alive {
      assert HandsOver(w, a, w.lock.probing);
    } else if Enabled(w, a) && a.OwnCreated? {
      assert HandsOver(w, a, a.cid);
    }
  }

  /** One is dropped exactly by its probe finding it dead. The same call then holds the lock
      on the newest of the rest, or, when there is none, lets it go and makes its own. */
  lemma StepDrops<T>(w: World<T>, a: Action<T>)
    ensures forall x :: FoundDead(w, a, x) ==>
              var next := Step(w, a);
              && next.dead == w.dead + multiset{x} && a.c in next.calls
              && if w.p.ready == [] then next.p.ready == [] && next.lock == Free && next.calls[a.c] == CreatingOwn
                 else next.calls[a.c] == Probing && exists y :: next.lock == Held(a.c, y) && w.p.ready == next.p.ready + [y]
    ensures (forall x :: !FoundDead(w, a, x)) ==> Step(w, a).dead == w.dead
  {
    hide RefillSoon, RefillCheck;
    if Enabled(w, a) && a.Probed? && !a.alive {
      assert FoundDead(w, a, w.lock.probing);
      if w.p.ready != [] {
        assert Step(w, a).lock == Held(a.c, Last(w.p)) && w.p.ready == PopLast(w.p).ready + [Last(w.p)];
      }
    }
  }

  /** A call that gets the lock probes the newest ready container; it makes its own only if
      there is none. */
  lemma LockTakesNewest<T>(w: World<T>, c: CallId)
    requires Enabled(w, GetLock(c))
    ensures var next := Step(w, GetLock(c));
            && c in next.calls
            && if w.p.ready == [] then next.p.ready == [] && next.lock == Free && next.calls[c] == CreatingOwn
               else next.calls[c] == Probing && exists y :: next.lock == Held(c, y) && w.p.ready == next.p.ready + [y]
  {
    if w.p.ready != [] {
      assert Step(w, GetLock(c)).lock == Held(c, Last(w.p)) && w.p.ready == PopLast(w.p).ready + [Last(w.p)];
    }
  }

  // ---------------------------------------------------------------------------
  // Whole runs

  ghost predicate WasHandedOver<T>(size: nat, task: T, actions: seq<Action<T>>, x: Cid) {
    && actions != []
    && var front := actions[..|actions| - 1];
    HandsOver(Run(Init(size, task), front), actions[|actions| - 1], x) || WasHandedOver(size, task, front, x)
  }

  ghost predicate WasFoundDead<T>(size: nat, task: T, actions: seq<Action<T>>, x: Cid) {
    && actions != []
    && var front := actions[..|actions| - 1];
    FoundDead(Run(Init(size, task), front), actions[|actions| - 1], x) || WasFoundDead(size, task, front, x)
  }

  /** In every run the containers handed to callers are those that the probe of the call
      they went to found alive, and those a call made for itself. */
  lemma {:induction false} HandedIff<T>(size: nat, task: T, actions: seq<Action<T>>, x: Cid)
    ensures x in Run(Init(size, task), actions).handed <==> WasHandedOver(size, task, actions, x)
  {
    hide Step, HandsOver;
    if actions == [] {
      NothingYet(size, task);
    } else {
      var w, last := Run(Init(size, task), actions[..|actions| - 1]), actions[|actions| - 1];
      HandedIff(size, task, actions[..|actions| - 1], x);
      StepHands(w, last);
      if y :| HandsOver(w, last, y) {
        assert x in w.handed + [y] <==> x in w.handed || x == y;
        OneHandedOver(w, last, x, y);
      }
    }
  }

  lemma OneHandedOver<T>(w: World<T>, a: Action<T>, x: Cid, y: Cid)
    requires HandsOver(w, a, y)
    ensures HandsOver(w, a, x) <==> x == y
  {
  }

  lemma NothingYet<T>(size: nat, task: T)
    ensures Init(size, task).handed == [] && Init(size, task).dead == multiset{}
  {
  }

  /** And those dropped are the ones a probe found dead. */
  lemma {:induction false} DroppedIff<T>(size: nat, task: T, actions: seq<Action<T>>, x: Cid)
    ensures x in Run(Init(size, task), actions).dead <==> WasFoundDead(size, task, actions, x)
  {
    hide Step, FoundDead;
    if actions == [] {
      NothingYet(size, task);
    } else {
      var w, last := Run(Init(size, task), actions[..|actions| - 1]), actions[|actions| - 1];
      DroppedIff(size, task, actions[..|actions| - 1], x);
      StepDrops(w, last);
      if y :| FoundDead(w, last, y) {
        OneFoundDead(w, last, x, y);
      }
    }
  }

  lemma OneFoundDead<T>(w: World<T>, a: Action<T>, x: Cid, y: Cid)
    requires FoundDead(w, a, y)
    ensures FoundDead(w, a, x) <==> x == y
  {
  }

  /** So no container is both handed over and dropped. */
  lemma DeadNotHanded<T>(size: nat, task: T, actions: seq<Action<T>>, x: Cid)
    requires WasFoundDead(size, task, actions, x)
    ensures !WasHandedOver(size, task, actions, x)
  {
    hide Run, WasFoundDead, WasHandedOver;
    var w := Run(Init(size, task), actions);
    DroppedIff(size, task, actions, x);
    HandedIff(size, task, actions, x);
    PoolSafe(size, task, actions);
    InOnePlace(w, x);
  }

  lemma InOnePlace<T>(w: World<T>, x: Cid)
    requires Conserved(w)
    ensures !(x in w.dead && x in w.handed)
  {
    assert (multiset(w.p.ready) + InProbe(w) + multiset(w.handed) + w.dead + w.drained)[x] <= 1;
    assert x in w.handed <==> multiset(w.handed)[x] > 0;
  }

  // ---------------------------------------------------------------------------
  // An acquire while nothing else happens

  predicate InProbing<T>(w: World<T>, c: CallId, task: T) {
    && w.lock.Held? && w.lock.holder == c && c in w.calls && w.calls[c] == Probing && FreshTask(w, task)
  }

  /** The probes of call `c`, one after another, until one finds its container alive. */
  function Probes<T>(w: World<T>, c: CallId, alive: Cid -> bool, task: T): World<T>
    decreases |w.p.ready| + if w.lock.Held? then 1 else 0
  {
    if !InProbing(w, c, task) then w
    else
      var next := Step(w, Probed(c, alive(w.lock.probing), task));
      if alive(w.lock.probing) then next else Probes(next, c, alive, task)
  }

  lemma AliveTurn<T>(w: World<T>, c: CallId, task: T)
    requires InProbing(w, c, task)
    ensures var next := Step(w, Probed(c, true, task));
            && next.handed == w.handed + [w.lock.probing] && c !in next.calls && next.lock == Free
            && next.p.ready == w.p.ready && next.dead == w.dead
  {
  }

  lemma DeadTurn<T>(w: World<T>, c: CallId, task: T)
    requires InProbing(w, c, task)
    ensures var next := Step(w, Probed(c, false, task));
            && next.handed == w.handed && next.dead == w.dead + multiset{w.lock.probing}
            && if w.p.ready == [] then
                 next.p.ready == [] && next.lock == Free && c in next.calls && next.calls[c] == CreatingOwn
               else
                 InProbing(next, c, task) && w.p.ready == next.p.ready + [next.lock.probing]
  {
  }

  lemma DroppedAdd(dead: multiset<Cid>, rest: seq<Cid>, x: Cid)
    ensures dead + multiset{x} + multiset(rest) == dead + multiset(rest + [x])
  {
  }

  /** The newest container alive is handed to the call, and exactly the newer ones, found
      dead, are dropped. */
  lemma {:induction false} NewestAliveTaken<T>(w: World<T>, c: CallId, alive: Cid -> bool, task: T, k: nat)
    requires InProbing(w, c, task)
    requires var pool := w.p.ready + [w.lock.probing];
             k < |pool| && alive(pool[k]) && forall j :: k < j < |pool| ==> !alive(pool[j])
    ensures var pool, t := w.p.ready + [w.lock.probing], Probes(w, c, alive, task);
            && t.handed == w.handed + [pool[k]] && c !in t.calls && t.lock == Free
            && t.p.ready == pool[..k] && t.dead == w.dead + multiset(pool[k + 1..])
    decreases |w.p.ready|
  {
    hide Step;
    var pool, x, n := w.p.ready + [w.lock.probing], w.lock.probing, |w.p.ready|;
    if k == n {
      AliveTurn(w, c, task);
      assert pool[..k] == w.p.ready && pool[k + 1..] == [];
    } else {
      DeadTurn(w, c, task);
      assert !alive(pool[n]);
      assert forall j :: 0 <= j < n ==> pool[j] == w.p.ready[j];
      NewestAliveTaken(Step(w, Probed(c, false, task)), c, alive, task, k);
      assert pool[..k] == w.p.ready[..k] && pool[k + 1..] == w.p.ready[k + 1..] + [x];
      DroppedAdd(w.dead, w.p.ready[k + 1..], x);
    }
  }

  /** With none alive all are dropped, and the call goes on to make its own. */
  lemma {:induction false} NoneAliveMakesOwn<T>(w: World<T>, c: CallId, alive: Cid -> bool, task: T)
    requires InProbing(w, c, task)
    requires !alive(w.lock.probing) && forall j :: 0 <= j < |w.p.ready| ==> !alive(w.p.ready[j])
    ensures var t := Probes(w, c, alive, task);
            && t.handed == w.handed && c in t.calls && t.calls[c] == CreatingOwn && t.lock == Free
            && t.p.ready == [] && t.dead == w.dead + multiset(w.p.ready + [w.lock.probing])
    decreases |w.p.ready|
  {
    hide Step;
    var next, x := Step(w, Probed(c, false, task)), w.lock.probing;
    DeadTurn(w, c, task);
    if w.p.ready == [] {
      assert w.p.ready + [x] == [x];
    } else {
      var m := |w.p.ready| - 1;
      assert next.lock.probing == w.p.ready[m] && forall j :: 0 <= j < m ==> next.p.ready[j] == w.p.ready[j];
      NoneAliveMakesOwn(next, c, alive, task);
      DroppedAdd(w.dead, w.p.ready, x);
    }
  }
}
