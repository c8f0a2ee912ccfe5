/** The pool object: each method is one stretch between two waits of acquiring,
    refilling or draining, proved against the pool as a value. */
module WarmPool {
  import opened Basics
  import opened PoolSpec

  class Task {
    var done: bool

    constructor ()
      ensures !done
    {
      done := false;
    }
  }

  class WarmPool {
    const size: nat
    var ready: seq<Cid>
    var task: Task?
    ghost var tasks: set<Task>      // every refill task ever begun

    ghost predicate Valid()
      reads this
    {
      task != null ==> task in tasks
    }

    ghost function View(): Pool<Task>
      reads this, tasks
    {
      var current: Option<Task> := if task == null then None else Some(task);
      Pool(size, ready, current, set t | t in tasks && !t.done)
    }

    constructor (size: nat)
      ensures Valid() && fresh(tasks) && View() == Pool(size, [], None, {})
    {
      this.size := size;
      ready, task, tasks := [], null, {};
    }

    /** Ask for a refill: a new task unless the last one is still running. `asked`
        is the task now responsible. */
    method RefillSoon() returns (asked: Task)
      requires Valid()
      modifies `task, `tasks
      ensures Valid() && asked in tasks && tasks >= old(tasks)
      ensures View() == PoolSpec.RefillSoon(old(View()), asked)
      ensures asked == task
      ensures asked !in old(tasks) ==> fresh(asked) && !asked.done
      ensures asked in old(tasks) ==> old(View()).current == Some(asked) && asked in old(View()).running
    {
      if task == null || task.done {
        var t := new Task();
        task := t;
        tasks := tasks + {t};
      }
      asked := task;
    }

    /** The refill loop's test; when it fails the task is done. */
    method RefillCheck(t: Task) returns (more: bool)
      requires Valid() && t in tasks && !t.done
      modifies t
      ensures Valid() && tasks == old(tasks)
      ensures more == (|ready| < size) && (more <==> !t.done)
      ensures View() == PoolSpec.RefillCheck(old(View()), t)
    {
      more := |ready| < size;
      if !more {
        t.done := true;
      }
    }

    /** A created container joins the pool and the loop tests again. */
    method RefillAdd(t: Task, cid: Cid) returns (more: bool)
      requires Valid() && t in tasks && !t.done
      modifies `ready, t
      ensures Valid() && tasks == old(tasks)
      ensures View() == PoolSpec.RefillCheck(old(View()).(ready := old(ready) + [cid]), t)
      ensures more <==> !t.done
    {
      ready := ready + [cid];
      more := RefillCheck(t);
    }

    /** A container could not be made: the task gives up. */
    method RefillFailed(t: Task)
      requires Valid() && t in tasks && !t.done
      modifies t
      ensures Valid() && tasks == old(tasks)
      ensures forall w: World<Task> :: w.p == old(View()) && t in w.creating ==> Step(w, TaskFailed(t)).p == View()
    {
      t.done := true;
    }

    /** One turn of the acquire loop, holding the lock: the container to probe next. */
    method Pop() returns (cid: Option<Cid>)
      requires Valid()
      modifies `ready
      ensures Valid()
      ensures if old(ready) == [] then cid.None? && ready == [] else cid.Some? && old(ready) == ready + [cid.value]
      ensures if old(ready) == [] then cid.None? && View() == old(View())
              else cid == Some(Last(old(View()))) && View() == PopLast(old(View()))
      ensures forall w: World<Task>, c: CallId :: w.p == old(View()) && w.lock.Free? ==>
                var next := PopOrLeave(w, c);
                next.p == View() && next.lock == if cid.Some? then Held(c, cid.value) else Free
    {
      if ready == [] {
        return None;
      }
      cid := Some(ready[|ready| - 1]);
      ready := ready[..|ready| - 1];
    }

    /** The rest of a turn of the acquire loop, once the probe of container `cid` has ended:
        a live one is the caller's, and a refill is asked for; after a dead one the loop
        goes on with the next. */
    method ProbeEnds(cid: Cid, alive: bool) returns (mine: Option<Cid>, next: Option<Cid>)
      requires Valid()
      modifies `ready, `task, `tasks
      ensures Valid() && tasks >= old(tasks)
      ensures alive ==> mine == Some(cid) && next.None? && ready == old(ready)
      ensures !alive ==> mine.None? && if old(ready) == [] then next.None? && ready == []
                                       else next.Some? && old(ready) == ready + [next.value]
      ensures forall w: World<Task>, c: CallId, t: Task ::
                w.p == old(View()) && w.lock == Held(c, cid) && Enabled(w, Probed(c, alive, t)) && (task !in old(tasks) ==> t == task) ==>
                  var after := Step(w, Probed(c, alive, t));
                  && after.p == View()
                  && after.handed == w.handed + (if mine.Some? then [mine.value] else [])
                  && after.lock == if next.Some? then Held(c, next.value) else Free
    {
      mine, next := None, None;
      if alive {
        var _ := RefillSoon();
        mine := Some(cid);
      } else {
        next := Pop();
      }
    }

    /** Acquire, while nothing else touches the pool: containers are taken newest
        first, and the first one alive is the result; the dead ones are dropped. */
    method TakeAlive(alive: Cid -> bool) returns (cid: Option<Cid>)
      requires Valid()
      modifies `ready
      ensures Valid()
      ensures cid.None? ==> ready == [] && forall i :: 0 <= i < old(|ready|) ==> !alive(old(ready)[i])
      ensures cid.Some? ==>
                && alive(cid.value) && |ready| < old(|ready|)
                && old(ready)[..|ready| + 1] == ready + [cid.value]
                && forall i :: |ready| < i < old(|ready|) ==> !alive(old(ready)[i])
    {
      while ready != []
        invariant Valid() && |ready| <= old(|ready|) && ready == old(ready)[..|ready|]
        invariant forall i :: |ready| <= i < old(|ready|) ==> !alive(old(ready)[i])
        decreases |ready|
      {
        var last := Pop();
        if alive(last.value) {
          return last;
        }
      }
      return None;
    }

    /** Draining takes all ready containers at once: none is left, and in a world where
        each container is in one place the drained ones move there and nowhere else. */
    method TakeAll() returns (ids: seq<Cid>)
      requires Valid()
      modifies `ready
      ensures Valid() && ready == []
      ensures forall w: World<Task>, c: CallId ::
                w.p == old(View()) && Conserved(w) && Enabled(w, GetDrainLock(c)) ==> DrainLeaves(w, c, View(), ids)
    {
      hide DrainLeaves, Conserved, Enabled;
      ids, ready := ready, [];
      assert View() == old(View()).(ready := []);
      forall w: World<Task>, c: CallId | w.p == old(View()) && Conserved(w) && Enabled(w, GetDrainLock(c))
        ensures DrainLeaves(w, c, View(), ids)
      {
        DrainTakesAll(w, c);
      }
    }
  }
}
