/** Is every playground that runs a registered one? Not always: exactly which steps leave
    one running that no list shows and no sweep finds. */
module Orphans {
  import opened Basics
  import opened RegistrySpec

  ghost predicate NoOrphan<R>(s: State<R>) {
    && s.vms <= s.recs.Keys
    && forall r :: r in s.recs && s.recs[r].status == Running ==> r in s.vms
  }

  /** The wait that a step ends, if it ends one. */
  function Ending<R>(w: World<R>, a: Action<R>): Option<Wait<R>> {
    if a.Continue? && a.c in w.calls && w.calls[a.c].r in w.s.recs then Some(w.calls[a.c]) else None
  }

  /** A start or resume that ends well although its record is not registered any more. */
  predicate StartsUnregistered<R>(w: World<R>, a: Action<R>) {
    var at := Ending(w, a);
    at.Some? && a.ok && (at.value.CreateStart? || at.value.ResumeVm?) && at.value.r !in w.s.vms
  }

  /** A destroy that ends although its record has been set running since it began. */
  predicate UnregistersRunning<R>(w: World<R>, a: Action<R>) {
    var at := Ending(w, a);
    at.Some? && w.s.recs[at.value.r].status == Running
    && (at.value.DestroyStop? || (at.value.DestroyTtyd? && !w.s.recs[at.value.r].hasVm))
  }

  predicate LeavesOrphan<R>(w: World<R>, a: Action<R>) {
    StartsUnregistered(w, a) || UnregistersRunning(w, a)
  }

  lemma EndingOrphansIff<R>(w: World<R>, a: Action<R>)
    requires NoOrphan(w.s) && Ending(w, a).Some?
    ensures NoOrphan(Step(w, a).s) <==> !LeavesOrphan(w, a)
  {
    var r, s' := w.calls[a.c].r, Step(w, a).s;
    assert s'.recs.Keys == w.s.recs.Keys && forall q :: q in w.s.recs && q != r ==> s'.recs[q] == w.s.recs[q];
    assert s'.vms == w.s.vms || s'.vms == w.s.vms - {r};
    if LeavesOrphan(w, a) {
      assert s'.recs[r].status == Running && r !in s'.vms;
    }
  }

  lemma BeginningKeeps<R>(w: World<R>, a: Action<R>)
    requires NoOrphan(w.s) && (a.Create? || a.Suspend? || a.Resume? || a.Destroy?)
    ensures NoOrphan(Step(w, a).s)
  {
    hide NextSlot;
  }

  lemma OthersKeep<R>(w: World<R>, a: Action<R>)
    requires NoOrphan(w.s) && !(a.Create? || a.Suspend? || a.Resume? || a.Destroy?) && Ending(w, a).None?
    ensures NoOrphan(Step(w, a).s)
  {
  }

  /** A step leaves the first orphan exactly when it is one of these two. */
  lemma StepOrphansIff<R>(w: World<R>, a: Action<R>)
    requires NoOrphan(w.s)
    ensures NoOrphan(Step(w, a).s) <==> !LeavesOrphan(w, a)
  {
    hide Step, NoOrphan;
    if Ending(w, a).Some? {
      EndingOrphansIff(w, a);
    } else if a.Create? || a.Suspend? || a.Resume? || a.Destroy? {
      BeginningKeeps(w, a);
    } else {
      OthersKeep(w, a);
    }
  }

  ghost predicate NoOrphanThroughout<R>(max: nat, actions: seq<Action<R>>) {
    && NoOrphan(Run(Init(max), actions).s)
    && (actions != [] ==> NoOrphanThroughout(max, actions[..|actions| - 1]))
  }

  /** Some step of the run leaves an orphan. */
  ghost predicate SomeOrphan<R>(max: nat, actions: seq<Action<R>>) {
    && actions != []
    && var front := actions[..|actions| - 1];
    LeavesOrphan(Run(Init(max), front), actions[|actions| - 1]) || SomeOrphan(max, front)
  }

  /** Over a whole run everything running is registered exactly when no step leaves an
      orphan. */
  lemma {:induction false} NoOrphanIff<R>(max: nat, actions: seq<Action<R>>)
    ensures NoOrphanThroughout(max, actions) <==> !SomeOrphan(max, actions)
  {
    hide Step, NoOrphan, LeavesOrphan;
    if actions == [] {
      NoneAtFirst<R>(max);
    } else {
      var front := actions[..|actions| - 1];
      NoOrphanIff(max, front);
      if NoOrphanThroughout(max, front) {
        StepOrphansIff(Run(Init(max), front), actions[|actions| - 1]);
      }
    }
  }

  lemma NoneAtFirst<R>(max: nat)
    ensures NoOrphan<R>(Init(max).s)
  {
  }
}
