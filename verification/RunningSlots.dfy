/** Do running playgrounds share a slot? Slots in use are exclusive among records that
    have not given theirs back (SlotSafety); this adds exactly when a running one has. */
module RunningSlots {
  import opened Basics
  import opened RegistrySpec
  import opened SlotSafety

  /** Whatever runs still has its slot. */
  ghost predicate RunningHolds<R>(s: State<R>) {
    forall r :: r in s.recs && s.recs[r].status == Running ==> s.recs[r].releases == 0
  }

  ghost predicate RunningApart<R>(s: State<R>) {
    forall p, q :: p in s.recs && q in s.recs && p != q && s.recs[p].status == Running && s.recs[q].status == Running
                   ==> s.recs[p].slot != s.recs[q].slot
  }

  /** A start or resume that ends well on a record that has given its slot back. */
  predicate RunsReleased<R>(w: World<R>, a: Action<R>) {
    && a.Continue? && a.c in w.calls && w.calls[a.c].r in w.s.recs
    && a.ok && (w.calls[a.c].CreateStart? || w.calls[a.c].ResumeVm?)
    && w.s.recs[w.calls[a.c].r].releases > 0
  }

  /** A rollback or destroy that gives a slot back though its record has been set running. */
  predicate ReleasesRunning<R>(w: World<R>, a: Action<R>) {
    Releasing(w, a).Some? && w.s.recs[Releasing(w, a).value].status == Running
  }

  predicate LosesHold<R>(w: World<R>, a: Action<R>) {
    RunsReleased(w, a) || ReleasesRunning(w, a)
  }

  lemma ResumedHoldsIff<R>(w: World<R>, a: Action<R>)
    requires RunningHolds(w.s) && a.Continue? && a.c in w.calls && w.calls[a.c].r in w.s.recs
    ensures RunningHolds(Step(w, a).s) <==> !LosesHold(w, a)
  {
    var r, s' := w.calls[a.c].r, Step(w, a).s;
    assert s'.recs.Keys == w.s.recs.Keys && forall q :: q in w.s.recs && q != r ==> s'.recs[q] == w.s.recs[q];
    if LosesHold(w, a) {
      assert s'.recs[r].status == Running && s'.recs[r].releases > 0;
    }
  }

  lemma BeginningHolds<R>(w: World<R>, a: Action<R>)
    requires RunningHolds(w.s) && (a.Create? || a.Suspend? || a.Resume? || a.Destroy?)
    ensures RunningHolds(Step(w, a).s)
  {
    hide NextSlot;
  }

  lemma OthersHold<R>(w: World<R>, a: Action<R>)
    requires RunningHolds(w.s) && !(a.Create? || a.Suspend? || a.Resume? || a.Destroy?)
    requires a.Continue? ==> a.c !in w.calls || w.calls[a.c].r !in w.s.recs
    ensures RunningHolds(Step(w, a).s)
  {
  }

  /** A step leaves the first running record without its slot exactly when it is one of
      these two. */
  lemma StepHoldsIff<R>(w: World<R>, a: Action<R>)
    requires RunningHolds(w.s)
    ensures RunningHolds(Step(w, a).s) <==> !LosesHold(w, a)
  {
    hide Step, RunningHolds;
    if a.Create? || a.Suspend? || a.Resume? || a.Destroy? {
      BeginningHolds(w, a);
    } else if a.Continue? && a.c in w.calls && w.calls[a.c].r in w.s.recs {
      ResumedHoldsIff(w, a);
    } else {
      OthersHold(w, a);
    }
  }

  ghost predicate HoldsThroughout<R>(max: nat, actions: seq<Action<R>>) {
    && RunningHolds(Run(Init(max), actions).s)
    && (actions != [] ==> HoldsThroughout(max, actions[..|actions| - 1]))
  }

  /** Some step of the run leaves a running record without its slot. */
  ghost predicate SomeLosesHold<R>(max: nat, actions: seq<Action<R>>) {
    && actions != []
    && var front := actions[..|actions| - 1];
    LosesHold(Run(Init(max), front), actions[|actions| - 1]) || SomeLosesHold(max, front)
  }

  /** Over a whole run every running record has its slot exactly when no step is such. */
  lemma {:induction false} HoldsIff<R>(max: nat, actions: seq<Action<R>>)
    ensures HoldsThroughout(max, actions) <==> !SomeLosesHold(max, actions)
  {
    hide Step, RunningHolds, LosesHold;
    if actions == [] {
      HoldsAtFirst<R>(max);
    } else {
      var front := actions[..|actions| - 1];
      HoldsIff(max, front);
      if HoldsThroughout(max, front) {
        StepHoldsIff(Run(Init(max), front), actions[|actions| - 1]);
      }
    }
  }

  lemma HoldsAtFirst<R>(max: nat)
    ensures RunningHolds<R>(Init(max).s)
  {
  }

  lemma HeldApart<R>(s: State<R>)
    requires Exclusive(s) && RunningHolds(s)
    ensures RunningApart(s)
  {
    assert forall r :: r in s.recs && s.recs[r].status == Running ==> r in Unreleased(s);
  }

  /** In a run with neither a stale release nor such a step no two running playgrounds
      share a slot. */
  lemma RunningNeverShare<R>(max: nat, actions: seq<Action<R>>)
    requires !SomeStaleRelease(max, actions) && !SomeLosesHold(max, actions)
    ensures RunningApart(Run(Init(max), actions).s)
    ensures Exclusive(Run(Init(max), actions).s) && RunningHolds(Run(Init(max), actions).s)
  {
    hide Run, Exclusive, RunningHolds, RunningApart;
    ExclusiveIff(max, actions);
    HoldsIff(max, actions);
    HeldApart(Run(Init(max), actions).s);
  }
}
