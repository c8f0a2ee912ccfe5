/** Slots over every interleaving of creates, suspends, resumes, destroys and sweeps:
    allocation cannot fail, and exactly when two records that have not given their slot
    back can share one. Records that have given it back and run all the same are the
    subject of RunningSlots. */
module SlotSafety {
  import opened Basics
  import opened RegistrySpec

  // ---------------------------------------------------------------------------
  // What every step keeps

  function SlotsOf<R>(s: State<R>, rs: set<R>): set<nat>
    requires rs <= s.recs.Keys
  {
    set r | r in rs :: s.recs[r].slot
  }

  ghost predicate WellFormed<R>(w: World<R>) {
    && w.s.vms <= w.s.recs.Keys
    && |w.s.vms| <= w.s.max
    && w.s.slots <= SlotsOf(w.s, w.s.vms)
    && (forall r :: r in w.s.recs ==> 1 <= w.s.recs[r].slot <= w.s.max)
    && (forall r :: r in w.s.recs && w.s.recs[r].releases == 0 ==> r in w.s.vms)
    && (forall c :: c in w.calls ==> w.calls[c].r in w.s.recs)
  }

  lemma {:induction false} ImageNoLarger<R>(s: State<R>, rs: set<R>)
    requires rs <= s.recs.Keys
    ensures |SlotsOf(s, rs)| <= |rs|
    decreases |rs|
  {
    if rs != {} {
      var r :| r in rs;
      ImageNoLarger(s, rs - {r});
      assert SlotsOf(s, rs) == SlotsOf(s, rs - {r}) + {s.recs[r].slot};
    }
  }

  lemma {:induction false} FullRange(slots: set<nat>, max: nat)
    requires forall k :: 1 <= k <= max ==> k in slots
    ensures max <= |slots|
  {
    if max > 0 {
      FullRange(slots - {max}, max - 1);
    }
  }

  /** Below the playground limit there is always a free slot, so the "no free
      slots" error cannot be raised. */
  lemma AllocationCannotFail<R>(w: World<R>)
    requires WellFormed(w) && |w.s.vms| < w.s.max
    ensures LowestFree(w.s.slots, 1, w.s.max).Some?
  {
    if LowestFree(w.s.slots, 1, w.s.max).None? {
      FullRange(w.s.slots, w.s.max);
      ImageNoLarger(w.s, w.s.vms);
      Subset(w.s.slots, SlotsOf(w.s, w.s.vms));
    }
  }

  lemma {:induction false} Subset(a: set<nat>, b: set<nat>)
    requires a <= b
    ensures |a| <= |b|
  {
    if a != {} {
      var x :| x in a;
      Subset(a - {x}, b - {x});
    }
  }

  /** Creating is refused exactly when the limit is reached. */
  lemma RefusedIffAtLimit<R>(w: World<R>)
    requires WellFormed(w)
    ensures NextSlot(w.s).None? <==> |w.s.vms| == w.s.max
  {
    if |w.s.vms| < w.s.max {
      AllocationCannotFail(w);
    }
  }

  /** Changing anything of a record but its slot and its count of releases. */
  predicate SlotViewKept<R>(s: State<R>, s': State<R>) {
    && s'.max == s.max && s'.vms == s.vms && s'.slots == s.slots && s'.recs.Keys == s.recs.Keys
    && (forall r :: r in s.recs ==>
          s'.recs[r].slot == s.recs[r].slot && s'.recs[r].releases == s.recs[r].releases)
  }

  /** A new record holding a slot nobody held. */
  predicate Admitted<R>(s: State<R>, s': State<R>, r: R) {
    && r !in s.recs && s'.max == s.max && |s.vms| < s.max
    && s'.recs.Keys == s.recs.Keys + {r} && s'.vms == s.vms + {r}
    && (forall q :: q in s.recs ==> s'.recs[q] == s.recs[q])
    && s'.recs[r].releases == 0 && 1 <= s'.recs[r].slot <= s.max && s'.recs[r].slot !in s.slots
    && s'.slots == s.slots + {s'.recs[r].slot}
  }

  /** A record's slot given back, the record perhaps unregistered. */
  predicate Released<R>(s: State<R>, s': State<R>, r: R) {
    && r in s.recs && s'.max == s.max && s'.recs.Keys == s.recs.Keys
    && (s'.vms == s.vms || s'.vms == s.vms - {r})
    && (forall q :: q in s.recs ==>
          && s'.recs[q].slot == s.recs[q].slot
          && s'.recs[q].releases == s.recs[q].releases + if q == r then 1 else 0)
    && s'.slots == s.slots - {s.recs[r].slot}
  }

  /** The record whose slot a step gives back, if it gives one back. */
  function Releasing<R>(w: World<R>, a: Action<R>): Option<R> {
    if a.Continue? && a.c in w.calls && w.calls[a.c].r in w.s.recs
       && (w.calls[a.c].CreateStop? || w.calls[a.c].DestroyStop?
           || (w.calls[a.c].DestroyTtyd? && !w.s.recs[w.calls[a.c].r].hasVm))
    then Some(w.calls[a.c].r)
    else None
  }

  /** Whether a step admits a new record. */
  predicate Admits<R>(w: World<R>, a: Action<R>) {
    && a.Create? && a.c != REAPER && a.c !in w.calls && a.r !in w.s.recs
    && NextSlot(w.s).Some?
  }

  /** The state in which a step that admits a record has done so. */
  function AdmissionOf<R>(w: World<R>, a: Action<R>): State<R>
    requires Admits(w, a)
  {
    Admission(w, a.r, a.ttl, a.vmMade)
  }

  predicate KnownCalls<R>(w: World<R>) {
    forall c :: c in w.calls ==> w.calls[c].r in w.s.recs
  }

  lemma AdmissionKind<R>(w: World<R>, a: Action<R>)
    requires WellFormed(w) && Admits(w, a)
    ensures Admitted(w.s, AdmissionOf(w, a), a.r)
  {
    var slot := NextSlot(w.s).value;
    assert 1 <= slot <= w.s.max && slot !in w.s.slots;
  }

  /** Without a VM object the fresh record gives its slot back in the same step. */
  lemma FailedAdmission<R>(w: World<R>, a: Action<R>)
    requires WellFormed(w) && Admits(w, a) && !a.vmMade
    ensures Released(AdmissionOf(w, a), Step(w, a).s, a.r)
    ensures Step(w, a).s.vms == AdmissionOf(w, a).vms && Step(w, a).calls == w.calls
  {
    hide NextSlot, WellFormed;
  }

  lemma CreateKind<R>(w: World<R>, a: Action<R>)
    requires WellFormed(w) && a.Create?
    ensures var w' := Step(w, a);
            if Admits(w, a) then
              && Admitted(w.s, AdmissionOf(w, a), a.r)
              && (if a.vmMade then w'.s == AdmissionOf(w, a)
                  else Released(AdmissionOf(w, a), w'.s, a.r) && w'.s.vms == AdmissionOf(w, a).vms)
            else w' == w
  {
    hide NextSlot, Admitted, Released, Admission, WellFormed;
    if Admits(w, a) {
      AdmissionKind(w, a);
      if !a.vmMade {
        FailedAdmission(w, a);
      }
    }
  }

  lemma CreateKnowsCalls<R>(w: World<R>, a: Action<R>)
    requires WellFormed(w) && a.Create?
    ensures KnownCalls(Step(w, a))
  {
    hide NextSlot;
  }

  lemma ResumedKind<R>(w: World<R>, c: CallId, ok: bool)
    requires WellFormed(w) && c in w.calls
    ensures var s, w' := w.s, Resumed(w, c, ok);
            var rel := Releasing(w, Continue(c, ok));
            if rel.Some? then Released(s, w'.s, rel.value) else SlotViewKept(s, w'.s)
    ensures KnownCalls(Resumed(w, c, ok))
  {
    var r := w.calls[c].r;
    if w.calls[c].CreateStop? || w.calls[c].DestroyStop? {
      assert SlotViewKept(w.s, Stop(w.s, r, ok));
    }
  }

  lemma OtherKind<R>(w: World<R>, a: Action<R>)
    requires WellFormed(w) && !a.Create? && !a.Continue?
    ensures SlotViewKept(w.s, Step(w, a).s) && KnownCalls(Step(w, a))
  {
    hide BeginDestroy, BeginSuspend, BeginResume;
    if a.Suspend? {
      BeginSuspendKind(w, a.c, a.r);
    } else if a.Resume? {
      BeginResumeKind(w, a.c, a.r, a.looks);
    } else if a.Destroy? {
      BeginDestroyKind(w, a.c, a.r);
    } else if a.NextExpired? && w.sweep.Sweeping? && w.sweep.todo != [] {
      BeginDestroyKind(w, REAPER, w.sweep.todo[0]);
    }
  }

  lemma BeginSuspendKind<R>(w: World<R>, c: CallId, r: R)
    requires WellFormed(w)
    ensures SlotViewKept(w.s, BeginSuspend(w, c, r).s) && KnownCalls(BeginSuspend(w, c, r))
  {
  }

  lemma BeginResumeKind<R>(w: World<R>, c: CallId, r: R, looks: bool)
    requires WellFormed(w)
    ensures SlotViewKept(w.s, BeginResume(w, c, r, looks).s) && KnownCalls(BeginResume(w, c, r, looks))
  {
  }

  lemma BeginDestroyKind<R>(w: World<R>, c: CallId, r: R)
    requires WellFormed(w)
    ensures SlotViewKept(w.s, BeginDestroy(w, c, r).s) && KnownCalls(BeginDestroy(w, c, r))
  {
  }

  lemma AdmittedKeeps<R>(w: World<R>, w': World<R>, r: R)
    requires WellFormed(w) && Admitted(w.s, w'.s, r) && KnownCalls(w')
    ensures WellFormed(w')
  {
    assert |w'.s.vms| == |w.s.vms| + 1;
    forall k | k in w.s.slots ensures k in SlotsOf(w'.s, w'.s.vms) {
      var q :| q in w.s.vms && w.s.recs[q].slot == k;
      assert q in w'.s.vms;
    }
  }

  lemma ReleasedKeeps<R>(w: World<R>, w': World<R>, r: R)
    requires WellFormed(w) && Released(w.s, w'.s, r) && KnownCalls(w')
    ensures WellFormed(w')
  {
    forall k | k in w'.s.slots ensures k in SlotsOf(w'.s, w'.s.vms) {
      var q :| q in w.s.vms && w.s.recs[q].slot == k;
      assert q in w'.s.vms;
    }
  }

  lemma SlotViewKeeps<R>(w: World<R>, w': World<R>)
    requires WellFormed(w) && SlotViewKept(w.s, w'.s) && KnownCalls(w')
    ensures WellFormed(w')
  {
    forall k | k in w'.s.slots ensures k in SlotsOf(w'.s, w'.s.vms) {
      var q :| q in w.s.vms && w.s.recs[q].slot == k;
      assert q in w'.s.vms;
    }
  }

  lemma CreateWellFormed<R>(w: World<R>, a: Action<R>)
    requires WellFormed(w) && a.Create?
    ensures WellFormed(Step(w, a))
  {
    hide Step, AdmissionOf, NextSlot;
    var w' := Step(w, a);
    CreateKind(w, a);
    CreateKnowsCalls(w, a);
    if !Admits(w, a) {
    } else if a.vmMade {
      AdmittedKeeps(w, w', a.r);
    } else {
      var m := w'.(s := AdmissionOf(w, a));
      AdmittedKeeps(w, m, a.r);
      ReleasedKeeps(m, w', a.r);
    }
  }

  lemma StepWellFormed<R>(w: World<R>, a: Action<R>)
    requires WellFormed(w)
    ensures WellFormed(Step(w, a))
  {
    hide LowestFree, SlotViewKept, Released;
    if a.Create? {
      CreateWellFormed(w, a);
    } else if a.Continue? {
      if a.c in w.calls {
        ResumedKind(w, a.c, a.ok);
        var rel := Releasing(w, a);
        if rel.Some? {
          ReleasedKeeps(w, Resumed(w, a.c, a.ok), rel.value);
        } else {
          SlotViewKeeps(w, Resumed(w, a.c, a.ok));
        }
      }
    } else {
      OtherKind(w, a);
      SlotViewKeeps(w, Step(w, a));
    }
  }

  /** In every run the slots in use are among 1..max and held by registered
      playgrounds, and no more playgrounds than the limit are registered. */
  lemma {:induction false} RunWellFormed<R>(max: nat, actions: seq<Action<R>>)
    ensures WellFormed(Run(Init(max), actions))
  {
    hide Step;
    if actions != [] {
      RunWellFormed(max, actions[..|actions| - 1]);
      StepWellFormed(Run(Init(max), actions[..|actions| - 1]), actions[|actions| - 1]);
    }
  }

  // ---------------------------------------------------------------------------
  // When is a slot exclusive?

  ghost function Unreleased<R>(s: State<R>): set<R> {
    set r | r in s.recs && s.recs[r].releases == 0
  }

  /** The slots in use are those of the unreleased records, and these share none. */
  ghost predicate Exclusive<R>(s: State<R>) {
    && (forall r :: r in Unreleased(s) ==> s.recs[r].slot in s.slots)
    && (forall k :: k in s.slots ==> exists r :: r in Unreleased(s) && s.recs[r].slot == k)
    && (forall p, q :: p in Unreleased(s) && q in Unreleased(s) && p != q ==> s.recs[p].slot != s.recs[q].slot)
  }

  /** A slot given back by a record that gave it back before, while it is in use again. */
  predicate StaleRelease<R>(w: World<R>, a: Action<R>) {
    var rel := Releasing(w, a);
    rel.Some? && w.s.recs[rel.value].releases > 0 && w.s.recs[rel.value].slot in w.s.slots
  }

  lemma AdmittedExclusive<R>(s: State<R>, s': State<R>, r: R)
    requires Exclusive(s) && Admitted(s, s', r)
    ensures Exclusive(s')
  {
    assert Unreleased(s') == Unreleased(s) + {r};
  }

  lemma ReleasedExclusiveIff<R>(s: State<R>, s': State<R>, r: R)
    requires Exclusive(s) && Released(s, s', r)
    ensures Exclusive(s') <==> !(s.recs[r].releases > 0 && s.recs[r].slot in s.slots)
  {
    assert Unreleased(s') == Unreleased(s) - {r};
    if s.recs[r].releases > 0 && s.recs[r].slot in s.slots {
      var q :| q in Unreleased(s) && s.recs[q].slot == s.recs[r].slot;
      assert q in Unreleased(s') && s'.recs[q].slot !in s'.slots;
    }
  }

  lemma SlotViewExclusiveIff<R>(s: State<R>, s': State<R>)
    requires SlotViewKept(s, s')
    ensures Exclusive(s') <==> Exclusive(s)
  {
    assert Unreleased(s') == Unreleased(s);
  }

  /** A step breaks exclusivity exactly when it is a stale release. */
  lemma StepExclusiveIff<R>(w: World<R>, a: Action<R>)
    requires WellFormed(w) && Exclusive(w.s)
    ensures Exclusive(Step(w, a).s) <==> !StaleRelease(w, a)
  {
    hide Exclusive, LowestFree, SlotViewKept, Released, NextSlot, AdmissionOf;
    if a.Create? {
      CreateKind(w, a);
      if Admits(w, a) {
        AdmittedExclusive(w.s, AdmissionOf(w, a), a.r);
        if !a.vmMade {
          FreshRelease(w, a);
        }
      }
    } else if a.Continue? {
      if a.c in w.calls {
        ResumedKind(w, a.c, a.ok);
        var s' := Resumed(w, a.c, a.ok).s;
        if Releasing(w, a).Some? {
          ReleasedExclusiveIff(w.s, s', Releasing(w, a).value);
        } else {
          SlotViewExclusiveIff(w.s, s');
        }
      }
    } else {
      OtherKind(w, a);
      SlotViewExclusiveIff(w.s, Step(w, a).s);
    }
  }

  lemma FreshRelease<R>(w: World<R>, a: Action<R>)
    requires WellFormed(w) && Admits(w, a) && !a.vmMade && Exclusive(AdmissionOf(w, a))
    ensures Exclusive(Step(w, a).s)
  {
    hide Exclusive, LowestFree, NextSlot, Step;
    CreateKind(w, a);
    ReleasedExclusiveIff(AdmissionOf(w, a), Step(w, a).s, a.r);
  }

  // --- whole runs

  /** Slots are exclusive at the start of the run and after each of its steps. */
  ghost predicate ExclusiveThroughout<R>(max: nat, actions: seq<Action<R>>) {
    && Exclusive(Run(Init(max), actions).s)
    && (actions != [] ==> ExclusiveThroughout(max, actions[..|actions| - 1]))
  }

  /** Some step of the run is a stale release. */
  ghost predicate SomeStaleRelease<R>(max: nat, actions: seq<Action<R>>) {
    && actions != []
    && var front := actions[..|actions| - 1];
    || StaleRelease(Run(Init(max), front), actions[|actions| - 1])
    || SomeStaleRelease(max, front)
  }

  /** Over a whole run slots stay exclusive exactly when no release is stale. */
  lemma {:induction false} ExclusiveIff<R>(max: nat, actions: seq<Action<R>>)
    ensures ExclusiveThroughout(max, actions) <==> !SomeStaleRelease(max, actions)
  {
    hide Exclusive, StaleRelease, Step;
    if actions == [] {
      InitExclusive<R>(max);
    } else {
      var front := actions[..|actions| - 1];
      ExclusiveIff(max, front);
      RunWellFormed(max, front);
      if ExclusiveThroughout(max, front) {
        StepExclusiveIff(Run(Init(max), front), actions[|actions| - 1]);
      }
    }
  }

  lemma InitExclusive<R>(max: nat)
    ensures Exclusive<R>(Init(max).s)
  {
  }

  /** No step takes a release back. */
  lemma ReleasesGrow<R>(w: World<R>, a: Action<R>)
    requires WellFormed(w)
    ensures forall r :: r in w.s.recs ==>
              r in Step(w, a).s.recs && w.s.recs[r].releases <= Step(w, a).s.recs[r].releases
    ensures StaleRelease(w, a) ==>
              exists r :: r in Step(w, a).s.recs && Step(w, a).s.recs[r].releases > 1
  {
    hide LowestFree, NextSlot;
    if a.Create? {
      CreateKind(w, a);
    } else if a.Continue? {
      if a.c in w.calls {
        ResumedKind(w, a.c, a.ok);
      }
    } else {
      OtherKind(w, a);
    }
  }

  /** If in the end no record has given its slot back twice, slots were exclusive
      all along. */
  lemma {:induction false} SingleReleasesExclusive<R>(max: nat, actions: seq<Action<R>>)
    requires forall r :: r in Run(Init(max), actions).s.recs ==> Run(Init(max), actions).s.recs[r].releases <= 1
    ensures ExclusiveThroughout(max, actions)
  {
    hide StaleRelease, Step, Exclusive;
    if actions == [] {
      InitExclusive<R>(max);
    } else {
      var front := actions[..|actions| - 1];
      var w := Run(Init(max), front);
      RunWellFormed(max, front);
      ReleasesGrow(w, actions[|actions| - 1]);
      forall r | r in w.s.recs ensures w.s.recs[r].releases <= 1 {
        assert r in Run(Init(max), actions).s.recs;
      }
      SingleReleasesExclusive(max, front);
      StepExclusiveIff(w, actions[|actions| - 1]);
    }
  }

  // ---------------------------------------------------------------------------
  // A discipline for callers

  /** A wait after which the call will give the record's slot back, or may. */
  predicate WillRelease<R>(at: Wait<R>) {
    at.CreateStart? || at.CreateTtyd? || at.CreateStop? || at.DestroyTtyd? || at.DestroyStop?
  }

  predicate Busy<R>(w: World<R>, r: R) {
    exists c :: c in w.calls && w.calls[c].r == r && WillRelease(w.calls[c])
  }

  /** The record a step would begin to destroy. */
  function Destroying<R>(w: World<R>, a: Action<R>): Option<R> {
    if a.Destroy? && a.c != REAPER && a.c !in w.calls && a.r in w.s.vms then Some(a.r)
    else if a.NextExpired? && w.sweep.Sweeping? && w.sweep.todo != [] && REAPER !in w.calls
            && w.sweep.todo[0] in w.s.vms then Some(w.sweep.todo[0])
    else None
  }

  /** A destroy is begun only on a record whose create has returned without failing
      and on which no other destroy is in flight. */
  predicate Disciplined<R>(w: World<R>, a: Action<R>) {
    Destroying(w, a).Some? ==>
      var r := Destroying(w, a).value;
      r in w.s.recs && w.s.recs[r].releases == 0 && !Busy(w, r)
  }

  ghost predicate AllDisciplined<R>(max: nat, actions: seq<Action<R>>) {
    actions != [] ==>
      var front := actions[..|actions| - 1];
      Disciplined(Run(Init(max), front), actions[|actions| - 1]) && AllDisciplined(max, front)
  }

  /** At most one call will release a record, and then it has not been released. */
  ghost predicate OneReleaser<R>(w: World<R>) {
    && (forall c :: c in w.calls && WillRelease(w.calls[c]) ==>
          w.calls[c].r in w.s.recs && w.s.recs[w.calls[c].r].releases == 0)
    && (forall c, d ::
          c in w.calls && d in w.calls && c != d && WillRelease(w.calls[c]) && WillRelease(w.calls[d])
          ==> w.calls[c].r != w.calls[d].r)
  }

  /** A step that keeps the records' releases and adds no releasing call. */
  lemma QuietKeepsOne<R>(w: World<R>, w': World<R>)
    requires OneReleaser(w) && SlotViewKept(w.s, w'.s)
    requires forall c :: c in w'.calls && WillRelease(w'.calls[c]) ==>
               c in w.calls && WillRelease(w.calls[c]) && w'.calls[c].r == w.calls[c].r
    ensures OneReleaser(w')
  {
  }

  lemma ResumedKeepsOne<R>(w: World<R>, c: CallId, ok: bool)
    requires WellFormed(w) && OneReleaser(w) && c in w.calls
    ensures OneReleaser(Resumed(w, c, ok)) && !StaleRelease(w, Continue(c, ok))
  {
    hide Resumed;
    var w' := Resumed(w, c, ok);
    ResumedKind(w, c, ok);
    ResumedCalls(w, c, ok);
    if Releasing(w, Continue(c, ok)).None? {
      hide SlotViewKept;
      QuietKeepsOne(w, w');
    }
  }

  /** What a call that moves on does to the calls in flight. */
  lemma ResumedCalls<R>(w: World<R>, c: CallId, ok: bool)
    requires c in w.calls && w.calls[c].r in w.s.recs
    ensures var w' := Resumed(w, c, ok);
            && (Releasing(w, Continue(c, ok)).Some? ==> w'.calls == w.calls - {c} && WillRelease(w.calls[c]))
            && (forall d :: d in w'.calls ==>
                  d in w.calls && w'.calls[d].r == w.calls[d].r
                  && (WillRelease(w'.calls[d]) ==> WillRelease(w.calls[d])))
  {
  }

  lemma BeginDestroyKeepsOne<R>(w: World<R>, c: CallId, r: R)
    requires WellFormed(w) && OneReleaser(w)
    requires c !in w.calls && r in w.s.vms ==> w.s.recs[r].releases == 0 && !Busy(w, r)
    ensures OneReleaser(BeginDestroy(w, c, r))
  {
    if c !in w.calls && r in w.s.vms {
      assert forall d :: d in w.calls && WillRelease(w.calls[d]) ==> w.calls[d].r != r;
    }
  }

  lemma SweepNextKeepsOne<R>(w: World<R>)
    requires WellFormed(w) && OneReleaser(w) && Disciplined(w, NextExpired)
    ensures OneReleaser(SweepNext(w))
  {
    if w.sweep.Sweeping? && w.sweep.todo != [] && REAPER !in w.calls {
      BeginDestroyKeepsOne(w, REAPER, w.sweep.todo[0]);
      QuietKeepsOne(BeginDestroy(w, REAPER, w.sweep.todo[0]), SweepNext(w));
    }
  }

  lemma CreateKeepsOne<R>(w: World<R>, a: Action<R>)
    requires WellFormed(w) && OneReleaser(w) && a.Create?
    ensures OneReleaser(Step(w, a))
  {
    hide NextSlot;
    assert forall c :: c in w.calls ==> w.calls[c].r in w.s.recs;
  }

  lemma DisciplineKeepsOne<R>(w: World<R>, a: Action<R>)
    requires WellFormed(w) && OneReleaser(w) && Disciplined(w, a)
    ensures OneReleaser(Step(w, a)) && !StaleRelease(w, a)
  {
    hide NextSlot, OneReleaser, WellFormed, Resumed, SweepNext, BeginDestroy;
    if a.Create? {
      CreateKeepsOne(w, a);
    } else if a.Continue? {
      if a.c in w.calls {
        ResumedKeepsOne(w, a.c, a.ok);
      }
    } else if a.Destroy? {
      if a.c != REAPER {
        BeginDestroyKeepsOne(w, a.c, a.r);
      }
    } else if a.NextExpired? {
      SweepNextKeepsOne(w);
    } else {
      OtherKeepsOne(w, a);
    }
  }

  lemma OtherKeepsOne<R>(w: World<R>, a: Action<R>)
    requires WellFormed(w) && OneReleaser(w)
    requires !a.Create? && !a.Continue? && !a.Destroy? && !a.NextExpired?
    ensures OneReleaser(Step(w, a))
  {
    hide OneReleaser, WellFormed, SlotViewKept;
    OtherKind(w, a);
    QuietKeepsOne(w, Step(w, a));
  }

  /** Under the discipline no two records that have not given their slot back share one. */
  lemma {:induction false} DisciplinedExclusive<R>(max: nat, actions: seq<Action<R>>)
    requires AllDisciplined(max, actions)
    ensures ExclusiveThroughout(max, actions) && OneReleaser(Run(Init(max), actions))
  {
    hide StaleRelease, Step, Exclusive, Disciplined;
    if actions == [] {
      InitExclusive<R>(max);
    } else {
      var front := actions[..|actions| - 1];
      RunWellFormed(max, front);
      DisciplinedExclusive(max, front);
      DisciplineKeepsOne(Run(Init(max), front), actions[|actions| - 1]);
      StepExclusiveIff(Run(Init(max), front), actions[|actions| - 1]);
    }
  }
}
