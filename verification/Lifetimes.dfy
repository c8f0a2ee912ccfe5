/** What each operation comes to when nothing comes between its steps. */
module Lifetimes {
  import opened Basics
  import opened RegistrySpec

  /** A create that goes well: the playground runs, with its disk, on the lowest free slot. */
  lemma CreateRuns<R>(w: World<R>, c: CallId, r: R, ttl: nat)
    requires c != REAPER && c !in w.calls && r !in w.s.recs && NextSlot(w.s).Some?
    ensures var t := Step(Step(Step(Step(w, Create(c, r, ttl, true)), Provision(c)), Continue(c, true)), Continue(c, true));
            && r in t.s.vms && r in t.s.recs && t.calls == w.calls
            && t.s.recs[r].status == Running && t.s.recs[r].disk && t.s.recs[r].releases == 0
            && t.s.recs[r].slot == NextSlot(w.s).value && t.s.slots == w.s.slots + {t.s.recs[r].slot}
  {
    hide NextSlot;
    var t := Step(w, Create(c, r, ttl, true));
    assert t.calls == w.calls[c := CreateStart(r)];
    t := Step(Step(t, Provision(c)), Continue(c, true));
    assert t.calls == w.calls[c := CreateTtyd(r)];
    assert w.calls[c := CreateTtyd(r)] - {c} == w.calls;
  }

  /** One whose start fails: the playground shows an error, its slot is free again. */
  lemma CreateFails<R>(w: World<R>, c: CallId, r: R, ttl: nat, ok: bool)
    requires c != REAPER && c !in w.calls && r !in w.s.recs && NextSlot(w.s).Some? && NextSlot(w.s).value !in w.s.slots
    ensures var t := Step(Step(Step(w, Create(c, r, ttl, true)), Continue(c, false)), Continue(c, ok));
            && r in t.s.vms && r in t.s.recs && t.calls == w.calls
            && t.s.recs[r].status == Error && t.s.slots == w.s.slots
  {
    hide NextSlot;
    var t := Step(w, Create(c, r, ttl, true));
    assert t.calls == w.calls[c := CreateStart(r)];
    t := Step(t, Continue(c, false));
    assert t.calls == w.calls[c := CreateStop(r)];
    assert w.calls[c := CreateStop(r)] - {c} == w.calls;
  }

  /** A suspend stops a running playground and keeps its disk and its slot. */
  lemma SuspendStops<R>(w: World<R>, c: CallId, r: R, served: bool)
    requires c != REAPER && c !in w.calls && r in w.s.vms && r in w.s.recs
    requires w.s.recs[r].status == Running && w.s.recs[r].hasVm && w.s.recs[r].deadline.None?
    ensures var t := Step(Step(Step(w, Suspend(c, r)), Continue(c, served)), Continue(c, true));
            && t.s == w.s.(recs := w.s.recs[r := w.s.recs[r].(status := Stopped)]) && t.calls == w.calls
  {
    var t := Step(Step(w, Suspend(c, r)), Continue(c, served));
    assert t.calls == w.calls[c := SuspendVm(r)];
    assert w.calls[c := SuspendVm(r)] - {c} == w.calls;
  }

  /** A resume brings back what is not running if its disk is there; otherwise it shows an
      error, whether or not the backend looks for the disk first. */
  lemma ResumeBringsBackIff<R>(w: World<R>, c: CallId, r: R, looks: bool)
    requires c != REAPER && c !in w.calls && r in w.s.vms && r in w.s.recs
    requires w.s.recs[r].status != Running && w.s.recs[r].hasVm
    ensures var t := Step(Step(Step(w, Resume(c, r, looks)), DiskFound(c)), Continue(c, true));
            t.s == w.s.(recs := w.s.recs[r := w.s.recs[r].(status := if w.s.recs[r].disk then Running else Error)])
  {
    var t := Step(w, Resume(c, r, looks));
    if looks {
      assert w.s.recs[r].disk ==> t.calls == w.calls[c := ResumeVm(r)];
    } else {
      assert t.calls == w.calls[c := ResumeStart(r)];
    }
  }

  /** A destroy unregisters the playground, frees its slot and, if the stop could remove it,
      leaves no disk. */
  lemma DestroyGoes<R>(w: World<R>, c: CallId, r: R, served: bool, removed: bool)
    requires c != REAPER && c !in w.calls && r in w.s.vms && r in w.s.recs && w.s.recs[r].hasVm
    ensures var t := Step(Step(Step(w, Destroy(c, r)), Continue(c, served)), Continue(c, removed));
            && t.s.vms == w.s.vms - {r} && t.s.slots == w.s.slots - {w.s.recs[r].slot} && t.calls == w.calls
            && r in t.s.recs && t.s.recs[r].disk == (w.s.recs[r].disk && !removed)
  {
    var t := Step(w, Destroy(c, r));
    assert t.calls == w.calls[c := DestroyTtyd(r)];
    DestroyEnds(t, c, r, served, removed);
    assert w.calls[c := DestroyTtyd(r)] - {c} == w.calls;
  }

  lemma DestroyEnds<R>(w: World<R>, c: CallId, r: R, served: bool, removed: bool)
    requires c in w.calls && w.calls[c] == DestroyTtyd(r) && r in w.s.recs && w.s.recs[r].hasVm
    ensures var t := Step(Step(w, Continue(c, served)), Continue(c, removed));
            && t.s.vms == w.s.vms - {r} && t.s.slots == w.s.slots - {w.s.recs[r].slot}
            && t.calls == w.calls - {c} && t.sweep == w.sweep && t.clock == w.clock
            && r in t.s.recs && t.s.recs[r].disk == (w.s.recs[r].disk && !removed)
  {
    var t := Step(w, Continue(c, served));
    assert t == w.(calls := w.calls[c := DestroyStop(r)]);
    assert w.calls[c := DestroyStop(r)] - {c} == w.calls - {c};
  }

  /** A sweep that finds one playground expired destroys it and ends. */
  lemma SweepRemoves<R>(w: World<R>, r: R, served: bool, removed: bool)
    requires w.sweep.Idle? && REAPER !in w.calls && w.s.recs.Keys >= w.s.vms
    requires Expired(w.s, w.clock, r) && w.s.recs[r].hasVm
    requires forall q :: q in w.s.vms && Expired(w.s, w.clock, q) ==> q == r
    ensures var t := Step(Step(w, Wake([r])), NextExpired);
            var u := Step(Step(Step(t, Continue(REAPER, served)), Continue(REAPER, removed)), SweepDone);
            u.s.vms == w.s.vms - {r} && u.s.slots == w.s.slots - {w.s.recs[r].slot} && u.sweep.Idle? && u.calls == w.calls
  {
    hide Step;
    SweepBegins(w, r);
    ReaperBegins(Step(w, Wake([r])), r);
    var t := Step(Step(w, Wake([r])), NextExpired);
    DestroyEnds(t, REAPER, r, served, removed);
    SweepCloses(Step(Step(t, Continue(REAPER, served)), Continue(REAPER, removed)));
    assert w.calls[REAPER := DestroyTtyd(r)] - {REAPER} == w.calls;
  }

  lemma SweepBegins<R>(w: World<R>, r: R)
    requires w.sweep.Idle? && w.s.recs.Keys >= w.s.vms && Expired(w.s, w.clock, r)
    requires forall q :: q in w.s.vms && Expired(w.s, w.clock, q) ==> q == r
    ensures Step(w, Wake([r])) == w.(sweep := Sweeping(w.clock, {r}, [r]))
  {
    assert Found(w) == {r} && (set x | x in [r]) == {r};
  }

  lemma SweepCloses<R>(w: World<R>)
    requires w.sweep.Sweeping? && w.sweep.todo == [] && REAPER !in w.calls
    ensures Step(w, SweepDone) == w.(sweep := Idle)
  {
  }

  lemma ReaperBegins<R>(w: World<R>, r: R)
    requires w.sweep.Sweeping? && w.sweep.todo == [r] && REAPER !in w.calls && r in w.s.vms && r in w.s.recs
    ensures var t := Step(w, NextExpired);
            && t.s == SetStatus(w.s, r, Stopping) && t.calls == w.calls[REAPER := DestroyTtyd(r)]
            && t.sweep == w.sweep.(todo := []) && t.clock == w.clock
  {
  }
}
