/** Runs of the registry in which two playgrounds come to share a slot. */
module SlotExamples {
  import opened Basics
  import opened RegistrySpec
  import SlotSafety

  datatype Name = First | Second | Third

  type W = World<Name>

  /** Both are registered, neither has given its slot back, and the slot is the same. */
  predicate ShareSlot(w: W, p: Name, q: Name) {
    && {p, q} <= w.s.vms * w.s.recs.Keys && p != q
    && w.s.recs[p].releases == 0 && w.s.recs[q].releases == 0
    && w.s.recs[p].slot == w.s.recs[q].slot
  }

  /** Some run of a registry for three playgrounds ends in `w`. */
  ghost predicate Reachable(w: W) {
    exists actions: seq<Action<Name>> :: Run(Init(3), actions) == w
  }

  lemma StartReachable() returns (w: W)
    ensures Reachable(w) && w == Init(3)
  {
    w := Init(3);
    assert Run(Init(3), []) == w;
  }

  lemma Reach(w: W, a: Action<Name>) returns (w': W)
    requires Reachable(w)
    ensures w' == Step(w, a) && Reachable(w')
  {
    var actions: seq<Action<Name>> :| Run(Init(3), actions) == w;
    assert (actions + [a])[..|actions|] == actions;
    w' := Step(w, a);
    assert Run(Init(3), actions + [a]) == w';
  }

  /** The registry holds exactly these records, registered ones and slots in use. */
  predicate Holds(w: W, recs: set<Name>, vms: set<Name>, slots: set<nat>) {
    w.s.max == 3 && w.s.recs.Keys == recs && w.s.vms == vms && w.s.slots == slots
  }

  lemma SlotOneNext(w: W)
    requires w.s.max == 3 && |w.s.vms| < 3 && 1 !in w.s.slots
    ensures NextSlot(w.s) == Some(1)
  {
    assert LowestFree(w.s.slots, 1, 3) == Some(1);
  }

  /** A create gets slot 1 whenever that is free. */
  lemma GetsSlotOne(w: W, c: CallId, r: Name) returns (w': W)
    requires Reachable(w) && w.s.max == 3 && |w.s.vms| < 3 && 1 !in w.s.slots
    requires c != REAPER && c !in w.calls && r !in w.s.recs
    ensures Reachable(w') && Holds(w', w.s.recs.Keys + {r}, w.s.vms + {r}, w.s.slots + {1})
    ensures w'.s.recs == w.s.recs[r := Rec(1, None, Starting, true, false, false, 0)]
    ensures w'.calls == w.calls[c := CreateStart(r)]
  {
    hide Reachable, NextSlot, LowestFree, Run;
    SlotOneNext(w);
    w' := Reach(w, Create(c, r, 0, true));
  }

  /** One without a VM object fails in the same step and gives slot 1 back. */
  lemma FailsAtOnce(w: W, c: CallId, r: Name) returns (w': W)
    requires Reachable(w) && w.s.max == 3 && |w.s.vms| < 3 && 1 !in w.s.slots
    requires c != REAPER && c !in w.calls && r !in w.s.recs
    ensures Reachable(w') && Holds(w', w.s.recs.Keys + {r}, w.s.vms + {r}, w.s.slots)
    ensures w'.s.recs == w.s.recs[r := Rec(1, None, Error, false, false, true, 1)]
    ensures w'.calls == w.calls
  {
    hide Reachable, NextSlot, LowestFree, Run;
    SlotOneNext(w);
    w' := Reach(w, Create(c, r, 0, false));
    RolledBackAtOnce(w.s, r, 1);
    assert w' == w.(s := Release(Fail(Admit(w.s, r, 1, None, false), r), r));
  }

  lemma RolledBackAtOnce(s: State<Name>, r: Name, slot: nat)
    requires r !in s.recs && slot !in s.slots
    ensures var s' := Release(Fail(Admit(s, r, slot, None, false), r), r);
            && s'.max == s.max && s'.vms == s.vms + {r} && s'.slots == s.slots
            && s'.recs == s.recs[r := Rec(slot, None, Error, false, false, true, 1)]
  {
  }

  lemma DestroyBegins(w: W, c: CallId, r: Name) returns (w': W)
    requires Reachable(w) && c != REAPER && c !in w.calls && r in w.s.recs && r in w.s.vms
    ensures Reachable(w')
    ensures w'.s == w.s.(recs := w.s.recs[r := w.s.recs[r].(status := Stopping)])
    ensures w'.calls == w.calls[c := DestroyTtyd(r)]
  {
    hide Reachable;
    w' := Reach(w, Destroy(c, r));
  }

  lemma DestroyEnds(w: W, c: CallId, r: Name) returns (w': W)
    requires Reachable(w) && c in w.calls && r in w.s.recs && w.calls[c] == DestroyTtyd(r)
    ensures var rec := w.s.recs[r];
            && Reachable(w') && w'.s.max == w.s.max && w'.calls == w.calls - {c}
            && w'.s.vms == w.s.vms - {r} && w'.s.slots == w.s.slots - {rec.slot}
            && r in w'.s.recs && w'.s.recs == w.s.recs[r := w'.s.recs[r]]
            && w'.s.recs[r].slot == rec.slot && w'.s.recs[r].hasVm == rec.hasVm
  {
    hide Reachable;
    w' := w;
    if w.s.recs[r].hasVm {
      w' := Reach(w', Continue(c, true));
      assert w' == w.(calls := w.calls[c := DestroyStop(r)]);
    }
    w' := Reach(w', Continue(c, true));
  }

  /** Destroying a create that failed gives its slot back a second time, by then
      perhaps somebody else's: the first fails and gives slot 1 back, the second gets
      it, destroying the first frees it under the second, and the third gets it too. */
  lemma DestroyOfFailedCreateShares()
    ensures exists w :: Reachable(w) && ShareSlot(w, Second, Third)
  {
    hide Reachable, Step, Run, LowestFree;
    var w := SecondTakesOver();
    w := DestroyBegins(w, 2, First);
    w := DestroyEnds(w, 2, First);
    w := GetsSlotOne(w, 3, Third);
    assert ShareSlot(w, Second, Third);
  }

  lemma SecondTakesOver() returns (w: W)
    ensures Reachable(w) && Holds(w, {First, Second}, {First, Second}, {1})
    ensures w.calls == map[1 := CreateStart(Second)]
    ensures w.s.recs[First] == Rec(1, None, Error, false, false, true, 1)
    ensures w.s.recs[Second] == Rec(1, None, Starting, true, false, false, 0)
  {
    hide Reachable, Step, Run, LowestFree;
    w := StartReachable();
    w := FailsAtOnce(w, 1, First);
    w := GetsSlotOne(w, 1, Second);
  }

  /** Two overlapping destroys of one playground do the same: the later one gives slot
      1 back after the second playground has got it, and the third gets it too. */
  lemma OverlappingDestroysShare()
    ensures exists w :: Reachable(w) && ShareSlot(w, Second, Third)
  {
    hide Reachable, Step, Run;
    var w := FirstOfTwoDestroysEnds();
    w := SecondDestroyEnds(w);
    w := GetsSlotOne(w, 5, Third);
    assert ShareSlot(w, Second, Third);
  }

  lemma FirstOfTwoDestroysEnds() returns (w: W)
    ensures Reachable(w) && Holds(w, {First}, {}, {}) && w.s.recs[First].slot == 1
    ensures w.calls == map[1 := CreateStart(First), 3 := DestroyTtyd(First)]
  {
    hide Reachable, Step, Run, LowestFree;
    w := StartReachable();
    w := GetsSlotOne(w, 1, First);
    w := DestroyBegins(w, 2, First);
    w := DestroyBegins(w, 3, First);
    w := DestroyEnds(w, 2, First);
  }

  lemma SecondDestroyEnds(w: W) returns (w': W)
    requires Reachable(w) && Holds(w, {First}, {}, {}) && w.s.recs[First].slot == 1
    requires w.calls == map[1 := CreateStart(First), 3 := DestroyTtyd(First)]
    ensures Reachable(w') && Holds(w', {First, Second}, {Second}, {})
    ensures w'.calls == map[1 := CreateStart(First), 4 := CreateStart(Second)]
    ensures w'.s.recs[Second].slot == 1 && w'.s.recs[Second].releases == 0
  {
    hide Reachable, Step, Run, LowestFree;
    w' := GetsSlotOne(w, 4, Second);
    w' := DestroyEnds(w', 3, First);
  }

  /** Destroying a playground whose create is still in flight and later fails does it
      too: the destroy gives slot 1 back, the second gets it, the rollback of the first
      frees it under the second, and the third gets it too. */
  lemma DestroyDuringFailedCreateShares()
    ensures exists w :: Reachable(w) && ShareSlot(w, Second, Third)
  {
    hide Reachable, Step, Run, LowestFree;
    var w := SecondAfterDestroyedCreate();
    w := CreateFails(w, 1, First);
    w := RollbackEnds(w, 1, First);
    w := GetsSlotOne(w, 4, Third);
    assert ShareSlot(w, Second, Third);
  }

  lemma SecondAfterDestroyedCreate() returns (w: W)
    ensures Reachable(w) && Holds(w, {First, Second}, {Second}, {1})
    ensures w.calls == map[1 := CreateStart(First), 3 := CreateStart(Second)]
    ensures w.s.recs[First].slot == 1 && w.s.recs[Second] == Rec(1, None, Starting, true, false, false, 0)
  {
    hide Reachable, Step, Run, LowestFree;
    w := StartReachable();
    w := GetsSlotOne(w, 1, First);
    w := DestroyBegins(w, 2, First);
    w := DestroyEnds(w, 2, First);
    w := GetsSlotOne(w, 3, Second);
  }

  lemma CreateFails(w: W, c: CallId, r: Name) returns (w': W)
    requires Reachable(w) && c in w.calls && r in w.s.recs && w.calls[c] == CreateStart(r)
    ensures Reachable(w') && w'.calls == w.calls[c := CreateStop(r)]
    ensures w'.s == w.s.(recs := w.s.recs[r := w.s.recs[r].(status := Error, failed := true)])
  {
    hide Reachable;
    w' := Reach(w, Continue(c, false));
  }

  lemma RollbackEnds(w: W, c: CallId, r: Name) returns (w': W)
    requires Reachable(w) && c in w.calls && r in w.s.recs && w.calls[c] == CreateStop(r)
    ensures Reachable(w') && w'.calls == w.calls - {c}
    ensures w'.s.max == w.s.max && w'.s.vms == w.s.vms && w'.s.slots == w.s.slots - {w.s.recs[r].slot}
    ensures r in w'.s.recs && w'.s.recs == w.s.recs[r := w'.s.recs[r]]
  {
    hide Reachable;
    w' := Reach(w, Continue(c, true));
  }

  /** A whole destroy during a create that then succeeds leaves a playground that runs,
      has its disk, is registered nowhere and holds no slot. */
  lemma DestroyDuringCreateLeaks()
    ensures exists w: W :: Reachable(w) && First in w.s.recs && w.s.recs[First].status == Running
                           && w.s.recs[First].disk && First !in w.s.vms && w.s.slots == {}
  {
    hide Reachable, Step, Run, LowestFree;
    var w := StartReachable();
    w := GetsSlotOne(w, 1, First);
    w := DestroyBegins(w, 2, First);
    w := DestroyEnds(w, 2, First);
    w := StartsWithDisk(w, 1, First);
  }

  lemma StartsWithDisk(w: W, c: CallId, r: Name) returns (w': W)
    requires Reachable(w) && c in w.calls && r in w.s.recs && w.calls[c] == CreateStart(r)
    ensures Reachable(w') && w'.s == w.s.(recs := w.s.recs[r := w.s.recs[r].(status := Running, disk := true)])
  {
    hide Reachable;
    w' := Reach(w, Provision(c));
    w' := Reach(w', Continue(c, true));
  }

  /** Both are registered and run, on one slot. */
  predicate RunningShare(w: W, p: Name, q: Name) {
    && {p, q} <= w.s.vms * w.s.recs.Keys && p != q
    && w.s.recs[p].status == Running && w.s.recs[q].status == Running
    && w.s.recs[p].slot == w.s.recs[q].slot
  }

  /** Without any destroy, and with slots exclusive among the records that have not given
      theirs back: a create fails and its rollback cannot remove the disk, the failed
      playground is resumed, and the next one created gets the slot given back. */
  lemma ResumedFailureSharesRunning()
    ensures exists w :: Reachable(w) && RunningShare(w, First, Second) && SlotSafety.Exclusive(w.s)
                        && w.s.recs[First].releases == 1
  {
    hide Reachable, Step, Run, LowestFree, SlotSafety.Exclusive;
    var w := FailureRunsAgain();
    w := GetsSlotOne(w, 3, Second);
    w := StartsWithDisk(w, 3, Second);
    OnlyOneHolds(w, Second, 1);
    assert RunningShare(w, First, Second);
  }

  lemma OnlyOneHolds(w: W, r: Name, slot: nat)
    requires r in w.s.recs && w.s.recs[r].slot == slot && w.s.recs[r].releases == 0 && w.s.slots == {slot}
    requires forall q :: q in w.s.recs && q != r ==> w.s.recs[q].releases > 0
    ensures SlotSafety.Exclusive(w.s)
  {
    assert r in SlotSafety.Unreleased(w.s);
  }

  lemma FailureRunsAgain() returns (w: W)
    ensures Reachable(w) && Holds(w, {First}, {First}, {}) && w.calls == map[2 := ResumeTtyd(First)]
    ensures w.s.recs[First] == Rec(1, None, Running, true, true, true, 1)
  {
    hide Reachable, Step, Run, LowestFree;
    w := FailedWithDisk();
    w := Resumes(w, 2, First);
  }

  /** First failed after its disk was made, and its slot was given back. */
  lemma FailedWithDisk() returns (w: W)
    ensures Reachable(w) && Holds(w, {First}, {First}, {}) && w.calls == map[]
    ensures w.s.recs[First] == Rec(1, None, Error, true, true, true, 1)
  {
    hide Reachable, Step, Run, LowestFree;
    w := StartReachable();
    w := GetsSlotOne(w, 1, First);
    w := GetsDisk(w, 1, First);
    w := CreateFails(w, 1, First);
    w := RollbackFails(w, 1, First);
  }

  lemma GetsDisk(w: W, c: CallId, r: Name) returns (w': W)
    requires Reachable(w) && c in w.calls && r in w.s.recs && w.calls[c] == CreateStart(r)
    ensures Reachable(w') && w'.calls == w.calls && w'.s == w.s.(recs := w.s.recs[r := w.s.recs[r].(disk := true)])
  {
    hide Reachable;
    w' := Reach(w, Provision(c));
  }

  /** The stop of a rollback cannot remove the disk; the slot is given back all the same. */
  lemma RollbackFails(w: W, c: CallId, r: Name) returns (w': W)
    requires Reachable(w) && c in w.calls && r in w.s.recs && w.calls[c] == CreateStop(r)
    ensures Reachable(w') && w'.calls == w.calls - {c}
    ensures w'.s == Release(w.s, r)
  {
    hide Reachable, Release;
    w' := Reach(w, Continue(c, false));
  }

  lemma Resumes(w: W, c: CallId, r: Name) returns (w': W)
    requires Reachable(w) && c != REAPER && c !in w.calls && r in w.s.recs && r in w.s.vms
    requires w.s.recs[r].hasVm && w.s.recs[r].status == Error && w.s.recs[r].disk
    ensures Reachable(w') && w'.s == w.s.(recs := w.s.recs[r := w.s.recs[r].(status := Running)])
    ensures w'.calls == w.calls[c := ResumeTtyd(r)]
  {
    hide Reachable;
    w' := Reach(w, Resume(c, r, true));
    w' := Reach(w', Continue(c, true));
  }
}
