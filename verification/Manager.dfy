/** The registry as the program keeps it: record objects, a dictionary and a set of
    slots, changed in place. Each method is one stretch of an operation between two
    waits, proved against the registry as a value; what is waited for ends with an
    outcome given as a parameter. */
module Manager {
  import opened Basics
  import opened RegistrySpec

  class Record {
    const id: string
    const slot: nat
    const deadline: Option<nat>
    const hasVm: bool
    var status: Status
    var disk: bool               // the VM's disk or container
    ghost var failed: bool
    ghost var releases: nat

    constructor (id: string, slot: nat, deadline: Option<nat>, hasVm: bool)
      ensures this.id == id && this.slot == slot && this.deadline == deadline && this.hasVm == hasVm
      ensures status == Starting && !disk && AsRec() == Rec(slot, deadline, Starting, hasVm, false, false, 0)
    {
      this.id, this.slot, this.deadline, this.hasVm := id, slot, deadline, hasVm;
      status, disk, failed, releases := Starting, false, false, 0;
    }

    ghost function AsRec(): Rec
      reads this
    {
      Rec(slot, deadline, status, hasVm, disk, failed, releases)
    }
  }

  class Manager {
    const max: nat
    var vms: map<string, Record>
    var slots: set<nat>
    ghost var all: set<Record>       // every record ever made

    ghost predicate Valid()
      reads this
    {
      && vms.Values <= all
      && (forall id :: id in vms ==> vms[id].id == id)
      && (forall p, q :: p in all && q in all && p.id == q.id ==> p == q)
    }

    ghost function View(): State<Record>
      reads this, all
    {
      State(max, vms.Values, slots, map r | r in all :: r.AsRec())
    }

    constructor (max: nat)
      ensures Valid() && fresh(all) && View() == State(max, {}, {}, map[])
    {
      this.max := max;
      vms, slots, all := map[], {}, {};
    }

    // --- slots ---------------------------------------------------------------

    /** The lowest slot not in use, marked as used; none when all are. */
    method AllocSlot() returns (slot: Option<nat>)
      modifies `slots
      ensures slot == LowestFree(old(slots), 1, max)
      ensures slots == if slot.Some? then old(slots) + {slot.value} else old(slots)
    {
      var s := 1;
      while s <= max
        invariant 1 <= s && slots == old(slots)
        invariant LowestFree(slots, 1, max) == LowestFree(slots, s, max)
      {
        if s !in slots {
          slots := slots + {s};
          return Some(s);
        }
        s := s + 1;
      }
      return None;
    }

    // --- create --------------------------------------------------------------

    /** The limit check and the allocation, both under the lock. */
    method Reserve() returns (slot: Option<nat>)
      requires Valid()
      modifies `slots
      ensures Valid() && slot == NextSlot(old(View()))
      ensures View() == old(View()).(slots := if slot.Some? then old(slots) + {slot.value} else old(slots))
      ensures slots == (if slot.Some? then old(slots) + {slot.value} else old(slots))
      ensures slot.Some? ==> 1 <= slot.value <= max && slot.value !in old(slots)
    {
      hide LowestFree;
      ValuesAreKeys();
      if |vms| >= max {
        return None;
      }
      slot := AllocSlot();
    }

    /** Make a record holding `slot` and register it. */
    method Register(id: string, slot: nat, deadline: Option<nat>, hasVm: bool) returns (rec: Record)
      requires Valid() && forall r :: r in all ==> r.id != id
      modifies `vms, `all
      ensures Valid() && fresh(rec) && all == old(all) + {rec} && vms == old(vms)[id := rec]
      ensures rec.id == id && rec.slot == slot && rec.deadline == deadline && rec.hasVm == hasVm && rec.status == Starting
      ensures View() == Admit(old(View()), rec, slot, deadline, hasVm).(slots := slots)
    {
      rec := new Record(id, slot, deadline, hasVm);
      AddedValue(vms, id, rec);
      vms := vms[id := rec];
      all := all + {rec};
      assert View().recs == old(View()).recs[rec := rec.AsRec()];
    }

    method GiveBack(rec: Record)
      requires Valid() && rec in all
      modifies rec`releases, `slots
      ensures Valid() && View() == Release(old(View()), rec)
      ensures slots == old(slots) - {rec.slot}
    {
      rec.releases := rec.releases + 1;
      slots := slots - {rec.slot};
    }

    method MarkFailed(rec: Record)
      requires Valid() && rec in all
      modifies rec`status, rec`failed
      ensures Valid() && View() == Fail(old(View()), rec) && rec.status == Error
    {
      rec.status, rec.failed := Error, true;
    }

    method StopVm(rec: Record, removed: bool)
      requires Valid() && rec in all
      modifies rec`disk
      ensures Valid() && View() == Stop(old(View()), rec, removed) && rec.disk == (old(rec.disk) && !removed)
    {
      if removed {
        rec.disk := false;
      }
    }

    method Pop(rec: Record)
      requires Valid() && rec in all
      modifies `vms
      ensures Valid() && View() == old(View()).(vms := old(View()).vms - {rec}) && vms == old(vms) - {rec.id}
    {
      RemovedValue(vms, rec.id, rec);
      vms := vms - {rec.id};
    }

    /** Reserve a slot and register a new record under it. */
    method AdmitNew(id: string, deadline: Option<nat>, hasVm: bool) returns (rec: Record?)
      requires Valid() && forall r :: r in all ==> r.id != id
      modifies this
      ensures Valid()
      ensures rec == null <==> NextSlot(old(View())).None?
      ensures rec == null ==> View() == old(View())
      ensures rec != null ==> fresh(rec) && all == old(all) + {rec} && vms == old(vms)[id := rec]
      ensures rec != null ==>
                && rec.id == id && rec.deadline == deadline && rec.hasVm == hasVm && rec.status == Starting
                && 1 <= rec.slot <= max && rec.slot !in old(slots) && slots == old(slots) + {rec.slot}
                && Some(rec.slot) == NextSlot(old(View()))
                && View() == Admit(old(View()), rec, rec.slot, deadline, hasVm)
    {
      hide LowestFree, NextSlot;
      var slot := Reserve();
      if slot.None? {
        return null;
      }
      rec := Register(id, slot.value, deadline, hasVm);
    }

    /** Admit a playground: below the limit it gets the lowest free slot and is
        registered. Ids are never used twice. */
    method CreateBegin(id: string, now: nat, ttl: nat, hasVm: bool) returns (rec: Record?)
      requires Valid() && forall r :: r in all ==> r.id != id
      modifies this
      ensures Valid()
      ensures rec == null <==> NextSlot(old(View())).None?
      ensures rec == null ==> View() == old(View())
      ensures rec != null ==> fresh(rec) && all == old(all) + {rec} && vms == old(vms)[id := rec]
      ensures rec != null ==>
                forall w: World<Record>, c: CallId :: w.s == old(View()) && w.clock == now && c !in w.calls ==>
                  BeginCreate(w, c, rec, ttl, hasVm).s == View()
      ensures rec != null ==>
                && rec.id == id && rec.hasVm == hasVm && 1 <= rec.slot <= max && rec.slot !in old(slots)
                && (rec.deadline.None? <==> ttl == 0) && (ttl != 0 ==> rec.deadline == Some(now + ttl))
                && rec.status == (if hasVm then Starting else Error)
                && slots == (if hasVm then old(slots) + {rec.slot} else old(slots))
    {
      hide LowestFree, Release, Fail, NextSlot, Admit;
      var deadline := if ttl == 0 then None else Some(now + ttl);
      rec := AdmitNew(id, deadline, hasVm);
      if rec != null && !hasVm {
        MarkFailed(rec);
        GiveBack(rec);
      }
    }

    lemma ValuesAreKeys()
      requires Valid()
      ensures |vms.Values| == |vms|
    {
      OneValueEach(vms);
    }

    /** The VM's start ended. */
    method CreateStarted(rec: Record, ok: bool)
      requires Valid() && rec in all
      modifies rec
      ensures Valid() && View() == if ok then SetStatus(old(View()), rec, Running) else Fail(old(View()), rec)
      ensures rec.status == if ok then Running else Error
      ensures forall w: World<Record>, c: CallId ::
                w.s == old(View()) && c in w.calls && w.calls[c] == CreateStart(rec) ==> Resumed(w, c, ok).s == View()
    {
      if ok {
        rec.status := Running;
      } else {
        MarkFailed(rec);
      }
    }

    /** Starting the terminal server ended. */
    method CreateServed(rec: Record, ok: bool)
      requires Valid() && rec in all
      modifies rec
      ensures Valid() && View() == if ok then old(View()) else Fail(old(View()), rec)
      ensures rec.status == if ok then old(rec.status) else Error
      ensures forall w: World<Record>, c: CallId ::
                w.s == old(View()) && c in w.calls && w.calls[c] == CreateTtyd(rec) ==> Resumed(w, c, ok).s == View()
    {
      if !ok {
        MarkFailed(rec);
      }
    }

    /** The rollback's stop ended, and the slot is given back. */
    method CreateRolledBack(rec: Record, ok: bool)
      requires Valid() && rec in all
      modifies rec, `slots
      ensures Valid() && View() == Release(Stop(old(View()), rec, ok), rec)
      ensures slots == old(slots) - {rec.slot} && rec.disk == (old(rec.disk) && !ok)
      ensures forall w: World<Record>, c: CallId ::
                w.s == old(View()) && c in w.calls && w.calls[c] == CreateStop(rec) ==> Resumed(w, c, ok).s == View()
    {
      hide Release, Stop;
      StopVm(rec, ok);
      GiveBack(rec);
    }

    // --- suspend and resume --------------------------------------------------

    /** Only a running playground without a deadline is suspended. */
    method SuspendBegin(id: string) returns (rec: Record?)
      requires Valid()
      modifies vms.Values
      ensures Valid()
      ensures id in vms && vms[id].hasVm && old(vms[id].status) == Running && vms[id].deadline.None?
              <==> rec != null
      ensures rec == null ==> View() == old(View())
      ensures rec != null ==> rec == vms[id] && rec.status == Stopping && View() == SetStatus(old(View()), rec, Stopping)
      ensures forall w: World<Record>, c: CallId ::
                id in vms && w.s == old(View()) && c !in w.calls ==> BeginSuspend(w, c, vms[id]).s == View()
    {
      if id !in vms || !vms[id].hasVm || vms[id].status != Running || vms[id].deadline.Some? {
        return null;
      }
      rec := vms[id];
      rec.status := Stopping;
    }

    method SuspendEnd(rec: Record, ok: bool)
      requires Valid() && rec in all
      modifies rec
      ensures Valid() && View() == SetStatus(old(View()), rec, if ok then Stopped else Error)
      ensures rec.status == if ok then Stopped else Error
      ensures forall w: World<Record>, c: CallId ::
                w.s == old(View()) && c in w.calls && w.calls[c] == SuspendVm(rec) ==> Resumed(w, c, ok).s == View()
    {
      rec.status := if ok then Stopped else Error;
    }

    /** A playground that is not running is started again; a backend that looks for the
        disk first shows an error at once when it is gone. */
    method ResumeBegin(id: string, looks: bool) returns (rec: Record?)
      requires Valid()
      modifies vms.Values
      ensures Valid()
      ensures rec != null <==>
              id in vms && vms[id].hasVm && old(vms[id].status) != Running && (looks ==> vms[id].disk)
      ensures rec != null ==> rec == vms[id] && rec.status == Starting && View() == SetStatus(old(View()), rec, Starting)
      ensures rec == null ==>
                View() == if id in vms && vms[id].hasVm && old(vms[id].status) != Running
                          then SetStatus(old(View()), vms[id], Error) else old(View())
      ensures forall w: World<Record>, c: CallId ::
                id in vms && w.s == old(View()) && c !in w.calls ==> BeginResume(w, c, vms[id], looks).s == View()
    {
      if id !in vms || !vms[id].hasVm || vms[id].status == Running {
        return null;
      }
      if looks && !vms[id].disk {
        vms[id].status := Error;
        return null;
      }
      rec := vms[id];
      rec.status := Starting;
    }

    method ResumeEnd(rec: Record, ok: bool)
      requires Valid() && rec in all
      modifies rec
      ensures Valid() && View() == SetStatus(old(View()), rec, if ok then Running else Error)
      ensures rec.status == if ok then Running else Error
      ensures forall w: World<Record>, c: CallId ::
                w.s == old(View()) && c in w.calls && w.calls[c] == ResumeVm(rec) ==> Resumed(w, c, ok).s == View()
      ensures forall w: World<Record>, c: CallId ::
                w.s == old(View()) && c in w.calls && w.calls[c] == ResumeStart(rec) && !ok ==> Resumed(w, c, ok).s == View()
    {
      rec.status := if ok then Running else Error;
    }

    /** Starting the terminal server ended; when it failed, a VM that runs shows an error. */
    method ResumeServed(rec: Record, ok: bool)
      requires Valid() && rec in all
      modifies rec
      ensures Valid() && View() == if ok then old(View()) else SetStatus(old(View()), rec, Error)
      ensures rec.status == if ok then old(rec.status) else Error
      ensures forall w: World<Record>, c: CallId ::
                w.s == old(View()) && c in w.calls && w.calls[c] == ResumeTtyd(rec) ==> Resumed(w, c, ok).s == View()
    {
      if !ok {
        rec.status := Error;
      }
    }

    // --- destroy and sweep ---------------------------------------------------

    method DestroyBegin(id: string) returns (rec: Record?)
      requires Valid()
      modifies vms.Values
      ensures Valid()
      ensures rec != null <==> id in vms
      ensures rec == null ==> View() == old(View())
      ensures rec != null ==> rec == vms[id] && rec.status == Stopping && View() == SetStatus(old(View()), rec, Stopping)
      ensures forall w: World<Record>, c: CallId ::
                id in vms && w.s == old(View()) && c !in w.calls ==> BeginDestroy(w, c, vms[id]).s == View()
    {
      if id !in vms {
        return null;
      }
      rec := vms[id];
      rec.status := Stopping;
    }

    /** The VM has been stopped: the record goes, and its slot is given back, whether
        or not another destroy or a failed create has done either before. */
    method DestroyEnd(rec: Record, ok: bool)
      requires Valid() && rec in all
      modifies this, rec
      ensures Valid() && all == old(all)
      ensures View() == Unregister(Stop(old(View()), rec, ok), rec)
      ensures vms == old(vms) - {rec.id} && slots == old(slots) - {rec.slot} && rec.disk == (old(rec.disk) && !ok)
      ensures forall w: World<Record>, c: CallId ::
                w.s == old(View()) && c in w.calls && w.calls[c] == DestroyStop(rec) ==> Resumed(w, c, ok).s == View()
      ensures forall w: World<Record>, c: CallId ::
                w.s == old(View()) && c in w.calls && w.calls[c] == DestroyTtyd(rec) && !rec.hasVm && !ok
                ==> Resumed(w, c, ok).s == View()
    {
      hide Release, Stop;
      NotStopped(View(), rec);
      StopVm(rec, ok);
      Pop(rec);
      GiveBack(rec);
    }

    method MarkStopped(rec: Record)
      requires Valid() && rec in all && rec in vms.Values && rec.status == Running && rec.hasVm
      modifies rec`status
      ensures rec.status == Stopped
      ensures forall w: World<Record> :: w.s == old(View()) ==> Listed(w, rec).s == View()
    {
      rec.status := Stopped;
    }

    /** Listing: playgrounds whose VM has exited show as stopped, and nothing else changes. */
    method MarkExited(alive: Record -> bool)
      requires Valid()
      modifies vms.Values`status
      ensures Valid()
      ensures forall r :: r in all ==>
                r.status == if r in vms.Values && old(r.status) == Running && r.hasVm && !alive(r) then Stopped
                            else old(r.status)
      ensures exists found: seq<Action<Record>> ::
                && (forall i :: 0 <= i < |found| ==> found[i].FoundDead? && !alive(found[i].r))
                && Run(World(old(View()), map[], Idle, 0), found).s == View()
    {
      hide Listed, Run;
      NothingRun(World(View(), map[], Idle, 0));
      var todo := vms.Values;
      ghost var found: seq<Action<Record>> := [];
      ghost var w := World(View(), map[], Idle, 0);
      while todo != {}
        invariant todo <= vms.Values
        invariant forall i :: 0 <= i < |found| ==> found[i].FoundDead? && !alive(found[i].r)
        invariant Run(w, found).s == View()
        invariant forall r :: r in all ==>
                    r.status == if r in vms.Values - todo && old(r.status) == Running && r.hasVm && !alive(r)
                                then Stopped else old(r.status)
        decreases todo
      {
        var r :| r in todo;
        if r.status == Running && r.hasVm && !alive(r) {
          FoundOneMore(w, found, r);
          MarkStopped(r);
          found := found + [FoundDead(r)];
        }
        todo := todo - {r};
      }
    }

    /** What a sweep that reads the clock at `now` will destroy. */
    method FindExpired(now: nat) returns (expired: set<Record>)
      requires Valid()
      ensures expired == set r | r in vms.Values && Expired(View(), now, r)
    {
      expired := {};
      var todo := vms.Values;
      while todo != {}
        invariant todo <= vms.Values
        invariant expired == set r | r in vms.Values - todo && Expired(View(), now, r)
        decreases todo
      {
        var r :| r in todo;
        if r.deadline.Some? && now >= r.deadline.value {
          expired := expired + {r};
        }
        todo := todo - {r};
      }
    }
  }

  lemma NothingRun(w: World<Record>)
    ensures Run(w, []) == w
  {
  }

  lemma FoundOneMore(w: World<Record>, found: seq<Action<Record>>, r: Record)
    ensures Run(w, found + [FoundDead(r)]) == Listed(Run(w, found), r)
  {
    var more := found + [FoundDead(r)];
    assert more[..|found|] == found && more[|found|] == FoundDead(r);
  }

  lemma NotStopped(s: State<Record>, r: Record)
    requires r in s.recs
    ensures Stop(s, r, false) == s
  {
  }

  // ---------------------------------------------------------------------------
  // Dictionaries whose values name their own key

  lemma AddedValue(m: map<string, Record>, id: string, r: Record)
    requires id !in m
    ensures m[id := r].Values == m.Values + {r}
  {
    var m' := m[id := r];
    assert id in m' && m'[id] == r;
    assert forall k :: k in m ==> k in m' && m'[k] == m[k];
  }

  lemma RemovedValue(m: map<string, Record>, id: string, r: Record)
    requires forall k :: k in m ==> m[k].id == k
    requires r.id == id && (id in m ==> m[id] == r)
    ensures (m - {id}).Values == m.Values - {r}
  {
    var m' := m - {id};
    forall v | v in m.Values - {r} ensures v in m'.Values {
      var k :| k in m && m[k] == v;
      assert k in m' && m'[k] == v;
    }
  }

  lemma {:induction false} OneValueEach(m: map<string, Record>)
    requires forall k :: k in m ==> m[k].id == k
    ensures |m.Values| == |m|
    decreases |m|
  {
    if m != map[] {
      var id :| id in m;
      RemovedValue(m, id, m[id]);
      OneValueEach(m - {id});
      assert |m - {id}| == |m| - 1 by {
        assert (m - {id}).Keys == m.Keys - {id};
      }
    }
  }
}
