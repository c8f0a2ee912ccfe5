/** Deadlines, sweeps and failed creates over every interleaving. */
module Lifecycle {
  import opened Basics
  import opened RegistrySpec

  // ---------------------------------------------------------------------------
  // What every step keeps

  predicate Creating<R>(at: Wait<R>) {
    at.CreateStart? || at.CreateTtyd? || at.CreateStop?
  }

  predicate Suspending<R>(at: Wait<R>) {
    at.SuspendTtyd? || at.SuspendVm?
  }

  predicate Overdue<R>(s: State<R>, r: R, now: nat) {
    r in s.recs && s.recs[r].deadline.Some? && s.recs[r].deadline.value <= now
  }

  ghost predicate CallsOk<R>(w: World<R>) {
    && w.s.vms <= w.s.recs.Keys
    && (forall c :: c in w.calls ==> w.calls[c].r in w.s.recs)
    && (forall c :: c in w.calls && Suspending(w.calls[c]) ==> w.s.recs[w.calls[c].r].deadline.None?)
    && (forall c :: c in w.calls && w.calls[c].CreateStop? ==> w.s.recs[w.calls[c].r].failed)
    && (forall c, d :: c in w.calls && d in w.calls && c != d && Creating(w.calls[c]) && Creating(w.calls[d])
                       ==> w.calls[c].r != w.calls[d].r)
  }

  /** What a sweep found expired is gone, being destroyed, or still on its list; and
      everything overdue at the time it read the clock was found. */
  ghost predicate SweepOk<R>(w: World<R>) {
    && (REAPER in w.calls ==>
          w.sweep.Sweeping? && (w.calls[REAPER].DestroyTtyd? || w.calls[REAPER].DestroyStop?)
          && w.calls[REAPER].r in w.sweep.found)
    && (w.sweep.Sweeping? ==>
          && w.sweep.now <= w.clock
          && (forall r :: r in w.sweep.found ==> Overdue(w.s, r, w.sweep.now))
          && (forall r :: r in w.sweep.todo ==> r in w.sweep.found)
          && (forall r :: r in w.s.vms && Overdue(w.s, r, w.sweep.now) ==> r in w.sweep.found)
          && (forall r :: r in w.sweep.found && r in w.s.vms ==>
                r in w.sweep.todo || (REAPER in w.calls && w.calls[REAPER].r == r)))
  }

  /** Existing records keep their deadline and their place in history. */
  predicate RecordsKept<R>(s: State<R>, s': State<R>) {
    && s.recs.Keys <= s'.recs.Keys
    && (forall r :: r in s.recs ==>
          s'.recs[r].deadline == s.recs[r].deadline && (s.recs[r].failed ==> s'.recs[r].failed))
    && s'.vms <= s'.recs.Keys
  }

  /** Only call `c` moved, and if it is still there it stays with its record. */
  predicate OnlyCall<R>(w: World<R>, w': World<R>, c: CallId) {
    && w'.sweep == w.sweep && w'.clock == w.clock
    && (forall d :: d in w'.calls && d != c ==> d in w.calls)
    && (forall d :: d in w.calls && d != c ==> d in w'.calls && w'.calls[d] == w.calls[d])
  }

  /** How the wait of a call may change when it moves on. */
  predicate MovesOn<R>(s: State<R>, at: Wait<R>, at': Wait<R>)
    requires at'.r in s.recs
  {
    && at'.r == at.r
    && (Creating(at') ==> Creating(at))
    && (Suspending(at') ==> Suspending(at))
    && (at'.CreateStop? ==> s.recs[at.r].failed)
    && (at.DestroyTtyd? || at.DestroyStop? ==> at'.DestroyStop?)
  }

  lemma ResumedMoves<R>(w: World<R>, c: CallId, ok: bool)
    requires w.s.vms <= w.s.recs.Keys && c in w.calls && w.calls[c].r in w.s.recs
    ensures var w' := Resumed(w, c, ok);
            && OnlyCall(w, w', c) && RecordsKept(w.s, w'.s) && w'.s.vms <= w.s.vms
            && (c in w'.calls ==> w'.calls[c].r in w'.s.recs && MovesOn(w'.s, w.calls[c], w'.calls[c]))
            && (c !in w'.calls && (w.calls[c].DestroyTtyd? || w.calls[c].DestroyStop?)
                ==> w.calls[c].r !in w'.s.vms)
  {
    hide Resumed, MovesOn, RecordsKept, OnlyCall;
    ResumedKeepsRecords(w, c, ok);
    ResumedMovesOn(w, c, ok);
  }

  lemma ResumedKeepsRecords<R>(w: World<R>, c: CallId, ok: bool)
    requires w.s.vms <= w.s.recs.Keys && c in w.calls && w.calls[c].r in w.s.recs
    ensures var w' := Resumed(w, c, ok);
            OnlyCall(w, w', c) && RecordsKept(w.s, w'.s) && w'.s.vms <= w.s.vms
  {
  }

  lemma ResumedMovesOn<R>(w: World<R>, c: CallId, ok: bool)
    requires c in w.calls && w.calls[c].r in w.s.recs
    ensures var w' := Resumed(w, c, ok);
            && (c in w'.calls ==> w'.calls[c].r in w'.s.recs && MovesOn(w'.s, w.calls[c], w'.calls[c]))
            && (c !in w'.calls && (w.calls[c].DestroyTtyd? || w.calls[c].DestroyStop?)
                ==> w.calls[c].r !in w'.s.vms)
  {
  }

  lemma MovedCallsOk<R>(w: World<R>, w': World<R>, c: CallId)
    requires CallsOk(w) && c in w.calls && OnlyCall(w, w', c) && RecordsKept(w.s, w'.s)
    requires c in w'.calls ==> w'.calls[c].r in w'.s.recs && MovesOn(w'.s, w.calls[c], w'.calls[c])
    ensures CallsOk(w')
  {
    assert forall d :: d in w'.calls && d != c ==> d in w.calls && w'.calls[d] == w.calls[d];
  }

  lemma ResumedKeeps<R>(w: World<R>, c: CallId, ok: bool)
    requires CallsOk(w) && SweepOk(w) && c in w.calls
    ensures var w' := Resumed(w, c, ok);
            CallsOk(w') && SweepOk(w') && RecordsKept(w.s, w'.s)
  {
    hide Resumed;
    ResumedMoves(w, c, ok);
    MovedCallsOk(w, Resumed(w, c, ok), c);
    assert c != REAPER ==> (REAPER in Resumed(w, c, ok).calls <==> REAPER in w.calls);
  }

  /** A call that begins: on a known record, not suspending one with a deadline,
      and creating only a new one. */
  predicate Begins<R>(w: World<R>, w': World<R>, c: CallId) {
    && c !in w.calls && c != REAPER && OnlyCall(w, w', c) && RecordsKept(w.s, w'.s)
    && (forall r :: r in w'.s.vms && r !in w.s.vms ==>
            w'.s.recs[r].deadline.None? || w'.s.recs[r].deadline.value > w.clock)
    && (c in w'.calls ==>
          var at := w'.calls[c];
          && at.r in w'.s.recs
          && (Creating(at) ==> at.CreateStart? && at.r !in w.s.recs)
          && (Suspending(at) ==> w'.s.recs[at.r].deadline.None?))
  }

  lemma CreateBegins<R>(w: World<R>, a: Action<R>)
    requires w.s.vms <= w.s.recs.Keys && a.Create?
    ensures Step(w, a) == w || Begins(w, Step(w, a), a.c)
  {
    hide NextSlot;
  }

  lemma CallBegins<R>(w: World<R>, a: Action<R>)
    requires w.s.vms <= w.s.recs.Keys && (a.Suspend? || a.Resume? || a.Destroy?)
    ensures Step(w, a) == w || Begins(w, Step(w, a), a.c)
  {
  }

  lemma BegunKeeps<R>(w: World<R>, w': World<R>, c: CallId)
    requires CallsOk(w) && SweepOk(w) && Begins(w, w', c)
    ensures CallsOk(w') && SweepOk(w')
  {
    assert forall d :: d in w'.calls && d != c ==> d in w.calls && w'.calls[d] == w.calls[d];
    assert REAPER in w'.calls <==> REAPER in w.calls;
  }

  lemma RecordStepKeeps<R>(w: World<R>, a: Action<R>)
    requires CallsOk(w) && SweepOk(w) && (a.Provision? || a.FoundDead?)
    ensures CallsOk(Step(w, a)) && SweepOk(Step(w, a)) && RecordsKept(w.s, Step(w, a).s)
  {
    hide CallsOk, SweepOk;
    Registered(w);
    KnownTraitsKeep(w, Step(w, a));
  }

  /** A step that leaves calls, sweep, clock and registrations as they are, and of the
      records their deadline and whether their create failed. */
  lemma KnownTraitsKeep<R>(w: World<R>, w': World<R>)
    requires CallsOk(w) && SweepOk(w)
    requires w'.calls == w.calls && w'.sweep == w.sweep && w'.clock == w.clock
    requires w'.s.vms == w.s.vms && w'.s.recs.Keys == w.s.recs.Keys
    requires forall r :: r in w.s.recs ==>
               w'.s.recs[r].deadline == w.s.recs[r].deadline && w'.s.recs[r].failed == w.s.recs[r].failed
    ensures CallsOk(w') && SweepOk(w') && RecordsKept(w.s, w'.s)
  {
  }

  lemma CallStepKeeps<R>(w: World<R>, a: Action<R>)
    requires CallsOk(w) && SweepOk(w) && (a.Cancel? || a.DiskFound?)
    ensures CallsOk(Step(w, a)) && SweepOk(Step(w, a)) && RecordsKept(w.s, Step(w, a).s)
  {
    hide CallsOk, SweepOk;
    if a.Cancel? {
      CancelKeeps(w, a);
    } else {
      DiskFoundKeeps(w, a);
    }
    Unchanged(w) by {
      assert w.s.vms <= w.s.recs.Keys by { Registered(w); }
    }
  }

  lemma Registered<R>(w: World<R>)
    requires CallsOk(w)
    ensures w.s.vms <= w.s.recs.Keys
  {
  }

  lemma CancelKeeps<R>(w: World<R>, a: Action<R>)
    requires CallsOk(w) && SweepOk(w) && a.Cancel?
    ensures CallsOk(Step(w, a)) && SweepOk(Step(w, a)) && Step(w, a).s == w.s
  {
  }

  lemma DiskFoundKeeps<R>(w: World<R>, a: Action<R>)
    requires CallsOk(w) && SweepOk(w) && a.DiskFound?
    ensures CallsOk(Step(w, a)) && SweepOk(Step(w, a)) && Step(w, a).s == w.s
  {
    hide CallsOk, SweepOk, Step;
    DiskFoundCalls(w, a);
    DiskFoundSweep(w, a);
  }

  lemma DiskFoundCalls<R>(w: World<R>, a: Action<R>)
    requires CallsOk(w) && a.DiskFound?
    ensures CallsOk(Step(w, a)) && Step(w, a).s == w.s
  {
  }

  lemma DiskFoundSweep<R>(w: World<R>, a: Action<R>)
    requires SweepOk(w) && a.DiskFound?
    ensures SweepOk(Step(w, a))
  {
  }

  lemma ClockStepKeeps<R>(w: World<R>, a: Action<R>)
    requires CallsOk(w) && SweepOk(w)
    requires a.Tick? || a.Wake? || a.SweepDone?
    ensures CallsOk(Step(w, a)) && SweepOk(Step(w, a)) && RecordsKept(w.s, Step(w, a).s)
  {
  }

  lemma SweepNextKeeps<R>(w: World<R>)
    requires CallsOk(w) && SweepOk(w)
    ensures CallsOk(SweepNext(w)) && SweepOk(SweepNext(w)) && RecordsKept(w.s, SweepNext(w).s)
  {
    hide CallsOk, SweepOk, RecordsKept, SweepNext;
    Registered(w);
    SweepNextKeepsCalls(w);
    SweepNextKeepsSweep(w);
  }

  lemma SweepNextKeepsCalls<R>(w: World<R>)
    requires CallsOk(w)
    ensures CallsOk(SweepNext(w)) && RecordsKept(w.s, SweepNext(w).s)
  {
  }

  lemma SweepNextKeepsSweep<R>(w: World<R>)
    requires w.s.vms <= w.s.recs.Keys && SweepOk(w)
    ensures SweepOk(SweepNext(w))
  {
  }

  lemma StepKeeps<R>(w: World<R>, a: Action<R>)
    requires CallsOk(w) && SweepOk(w)
    ensures CallsOk(Step(w, a)) && SweepOk(Step(w, a)) && RecordsKept(w.s, Step(w, a).s)
  {
    hide SweepOk, RecordsKept, NextSlot;
    if a.Continue? {
      if a.c in w.calls {
        ResumedKeeps(w, a.c, a.ok);
      } else {
        Unchanged(w);
      }
    } else if a.NextExpired? {
      SweepNextKeeps(w);
    } else if a.Create? || a.Suspend? || a.Resume? || a.Destroy? {
      if a.Create? {
        CreateBegins(w, a);
      } else {
        CallBegins(w, a);
      }
      if Step(w, a) != w {
        BegunKeeps(w, Step(w, a), a.c);
      }
      Unchanged(w);
    } else if a.Tick? || a.Wake? || a.SweepDone? {
      ClockStepKeeps(w, a);
    } else if a.Cancel? || a.DiskFound? {
      CallStepKeeps(w, a);
    } else {
      RecordStepKeeps(w, a);
    }
  }

  lemma Unchanged<R>(w: World<R>)
    requires w.s.vms <= w.s.recs.Keys
    ensures RecordsKept(w.s, w.s)
  {
  }

  lemma {:induction false} RunKeeps<R>(max: nat, actions: seq<Action<R>>)
    ensures CallsOk(Run(Init(max), actions)) && SweepOk(Run(Init(max), actions))
  {
    hide Step, RecordsKept;
    if actions != [] {
      RunKeeps(max, actions[..|actions| - 1]);
      StepKeeps(Run(Init(max), actions[..|actions| - 1]), actions[|actions| - 1]);
    }
  }

  // ---------------------------------------------------------------------------
  // Sweeps

  /** In every run, a sweep that is done has left nothing registered that was
      overdue when it read the clock. */
  lemma SweepLeavesNothingOverdue<R>(max: nat, actions: seq<Action<R>>)
    ensures var w := Run(Init(max), actions);
            SweepFinished(w) ==> forall r :: r in w.s.vms ==> !Overdue(w.s, r, w.sweep.now)
  {
    RunKeeps(max, actions);
  }

  /** And what a sweep destroys was overdue when it read the clock, never a playground
      without a deadline, whatever happened to the record since. */
  lemma SweepDestroysOnlyOverdue<R>(max: nat, actions: seq<Action<R>>)
    ensures var w := Run(Init(max), actions);
            REAPER in w.calls ==> w.sweep.Sweeping? && Overdue(w.s, w.calls[REAPER].r, w.sweep.now)
  {
    RunKeeps(max, actions);
  }

  /** Only playgrounds without a deadline are ever being suspended, so no sweep can
      hold a suspended one against its time. */
  lemma SuspendedHasNoDeadline<R>(max: nat, actions: seq<Action<R>>, c: CallId)
    ensures var w := Run(Init(max), actions);
            c in w.calls && Suspending(w.calls[c]) ==>
              && w.calls[c].r in w.s.recs && w.s.recs[w.calls[c].r].deadline.None?
              && (w.sweep.Sweeping? ==> w.calls[c].r !in w.sweep.found)
  {
    RunKeeps(max, actions);
  }

  // ---------------------------------------------------------------------------
  // Deadlines as the caller set them

  /** The time that passes in a run. */
  function Elapsed<R>(actions: seq<Action<R>>): nat {
    if actions == [] then 0
    else
      var last := actions[|actions| - 1];
      Elapsed(actions[..|actions| - 1]) + if last.Tick? then last.elapsed else 0
  }

  lemma {:induction false} ClockIsElapsed<R>(w: World<R>, actions: seq<Action<R>>)
    ensures Run(w, actions).clock == w.clock + Elapsed(actions)
  {
    hide Step;
    if actions != [] {
      ClockIsElapsed(w, actions[..|actions| - 1]);
      StepClock(Run(w, actions[..|actions| - 1]), actions[|actions| - 1]);
    }
  }

  lemma StepClock<R>(w: World<R>, a: Action<R>)
    ensures Step(w, a).clock == w.clock + if a.Tick? then a.elapsed else 0
  {
    hide NextSlot;
  }

  /** A run after a run. */
  lemma {:induction false} RunJoins<R>(w: World<R>, a: seq<Action<R>>, b: seq<Action<R>>)
    ensures Run(w, a + b) == Run(Run(w, a), b)
  {
    hide Step;
    if b == [] {
      assert a + b == a;
    } else {
      var n := |b| - 1;
      assert (a + b)[..|a| + n] == a + b[..n] && (a + b)[|a| + n] == b[n];
      RunJoins(w, a, b[..n]);
    }
  }

  lemma {:induction false} DeadlinesKept<R>(w: World<R>, actions: seq<Action<R>>, r: R)
    requires CallsOk(w) && SweepOk(w) && r in w.s.recs
    ensures var t := Run(w, actions);
            CallsOk(t) && SweepOk(t) && r in t.s.recs && t.s.recs[r].deadline == w.s.recs[r].deadline
  {
    hide Step, CallsOk, SweepOk;
    if actions != [] {
      var front := actions[..|actions| - 1];
      DeadlinesKept(w, front, r);
      StepKeeps(Run(w, front), actions[|actions| - 1]);
    }
  }

  /** A create is admitted by this step and makes this record. */
  ghost predicate Creates<R>(w: World<R>, a: Action<R>, r: R) {
    a.Create? && a.r == r && r !in w.s.recs && r in Step(w, a).s.recs
  }

  lemma CreatedDeadline<R>(w: World<R>, a: Action<R>, r: R)
    requires Creates(w, a, r)
    ensures Step(w, a).s.recs[r].deadline == if a.ttl == 0 then None else Some(w.clock + a.ttl)
  {
    hide NextSlot;
  }

  /** A playground created after `before` with time to live `ttl`, seconds, has for ever
      after a deadline that much later, or none when `ttl` is 0. */
  lemma DeadlineAsAsked<R>(max: nat, before: seq<Action<R>>, a: Action<R>, r: R, after: seq<Action<R>>)
    requires Creates(Run(Init(max), before), a, r)
    ensures var t := Run(Init(max), before + [a] + after);
            r in t.s.recs && t.s.recs[r].deadline == if a.ttl == 0 then None else Some(Elapsed(before) + a.ttl)
  {
    hide Step, Creates, CallsOk, SweepOk;
    var w, front := Run(Init(max), before), before + [a];
    assert front[..|before|] == before && front[|before|] == a;
    ClockIsElapsed(Init(max), before);
    CreatedDeadline(w, a, r);
    NowKnown(w, a, r);
    RunKeeps(max, front);
    DeadlinesKept(Run(Init(max), front), after, r);
    RunJoins(Init(max), front, after);
  }

  lemma NowKnown<R>(w: World<R>, a: Action<R>, r: R)
    requires Creates(w, a, r)
    ensures r in Step(w, a).s.recs
  {
  }

  /** The sweep under way began at an earlier point of the run and goes by its time. */
  lemma {:induction false} SweepClock<R>(max: nat, actions: seq<Action<R>>)
    ensures var w := Run(Init(max), actions);
            w.sweep.Sweeping? ==>
              exists k :: 0 <= k < |actions| && actions[k].Wake? && w.sweep.now == Elapsed(actions[..k])
  {
    hide Step;
    if actions != [] {
      var front, last := actions[..|actions| - 1], actions[|actions| - 1];
      var w := Run(Init(max), front);
      SweepClock(max, front);
      SweepReadsClock(w, last);
      ClockIsElapsed(Init(max), front);
      if w.sweep.Sweeping? {
        var k :| 0 <= k < |front| && front[k].Wake? && w.sweep.now == Elapsed(front[..k]);
        assert front[..k] == actions[..k] && actions[k].Wake?;
      }
      assert actions[..|front|] == front;
    }
  }

  lemma SweepReadsClock<R>(w: World<R>, a: Action<R>)
    ensures var w' := Step(w, a);
            w'.sweep.Sweeping? ==>
              (w.sweep.Sweeping? && w'.sweep.now == w.sweep.now) || (a.Wake? && w'.sweep.now == w.clock)
  {
    hide NextSlot;
  }

  /** A finished sweep that read the clock at or after the end of a playground's time has
      left it unregistered. */
  lemma SweepEndsTheOverdue<R>(max: nat, before: seq<Action<R>>, a: Action<R>, r: R, after: seq<Action<R>>)
    requires Creates(Run(Init(max), before), a, r) && a.ttl != 0
    ensures var t := Run(Init(max), before + [a] + after);
            SweepFinished(t) && t.sweep.now >= Elapsed(before) + a.ttl ==> r !in t.s.vms
  {
    hide Run, Creates;
    DeadlineAsAsked(max, before, a, r, after);
    SweepLeavesNothingOverdue(max, before + [a] + after);
  }

  /** And no sweep destroys one that read the clock before, or one created to stay. */
  lemma SweepSparesOthers<R>(max: nat, before: seq<Action<R>>, a: Action<R>, r: R, after: seq<Action<R>>)
    requires Creates(Run(Init(max), before), a, r)
    ensures var t := Run(Init(max), before + [a] + after);
            REAPER in t.calls && t.calls[REAPER].r == r ==>
              a.ttl != 0 && t.sweep.Sweeping? && t.sweep.now >= Elapsed(before) + a.ttl
  {
    hide Run, Creates;
    DeadlineAsAsked(max, before, a, r, after);
    SweepDestroysOnlyOverdue(max, before + [a] + after);
  }

  /** Only what was created to stay is ever suspended. */
  lemma OnlyStayingSuspended<R>(max: nat, before: seq<Action<R>>, a: Action<R>, r: R, after: seq<Action<R>>, c: CallId)
    requires Creates(Run(Init(max), before), a, r)
    ensures var t := Run(Init(max), before + [a] + after);
            c in t.calls && Suspending(t.calls[c]) && t.calls[c].r == r ==> a.ttl == 0
  {
    hide Run, Creates;
    DeadlineAsAsked(max, before, a, r, after);
    SuspendedHasNoDeadline(max, before + [a] + after, c);
  }

  // ---------------------------------------------------------------------------
  // A failed create gives its slot back

  predicate RollingBack<R>(w: World<R>, r: R) {
    exists c :: c in w.calls && w.calls[c] == CreateStop(r)
  }

  /** A record whose create failed has given its slot back, unless its rollback is still
      under way. */
  ghost predicate FailedGivesBack<R>(w: World<R>) {
    forall r :: r in w.s.recs && w.s.recs[r].failed ==> w.s.recs[r].releases > 0 || RollingBack(w, r)
  }

  lemma ContinueGivesBack<R>(w: World<R>, c: CallId, ok: bool)
    requires c in w.calls && w.calls[c].r in w.s.recs && FailedGivesBack(w)
    ensures FailedGivesBack(Resumed(w, c, ok))
  {
    hide Resumed, RollingBack;
    var w', at := Resumed(w, c, ok), w.calls[c];
    ResumedTraits(w, c, ok);
    forall r | r in w'.s.recs && w'.s.recs[r].failed && w'.s.recs[r].releases == 0 ensures RollingBack(w', r) {
      if !w.s.recs[r].failed {
        NowRollingBack(w', c, r);
      } else {
        StillRollingBack(w, w', c, r);
      }
    }
  }

  /** What the end of a wait does to failures, releases and rollbacks. */
  lemma ResumedTraits<R>(w: World<R>, c: CallId, ok: bool)
    requires c in w.calls && w.calls[c].r in w.s.recs
    ensures var w', at := Resumed(w, c, ok), w.calls[c];
            && w'.s.recs.Keys == w.s.recs.Keys
            && (forall r :: r in w.s.recs && w'.s.recs[r].failed && !w.s.recs[r].failed ==>
                  c in w'.calls && w'.calls[c] == CreateStop(r))
            && (forall r :: r in w.s.recs ==> w'.s.recs[r].releases >= w.s.recs[r].releases)
            && (at.CreateStop? ==> w'.s.recs[at.r].releases > 0)
            && (forall d :: d in w.calls && d != c ==> d in w'.calls && w'.calls[d] == w.calls[d])
  {
  }

  lemma NowRollingBack<R>(w: World<R>, c: CallId, r: R)
    requires c in w.calls && w.calls[c] == CreateStop(r)
    ensures RollingBack(w, r)
  {
  }

  lemma StillRollingBack<R>(w: World<R>, w': World<R>, c: CallId, r: R)
    requires RollingBack(w, r) && (c in w.calls ==> w.calls[c] != CreateStop(r))
    requires forall d :: d in w.calls && d != c ==> d in w'.calls && w'.calls[d] == w.calls[d]
    ensures RollingBack(w', r)
  {
  }

  lemma CreateGivesBack<R>(w: World<R>, a: Action<R>)
    requires a.Create? && FailedGivesBack(w)
    ensures FailedGivesBack(Step(w, a))
  {
    hide NextSlot, RollingBack;
    var w' := Step(w, a);
    forall r | RollingBack(w, r) ensures RollingBack(w', r) {
      RollbackUntouched(w, w', r);
    }
  }

  lemma OtherGivesBack<R>(w: World<R>, a: Action<R>)
    requires !a.Create? && !a.Continue? && !a.Cancel? && FailedGivesBack(w)
    ensures FailedGivesBack(Step(w, a))
  {
    hide RollingBack;
    var w' := Step(w, a);
    OtherTraits(w, a);
    forall r | RollingBack(w, r) ensures RollingBack(w', r) {
      RollbackUntouched(w, w', r);
    }
  }

  /** Neither failures nor releases change, and no rollback is touched. */
  lemma OtherTraits<R>(w: World<R>, a: Action<R>)
    requires !a.Create? && !a.Continue? && !a.Cancel?
    ensures var w' := Step(w, a);
            && w'.s.recs.Keys == w.s.recs.Keys
            && (forall r :: r in w.s.recs ==>
                  w'.s.recs[r].failed == w.s.recs[r].failed && w'.s.recs[r].releases == w.s.recs[r].releases)
            && (forall d :: d in w.calls && w.calls[d].CreateStop? ==> d in w'.calls && w'.calls[d] == w.calls[d])
  {
  }

  lemma RollbackUntouched<R>(w: World<R>, w': World<R>, r: R)
    requires RollingBack(w, r)
    requires forall d :: d in w.calls && w.calls[d].CreateStop? ==> d in w'.calls && w'.calls[d] == w.calls[d]
    ensures RollingBack(w', r)
  {
  }

  /** A rollback is cancelled before its record has given its slot back. */
  predicate AbandonsRollback<R>(w: World<R>, a: Action<R>) {
    && a.Cancel? && a.c != REAPER && a.c in w.calls && w.calls[a.c].CreateStop?
    && w.calls[a.c].r in w.s.recs && w.s.recs[w.calls[a.c].r].releases == 0
  }

  lemma CancelGivesBackIff<R>(w: World<R>, a: Action<R>)
    requires CallsOk(w) && FailedGivesBack(w) && a.Cancel?
    ensures FailedGivesBack(Step(w, a)) <==> !AbandonsRollback(w, a)
  {
    var w' := Step(w, a);
    if AbandonsRollback(w, a) {
      assert !RollingBack(w', w.calls[a.c].r);
    } else {
      forall r | r in w.s.recs && RollingBack(w, r) ensures w.s.recs[r].releases > 0 || RollingBack(w', r) {
        var c :| c in w.calls && w.calls[c] == CreateStop(r);
        assert w.s.recs[r].releases > 0 || (c in w'.calls && w'.calls[c] == CreateStop(r));
      }
    }
  }

  /** A step leaves a failed create with its slot for good exactly when it is one. */
  lemma StepGivesBackIff<R>(w: World<R>, a: Action<R>)
    requires CallsOk(w) && FailedGivesBack(w)
    ensures FailedGivesBack(Step(w, a)) <==> !AbandonsRollback(w, a)
  {
    hide FailedGivesBack, Resumed, CallsOk;
    if a.Create? {
      CreateGivesBack(w, a);
    } else if a.Continue? {
      if a.c in w.calls && w.calls[a.c].r in w.s.recs {
        ContinueGivesBack(w, a.c, a.ok);
      }
    } else if a.Cancel? {
      CancelGivesBackIff(w, a);
    } else {
      OtherGivesBack(w, a);
    }
  }

  ghost predicate GivesBackThroughout<R>(max: nat, actions: seq<Action<R>>) {
    && FailedGivesBack(Run(Init(max), actions))
    && (actions != [] ==> GivesBackThroughout(max, actions[..|actions| - 1]))
  }

  /** Some step of the run abandons a rollback. */
  ghost predicate SomeAbandoned<R>(max: nat, actions: seq<Action<R>>) {
    && actions != []
    && var front := actions[..|actions| - 1];
    AbandonsRollback(Run(Init(max), front), actions[|actions| - 1]) || SomeAbandoned(max, front)
  }

  /** Over a whole run every create that failed gives its slot back, once its rollback is
      over, exactly when no rollback is abandoned. */
  lemma {:induction false} GivesBackIff<R>(max: nat, actions: seq<Action<R>>)
    ensures GivesBackThroughout(max, actions) <==> !SomeAbandoned(max, actions)
  {
    hide Step, FailedGivesBack, AbandonsRollback, CallsOk, SweepOk;
    if actions == [] {
      NoneFailed<R>(max);
    } else {
      var front := actions[..|actions| - 1];
      GivesBackIff(max, front);
      RunKeeps(max, front);
      if GivesBackThroughout(max, front) {
        StepGivesBackIff(Run(Init(max), front), actions[|actions| - 1]);
      }
    }
  }

  lemma NoneFailed<R>(max: nat)
    ensures FailedGivesBack<R>(Init(max))
  {
  }

  // ---------------------------------------------------------------------------
  // A failed create stays down

  predicate ResumePending<R>(w: World<R>, r: R) {
    exists c :: c in w.calls && w.calls[c] == ResumeVm(r)
  }

  predicate CreatePending<R>(w: World<R>, r: R) {
    exists c :: c in w.calls && Creating(w.calls[c]) && w.calls[c].r == r
  }

  /** The record's create failed, its disk is gone, it is not running, and nothing in
      flight can set it running. */
  predicate Down<R>(w: World<R>, r: R) {
    && r in w.s.recs && w.s.recs[r].failed && !w.s.recs[r].disk && w.s.recs[r].status != Running
    && !ResumePending(w, r) && !CreatePending(w, r)
  }

  lemma ResumedStaysDown<R>(w: World<R>, c: CallId, ok: bool, r: R)
    requires Down(w, r) && c in w.calls && w.calls[c].r in w.s.recs
    ensures Down(Resumed(w, c, ok), r)
  {
    var w' := Resumed(w, c, ok);
    var at := w.calls[c];
    assert at.r == r ==> at != ResumeVm(r) && !Creating(at);
    assert forall d :: d in w'.calls && d != c ==> d in w.calls && w'.calls[d] == w.calls[d];
  }

  lemma BegunStaysDown<R>(w: World<R>, a: Action<R>, r: R)
    requires Down(w, r) && !a.Continue?
    ensures Down(Step(w, a), r)
  {
    hide Step, ResumePending, CreatePending;
    DownRecordKept(w, a, r);
    DownCallsKept(w, a, r);
  }

  lemma DownRecordKept<R>(w: World<R>, a: Action<R>, r: R)
    requires Down(w, r) && !a.Continue?
    ensures var s := Step(w, a).s;
            r in s.recs && s.recs[r].failed && !s.recs[r].disk && s.recs[r].status != Running
  {
    hide NextSlot, ResumePending;
  }

  lemma DownCallsKept<R>(w: World<R>, a: Action<R>, r: R)
    requires Down(w, r) && !a.Continue?
    ensures !ResumePending(Step(w, a), r) && !CreatePending(Step(w, a), r)
  {
    hide NextSlot;
    var w' := Step(w, a);
    assert forall d :: d in w.calls ==> w.calls[d] != ResumeVm(r) && !(Creating(w.calls[d]) && w.calls[d].r == r);
    assert forall d :: d in w'.calls ==> w'.calls[d] != ResumeVm(r) && !(Creating(w'.calls[d]) && w'.calls[d].r == r);
  }

  /** Once down, no run of any operations brings the record back. */
  lemma {:induction false} StaysDown<R>(w: World<R>, actions: seq<Action<R>>, r: R)
    requires Down(w, r)
    ensures Down(Run(w, actions), r)
  {
    hide Down, Step;
    if actions != [] {
      var front, last := actions[..|actions| - 1], actions[|actions| - 1];
      var v := Run(w, front);
      StaysDown(w, front, r);
      OneStepDown(v, last, r);
    }
  }

  lemma OneStepDown<R>(w: World<R>, a: Action<R>, r: R)
    requires Down(w, r)
    ensures Down(Step(w, a), r)
  {
    hide Down;
    if !a.Continue? {
      BegunStaysDown(w, a, r);
    } else if a.c in w.calls && w.calls[a.c].r in w.s.recs {
      ResumedStaysDown(w, a.c, a.ok, r);
    }
  }

  /** Some run from `w` shows the record running at its end. */
  ghost predicate CanRunAgain<R(!new)>(w: World<R>, r: R) {
    exists actions :: RunsAgain(w, actions, r)
  }

  predicate RunsAgain<R>(w: World<R>, actions: seq<Action<R>>, r: R) {
    r in Run(w, actions).s.recs && Run(w, actions).s.recs[r].status == Running
  }

  lemma OneStepRuns<R(!new)>(w: World<R>, a: Action<R>, r: R)
    requires r in Step(w, a).s.recs && Step(w, a).s.recs[r].status == Running
    ensures CanRunAgain(w, r)
  {
    assert [a][..0] == [];
    assert Run(w, [a]) == Step(Run(w, []), a);
    assert RunsAgain(w, [a], r);
  }

  /** When the rollback of a failed create ends with the disk removed, the record can
      be seen running at that time or later exactly when a resume that found the disk
      is still in flight, or has already set it running. */
  lemma RevivedIffResumeOverlapped<R(!new)>(w: World<R>, c: CallId)
    requires CallsOk(w) && c in w.calls && w.calls[c].CreateStop?
    ensures var r := w.calls[c].r;
            var w' := Step(w, Continue(c, true));
            CanRunAgain(w', r) <==> w.s.recs[r].status == Running || ResumePending(w, r)
  {
    var r := w.calls[c].r;
    var w' := Step(w, Continue(c, true));
    assert w'.s.recs[r].status == w.s.recs[r].status && w'.calls == w.calls - {c};
    if w.s.recs[r].status == Running {
      assert RunsAgain(w', [], r);
    } else if ResumePending(w, r) {
      var d :| d in w.calls && w.calls[d] == ResumeVm(r);
      assert Step(w', Continue(d, true)) == Resumed(w', d, true);
      OneStepRuns(w', Continue(d, true), r);
    } else {
      assert Down(w', r);
      forall actions: seq<Action<R>> ensures !RunsAgain(w', actions, r) {
        StaysDown(w', actions, r);
      }
    }
  }
}
