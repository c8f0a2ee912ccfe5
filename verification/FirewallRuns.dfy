/** Setups and teardowns of several slots, interleaved command by command. Each slot has
    at most one operation under way; the settings stay the same throughout. */
module FirewallRuns {
  import opened NetIdentity
  import opened Firewall

  type Slot = nat

  /** What the last operation on a slot was and the copies of each rule it started with. */
  datatype Goal = Goal(setup: bool, before: seq<nat>)

  /** `goals` is history: the last operation begun and not broken off, slot by slot. */
  datatype World = World(t: Tables, jobs: map<Slot, Job>, goals: map<Slot, Goal>)

  datatype Action =
    | Begin(slot: Slot, setup: bool)
    | Command(slot: Slot)
    | BreakOff(slot: Slot)      // a command of the setup fails and the setup is abandoned

  function JobOf(w: World, slot: Slot): Job {
    if slot in w.jobs then w.jobs[slot] else Finished
  }

  predicate Enabled(w: World, a: Action) {
    match a
    case Begin(s, _) => JobOf(w, s) == Finished
    case Command(s) => JobOf(w, s) != Finished && JobOk(JobOf(w, s))
    case BreakOff(s) => JobOf(w, s).Installing?
  }

  function CountAll(n: Net, t: Tables, slot: Slot): (counts: seq<nat>)
    ensures |counts| == 6 && forall j :: 0 <= j < 6 ==> counts[j] == Count(t, RuleArgs(n, slot)[j])
  {
    seq(6, j requires 0 <= j < 6 => Count(t, RuleArgs(n, slot)[j]))
  }

  function Step(n: Net, w: World, a: Action): World {
    if !Enabled(w, a) then w
    else match a
      case Begin(s, setup) =>
        w.(jobs := w.jobs[s := Deleting(setup, 0, 0)], goals := w.goals[s := Goal(setup, CountAll(n, w.t, s))])
      case Command(s) =>
        var after := Turn(RuleArgs(n, s), w.t, w.jobs[s]);
        w.(t := after.t, jobs := w.jobs[s := after.job])
      case BreakOff(s) => w.(jobs := w.jobs[s := Finished], goals := w.goals - {s})
  }

  function Run(n: Net, w: World, actions: seq<Action>): World {
    if actions == [] then w
    else Step(n, Run(n, w, actions[..|actions| - 1]), actions[|actions| - 1])
  }

  function Start(t: Tables): World {
    World(t, map[], map[])
  }

  /** At most four copies go, and a setup leaves one more. */
  function Want(goal: Goal, j: nat): nat
    requires j < |goal.before|
  {
    Drop(goal.before[j], 4) + if goal.setup then 1 else 0
  }

  // ---------------------------------------------------------------------------
  // A slot's counts depend on its own operation alone

  ghost predicate OnCourse(n: Net, w: World, s: Slot) {
    && JobOk(JobOf(w, s))
    && (s !in w.goals ==> JobOf(w, s) == Finished)
    && (s in w.goals ==>
          && |w.goals[s].before| == 6
          && (JobOf(w, s).Installing? ==> w.goals[s].setup)
          && (JobOf(w, s).Deleting? ==> JobOf(w, s).setup == w.goals[s].setup)
          && forall j :: 0 <= j < 6 ==> Final(JobOf(w, s), j, Count(w.t, RuleArgs(n, s)[j])) == Want(w.goals[s], j))
  }

  lemma TurnLeavesSlot(n: Net, w: World, s: Slot, other: Slot, j: nat)
    requires s != other && JobOk(JobOf(w, other)) && JobOf(w, other) != Finished && j < 6
    ensures Count(Turn(RuleArgs(n, other), w.t, JobOf(w, other)).t, RuleArgs(n, s)[j]) == Count(w.t, RuleArgs(n, s)[j])
  {
    hide RuleArgs, Turn, Count;
    forall i | 0 <= i < 6 ensures RuleArgs(n, other)[i] != RuleArgs(n, s)[j] {
      SlotRulesDistinct(n, other, i, n, s, j);
    }
    TurnLeavesOthers(RuleArgs(n, other), w.t, JobOf(w, other), RuleArgs(n, s)[j]);
  }

  lemma CommandOnCourse(n: Net, w: World, s: Slot)
    requires OnCourse(n, w, s) && Enabled(w, Command(s))
    ensures OnCourse(n, Step(n, w, Command(s)), s)
  {
    hide RuleArgs, Count, Final, Distinct;
    OwnRulesDistinct(n, s);
    forall j | 0 <= j < 6
      ensures Final(JobOf(Step(n, w, Command(s)), s), j, Count(Step(n, w, Command(s)).t, RuleArgs(n, s)[j])) == Want(w.goals[s], j)
    {
      TurnFinal(RuleArgs(n, s), w.t, w.jobs[s], j);
    }
  }

  lemma OtherOnCourse(n: Net, w: World, s: Slot, a: Action)
    requires OnCourse(n, w, s) && a.slot != s
    ensures OnCourse(n, Step(n, w, a), s)
  {
    hide RuleArgs, Count, Final, Turn, JobOk;
    if Enabled(w, a) && a.Command? {
      forall j | 0 <= j < 6 ensures Count(Step(n, w, a).t, RuleArgs(n, s)[j]) == Count(w.t, RuleArgs(n, s)[j]) {
        TurnLeavesSlot(n, w, s, a.slot, j);
      }
    }
  }

  lemma StepOnCourse(n: Net, w: World, s: Slot, a: Action)
    requires OnCourse(n, w, s)
    ensures OnCourse(n, Step(n, w, a), s)
  {
    hide RuleArgs, Count, Turn;
    if a.slot != s {
      OtherOnCourse(n, w, s, a);
    } else if a.Command? && Enabled(w, a) {
      CommandOnCourse(n, w, s);
    }
  }

  lemma {:induction false} RunOnCourse(n: Net, t: Tables, actions: seq<Action>, s: Slot)
    ensures OnCourse(n, Run(n, Start(t), actions), s)
  {
    hide Step, Count, RuleArgs;
    if actions != [] {
      RunOnCourse(n, t, actions[..|actions| - 1], s);
      StepOnCourse(n, Run(n, Start(t), actions[..|actions| - 1]), s, actions[|actions| - 1]);
    }
  }

  /** However the commands of all slots are interleaved, a finished operation leaves each
      rule of its slot with the count it had at the beginning, less up to four, plus one
      for a setup. */
  lemma EndCounts(n: Net, t: Tables, actions: seq<Action>, s: Slot, j: nat)
    requires var w := Run(n, Start(t), actions); s in w.goals && JobOf(w, s) == Finished && j < 6
    ensures var w := Run(n, Start(t), actions);
            |w.goals[s].before| == 6 && Count(w.t, RuleArgs(n, s)[j]) == Want(w.goals[s], j)
  {
    hide Run, Count, RuleArgs;
    RunOnCourse(n, t, actions, s);
  }

  // ---------------------------------------------------------------------------
  // With few stale copies the outcome is exact

  ghost predicate FewCopies(n: Net, t: Tables, s: Slot) {
    forall j :: 0 <= j < 6 ==> Count(t, RuleArgs(n, s)[j]) <= 4
  }

  ghost predicate FewThroughout(n: Net, w: World, s: Slot) {
    && OnCourse(n, w, s)
    && FewCopies(n, w.t, s)
    && (s in w.goals ==> forall j :: 0 <= j < 6 ==> w.goals[s].before[j] <= 4)
  }

  lemma StepFew(n: Net, w: World, s: Slot, a: Action)
    requires FewThroughout(n, w, s)
    ensures FewThroughout(n, Step(n, w, a), s)
  {
    hide RuleArgs, Count, Turn;
    StepOnCourse(n, w, s, a);
    if Enabled(w, a) && a.Command? {
      if a.slot != s {
        forall j | 0 <= j < 6 ensures Count(Step(n, w, a).t, RuleArgs(n, s)[j]) <= 4 {
          TurnLeavesSlot(n, w, s, a.slot, j);
        }
      } else {
        forall j | 0 <= j < 6 ensures Count(Step(n, w, a).t, RuleArgs(n, s)[j]) <= 4 {
          CommandFew(n, w, s, j);
        }
      }
    }
  }

  lemma CommandFew(n: Net, w: World, s: Slot, j: nat)
    requires FewThroughout(n, w, s) && Enabled(w, Command(s)) && j < 6
    ensures Count(Turn(RuleArgs(n, s), w.t, JobOf(w, s)).t, RuleArgs(n, s)[j]) <= 4
  {
    hide RuleArgs, Count, Delete, Install, Distinct;
    var rules, job := RuleArgs(n, s), JobOf(w, s);
    DeleteCounts(w.t, rules[job.i], rules[j]);
    InstallCounts(w.t, rules[job.i], rules[j]);
    assert Final(job, j, Count(w.t, rules[j])) == Want(w.goals[s], j) <= 1;
    OwnRulesDistinct(n, s);
    TurnFinal(rules, w.t, job, j);
  }

  lemma {:induction false} RunFew(n: Net, t: Tables, actions: seq<Action>, s: Slot)
    requires FewCopies(n, t, s)
    ensures FewThroughout(n, Run(n, Start(t), actions), s)
  {
    hide Step, Count, RuleArgs, OnCourse;
    if actions == [] {
      RunOnCourse(n, t, [], s);
    } else {
      RunFew(n, t, actions[..|actions| - 1], s);
      StepFew(n, Run(n, Start(t), actions[..|actions| - 1]), s, actions[|actions| - 1]);
    }
  }

  /** With at most four stale copies at the start, every run ends with one copy of each
      rule of a slot set up and none of a slot torn down. */
  lemma ExactAtRest(n: Net, t: Tables, actions: seq<Action>, s: Slot, j: nat)
    requires FewCopies(n, t, s) && j < 6
    requires var w := Run(n, Start(t), actions); s in w.goals && JobOf(w, s) == Finished
    ensures var w := Run(n, Start(t), actions);
            Count(w.t, RuleArgs(n, s)[j]) == if w.goals[s].setup then 1 else 0
  {
    hide Run, Count, RuleArgs, OnCourse;
    RunFew(n, t, actions, s);
    EndCounts(n, t, actions, s, j);
  }

  // ---------------------------------------------------------------------------
  // The rules of everybody else

  /** `keep` holds of no rule of the slot. */
  ghost predicate Foreign(n: Net, keep: Rule -> bool, s: Slot) {
    forall j :: 0 <= j < 6 ==> !keep(RuleArgs(n, s)[j])
  }

  ghost predicate ForeignToAll(n: Net, keep: Rule -> bool, actions: seq<Action>) {
    forall i :: 0 <= i < |actions| ==> Foreign(n, keep, actions[i].slot)
  }

  lemma StepKeepsOthers(n: Net, w: World, a: Action, keep: Rule -> bool, c: Chain)
    requires Foreign(n, keep, a.slot)
    ensures Filter(Rules(Step(n, w, a).t, c), keep) == Filter(Rules(w.t, c), keep)
  {
    hide RuleArgs, Delete, Install, Rules, Filter;
    if Enabled(w, a) && a.Command? {
      var rules, job := RuleArgs(n, a.slot), JobOf(w, a.slot);
      DeleteKeepsOthers(w.t, rules[job.i], keep, c);
      InstallKeepsOthers(w.t, rules[job.i], keep, c);
    }
  }

  /** Every run keeps all other rules, in their order, chain by chain: whatever set of
      rules is picked that holds none of the acting slots' own. */
  lemma {:induction false} OthersKeepOrder(n: Net, t: Tables, actions: seq<Action>, keep: Rule -> bool, c: Chain)
    requires ForeignToAll(n, keep, actions)
    ensures Filter(Rules(Run(n, Start(t), actions).t, c), keep) == Filter(Rules(t, c), keep)
  {
    hide Step, Foreign, Rules, Filter;
    if actions != [] {
      OthersKeepOrder(n, t, actions[..|actions| - 1], keep, c);
      StepKeepsOthers(n, Run(n, Start(t), actions[..|actions| - 1]), actions[|actions| - 1], keep, c);
    }
  }

  // ---------------------------------------------------------------------------
  // Installed forwarding rules jump the queue, the others join its end

  predicate Installed(w: World, s: Slot, j: nat) {
    && s in w.goals && w.goals[s].setup && j < 6
    && (JobOf(w, s) == Finished || (JobOf(w, s).Installing? && j < JobOf(w, s).i))
  }

  ghost predicate InFront(n: Net, w: World, s: Slot, j: nat, keep: Rule -> bool) {
    j < 6 ==>
      var r := RuleArgs(n, s)[j];
      Installed(w, s, j) ==> Standing(Rules(w.t, r.at), r, keep)
  }

  lemma InstallInFront(t: Tables, x: Rule, r: Rule, keep: Rule -> bool)
    requires !keep(x) && (x == r || Standing(Rules(t, r.at), r, keep))
    ensures Standing(Rules(Install(t, x), r.at), r, keep)
  {
    if x.at == r.at {
      var l := Rules(Install(t, x), r.at);
      if r.at.table == "filter" {
        assert l[0] == x && l[1..] == Rules(t, r.at);
      } else {
        BehindAppend(Rules(t, r.at), r, x, keep);
      }
    }
  }

  lemma DeleteInFront(t: Tables, x: Rule, r: Rule, keep: Rule -> bool)
    requires x != r && Standing(Rules(t, r.at), r, keep)
    ensures Standing(Rules(Delete(t, x), r.at), r, keep)
  {
    if r.at.table == "filter" {
      AheadRemoveFirst(Rules(t, r.at), r, x, keep);
    } else {
      BehindRemoveFirst(Rules(t, r.at), r, x, keep);
    }
  }

  lemma TurnInFront(rules: seq<Rule>, t: Tables, job: Job, r: Rule, keep: Rule -> bool)
    requires |rules| == 6 && JobOk(job) && job != Finished && !keep(rules[job.i])
    requires (job.Installing? && rules[job.i] == r) || (rules[job.i] != r && Standing(Rules(t, r.at), r, keep))
    ensures Standing(Rules(Turn(rules, t, job).t, r.at), r, keep)
  {
    hide Delete, Install, Rules, Standing;
    if job.Installing? {
      InstallInFront(t, rules[job.i], r, keep);
    } else {
      DeleteInFront(t, rules[job.i], r, keep);
    }
  }

  lemma StepInFront(n: Net, w: World, a: Action, s: Slot, j: nat, keep: Rule -> bool)
    requires OnCourse(n, w, s) && InFront(n, w, s, j, keep) && Foreign(n, keep, a.slot)
    ensures InFront(n, Step(n, w, a), s, j, keep)
  {
    hide RuleArgs, Turn, Rules, Standing, Count, Final, OnCourse;
    var w' := Step(n, w, a);
    if j < 6 && Enabled(w, a) && a.Command? && Installed(w', s, j) {
      CommandInFront(n, w, a.slot, s, j, keep);
    }
  }

  lemma CommandInFront(n: Net, w: World, acting: Slot, s: Slot, j: nat, keep: Rule -> bool)
    requires OnCourse(n, w, s) && InFront(n, w, s, j, keep) && Foreign(n, keep, acting)
    requires j < 6 && Enabled(w, Command(acting))
    requires Installed(Step(n, w, Command(acting)), s, j)
    ensures Standing(Rules(Turn(RuleArgs(n, acting), w.t, JobOf(w, acting)).t, RuleArgs(n, s)[j].at), RuleArgs(n, s)[j], keep)
  {
    hide RuleArgs, Rules, Standing, Count, Final, Delete, Install, Has;
    var job := JobOf(w, acting);
    if acting == s {
      OwnRulesDistinct(n, s);
      assert job.i != j ==> RuleArgs(n, s)[job.i] != RuleArgs(n, s)[j];
    } else {
      SlotRulesDistinct(n, acting, job.i, n, s, j);
    }
    TurnInFront(RuleArgs(n, acting), w.t, job, RuleArgs(n, s)[j], keep);
  }

  lemma {:induction false} RunInFront(n: Net, t: Tables, actions: seq<Action>, s: Slot, j: nat, keep: Rule -> bool)
    requires ForeignToAll(n, keep, actions)
    ensures InFront(n, Run(n, Start(t), actions), s, j, keep)
  {
    hide Step, Foreign, Rules, Standing, OnCourse, RuleArgs;
    if actions != [] {
      var front := actions[..|actions| - 1];
      RunInFront(n, t, front, s, j, keep);
      RunOnCourse(n, t, front, s);
      StepInFront(n, Run(n, Start(t), front), actions[|actions| - 1], s, j, keep);
    }
  }

  /** The forwarding rules of a slot set up come before every rule that belongs to none
      of the acting slots, so none of those can decide first. */
  lemma SetUpJumpsQueue(n: Net, t: Tables, actions: seq<Action>, s: Slot, j: nat, keep: Rule -> bool)
    requires ForeignToAll(n, keep, actions) && 1 <= j <= 3
    requires var w := Run(n, Start(t), actions); s in w.goals && w.goals[s].setup && JobOf(w, s) == Finished
    ensures Ahead(Rules(Run(n, Start(t), actions).t, FORWARD), RuleArgs(n, s)[j], keep)
  {
    hide Run, Ahead, Behind, Rules, RuleArgs;
    RunInFront(n, t, actions, s, j, keep);
    RuleShapes(n, s);
  }

  /** And its other rules come after all of those. */
  lemma SetUpGoesLast(n: Net, t: Tables, actions: seq<Action>, s: Slot, j: nat, keep: Rule -> bool)
    requires ForeignToAll(n, keep, actions) && (j == 0 || j == 4 || j == 5)
    requires var w := Run(n, Start(t), actions); s in w.goals && w.goals[s].setup && JobOf(w, s) == Finished
    ensures Behind(Rules(Run(n, Start(t), actions).t, RuleArgs(n, s)[j].at), RuleArgs(n, s)[j], keep)
  {
    hide Run, Ahead, Behind, Rules, RuleArgs;
    RunInFront(n, t, actions, s, j, keep);
    RuleShapes(n, s);
    assert "nat"[0] != "filter"[0] && "mangle"[0] != "filter"[0];
  }
}
