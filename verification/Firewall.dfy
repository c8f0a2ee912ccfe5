/** The host's rule lists, the six rules of a slot, and the commands that setting a slot
    up or tearing it down issues one at a time. */
module Firewall {
  import opened Basics
  import Decimal
  import opened NetIdentity

  datatype Chain = Chain(table: string, name: string)
  datatype Rule = Rule(at: Chain, args: seq<string>)

  type Tables = map<Chain, seq<Rule>>

  function Rules(t: Tables, c: Chain): seq<Rule> {
    if c in t then t[c] else []
  }

  predicate Has(t: Tables, r: Rule) {
    r in Rules(t, r.at)
  }

  function Count(t: Tables, r: Rule): nat {
    multiset(Rules(t, r.at))[r]
  }

  /** `-D`: the first match goes. */
  function Delete(t: Tables, r: Rule): Tables {
    t[r.at := RemoveFirst(Rules(t, r.at), r)]
  }

  function RemoveFirst(l: seq<Rule>, r: Rule): seq<Rule> {
    if l == [] then [] else if l[0] == r then l[1..] else [l[0]] + RemoveFirst(l[1..], r)
  }

  /** `-I` at the head in the filter table, `-A` at the end elsewhere. */
  function Install(t: Tables, r: Rule): Tables {
    t[r.at := if r.at.table == "filter" then [r] + Rules(t, r.at) else Rules(t, r.at) + [r]]
  }

  // ---------------------------------------------------------------------------
  // The rules of a slot

  function Tag(slot: nat): seq<string> {
    ["-m", "comment", "--comment", "mvmp:" + Decimal.Render(slot)]
  }

  const NAT := Chain("nat", "POSTROUTING")
  const FORWARD := Chain("filter", "FORWARD")
  const MANGLE := Chain("mangle", "FORWARD")

  function RuleArgs(n: Net, slot: nat): (rules: seq<Rule>)
    ensures |rules| == 6
  {
    var tap, net, tag, mss := TapName(n, slot), NetworkCidr(n, slot), Tag(slot), Decimal.Render(Mss(n.mtu));
    [ Rule(NAT, ["-s", net, "-o", n.egress, "-j", "MASQUERADE"] + tag),
      Rule(FORWARD, ["-i", tap, "-o", n.egress, "-j", "ACCEPT"] + tag),
      Rule(FORWARD, ["-o", tap, "-i", n.egress,
                     "-m", "conntrack", "--ctstate", "RELATED,ESTABLISHED", "-j", "ACCEPT"] + tag),
      Rule(FORWARD, ["-o", tap, "-i", n.egress, "-p", "icmp", "-j", "ACCEPT"] + tag),
      Rule(MANGLE, ["-o", n.egress, "-p", "tcp", "--tcp-flags", "SYN,RST", "SYN", "-s", net,
                    "-j", "TCPMSS", "--set-mss", mss] + tag),
      Rule(MANGLE, ["-o", tap, "-p", "tcp", "--tcp-flags", "SYN,RST", "SYN", "-d", net,
                    "-j", "TCPMSS", "--set-mss", mss] + tag) ]
  }

  predicate Distinct(rules: seq<Rule>) {
    forall i, j :: 0 <= i < j < |rules| ==> rules[i] != rules[j]
  }

  /** What tells the six rules of one slot apart, whatever the configured names. */
  lemma RuleShapes(n: Net, slot: nat)
    ensures var r := RuleArgs(n, slot);
            && r[0].at == NAT && r[1].at == r[2].at == r[3].at == FORWARD && r[4].at == r[5].at == MANGLE
            && |r[0].args| == 10 && |r[1].args| == 10 && |r[2].args| == 14 && |r[3].args| == 12
            && |r[4].args| == 17 && |r[5].args| == 17
            && r[4].args[7] == "-s" && r[5].args[7] == "-d"
  {
  }

  lemma OwnRulesDistinct(n: Net, slot: nat)
    ensures Distinct(RuleArgs(n, slot))
  {
    hide RuleArgs;
    RuleShapes(n, slot);
    var r := RuleArgs(n, slot);
    assert "-s"[1] != "-d"[1];
    assert "nat"[0] != "filter"[0] && "nat"[0] != "mangle"[0] && "filter"[0] != "mangle"[0];
  }

  /** Every rule ends in the tag of its slot. */
  lemma TagsLast(n: Net, slot: nat, i: nat)
    requires i < 6
    ensures var args := RuleArgs(n, slot)[i].args;
            args != [] && args[|args| - 1] == "mvmp:" + Decimal.Render(slot)
  {
  }

  /** No two slots share a rule, not even under different settings. */
  lemma SlotRulesDistinct(n: Net, slot: nat, i: nat, n': Net, other: nat, j: nat)
    requires slot != other && i < 6 && j < 6
    ensures RuleArgs(n, slot)[i] != RuleArgs(n', other)[j]
  {
    hide RuleArgs;
    TagsLast(n, slot, i);
    TagsLast(n', other, j);
    if RuleArgs(n, slot)[i] == RuleArgs(n', other)[j] {
      AppendInjective("mvmp:", Decimal.Render(slot), Decimal.Render(other));
      Decimal.RenderInjective(slot, other);
    }
  }

  // ---------------------------------------------------------------------------
  // What each command does to the copies of a rule and to the order of the others

  lemma {:induction false} RemoveFirstCounts(l: seq<Rule>, r: Rule)
    ensures multiset(RemoveFirst(l, r)) == multiset(l) - multiset{r}
  {
    if l != [] {
      var rest := RemoveFirst(l[1..], r);
      RemoveFirstCounts(l[1..], r);
      HeadCounts(l);
      if l[0] != r {
        HeadCounts([l[0]] + rest);
        assert ([l[0]] + rest)[1..] == rest;
      }
    }
  }

  lemma HeadCounts(l: seq<Rule>)
    requires l != []
    ensures multiset(l) == multiset{l[0]} + multiset(l[1..])
  {
    assert l == [l[0]] + l[1..];
  }

  lemma DeleteCounts(t: Tables, r: Rule, x: Rule)
    ensures Count(Delete(t, r), x) == if x == r && Has(t, r) then Count(t, r) - 1 else Count(t, x)
  {
    RemoveFirstCounts(Rules(t, r.at), r);
  }

  lemma InstallCounts(t: Tables, r: Rule, x: Rule)
    ensures Count(Install(t, r), x) == Count(t, x) + if x == r then 1 else 0
  {
    assert multiset([r] + Rules(t, r.at)) == multiset{r} + multiset(Rules(t, r.at));
    assert multiset(Rules(t, r.at) + [r]) == multiset(Rules(t, r.at)) + multiset{r};
  }

  function Filter(l: seq<Rule>, keep: Rule -> bool): seq<Rule> {
    if l == [] then [] else (if keep(l[0]) then [l[0]] else []) + Filter(l[1..], keep)
  }

  lemma {:induction false} FilterConcat(a: seq<Rule>, b: seq<Rule>, keep: Rule -> bool)
    ensures Filter(a + b, keep) == Filter(a, keep) + Filter(b, keep)
  {
    if a == [] {
      assert a + b == b;
    } else {
      assert (a + b)[1..] == a[1..] + b && (a + b)[0] == a[0];
      FilterConcat(a[1..], b, keep);
      Associative(if keep(a[0]) then [a[0]] else [], Filter(a[1..], keep), Filter(b, keep));
    }
  }

  lemma FilterSingle(r: Rule, keep: Rule -> bool)
    requires !keep(r)
    ensures Filter([r], keep) == []
  {
    assert [r][1..] == [];
  }

  lemma {:induction false} FilterRemoveFirst(l: seq<Rule>, r: Rule, keep: Rule -> bool)
    requires !keep(r)
    ensures Filter(RemoveFirst(l, r), keep) == Filter(l, keep)
  {
    if l != [] {
      FilterRemoveFirst(l[1..], r, keep);
    }
  }

  lemma DeleteKeepsOthers(t: Tables, r: Rule, keep: Rule -> bool, c: Chain)
    requires !keep(r)
    ensures Filter(Rules(Delete(t, r), c), keep) == Filter(Rules(t, c), keep)
  {
    FilterRemoveFirst(Rules(t, r.at), r, keep);
  }

  lemma InstallKeepsOthers(t: Tables, r: Rule, keep: Rule -> bool, c: Chain)
    requires !keep(r)
    ensures Filter(Rules(Install(t, r), c), keep) == Filter(Rules(t, c), keep)
  {
    hide Filter;
    FilterSingle(r, keep);
    FilterConcat([r], Rules(t, r.at), keep);
    FilterConcat(Rules(t, r.at), [r], keep);
  }

  /** A copy of `r` comes before every kept rule. */
  predicate Ahead(l: seq<Rule>, r: Rule, keep: Rule -> bool) {
    l != [] && !keep(l[0]) && (l[0] == r || Ahead(l[1..], r, keep))
  }

  lemma {:induction false} AheadRemoveFirst(l: seq<Rule>, r: Rule, x: Rule, keep: Rule -> bool)
    requires Ahead(l, r, keep) && x != r
    ensures Ahead(RemoveFirst(l, x), r, keep)
  {
    if l[0] != r && l[0] != x {
      AheadRemoveFirst(l[1..], r, x, keep);
    }
  }

  lemma {:induction false} AheadConcat(l: seq<Rule>, m: seq<Rule>, r: Rule, keep: Rule -> bool)
    requires Ahead(l, r, keep)
    ensures Ahead(l + m, r, keep)
  {
    if l[0] != r {
      assert (l + m)[1..] == l[1..] + m;
      AheadConcat(l[1..], m, r, keep);
    }
  }

  /** A copy of `r` comes after every kept rule. */
  predicate Behind(l: seq<Rule>, r: Rule, keep: Rule -> bool) {
    l != [] && !keep(l[|l| - 1]) && (l[|l| - 1] == r || Behind(l[..|l| - 1], r, keep))
  }

  lemma {:induction false} RemoveFirstOfFront(front: seq<Rule>, last: Rule, x: Rule)
    ensures RemoveFirst(front + [last], x) ==
            if x in front then RemoveFirst(front, x) + [last] else if last == x then front else front + [last]
  {
    if front == [] {
      assert front + [last] == [last] && [last][1..] == [];
    } else {
      var rest := front[1..];
      assert (front + [last])[0] == front[0] && (front + [last])[1..] == rest + [last];
      if front[0] != x {
        RemoveFirstOfFront(rest, last, x);
        HeadOf(front, x);
        Associative([front[0]], RemoveFirst(rest, x), [last]);
        Associative([front[0]], rest, [last]);
      }
    }
  }

  lemma HeadOf(l: seq<Rule>, x: Rule)
    requires l != [] && l[0] != x
    ensures l == [l[0]] + l[1..] && (x in l <==> x in l[1..])
  {
  }

  lemma {:induction false} BehindRemoveFirst(l: seq<Rule>, r: Rule, x: Rule, keep: Rule -> bool)
    requires Behind(l, r, keep) && x != r
    ensures Behind(RemoveFirst(l, x), r, keep)
  {
    var front, last := l[..|l| - 1], l[|l| - 1];
    assert l == front + [last];
    RemoveFirstOfFront(front, last, x);
    if x in front {
      if last != r {
        BehindRemoveFirst(front, r, x, keep);
      }
      BehindAppend(RemoveFirst(front, x), r, last, keep);
    }
  }

  lemma BehindAppend(l: seq<Rule>, r: Rule, x: Rule, keep: Rule -> bool)
    requires !keep(x) && (x == r || Behind(l, r, keep))
    ensures Behind(l + [x], r, keep)
  {
    assert (l + [x])[..|l|] == l;
  }

  /** Where an installed rule is to stand: ahead of the kept ones in the filter table, behind
      them elsewhere. */
  predicate Standing(l: seq<Rule>, r: Rule, keep: Rule -> bool) {
    if r.at.table == "filter" then Ahead(l, r, keep) else Behind(l, r, keep)
  }

  // ---------------------------------------------------------------------------
  // One operation, command by command

  /** Where an operation stands: deleting rule `i` for the `k`-th time (as the whole of
      a teardown, or as the first part of a setup), installing rule `i`, or through. */
  datatype Job = Deleting(setup: bool, i: nat, k: nat) | Installing(i: nat) | Finished

  predicate JobOk(job: Job) {
    match job
    case Deleting(_, i, k) => i < 6 && k < 4
    case Installing(i) => i < 6
    case Finished => true
  }

  /** At most four deletions a rule, stopping at the first that finds nothing. */
  function AfterDelete(setup: bool, i: nat, k: nat, found: bool): Job {
    if found && k + 1 < 4 then Deleting(setup, i, k + 1)
    else if i + 1 < 6 then Deleting(setup, i + 1, 0)
    else if setup then Installing(0)
    else Finished
  }

  function AfterInstall(i: nat): Job {
    if i + 1 < 6 then Installing(i + 1) else Finished
  }

  datatype Turned = Turned(t: Tables, job: Job)

  /** The next command of an operation on `rules`. */
  function Turn(rules: seq<Rule>, t: Tables, job: Job): (after: Turned)
    requires |rules| == 6 && JobOk(job) && job != Finished
    ensures JobOk(after.job) && ToGo(after.job) < ToGo(job)
  {
    match job
    case Deleting(setup, i, k) =>
      if Has(t, rules[i]) then Turned(Delete(t, rules[i]), AfterDelete(setup, i, k, true))
      else Turned(t, AfterDelete(setup, i, k, false))
    case Installing(i) => Turned(Install(t, rules[i]), AfterInstall(i))
  }

  /** A bound on the commands still to come. */
  function ToGo(job: Job): nat
    requires JobOk(job)
  {
    match job
    case Deleting(setup, i, k) => 4 * (6 - i) - k + if setup then 6 else 0
    case Installing(i) => 6 - i
    case Finished => 0
  }

  /** The tables once the operation is through, if nothing else touches them. */
  function Finish(rules: seq<Rule>, t: Tables, job: Job): Tables
    requires |rules| == 6 && JobOk(job)
    decreases ToGo(job)
  {
    if job == Finished then t
    else var after := Turn(rules, t, job); Finish(rules, after.t, after.job)
  }

  function Drop(count: nat, most: nat): nat {
    if count <= most then 0 else count - most
  }

  /** The copies of rule `j` there will be at the end, if there are `count` now. */
  function Final(job: Job, j: nat, count: nat): nat
    requires JobOk(job)
  {
    match job
    case Deleting(setup, i, k) =>
      (if j < i then count else if j == i then Drop(count, 4 - k) else Drop(count, 4)) + (if setup then 1 else 0)
    case Installing(i) => if j < i then count else count + 1
    case Finished => count
  }

  lemma DeleteTurnFinal(rules: seq<Rule>, t: Tables, job: Job, j: nat)
    requires |rules| == 6 && Distinct(rules) && JobOk(job) && job.Deleting? && j < 6
    ensures var after := Turn(rules, t, job);
            Final(after.job, j, Count(after.t, rules[j])) == Final(job, j, Count(t, rules[j]))
  {
    hide Delete;
    DeleteCounts(t, rules[job.i], rules[j]);
    assert Has(t, rules[j]) <==> Count(t, rules[j]) > 0;
    assert rules[j] == rules[job.i] <==> j == job.i;
  }

  /** A command changes the counts, but not the counts there will be at the end. */
  lemma TurnFinal(rules: seq<Rule>, t: Tables, job: Job, j: nat)
    requires |rules| == 6 && Distinct(rules) && JobOk(job) && job != Finished && j < 6
    ensures var after := Turn(rules, t, job);
            Final(after.job, j, Count(after.t, rules[j])) == Final(job, j, Count(t, rules[j]))
  {
    if job.Deleting? {
      DeleteTurnFinal(rules, t, job, j);
    } else {
      hide Install;
      InstallCounts(t, rules[job.i], rules[j]);
      assert rules[j] == rules[job.i] <==> j == job.i;
    }
  }

  /** Undisturbed, an operation leaves exactly those counts. */
  lemma {:induction false} FinishCounts(rules: seq<Rule>, t: Tables, job: Job, j: nat)
    requires |rules| == 6 && Distinct(rules) && JobOk(job) && j < 6
    ensures Count(Finish(rules, t, job), rules[j]) == Final(job, j, Count(t, rules[j]))
    decreases ToGo(job)
  {
    hide Turn, Count, Distinct;
    if job != Finished {
      TurnFinal(rules, t, job, j);
      FinishCounts(rules, Turn(rules, t, job).t, Turn(rules, t, job).job, j);
    }
  }

  lemma TurnLeavesOthers(rules: seq<Rule>, t: Tables, job: Job, x: Rule)
    requires |rules| == 6 && JobOk(job) && job != Finished && (forall i :: 0 <= i < 6 ==> rules[i] != x)
    ensures Count(Turn(rules, t, job).t, x) == Count(t, x)
  {
    hide Delete, Install;
    DeleteCounts(t, rules[if job.Deleting? || job.Installing? then job.i else 0], x);
    InstallCounts(t, rules[if job.Deleting? || job.Installing? then job.i else 0], x);
  }

  lemma {:induction false} FinishLeavesOthers(rules: seq<Rule>, t: Tables, job: Job, x: Rule)
    requires |rules| == 6 && JobOk(job) && (forall i :: 0 <= i < 6 ==> rules[i] != x)
    ensures Count(Finish(rules, t, job), x) == Count(t, x)
    decreases ToGo(job)
  {
    hide Turn, Count;
    if job != Finished {
      TurnLeavesOthers(rules, t, job, x);
      FinishLeavesOthers(rules, Turn(rules, t, job).t, Turn(rules, t, job).job, x);
    }
  }

  /** A setup is a teardown followed by the installations. */
  lemma {:induction false} SetupIsTeardownFirst(rules: seq<Rule>, t: Tables, i: nat, k: nat)
    requires |rules| == 6 && i < 6 && k < 4
    ensures Finish(rules, t, Deleting(true, i, k))
         == Finish(rules, Finish(rules, t, Deleting(false, i, k)), Installing(0))
    decreases ToGo(Deleting(true, i, k))
  {
    hide Finish, Turn;
    var on, off := Turn(rules, t, Deleting(true, i, k)), Turn(rules, t, Deleting(false, i, k));
    SetupTurn(rules, t, i, k);
    FinishUnfolds(rules, t, Deleting(true, i, k));
    FinishUnfolds(rules, t, Deleting(false, i, k));
    if on.job.Deleting? {
      SetupIsTeardownFirst(rules, on.t, on.job.i, on.job.k);
    } else {
      FinishUnfolds(rules, off.t, Finished);
    }
  }

  lemma SetupTurn(rules: seq<Rule>, t: Tables, i: nat, k: nat)
    requires |rules| == 6 && i < 6 && k < 4
    ensures var on, off := Turn(rules, t, Deleting(true, i, k)), Turn(rules, t, Deleting(false, i, k));
            && on.t == off.t
            && if on.job.Deleting? then on.job.setup && off.job == on.job.(setup := false)
               else on.job == Installing(0) && off.job == Finished
  {
    hide Delete, Has;
  }

  lemma FinishUnfolds(rules: seq<Rule>, t: Tables, job: Job)
    requires |rules| == 6 && JobOk(job)
    ensures job == Finished ==> Finish(rules, t, job) == t
    ensures job != Finished ==>
              var after := Turn(rules, t, job);
              Finish(rules, t, job) == Finish(rules, after.t, after.job)
  {
    hide Turn;
  }

  // ---------------------------------------------------------------------------
  // When the egress MTU has changed

  lemma MssDecides(n: Net, mtu: nat, slot: nat, j: nat)
    requires j < 6
    ensures Mss(n.mtu) == Mss(mtu) ==> RuleArgs(n.(mtu := mtu), slot) == RuleArgs(n, slot)
    ensures Mss(n.mtu) != Mss(mtu) ==> RuleArgs(n.(mtu := mtu), slot)[j] != RuleArgs(n, slot)[4]
  {
    if Mss(n.mtu) != Mss(mtu) {
      var r, r' := RuleArgs(n, slot), RuleArgs(n.(mtu := mtu), slot);
      if j == 4 {
        assert r[4].args[12] == Decimal.Render(Mss(n.mtu)) && r'[4].args[12] == Decimal.Render(Mss(mtu));
        if r[4] == r'[4] {
          Decimal.RenderInjective(Mss(n.mtu), Mss(mtu));
        }
      } else {
        RulePlaceDiffers(n, n.(mtu := mtu), slot, j);
      }
    }
  }

  lemma RulePlaceDiffers(n: Net, n': Net, slot: nat, j: nat)
    requires j < 6 && j != 4
    ensures RuleArgs(n', slot)[j] != RuleArgs(n, slot)[4]
  {
    hide RuleArgs;
    RuleShapes(n, slot);
    RuleShapes(n', slot);
    assert "-s"[1] != "-d"[1];
    assert "nat"[0] != "filter"[0] && "nat"[0] != "mangle"[0] && "filter"[0] != "mangle"[0];
  }

  /** Tearing down a slot that is set up removes its rules if and only if the egress
      MTU still gives the segment size the rules were made with. */
  lemma TeardownCleansIffSameMss(n: Net, mtu: nat, slot: nat, t: Tables)
    requires forall j :: 0 <= j < 6 ==> Count(t, RuleArgs(n, slot)[j]) == 1
    ensures var after := Finish(RuleArgs(n.(mtu := mtu), slot), t, Deleting(false, 0, 0));
            (forall j :: 0 <= j < 6 ==> Count(after, RuleArgs(n, slot)[j]) == 0) <==> Mss(n.mtu) == Mss(mtu)
  {
    hide RuleArgs, Finish, Count, Mss;
    var rules, rules' := RuleArgs(n, slot), RuleArgs(n.(mtu := mtu), slot);
    var job := Deleting(false, 0, 0);
    if Mss(n.mtu) == Mss(mtu) {
      MssDecides(n, mtu, slot, 0);
      OwnRulesDistinct(n, slot);
      forall j | 0 <= j < 6 ensures Count(Finish(rules', t, job), rules[j]) == 0 {
        FinishCounts(rules, t, job, j);
      }
    } else {
      forall i | 0 <= i < 6 ensures rules'[i] != rules[4] {
        MssDecides(n, mtu, slot, i);
      }
      FinishLeavesOthers(rules', t, job, rules[4]);
    }
  }
}
