/** Packets while setups and teardowns of many slots go on. */
module PacketRuns {
  import opened Basics
  import opened NetIdentity
  import opened Firewall
  import opened FirewallRuns
  import opened Packets

  /** Every rule stands in the chain it belongs to. */
  ghost predicate Placed(t: Tables) {
    forall c, r :: r in Rules(t, c) ==> r.at == c
  }

  lemma {:induction false} RemoveFirstKeeps(l: seq<Rule>, r: Rule)
    ensures forall x :: x in RemoveFirst(l, r) ==> x in l
  {
    if l != [] {
      RemoveFirstKeeps(l[1..], r);
    }
  }

  lemma DeletePlaced(t: Tables, r: Rule)
    requires Placed(t)
    ensures Placed(Delete(t, r))
  {
    RemoveFirstKeeps(Rules(t, r.at), r);
    forall c, x | x in Rules(Delete(t, r), c) ensures x.at == c {
      assert x in Rules(t, c);
    }
  }

  lemma InstallPlaced(t: Tables, r: Rule)
    requires Placed(t)
    ensures Placed(Install(t, r))
  {
    forall c, x | x in Rules(Install(t, r), c) ensures x.at == c {
      RulesInstall(t, r, c);
    }
  }

  lemma StepPlaced(n: Net, w: World, a: Action)
    requires Placed(w.t)
    ensures Placed(Step(n, w, a).t)
  {
    hide RuleArgs, Delete, Install, Placed;
    if Enabled(w, a) && a.Command? {
      var r := RuleArgs(n, a.slot)[JobOf(w, a.slot).i];
      DeletePlaced(w.t, r);
      InstallPlaced(w.t, r);
    }
  }

  lemma {:induction false} RunPlaced(n: Net, t: Tables, actions: seq<Action>)
    requires Placed(t)
    ensures Placed(Run(n, Start(t), actions).t)
  {
    hide Step, Placed;
    if actions != [] {
      RunPlaced(n, t, actions[..|actions| - 1]);
      StepPlaced(n, Run(n, Start(t), actions[..|actions| - 1]), actions[|actions| - 1]);
    }
  }

  // ---------------------------------------------------------------------------
  // Rules of slots at work accept what they match in the forwarding chain

  /** A rule of a slot some action is about. */
  ghost predicate OfActing(n: Net, actions: seq<Action>, r: Rule) {
    exists i, j :: 0 <= i < |actions| && 0 <= j < 6 && r == RuleArgs(n, actions[i].slot)[j]
  }

  lemma {:induction false} FirstAmongAhead(l: seq<Rule>, r: Rule, keep: Rule -> bool, p: Packet)
    requires Ahead(l, r, keep) && Matches(r.args, p)
    ensures FirstMatch(l, p).Some? && FirstMatch(l, p).value in l && !keep(FirstMatch(l, p).value)
  {
    hide Matches;
    if !Matches(l[0].args, p) {
      FirstAmongAhead(l[1..], r, keep, p);
    }
  }

  lemma ForwardingAccepts(n: Net, slot: nat, j: nat, p: Packet)
    requires j < 6 && RuleArgs(n, slot)[j].at == Chain("filter", "FORWARD")
    ensures Target(RuleArgs(n, slot)[j]) == Some("ACCEPT")
  {
    hide RuleArgs, Target, Matches;
    RuleShapes(n, slot);
    ChainsDiffer();
    OutboundRule(n, slot, p);
    ReplyRule(n, slot, p);
    PingRule(n, slot, p);
  }

  lemma OwnMatchAccepted(n: Net, t: Tables, actions: seq<Action>, s: Slot, j: nat, p: Packet)
    requires Placed(t) && 1 <= j <= 3 && Matches(RuleArgs(n, s)[j].args, p)
    requires var w := Run(n, Start(t), actions); s in w.goals && w.goals[s].setup && JobOf(w, s) == Finished
    ensures Accepted(Rules(Run(n, Start(t), actions).t, Chain("filter", "FORWARD")), p)
  {
    hide RuleArgs, Matches, Target, Run, Ahead, Rules, FirstMatch;
    var keep: Rule -> bool := r => !OfActing(n, actions, r);
    forall i | 0 <= i < |actions| ensures Foreign(n, keep, actions[i].slot) {
      forall k | 0 <= k < 6 ensures !keep(RuleArgs(n, actions[i].slot)[k]) {
        assert OfActing(n, actions, RuleArgs(n, actions[i].slot)[k]);
      }
    }
    SetUpJumpsQueue(n, t, actions, s, j, keep);
    var l := Rules(Run(n, Start(t), actions).t, FORWARD);
    FirstAmongAhead(l, RuleArgs(n, s)[j], keep, p);
    var first := FirstMatch(l, p).value;
    RunPlaced(n, t, actions);
    assert first.at == FORWARD;
    var i, k :| 0 <= i < |actions| && 0 <= k < 6 && first == RuleArgs(n, actions[i].slot)[k];
    ForwardingAccepts(n, actions[i].slot, k, p);
  }

  lemma Installed1(n: Net, t: Tables, actions: seq<Action>, s: Slot, j: nat)
    requires j < 6
    requires var w := Run(n, Start(t), actions); s in w.goals && w.goals[s].setup && JobOf(w, s) == Finished
    ensures RuleArgs(n, s)[j] in Rules(Run(n, Start(t), actions).t, RuleArgs(n, s)[j].at)
  {
    hide Run, RuleArgs;
    EndCounts(n, t, actions, s, j);
  }

  /** Whatever other slots are being set up or torn down meanwhile, and however the commands
      are interleaved: the guest of a slot set up is served, ahead of everybody else's rules. */
  lemma SetUpServed(n: Net, t: Tables, actions: seq<Action>, s: Slot)
    requires Placed(t)
    requires var w := Run(n, Start(t), actions); s in w.goals && w.goals[s].setup && JobOf(w, s) == Finished
    ensures Served(n, s, Run(n, Start(t), actions).t)
  {
    hide Run, RuleArgs, Rules, Accepted, Matches, ServedPacket, Placed;
    RuleShapes(n, s);
    ChainsDiffer();
    Installed1(n, t, actions, s, 0);
    Installed1(n, t, actions, s, 4);
    Installed1(n, t, actions, s, 5);
    forall p: Packet ensures ServedPacket(n, s, Run(n, Start(t), actions).t, p) {
      forall j | 1 <= j <= 3 && Matches(RuleArgs(n, s)[j].args, p)
        ensures Accepted(Rules(Run(n, Start(t), actions).t, Chain("filter", "FORWARD")), p)
      {
        OwnMatchAccepted(n, t, actions, s, j, p);
      }
      ServedBy(n, s, Run(n, Start(t), actions).t, p);
    }
  }

  // ---------------------------------------------------------------------------
  // What was asked for is what comes of it

  predicate Interferes(a: Action, s: Slot) {
    a.slot == s && !a.Command?
  }

  lemma {:induction false} GoalStands(n: Net, w: World, actions: seq<Action>, s: Slot)
    requires s in w.goals && forall i :: 0 <= i < |actions| ==> !Interferes(actions[i], s)
    ensures var v := Run(n, w, actions); s in v.goals && v.goals[s] == w.goals[s]
  {
    hide RuleArgs, Turn;
    if actions != [] {
      GoalStands(n, w, actions[..|actions| - 1], s);
    }
  }

  lemma {:induction false} RunJoins(n: Net, w: World, a: seq<Action>, b: seq<Action>)
    ensures Run(n, w, a + b) == Run(n, Run(n, w, a), b)
  {
    hide Step;
    if b == [] {
      assert a + b == a;
    } else {
      var m := |b| - 1;
      assert (a + b)[..|a| + m] == a + b[..m] && (a + b)[|a| + m] == b[m];
      RunJoins(n, w, a, b[..m]);
    }
  }

  /** A setup, or teardown, of a slot that has none under way and that is then neither begun
      anew nor broken off: once its commands are through, with at most four stale copies at
      the start, there is exactly one copy, or none, of each rule, and after a setup the guest
      is served. */
  lemma AskedIsDone(n: Net, t: Tables, before: seq<Action>, s: Slot, setup: bool, after: seq<Action>, j: nat)
    requires FewCopies(n, t, s) && Placed(t) && j < 6
    requires JobOf(Run(n, Start(t), before), s) == Finished
    requires forall i :: 0 <= i < |after| ==> !Interferes(after[i], s)
    requires JobOf(Run(n, Start(t), before + [Begin(s, setup)] + after), s) == Finished
    ensures var v := Run(n, Start(t), before + [Begin(s, setup)] + after);
            && Count(v.t, RuleArgs(n, s)[j]) == (if setup then 1 else 0)
            && (setup ==> Served(n, s, v.t))
  {
    hide RuleArgs, Count, Served, FewCopies, Placed;
    var front := before + [Begin(s, setup)];
    assert front[..|before|] == before && front[|before|] == Begin(s, setup);
    BeginsAsAsked(n, Run(n, Start(t), before), s, setup);
    GoalStands(n, Run(n, Start(t), front), after, s);
    RunJoins(n, Start(t), front, after);
    ExactAtRest(n, t, front + after, s, j);
    if setup {
      SetUpServed(n, t, front + after, s);
    }
  }

  lemma BeginsAsAsked(n: Net, w: World, s: Slot, setup: bool)
    requires JobOf(w, s) == Finished
    ensures var v := Step(n, w, Begin(s, setup)); s in v.goals && v.goals[s].setup == setup
  {
  }
}
