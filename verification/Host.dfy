/** The host whose tables the commands change: setting a slot up and tearing it down as
    the loops that issue the commands, proved against the command-by-command model. */
module Host {
  import opened NetIdentity
  import opened Firewall
  import Packets

  class Host {
    var tables: Tables

    constructor (t: Tables)
      ensures tables == t
    {
      tables := t;
    }

    /** `-D`: removes the first match; fails when there is none. */
    method DeleteRule(r: Rule) returns (ok: bool)
      modifies this
      ensures ok == Has(old(tables), r)
      ensures tables == if ok then Delete(old(tables), r) else old(tables)
    {
      ok := Has(tables, r);
      if ok {
        tables := Delete(tables, r);
      }
    }

    method InstallRule(r: Rule)
      modifies this
      ensures tables == Install(old(tables), r)
    {
      tables := Install(tables, r);
    }

    /** Up to four deletions of rule `i`. */
    method DeleteCopies(rules: seq<Rule>, i: nat)
      requires |rules| == 6 && i < 6
      modifies this
      ensures Finish(rules, tables, AfterDelete(false, i, 3, false))
           == Finish(rules, old(tables), Deleting(false, i, 0))
    {
      hide Delete, Has;
      var k := 0;
      while k < 4
        invariant k <= 4
        invariant Finish(rules, tables, if k < 4 then Deleting(false, i, k) else AfterDelete(false, i, 3, false))
               == Finish(rules, old(tables), Deleting(false, i, 0))
      {
        ghost var was := tables;
        var ok := DeleteRule(rules[i]);
        assert Turn(rules, was, Deleting(false, i, k)) == Turned(tables, AfterDelete(false, i, k, ok));
        if !ok {
          break;
        }
        k := k + 1;
      }
    }

    method Teardown(n: Net, slot: nat)
      modifies this
      ensures tables == Finish(RuleArgs(n, slot), old(tables), Deleting(false, 0, 0))
    {
      hide RuleArgs;
      var rules := RuleArgs(n, slot);
      var i := 0;
      while i < 6
        invariant i <= 6
        invariant Finish(rules, tables, if i < 6 then Deleting(false, i, 0) else Finished)
               == Finish(rules, old(tables), Deleting(false, 0, 0))
      {
        DeleteCopies(rules, i);
        i := i + 1;
      }
    }

    method Setup(n: Net, slot: nat)
      modifies this
      ensures tables == Finish(RuleArgs(n, slot), old(tables), Deleting(true, 0, 0))
      ensures Packets.Served(n, slot, tables)
    {
      hide RuleArgs, Install, Packets.Served;
      Packets.SetupServes(n, slot, tables);
      var rules := RuleArgs(n, slot);
      Teardown(n, slot);
      SetupIsTeardownFirst(rules, old(tables), 0, 0);
      var i := 0;
      while i < 6
        invariant i <= 6
        invariant Finish(rules, tables, if i < 6 then Installing(i) else Finished)
               == Finish(rules, old(tables), Deleting(true, 0, 0))
      {
        assert Turn(rules, tables, Installing(i)).job == AfterInstall(i);
        InstallRule(rules[i]);
        i := i + 1;
      }
    }
  }

  /** Alone on the host, a setup leaves exactly one copy of a rule, and a teardown none,
      if and only if there were at most four to begin with. */
  lemma {:induction false} AloneExactIff(n: Net, slot: nat, t: Tables, setup: bool, j: nat)
    requires j < 6
    ensures Count(Finish(RuleArgs(n, slot), t, Deleting(setup, 0, 0)), RuleArgs(n, slot)[j])
         == (if setup then 1 else 0)
       <==> Count(t, RuleArgs(n, slot)[j]) <= 4
  {
    hide RuleArgs, Finish, Count;
    OwnRulesDistinct(n, slot);
    FinishCounts(RuleArgs(n, slot), t, Deleting(setup, 0, 0), j);
  }
}
