/** What a host's rules do to packets, read from the rules' arguments, and what the rules
    of a slot let through. */
module Packets {
  import opened Basics
  import Decimal
  import opened NetIdentity
  import opened Firewall

  /** A packet on its way through the host. Before routing `outIface` is to be read as where
      it will leave. */
  datatype Packet = Packet(inIface: string, outIface: string, src: nat, dst: nat, proto: string,
                           state: string, flags: set<string>)

  predicate InNetwork(cidr: string, address: nat) {
    var net := ReadNetwork(cidr);
    net.Some? && net.value.bits <= 32 && Contains(net.value, address)
  }

  /** Of the flags in `mask` exactly those in `set` are set. */
  predicate FlagsMatch(mask: string, comp: string, p: Packet) {
    forall f :: f in Split(mask, ',') ==> (f in p.flags <==> f in Split(comp, ','))
  }

  /** One option with its value; an unknown option matches nothing. */
  predicate Test(option: string, value: string, p: Packet) {
    if option == "-i" then p.inIface == value
    else if option == "-o" then p.outIface == value
    else if option == "-s" then InNetwork(value, p.src)
    else if option == "-d" then InNetwork(value, p.dst)
    else if option == "-p" then p.proto == value
    else if option == "--ctstate" then p.state in Split(value, ',')
    else option == "-m" || option == "--comment" || option == "-j" || option == "--set-mss"
  }

  /** All options of a rule match. */
  predicate Matches(args: seq<string>, p: Packet) {
    if args == [] then true
    else if args[0] == "--tcp-flags" then |args| >= 3 && FlagsMatch(args[1], args[2], p) && Matches(args[3..], p)
    else |args| >= 2 && Test(args[0], args[1], p) && Matches(args[2..], p)
  }

  /** The value of the option that stands at an even place, once --tcp-flags is passed. */
  function Value(args: seq<string>, option: string): Option<string> {
    if args == [] then None
    else if args[0] == "--tcp-flags" then (if |args| >= 3 then Value(args[3..], option) else None)
    else if |args| < 2 then None
    else if args[0] == option then Some(args[1])
    else Value(args[2..], option)
  }

  function Target(r: Rule): Option<string> {
    Value(r.args, "-j")
  }

  function SegmentSize(r: Rule): Option<string> {
    Value(r.args, "--set-mss")
  }

  /** The first rule of a chain that matches, if any: in the chains here it decides. */
  function FirstMatch(l: seq<Rule>, p: Packet): Option<Rule> {
    if l == [] then None else if Matches(l[0].args, p) then Some(l[0]) else FirstMatch(l[1..], p)
  }

  predicate Accepted(l: seq<Rule>, p: Packet) {
    FirstMatch(l, p).Some? && Target(FirstMatch(l, p).value) == Some("ACCEPT")
  }

  // ---------------------------------------------------------------------------
  // Reading arguments

  lemma OptionsDiffer()
    ensures "-i" != "--tcp-flags" && "-o" != "--tcp-flags" && "-s" != "--tcp-flags" && "-d" != "--tcp-flags"
    ensures "-p" != "--tcp-flags" && "-m" != "--tcp-flags" && "-j" != "--tcp-flags"
    ensures "--ctstate" != "--tcp-flags" && "--comment" != "--tcp-flags" && "--set-mss" != "--tcp-flags"
  {
    assert "--tcp-flags"[2] == 't' && "--ctstate"[2] == 'c' && "--comment"[2] == 'c' && "--set-mss"[2] == 's';
  }

  /** What each option tests. */
  lemma Tests(value: string, p: Packet)
    ensures Test("-i", value, p) <==> p.inIface == value
    ensures Test("-o", value, p) <==> p.outIface == value
    ensures Test("-s", value, p) <==> InNetwork(value, p.src)
    ensures Test("-d", value, p) <==> InNetwork(value, p.dst)
    ensures Test("-p", value, p) <==> p.proto == value
    ensures Test("--ctstate", value, p) <==> p.state in Split(value, ',')
    ensures Test("-m", value, p) && Test("--comment", value, p) && Test("-j", value, p) && Test("--set-mss", value, p)
  {
    hide InNetwork, Split;
    assert "-i"[1] == 'i' && "-o"[1] == 'o' && "-s"[1] == 's' && "-d"[1] == 'd' && "-p"[1] == 'p';
    assert "-m"[1] == 'm' && "-j"[1] == 'j';
    assert "--ctstate"[2] == 'c' && "--ctstate"[3] == 't' && "--comment"[2] == 'c' && "--comment"[3] == 'o' && "--set-mss"[2] == 's';
  }

  lemma TestsNothing(value: string, p: Packet)
    ensures Test("-m", value, p) && Test("--comment", value, p) && Test("-j", value, p) && Test("--set-mss", value, p)
  {
    hide Test;
    Tests(value, p);
  }

  lemma TestsInterface(value: string, p: Packet)
    ensures Test("-i", value, p) <==> p.inIface == value
    ensures Test("-o", value, p) <==> p.outIface == value
  {
    hide Test;
    Tests(value, p);
  }

  lemma TestsAddress(value: string, p: Packet)
    ensures Test("-s", value, p) <==> InNetwork(value, p.src)
    ensures Test("-d", value, p) <==> InNetwork(value, p.dst)
  {
    hide Test, InNetwork;
    Tests(value, p);
  }

  lemma TestsKind(value: string, p: Packet)
    ensures Test("-p", value, p) <==> p.proto == value
    ensures Test("--ctstate", value, p) <==> p.state in Split(value, ',')
  {
    hide Test, Split;
    Tests(value, p);
  }

  lemma MatchesPair(option: string, value: string, rest: seq<string>, p: Packet)
    requires option != "--tcp-flags"
    ensures Matches([option, value] + rest, p) <==> Test(option, value, p) && Matches(rest, p)
    ensures forall o :: Value([option, value] + rest, o) == if option == o then Some(value) else Value(rest, o)
  {
    assert ([option, value] + rest)[2..] == rest;
  }

  lemma MatchesFlags(mask: string, comp: string, rest: seq<string>, p: Packet)
    ensures Matches(["--tcp-flags", mask, comp] + rest, p) <==> FlagsMatch(mask, comp, p) && Matches(rest, p)
    ensures forall o :: Value(["--tcp-flags", mask, comp] + rest, o) == Value(rest, o)
  {
    assert (["--tcp-flags", mask, comp] + rest)[3..] == rest;
  }

  /** No option but these two is a target or a segment size. */
  lemma NoTarget()
    ensures "-i" != "-j" && "-i" != "--set-mss"
    ensures "-o" != "-j" && "-o" != "--set-mss"
    ensures "-s" != "-j" && "-s" != "--set-mss"
    ensures "-d" != "-j" && "-d" != "--set-mss"
    ensures "-p" != "-j" && "-p" != "--set-mss"
    ensures "-m" != "-j" && "-m" != "--set-mss"
    ensures "--ctstate" != "-j" && "--ctstate" != "--set-mss"
    ensures "--comment" != "-j" && "--comment" != "--set-mss"
    ensures "-j" != "--set-mss"
  {
    assert "-j"[1] == 'j' && "-i"[1] == 'i' && "-o"[1] == 'o' && "-s"[1] == 's' && "-d"[1] == 'd' && "-p"[1] == 'p' && "-m"[1] == 'm';
    assert "--set-mss"[2] == 's' && "--ctstate"[2] == 'c' && "--comment"[2] == 'c' && |"-j"| == 2;
  }

  lemma TagMatches(slot: nat, p: Packet)
    ensures Matches(Tag(slot), p) && Value(Tag(slot), "-j") == None && Value(Tag(slot), "--set-mss") == None
  {
    hide Test;
    OptionsDiffer();
    NoTarget();
    var text := "mvmp:" + Decimal.Render(slot);
    TestsNothing("comment", p);
    TestsNothing(text, p);
    MatchesPair("--comment", text, [], p);
    MatchesPair("-m", "comment", ["--comment", text], p);
    assert ["--comment", text] + [] == ["--comment", text];
    assert Tag(slot) == ["-m", "comment"] + ["--comment", text];
  }

  /** SYN set and RST not: a segment that opens a connection. */
  predicate Opens(p: Packet) {
    "SYN" in p.flags && "RST" !in p.flags
  }

  lemma FlagsAreOpens(p: Packet)
    ensures FlagsMatch("SYN,RST", "SYN", p) <==> Opens(p)
  {
    hide Split;
    assert "SYN" + [','] + "RST" == "SYN,RST";
    SplitFirst("SYN", ',', "RST");
    SplitFirst("RST", ',', "");
    assert "SYN"[0] == 'S' && "RST"[0] == 'R';
    assert Split("SYN,RST", ',') == ["SYN", "RST"] && Split("SYN", ',') == ["SYN"];
    assert "SYN" in Split("SYN,RST", ',') && "RST" in Split("SYN,RST", ',');
  }

  lemma KnownStates()
    ensures Split("RELATED,ESTABLISHED", ',') == ["RELATED", "ESTABLISHED"]
  {
    hide Split;
    assert "RELATED" + [','] + "ESTABLISHED" == "RELATED,ESTABLISHED";
    SplitFirst("RELATED", ',', "ESTABLISHED");
    SplitFirst("ESTABLISHED", ',', "");
  }

  // ---------------------------------------------------------------------------
  // What each rule of a slot says

  lemma MasqueradeArgs(n: Net, slot: nat)
    ensures RuleArgs(n, slot)[0].at == Chain("nat", "POSTROUTING")
    ensures RuleArgs(n, slot)[0].args ==
            ["-s", NetworkCidr(n, slot)] + (["-o", n.egress] + (["-j", "MASQUERADE"] + Tag(slot)))
  {
    hide NetworkCidr, TapName, Tag;
  }

  lemma MasqueradeRule(n: Net, slot: nat, p: Packet)
    ensures var r := RuleArgs(n, slot)[0];
            && (Matches(r.args, p) <==> InNetwork(NetworkCidr(n, slot), p.src) && p.outIface == n.egress)
            && Target(r) == Some("MASQUERADE") && SegmentSize(r) == None && r.at == Chain("nat", "POSTROUTING")
  {
    hide Matches, Test, Value, NetworkCidr, TapName, Tag, InNetwork, RuleArgs;
    OptionsDiffer();
    NoTarget();
    TagMatches(slot, p);
    var c := ["-j", "MASQUERADE"] + Tag(slot);
    var b := ["-o", n.egress] + c;
    TestsNothing("MASQUERADE", p);
    TestsInterface(n.egress, p);
    TestsAddress(NetworkCidr(n, slot), p);
    MatchesPair("-j", "MASQUERADE", Tag(slot), p);
    MatchesPair("-o", n.egress, c, p);
    MatchesPair("-s", NetworkCidr(n, slot), b, p);
    MasqueradeArgs(n, slot);
  }

  lemma OutboundRule(n: Net, slot: nat, p: Packet)
    ensures var r := RuleArgs(n, slot)[1];
            && (Matches(r.args, p) <==> p.inIface == TapName(n, slot) && p.outIface == n.egress)
            && Target(r) == Some("ACCEPT") && SegmentSize(r) == None && r.at == Chain("filter", "FORWARD")
  {
    hide Matches, Test, Value, NetworkCidr, TapName, Tag, InNetwork;
    OptionsDiffer();
    NoTarget();
    TagMatches(slot, p);
    var c := ["-j", "ACCEPT"] + Tag(slot);
    var b := ["-o", n.egress] + c;
    TestsNothing("ACCEPT", p);
    TestsInterface(n.egress, p);
    TestsInterface(TapName(n, slot), p);
    MatchesPair("-j", "ACCEPT", Tag(slot), p);
    MatchesPair("-o", n.egress, c, p);
    MatchesPair("-i", TapName(n, slot), b, p);
    assert RuleArgs(n, slot)[1].args == ["-i", TapName(n, slot)] + b;
  }

  lemma ReplyRule(n: Net, slot: nat, p: Packet)
    ensures var r := RuleArgs(n, slot)[2];
            && (Matches(r.args, p) <==>
                p.outIface == TapName(n, slot) && p.inIface == n.egress && (p.state == "RELATED" || p.state == "ESTABLISHED"))
            && Target(r) == Some("ACCEPT") && SegmentSize(r) == None && r.at == Chain("filter", "FORWARD")
  {
    hide Matches, Test, Value, NetworkCidr, TapName, Tag, InNetwork, Split;
    OptionsDiffer();
    NoTarget();
    TagMatches(slot, p);
    KnownStates();
    var e := ["-j", "ACCEPT"] + Tag(slot);
    var d := ["--ctstate", "RELATED,ESTABLISHED"] + e;
    var c := ["-m", "conntrack"] + d;
    var b := ["-i", n.egress] + c;
    TestsNothing("ACCEPT", p);
    TestsKind("RELATED,ESTABLISHED", p);
    TestsNothing("conntrack", p);
    TestsInterface(n.egress, p);
    TestsInterface(TapName(n, slot), p);
    MatchesPair("-j", "ACCEPT", Tag(slot), p);
    MatchesPair("--ctstate", "RELATED,ESTABLISHED", e, p);
    MatchesPair("-m", "conntrack", d, p);
    MatchesPair("-i", n.egress, c, p);
    MatchesPair("-o", TapName(n, slot), b, p);
    assert RuleArgs(n, slot)[2].args == ["-o", TapName(n, slot)] + b;
  }

  lemma PingRule(n: Net, slot: nat, p: Packet)
    ensures var r := RuleArgs(n, slot)[3];
            && (Matches(r.args, p) <==> p.outIface == TapName(n, slot) && p.inIface == n.egress && p.proto == "icmp")
            && Target(r) == Some("ACCEPT") && SegmentSize(r) == None && r.at == Chain("filter", "FORWARD")
  {
    hide Matches, Test, Value, NetworkCidr, TapName, Tag, InNetwork;
    OptionsDiffer();
    NoTarget();
    TagMatches(slot, p);
    var d := ["-j", "ACCEPT"] + Tag(slot);
    var c := ["-p", "icmp"] + d;
    var b := ["-i", n.egress] + c;
    TestsNothing("ACCEPT", p);
    TestsKind("icmp", p);
    TestsInterface(n.egress, p);
    TestsInterface(TapName(n, slot), p);
    MatchesPair("-j", "ACCEPT", Tag(slot), p);
    MatchesPair("-p", "icmp", d, p);
    MatchesPair("-i", n.egress, c, p);
    MatchesPair("-o", TapName(n, slot), b, p);
    assert RuleArgs(n, slot)[3].args == ["-o", TapName(n, slot)] + b;
  }

  /** The end both segment size rules share. */
  lemma SegmentSizeTail(n: Net, slot: nat, p: Packet)
    ensures var c := ["-j", "TCPMSS"] + (["--set-mss", Decimal.Render(Mss(n.mtu))] + Tag(slot));
            Matches(c, p) && Value(c, "-j") == Some("TCPMSS") && Value(c, "--set-mss") == Some(Decimal.Render(Mss(n.mtu)))
  {
    hide Matches, Test, Value, NetworkCidr, TapName, Tag;
    OptionsDiffer();
    NoTarget();
    TagMatches(slot, p);
    var mss := Decimal.Render(Mss(n.mtu));
    TestsNothing("TCPMSS", p);
    TestsNothing(mss, p);
    MatchesPair("--set-mss", mss, Tag(slot), p);
    MatchesPair("-j", "TCPMSS", ["--set-mss", mss] + Tag(slot), p);
  }

  lemma SizeOutRule(n: Net, slot: nat, p: Packet)
    ensures var r := RuleArgs(n, slot)[4];
            && (Matches(r.args, p) <==>
                p.outIface == n.egress && p.proto == "tcp" && Opens(p) && InNetwork(NetworkCidr(n, slot), p.src))
            && Target(r) == Some("TCPMSS") && SegmentSize(r) == Some(Decimal.Render(Mss(n.mtu)))
            && r.at == Chain("mangle", "FORWARD")
  {
    hide Matches, Test, Value, NetworkCidr, TapName, Tag, InNetwork, FlagsMatch, Opens;
    OptionsDiffer();
    NoTarget();
    SegmentSizeTail(n, slot, p);
    FlagsAreOpens(p);
    var e := ["-j", "TCPMSS"] + (["--set-mss", Decimal.Render(Mss(n.mtu))] + Tag(slot));
    var d := ["-s", NetworkCidr(n, slot)] + e;
    var c := ["--tcp-flags", "SYN,RST", "SYN"] + d;
    var b := ["-p", "tcp"] + c;
    TestsKind("tcp", p);
    TestsInterface(n.egress, p);
    TestsAddress(NetworkCidr(n, slot), p);
    MatchesPair("-s", NetworkCidr(n, slot), e, p);
    MatchesFlags("SYN,RST", "SYN", d, p);
    MatchesPair("-p", "tcp", c, p);
    MatchesPair("-o", n.egress, b, p);
    assert RuleArgs(n, slot)[4].args == ["-o", n.egress] + b;
  }

  lemma SizeInRule(n: Net, slot: nat, p: Packet)
    ensures var r := RuleArgs(n, slot)[5];
            && (Matches(r.args, p) <==>
                p.outIface == TapName(n, slot) && p.proto == "tcp" && Opens(p) && InNetwork(NetworkCidr(n, slot), p.dst))
            && Target(r) == Some("TCPMSS") && SegmentSize(r) == Some(Decimal.Render(Mss(n.mtu)))
            && r.at == Chain("mangle", "FORWARD")
  {
    hide Matches, Test, Value, NetworkCidr, TapName, Tag, InNetwork, FlagsMatch, Opens;
    OptionsDiffer();
    NoTarget();
    SegmentSizeTail(n, slot, p);
    FlagsAreOpens(p);
    var e := ["-j", "TCPMSS"] + (["--set-mss", Decimal.Render(Mss(n.mtu))] + Tag(slot));
    var d := ["-d", NetworkCidr(n, slot)] + e;
    var c := ["--tcp-flags", "SYN,RST", "SYN"] + d;
    var b := ["-p", "tcp"] + c;
    TestsKind("tcp", p);
    TestsInterface(TapName(n, slot), p);
    TestsAddress(NetworkCidr(n, slot), p);
    MatchesPair("-d", NetworkCidr(n, slot), e, p);
    MatchesFlags("SYN,RST", "SYN", d, p);
    MatchesPair("-p", "tcp", c, p);
    MatchesPair("-o", TapName(n, slot), b, p);
    assert RuleArgs(n, slot)[5].args == ["-o", TapName(n, slot)] + b;
  }

  // ---------------------------------------------------------------------------
  // What a slot's rules let through

  ghost predicate SomeRule(l: seq<Rule>, p: Packet, target: string, size: Option<string>) {
    exists r :: r in l && Matches(r.args, p) && Target(r) == Some(target) && SegmentSize(r) == size
  }

  /** The guest reaches the outside and hears its answers:
      what comes from its tap for the egress interface is accepted, and masqueraded if it
      comes from the slot's network; answers and ICMP from outside are accepted; segments
      that open connections, in both directions, get the segment size. */
  ghost predicate Served(n: Net, slot: nat, t: Tables) {
    forall p: Packet :: ServedPacket(n, slot, t, p)
  }

  ghost predicate ServedPacket(n: Net, slot: nat, t: Tables, p: Packet) {
    var tap, net := TapName(n, slot), NetworkCidr(n, slot);
    var forward, outgoing, mangle :=
      Rules(t, Chain("filter", "FORWARD")), Rules(t, Chain("nat", "POSTROUTING")), Rules(t, Chain("mangle", "FORWARD"));
    && (p.inIface == tap && p.outIface == n.egress ==> Accepted(forward, p))
    && (p.outIface == n.egress && InNetwork(net, p.src) ==> SomeRule(outgoing, p, "MASQUERADE", None))
    && (p.inIface == n.egress && p.outIface == tap && p.state in {"RELATED", "ESTABLISHED"} ==> Accepted(forward, p))
    && (p.inIface == n.egress && p.outIface == tap && p.proto == "icmp" ==> Accepted(forward, p))
    && (p.proto == "tcp" && Opens(p) && p.outIface == n.egress && InNetwork(net, p.src) ==>
          SomeRule(mangle, p, "TCPMSS", Some(Decimal.Render(Mss(n.mtu)))))
    && (p.proto == "tcp" && Opens(p) && p.outIface == tap && InNetwork(net, p.dst) ==>
          SomeRule(mangle, p, "TCPMSS", Some(Decimal.Render(Mss(n.mtu)))))
  }

  /** That follows from the slot's rules being there, its forwarding rules where they decide. */
  lemma ServedBy(n: Net, slot: nat, t: Tables, p: Packet)
    requires RuleArgs(n, slot)[0] in Rules(t, Chain("nat", "POSTROUTING"))
    requires RuleArgs(n, slot)[4] in Rules(t, Chain("mangle", "FORWARD"))
    requires RuleArgs(n, slot)[5] in Rules(t, Chain("mangle", "FORWARD"))
    requires forall j :: 1 <= j <= 3 && Matches(RuleArgs(n, slot)[j].args, p) ==> Accepted(Rules(t, Chain("filter", "FORWARD")), p)
    ensures ServedPacket(n, slot, t, p)
  {
    hide RuleArgs, Matches, Target, SegmentSize, InNetwork, Accepted, Rules;
    MasqueradeRule(n, slot, p);
    OutboundRule(n, slot, p);
    ReplyRule(n, slot, p);
    PingRule(n, slot, p);
    SizeOutRule(n, slot, p);
    SizeInRule(n, slot, p);
  }

  /** The slot's rules admit nothing else from outside: a packet that begins something new
      and is not ICMP matches none of the forwarding rules. */
  lemma NewFromOutsideUnmatched(n: Net, slot: nat, p: Packet, j: nat)
    requires p.inIface == n.egress && p.outIface == TapName(n, slot) && p.inIface != p.outIface
    requires p.state != "RELATED" && p.state != "ESTABLISHED" && p.proto != "icmp"
    requires 1 <= j <= 3
    ensures !Matches(RuleArgs(n, slot)[j].args, p)
  {
    hide RuleArgs, Matches, Target, SegmentSize;
    OutboundRule(n, slot, p);
    ReplyRule(n, slot, p);
    PingRule(n, slot, p);
  }

  /** They concern nobody else: a packet that touches neither the slot's tap nor its network
      matches none of them. */
  lemma OthersUnmatched(n: Net, slot: nat, p: Packet, j: nat)
    requires p.inIface != TapName(n, slot) && p.outIface != TapName(n, slot)
    requires !InNetwork(NetworkCidr(n, slot), p.src) && !InNetwork(NetworkCidr(n, slot), p.dst)
    requires j < 6
    ensures !Matches(RuleArgs(n, slot)[j].args, p)
  {
    hide RuleArgs, Matches, Target, SegmentSize, InNetwork;
    MasqueradeRule(n, slot, p);
    OutboundRule(n, slot, p);
    ReplyRule(n, slot, p);
    PingRule(n, slot, p);
    SizeOutRule(n, slot, p);
    SizeInRule(n, slot, p);
  }

  /** In particular not the traffic of another slot with the outside. */
  lemma OtherSlotUnmatched(n: Net, a: nat, b: nat, slot: nat, other: nat, p: Packet, j: nat)
    requires Base(n, a, b) && slot < 256 && other < 256 && slot != other && j < 6
    requires TapName(n, slot) != n.egress
    requires || (p.inIface == TapName(n, other) && p.outIface == n.egress
                 && InNetwork(NetworkCidr(n, other), p.src) && !InNetwork(NetworkCidr(n, slot), p.dst))
             || (p.outIface == TapName(n, other) && p.inIface == n.egress
                 && InNetwork(NetworkCidr(n, other), p.dst) && !InNetwork(NetworkCidr(n, slot), p.src))
    ensures !Matches(RuleArgs(n, slot)[j].args, p)
  {
    hide RuleArgs, Matches, ReadNetwork, Contains;
    SlotsDistinct(n, slot, other);
    NetworksDisjointIff(n, a, b, slot, other);
    OthersUnmatched(n, slot, p, j);
  }

  /** What is sent from a slot's tap with another address than the slot's is not masqueraded
      by its rule. */
  lemma ForeignSourceNotMasqueraded(n: Net, slot: nat, p: Packet)
    requires !InNetwork(NetworkCidr(n, slot), p.src)
    ensures !Matches(RuleArgs(n, slot)[0].args, p)
  {
    hide RuleArgs, Matches, InNetwork;
    MasqueradeRule(n, slot, p);
  }

  // ---------------------------------------------------------------------------
  // After an undisturbed setup

  lemma RulesInstall(t: Tables, r: Rule, c: Chain)
    ensures Rules(Install(t, r), c) ==
            if r.at != c then Rules(t, c) else if c.table == "filter" then [r] + Rules(t, c) else Rules(t, c) + [r]
  {
  }

  lemma InstallNext(rules: seq<Rule>, t: Tables, i: nat)
    requires |rules| == 6 && i < 6
    ensures Finish(rules, t, Installing(i)) ==
            if i < 5 then Finish(rules, Install(t, rules[i]), Installing(i + 1)) else Install(t, rules[i])
  {
    hide Finish, Install;
    FinishUnfolds(rules, t, Installing(i));
    FinishUnfolds(rules, Install(t, rules[i]), Finished);
  }

  lemma InstallThree(t: Tables, x: Rule, y: Rule, z: Rule, c: Chain)
    requires x.at == y.at == z.at == Chain("filter", "FORWARD")
    ensures var u := Install(Install(Install(t, x), y), z);
            Rules(u, c) == if c == x.at then [z, y, x] + Rules(t, c) else Rules(t, c)
  {
    hide Install, Rules;
    var t1 := Install(t, x);
    var t2 := Install(t1, y);
    RulesInstall(t, x, c);
    RulesInstall(t1, y, c);
    RulesInstall(t2, z, c);
    if c == x.at {
      assert [z] + ([y] + ([x] + Rules(t, c))) == [z, y, x] + Rules(t, c);
    }
  }

  lemma InstallTwo(t: Tables, x: Rule, y: Rule, c: Chain)
    requires x.at == y.at == Chain("mangle", "FORWARD")
    ensures var u := Install(Install(t, x), y);
            Rules(u, c) == if c == x.at then Rules(t, c) + [x, y] else Rules(t, c)
  {
    hide Install, Rules;
    var t1 := Install(t, x);
    RulesInstall(t, x, c);
    RulesInstall(t1, y, c);
    assert "filter"[0] != "mangle"[0];
    if c == x.at {
      assert Rules(t, c) + [x] + [y] == Rules(t, c) + [x, y];
    }
  }

  lemma AllInstalled(rules: seq<Rule>, t: Tables)
    requires |rules| == 6
    ensures Finish(rules, t, Installing(0)) ==
            Install(Install(Install(Install(Install(Install(t, rules[0]), rules[1]), rules[2]), rules[3]), rules[4]), rules[5])
  {
    hide Finish, Install;
    var t1 := Install(t, rules[0]);
    var t2 := Install(t1, rules[1]);
    var t3 := Install(t2, rules[2]);
    var t4 := Install(t3, rules[3]);
    InstallNext(rules, t, 0);
    InstallNext(rules, t1, 1);
    InstallNext(rules, t2, 2);
    InstallNext(rules, t3, 3);
    InstallNext(rules, t4, 4);
    InstallNext(rules, Install(t4, rules[4]), 5);
  }

  /** The forwarding rules stand at the head of their chain, the last installed first; the
      others at the end of theirs. */
  lemma InstalledLists(n: Net, slot: nat, t: Tables)
    ensures var r, u := RuleArgs(n, slot), Finish(RuleArgs(n, slot), t, Installing(0));
            && Rules(u, Chain("filter", "FORWARD")) == [r[3], r[2], r[1]] + Rules(t, Chain("filter", "FORWARD"))
            && Rules(u, Chain("nat", "POSTROUTING")) == Rules(t, Chain("nat", "POSTROUTING")) + [r[0]]
            && Rules(u, Chain("mangle", "FORWARD")) == Rules(t, Chain("mangle", "FORWARD")) + [r[4], r[5]]
  {
    hide RuleArgs, Finish, Install, Rules;
    var r := RuleArgs(n, slot);
    RuleShapes(n, slot);
    AllInstalled(r, t);
    var t1 := Install(t, r[0]);
    var t4 := Install(Install(Install(t1, r[1]), r[2]), r[3]);
    ChainsDiffer();
    EachChain(t, t1, t4, r, NAT);
    EachChain(t, t1, t4, r, FORWARD);
    EachChain(t, t1, t4, r, MANGLE);
  }

  lemma ChainsDiffer()
    ensures NAT != FORWARD && NAT != MANGLE && FORWARD != MANGLE && NAT.table != "filter"
    ensures NAT == Chain("nat", "POSTROUTING") && FORWARD == Chain("filter", "FORWARD") && MANGLE == Chain("mangle", "FORWARD")
  {
    assert "nat"[0] != "filter"[0] && "nat"[0] != "mangle"[0] && "filter"[0] != "mangle"[0];
  }

  lemma EachChain(t: Tables, t1: Tables, t4: Tables, r: seq<Rule>, c: Chain)
    requires |r| == 6 && r[0].at == NAT && r[1].at == r[2].at == r[3].at == FORWARD && r[4].at == r[5].at == MANGLE
    requires t1 == Install(t, r[0]) && t4 == Install(Install(Install(t1, r[1]), r[2]), r[3])
    ensures Rules(t1, c) == if c == NAT then Rules(t, c) + [r[0]] else Rules(t, c)
    ensures Rules(t4, c) == if c == FORWARD then [r[3], r[2], r[1]] + Rules(t1, c) else Rules(t1, c)
    ensures Rules(Install(Install(t4, r[4]), r[5]), c) == if c == MANGLE then Rules(t4, c) + [r[4], r[5]] else Rules(t4, c)
  {
    hide Install, Rules;
    ChainsDiffer();
    RulesInstall(t, r[0], c);
    InstallThree(t1, r[1], r[2], r[3], c);
    InstallTwo(t4, r[4], r[5], c);
  }

  lemma FirstOf(x: Rule, l: seq<Rule>, p: Packet)
    ensures FirstMatch([x] + l, p) == if Matches(x.args, p) then Some(x) else FirstMatch(l, p)
  {
    assert ([x] + l)[1..] == l;
  }

  lemma FirstOfThree(x: Rule, y: Rule, z: Rule, rest: seq<Rule>, p: Packet)
    requires Matches(x.args, p) || Matches(y.args, p) || Matches(z.args, p)
    requires Target(x) == Target(y) == Target(z) == Some("ACCEPT")
    ensures Accepted([x, y, z] + rest, p)
  {
    hide Matches, Target, FirstMatch;
    FirstOf(z, rest, p);
    FirstOf(y, [z] + rest, p);
    FirstOf(x, [y] + ([z] + rest), p);
    assert [x, y, z] + rest == [x] + ([y] + ([z] + rest));
  }

  /** Undisturbed, a setup leaves its guest served. */
  lemma SetupServes(n: Net, slot: nat, t: Tables)
    ensures Served(n, slot, Finish(RuleArgs(n, slot), t, Deleting(true, 0, 0)))
  {
    hide RuleArgs, Finish, Rules, Accepted, Matches, Target, SegmentSize, ServedPacket;
    var r := RuleArgs(n, slot);
    var cleared := Finish(r, t, Deleting(false, 0, 0));
    var u := Finish(r, t, Deleting(true, 0, 0));
    SetupIsTeardownFirst(r, t, 0, 0);
    InstalledLists(n, slot, cleared);
    forall p: Packet ensures ServedPacket(n, slot, u, p) {
      OutboundRule(n, slot, p);
      ReplyRule(n, slot, p);
      PingRule(n, slot, p);
      if Matches(r[1].args, p) || Matches(r[2].args, p) || Matches(r[3].args, p) {
        FirstOfThree(r[3], r[2], r[1], Rules(cleared, Chain("filter", "FORWARD")), p);
      }
      ServedBy(n, slot, u, p);
    }
  }
}
