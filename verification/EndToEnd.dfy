/** From the shell through the hub to a client's terminal. */
module EndToEnd {
  import opened Basics
  import opened Utf8
  import opened Terminal
  import opened LineDisplay
  import opened QuietOutput
  import opened MockShell
  import ShellSpec
  import Queries
  import HubSpec

  // ---------------------------------------------------------------------------
  // Quiet output holds no query

  lemma CharBytes(c: char)
    ensures c as int < 0x80 ==> EncodeChar(c) == [c as int]
    ensures c != Terminal.ESC ==> forall i :: 0 <= i < |EncodeChar(c)| ==> EncodeChar(c)[i] != Queries.ESC
  {
  }

  lemma {:induction false} QueryFreePast(b: seq<byte>, rest: seq<byte>)
    requires forall i :: 0 <= i < |b| ==> b[i] != Queries.ESC
    requires Queries.QueryFree(rest)
    ensures Queries.QueryFree(b + rest)
    decreases |b|
  {
    hide Queries.QueryFree, Queries.ReadsBracket;
    if b == [] {
      assert b + rest == rest;
    } else {
      var tail := b[1..] + rest;
      QueryFreePast(b[1..], rest);
      assert b + rest == [b[0]] + tail;
      Queries.QueryFreeStep(b[0], tail);
      Queries.MatchReads([b[0]] + tail);
    }
  }

  /** Bytes of quiet output hold no query, and do not end one begun before. */
  lemma {:induction false} QuietFree(mode: Mode, s: string)
    requires Quiet(mode, s)
    ensures Queries.QueryFree(Encode(s))
    ensures mode.Escape? ==> !Queries.ReadsBracket(Encode(s))
    ensures mode.Csi? ==> !Queries.ReadsFinal(Encode(s))
    decreases s
  {
    hide Queries.QueryFree;
    if s == "" {
      NothingFree();
    } else {
      CharBytes(s[0]);
      var rest := Encode(s[1..]);
      assert Encode(s) == EncodeChar(s[0]) + rest;
      if mode == Ground && s[0] == Terminal.ESC {
        QuietFree(Escape, s[1..]);
        assert Encode(s) == [Queries.ESC] + rest && Encode(s)[1..] == rest;
        Queries.QueryFreeStep(Queries.ESC, rest);
        Queries.MatchReads(Encode(s));
      } else {
        QuietFree(Following(mode, s[0]), s[1..]);
        QueryFreePast(EncodeChar(s[0]), rest);
        assert mode != Ground ==> Encode(s)[0] == s[0] as int && Encode(s)[1..] == rest;
      }
    }
  }

  function Following(mode: Mode, c: char): Mode {
    match mode
    case Ground => Ground
    case Escape => Mode.Csi("")
    case Csi(_) => if Terminal.IsParam(c) then mode else Ground
  }

  lemma NothingFree()
    ensures Queries.QueryFree(Encode("")) && Encode("") == []
  {
  }

  lemma PrefixFree(a: seq<byte>, b: seq<byte>)
    requires Queries.QueryFree(a + b)
    ensures Queries.QueryFree(a)
  {
    forall i, j ensures !Queries.Query(a, i, j) {
      if j <= |a| {
        Queries.QueryPrefix(a, b, i, j);
      }
    }
  }

  // ---------------------------------------------------------------------------
  // What a client that is up to date has received

  lemma {:induction false} ConcatSplit<T>(log: seq<seq<T>>, n: nat)
    requires n <= |log|
    ensures Concat(log[..n]) + Concat(log[n..]) == Concat(log)
    decreases |log| - n
  {
    if n == |log| {
      assert log[..n] == log && log[n..] == [];
    } else {
      var m := |log| - 1;
      assert log[..m][..n] == log[..n] && log[..m][n..] == log[n..][..m - n];
      ConcatSplit(log[..m], n);
      assert log[n..][m - n] == log[m];
      Associative(Concat(log[..n]), Concat(log[..m][n..]), log[m]);
    }
  }

  /** Everything sent on has reached the client: it waits for its queue, which is empty. */
  predicate UpToDate<Q>(w: HubSpec.World<Q>, q: Q) {
    && q in w.hub.subs && q in w.clients && w.clients[q].phase.Pumping?
    && q in w.hub.queues && w.hub.queues[q] == []
  }

  lemma HistoryWhole(log: seq<HubSpec.Chunk>, n: nat, limit: nat)
    requires n <= |log| && |Concat(log[..n])| <= limit && Queries.QueryFree(Concat(log))
    ensures HubSpec.History(log, n, limit) == Concat(log[..n])
  {
    hide Queries.QueryFree, Queries.Strip;
    ConcatSplit(log, n);
    PrefixFree(Concat(log[..n]), Concat(log[n..]));
    Queries.StripFixedIff(Concat(log[..n]));
  }

  /** A replaying client that is up to date has received every byte published, if the
      output holds no query and the ring had not overflowed when it attached. */
  lemma ReceivedEverything<Q>(limit: nat, actions: seq<HubSpec.Action<Q>>, q: Q)
    requires var w := HubSpec.Run(HubSpec.Init(limit), actions);
             && UpToDate(w, q) && w.clients[q].replay && Queries.QueryFree(Concat(w.log))
             && |Concat(HubSpec.Before(w.log, w.clients[q].start))| <= limit
    ensures var w := HubSpec.Run(HubSpec.Init(limit), actions);
            HubSpec.Received(w.clients[q]) == Concat(w.log)
  {
    hide HubSpec.Run, HubSpec.History, Queries.QueryFree;
    HubSpec.InitOk<Q>(limit);
    HubSpec.RunKeeps(HubSpec.Init(limit), actions);
    var w := HubSpec.Run(HubSpec.Init(limit), actions);
    var c := w.clients[q];
    assert HubSpec.ClientOk(c, w.hub.queues[q], true, w.log, limit);
    assert c.got == HubSpec.Pipeline(c, []) == HubSpec.Wrap(w.log[c.start..]);
    HubSpec.BytesOfWrap(w.log[c.start..]);
    HistoryWhole(w.log, c.start, limit);
    ConcatSplit(w.log, c.start);
  }

  /** The terminal of a browser that attached to the console of the simulated shell, with
      replay and before the ring overflowed, shows the prompt and the line being edited,
      whenever the browser is up to date and the shell's own screen is right. */
  lemma BrowserShowsLine<Q>(vm: MockVM, limit: nat, actions: seq<HubSpec.Action<Q>>, q: Q)
    requires vm.Consistent() && vm.Shown()
    requires var w := HubSpec.Run(HubSpec.Init(limit), actions);
             && Concat(w.log) == Encode(vm.output)
             && UpToDate(w, q) && w.clients[q].replay
             && |Concat(HubSpec.Before(w.log, w.clients[q].start))| <= limit
    ensures var received := Decode(HubSpec.Received(HubSpec.Run(HubSpec.Init(limit), actions).clients[q]));
            received.Some? && Shows(Run(BLANK, received.value), PromptCells(vm.name, vm.cwd), vm.line, vm.pos)
  {
    hide HubSpec.Run, Queries.QueryFree, Shows;
    QuietFree(Ground, vm.output);
    ReceivedEverything(limit, actions, q);
    DecodeIffEncode(Encode(vm.output), vm.output);
  }

  // ---------------------------------------------------------------------------
  // Whole sessions, watched

  /** All bytes a run of the hub publishes. */
  function PublishedBytes<Q>(actions: seq<HubSpec.Action<Q>>): seq<byte> {
    if actions == [] then []
    else
      var last := actions[|actions| - 1];
      PublishedBytes(actions[..|actions| - 1]) + if last.DoPublish? then last.data else []
  }

  lemma {:induction false} LogIsPublished<Q>(limit: nat, actions: seq<HubSpec.Action<Q>>)
    ensures Concat(HubSpec.Run(HubSpec.Init(limit), actions).log) == PublishedBytes(actions)
  {
    if actions != [] {
      var front, last := actions[..|actions| - 1], actions[|actions| - 1];
      LogIsPublished(limit, front);
      StepLogs(HubSpec.Run(HubSpec.Init(limit), front), last);
    }
  }

  lemma StepLogs<Q>(w: HubSpec.World<Q>, a: HubSpec.Action<Q>)
    ensures Concat(HubSpec.Step(w, a).log) == Concat(w.log) + if a.DoPublish? then a.data else []
  {
    hide HubSpec.Publish, HubSpec.Close;
    var log' := HubSpec.Step(w, a).log;
    if a.DoPublish? && a.data != [] {
      assert log'[..|log'| - 1] == w.log && log'[|log'| - 1] == a.data;
    }
  }

  /** The run publishes exactly this output, in any pieces and between any steps of any
      clients, and `q` has watched it from before the ring overflowed and is up to date. */
  ghost predicate Watched<Q>(limit: nat, actions: seq<HubSpec.Action<Q>>, q: Q, output: string) {
    var w := HubSpec.Run(HubSpec.Init(limit), actions);
    && PublishedBytes(actions) == Encode(output)
    && UpToDate(w, q) && w.clients[q].replay
    && |Concat(HubSpec.Before(w.log, w.clients[q].start))| <= limit
  }

  /** The terminal of client `q` shows this line under this prompt. */
  ghost predicate Sees<Q>(limit: nat, actions: seq<HubSpec.Action<Q>>, q: Q, prompt: string, line: string, pos: nat) {
    var w := HubSpec.Run(HubSpec.Init(limit), actions);
    && q in w.clients
    && var received := Decode(HubSpec.Received(w.clients[q]));
    received.Some? && Shows(Run(BLANK, received.value), prompt, line, pos)
  }

  /** One power-on session, with any input cut anywhere: whoever watched its output, however
      that was published and whoever else came and went, sees the line being edited. */
  method WatchedSession<Q(!new)>(env: ShellSpec.Env, name: string, bootLines: seq<Item>, chunks: seq<seq<byte>>)
    returns (vm: MockVM)
    requires Glyphs(name) && WellFormed(bootLines)
    ensures fresh(vm) && vm.Consistent()
    ensures vm.State() == EnteredChunks(env, ShellSpec.Shell(ShellSpec.EMPTY, [], 0, "/root", 0), chunks)
    ensures forall limit: nat, actions: seq<HubSpec.Action<Q>>, q: Q :: Watched(limit, actions, q, vm.output) ==>
              Sees(limit, actions, q, PromptCells(vm.name, vm.cwd), vm.line, vm.pos)
  {
    vm := Session(env, name, bootLines, chunks);
    forall limit: nat, actions: seq<HubSpec.Action<Q>>, q: Q | Watched(limit, actions, q, vm.output)
      ensures Sees(limit, actions, q, PromptCells(vm.name, vm.cwd), vm.line, vm.pos)
    {
      WatcherSees(vm, limit, actions, q);
    }
  }

  lemma WatcherSees<Q>(vm: MockVM, limit: nat, actions: seq<HubSpec.Action<Q>>, q: Q)
    requires vm.Consistent() && vm.Shown() && Watched(limit, actions, q, vm.output)
    ensures Sees(limit, actions, q, PromptCells(vm.name, vm.cwd), vm.line, vm.pos)
  {
    hide HubSpec.Run, Shows;
    LogIsPublished(limit, actions);
    BrowserShowsLine(vm, limit, actions, q);
  }
}
