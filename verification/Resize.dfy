/** The bridge that tells a playground its terminal's size: a flag set by SIGWINCH, and
    a watcher that waits, clears, sleeps, clears and sends. */
module Resize {
  import opened Basics

  datatype Size = Size(rows: nat, cols: nat)

  /** The size to report for what the terminal says; zeros mean it does not know. */
  function WinSize(raw: Size): Size {
    if raw.rows != 0 && raw.cols != 0 then raw else Size(24, 80)
  }

  /** Before the first report; waiting for the flag; asleep; sending. */
  datatype At = Starting | Waiting | Sleeping | Sending

  datatype Watcher = Watcher(flag: bool, at: At, last: Option<Size>)

  datatype Outcome = Outcome(w: Watcher, message: Option<Size>)

  /** Report the size unless it is the one last reported. */
  function Report(w: Watcher, raw: Size): Outcome {
    var size := WinSize(raw);
    if w.last == Some(size) then Outcome(w.(at := Waiting), None)
    else Outcome(w.(last := Some(size), at := Sending), Some(size))
  }

  function Woken(w: Watcher): Watcher {
    w.(flag := false, at := Sleeping)
  }

  function Slept(w: Watcher, raw: Size): Outcome {
    Report(w.(flag := false), raw)
  }

  // ---------------------------------------------------------------------------
  // Runs

  datatype Message = Message(size: Size, delivered: bool)

  /** The terminal, whether a SIGWINCH is on its way, the watcher, and all it has sent. */
  datatype State = State(raw: Size, pending: bool, w: Watcher, sent: seq<Message>)

  datatype Action =
    | Change(raw: Size)             // the terminal takes another size
    | Spurious                      // a SIGWINCH without a change
    | Callback                      // the event loop runs the signal's callback
    | Start(delivered: bool)        // the first report
    | Wake
    | SleepEnds(delivered: bool)
    | SendEnds

  predicate Enabled(s: State, a: Action) {
    match a
    case Change(raw) => raw != s.raw
    case Spurious => true
    case Callback => s.pending
    case Start(_) => s.w.at.Starting?
    case Wake => s.w.at.Waiting? && s.w.flag
    case SleepEnds(_) => s.w.at.Sleeping?
    case SendEnds => s.w.at.Sending?
  }

  function Log(s: State, o: Outcome, delivered: bool): State {
    s.(w := o.w, sent := if o.message.Some? then s.sent + [Message(o.message.value, delivered)] else s.sent)
  }

  function Step(s: State, a: Action): State {
    if !Enabled(s, a) then s
    else match a
      case Change(raw) => s.(raw := raw, pending := true)
      case Spurious => s.(pending := true)
      case Callback => s.(pending := false, w := s.w.(flag := true))
      case Start(delivered) => Log(s, Report(s.w, s.raw), delivered)
      case Wake => s.(w := Woken(s.w))
      case SleepEnds(delivered) => Log(s, Slept(s.w, s.raw), delivered)
      case SendEnds => s.(w := s.w.(at := Waiting))
  }

  function Run(s: State, actions: seq<Action>): State {
    if actions == [] then s else Step(Run(s, actions[..|actions| - 1]), actions[|actions| - 1])
  }

  function Init(raw: Size): State {
    State(raw, false, Watcher(false, Starting, None), [])
  }

  /** The watcher waits and nothing is going to wake it. */
  predicate AtRest(s: State) {
    s.w.at.Waiting? && !s.w.flag && !s.pending
  }

  // ---------------------------------------------------------------------------
  // No resize is lost

  /** A terminal size not yet reported has a signal, the flag or a sleeping watcher
      that will report it. */
  predicate Noticed(s: State) {
    || s.w.at.Starting? || s.w.at.Sleeping? || s.pending || s.w.flag
    || s.w.last == Some(WinSize(s.raw))
  }

  /** `last` is what was last sent, and no message repeats the one before it. */
  predicate Logged(s: State) {
    && (s.sent == [] ==> s.w.last.None? && s.w.at.Starting?)
    && (s.sent != [] ==> s.w.last == Some(s.sent[|s.sent| - 1].size) && !s.w.at.Starting?)
    && forall i, j :: 0 <= i && j == i + 1 < |s.sent| ==> s.sent[i].size != s.sent[j].size
  }

  lemma StepKeeps(s: State, a: Action)
    requires Noticed(s) && Logged(s)
    ensures Noticed(Step(s, a)) && Logged(Step(s, a))
  {
  }

  lemma {:induction false} RunKeeps(raw: Size, actions: seq<Action>)
    ensures Noticed(Run(Init(raw), actions)) && Logged(Run(Init(raw), actions))
  {
    hide Step;
    if actions != [] {
      RunKeeps(raw, actions[..|actions| - 1]);
      StepKeeps(Run(Init(raw), actions[..|actions| - 1]), actions[|actions| - 1]);
    }
  }

  /** Whatever the interleaving: at rest the last message carries the terminal's current
      size, or 24 x 80 if the terminal does not know it, and no message ever repeats the one
      before it. */
  lemma NoResizeLost(raw: Size, actions: seq<Action>)
    ensures var s := Run(Init(raw), actions);
            && (AtRest(s) ==>
                  && s.sent != []
                  && (s.raw.rows != 0 && s.raw.cols != 0 ==> s.sent[|s.sent| - 1].size == s.raw)
                  && (s.raw.rows == 0 || s.raw.cols == 0 ==> s.sent[|s.sent| - 1].size == Size(24, 80))
                  && s.sent[|s.sent| - 1].size == WinSize(s.raw))
            && forall i, j :: 0 <= i && j == i + 1 < |s.sent| ==> s.sent[i].size != s.sent[j].size
  {
    hide Run;
    RunKeeps(raw, actions);
  }

  /** The size the terminal has after a run: the one it took last. */
  lemma {:induction false} SizeIsLastTaken(s: State, actions: seq<Action>)
    requires forall i :: 0 <= i < |actions| ==> !actions[i].Change?
    ensures Run(s, actions).raw == s.raw
  {
    if actions != [] {
      SizeIsLastTaken(s, actions[..|actions| - 1]);
    }
  }

  lemma {:induction false} RunJoins(s: State, a: seq<Action>, b: seq<Action>)
    ensures Run(s, a + b) == Run(Run(s, a), b)
  {
    if b == [] {
      assert a + b == a;
    } else {
      var n := |b| - 1;
      assert (a + b)[..|a| + n] == a + b[..n] && (a + b)[|a| + n] == b[n];
      RunJoins(s, a, b[..n]);
    }
  }

  lemma {:induction false} SentOnlyGrows(s: State, actions: seq<Action>)
    ensures s.sent <= Run(s, actions).sent
  {
    if actions != [] {
      SentOnlyGrows(s, actions[..|actions| - 1]);
    }
  }

  /** A terminal that takes another known size, and keeps it until the bridge is at rest,
      has it reported: unless that was the last size reported before, by a new message. */
  lemma ChangeIsReported(raw: Size, before: seq<Action>, size: Size, after: seq<Action>)
    requires size.rows != 0 && size.cols != 0 && forall i :: 0 <= i < |after| ==> !after[i].Change?
    ensures var s := Run(Init(raw), before);
            var t := Run(Init(raw), before + [Change(size)] + after);
            AtRest(t) ==>
              && s.sent <= t.sent && t.sent != [] && t.sent[|t.sent| - 1].size == size
              && (s.sent == [] || s.sent[|s.sent| - 1].size != size ==> |s.sent| < |t.sent|)
  {
    var s := Run(Init(raw), before);
    var front := before + [Change(size)];
    assert front[..|before|] == before;
    RunJoins(Init(raw), front, after);
    SizeIsLastTaken(Run(Init(raw), front), after);
    SentOnlyGrows(Run(Init(raw), front), after);
    NoResizeLost(raw, front + after);
  }

  /** Once the terminal keeps its size, a handful of steps brings any state to rest. */
  lemma Settles(s: State)
    ensures var t := Run(s, Settling());
            AtRest(t) && t.raw == s.raw
  {
    hide Step, AtRest;
    RunEight(s, Settling());
    BackToWaiting(s);
    var t := Step(Step(Step(Step(Step(s, Callback), Start(true)), SendEnds), SleepEnds(true)), SendEnds);
    LastRound(t);
  }

  lemma BackToWaiting(s: State)
    ensures var t := Step(Step(Step(Step(Step(s, Callback), Start(true)), SendEnds), SleepEnds(true)), SendEnds);
            t.w.at.Waiting? && !t.pending && t.raw == s.raw
  {
    var t := Step(Step(Step(s, Callback), Start(true)), SendEnds);
    assert !t.pending && t.raw == s.raw && (t.w.at.Waiting? || t.w.at.Sleeping?);
  }

  lemma LastRound(s: State)
    requires s.w.at.Waiting? && !s.pending
    ensures var t := Step(Step(Step(s, Wake), SleepEnds(true)), SendEnds);
            AtRest(t) && t.raw == s.raw
  {
  }

  function Settling(): seq<Action> {
    [Callback, Start(true), SendEnds, SleepEnds(true), SendEnds, Wake, SleepEnds(true), SendEnds]
  }

  lemma RunOneMore(s: State, a: seq<Action>, k: nat)
    requires k < |a|
    ensures Run(s, a[..k + 1]) == Step(Run(s, a[..k]), a[k])
  {
    assert a[..k + 1][..k] == a[..k];
  }

  lemma RunEight(s: State, a: seq<Action>)
    requires |a| == 8
    ensures Run(s, a) ==
            Step(Step(Step(Step(Step(Step(Step(Step(s, a[0]), a[1]), a[2]), a[3]), a[4]), a[5]), a[6]), a[7])
  {
    hide Step;
    forall k | 0 <= k < 8 ensures Run(s, a[..k + 1]) == Step(Run(s, a[..k]), a[k]) {
      RunOneMore(s, a, k);
    }
    assert a[..8] == a && a[..0] == [];
    assert Run(s, a[..4]) == Step(Step(Step(Step(s, a[0]), a[1]), a[2]), a[3]);
  }

  // ---------------------------------------------------------------------------
  // Bursts

  /** What happens to the bridge from outside while its watcher sleeps. */
  predicate Outside(a: Action) {
    a.Change? || a.Spurious? || a.Callback?
  }

  lemma {:induction false} OutsideKeeps(s: State, actions: seq<Action>)
    requires forall i :: 0 <= i < |actions| ==> Outside(actions[i])
    ensures var t := Run(s, actions);
            t.sent == s.sent && t.w.(flag := false) == s.w.(flag := false)
  {
    if actions != [] {
      OutsideKeeps(s, actions[..|actions| - 1]);
    }
  }

  /** However many resizes and signals arrive during a sleep, one message at most comes of
      them, with the last size; and their callbacks do not wake the watcher again. */
  lemma BurstToldOnce(s: State, burst: seq<Action>, delivered: bool)
    requires s.w.at.Sleeping? && forall i :: 0 <= i < |burst| ==> Outside(burst[i])
    ensures var t := Run(s, burst);
            var u := Step(t, SleepEnds(delivered));
            && !u.w.flag && u.w.last == Some(WinSize(t.raw))
            && u.sent == s.sent + if s.w.last == Some(WinSize(t.raw)) then [] else [Message(WinSize(t.raw), delivered)]
  {
    OutsideKeeps(s, burst);
  }

  // ---------------------------------------------------------------------------
  // Failed sends

  /** The size the playground was last told. */
  function Told(sent: seq<Message>): Option<Size> {
    if sent == [] then None
    else if sent[|sent| - 1].delivered then Some(sent[|sent| - 1].size)
    else Told(sent[..|sent| - 1])
  }

  /** The playground has been told what the bridge believes it has. */
  predicate Synced(s: State) {
    Told(s.sent) == s.w.last
  }

  /** A step that has a size to send. */
  predicate Sends(s: State, a: Action) {
    Enabled(s, a) && (a.Start? || a.SleepEnds?) && s.w.last != Some(WinSize(s.raw))
  }

  /** One whose send fails. */
  predicate LosesSend(s: State, a: Action) {
    Sends(s, a) && !a.delivered
  }

  /** A send that goes through brings bridge and playground together whatever was before;
      one that fails does so only if the playground was told that same size earlier; no
      other step makes a difference. */
  lemma SendDecides(s: State, a: Action)
    ensures Synced(Step(s, a)) <==>
            if Sends(s, a) then a.delivered || Told(s.sent) == Some(WinSize(s.raw)) else Synced(s)
  {
    hide Told;
    if Sends(s, a) {
      ToldAfter(s.sent, Message(WinSize(s.raw), a.delivered));
    }
  }

  lemma ToldAfter(sent: seq<Message>, m: Message)
    ensures Told(sent + [m]) == if m.delivered then Some(m.size) else Told(sent)
  {
    assert (sent + [m])[..|sent|] == sent;
  }

  /** So a step puts them at odds exactly when it loses a send. */
  lemma StepSyncedIff(s: State, a: Action)
    requires Synced(s)
    ensures Synced(Step(s, a)) <==> !LosesSend(s, a)
  {
    hide Step, Told;
    SendDecides(s, a);
  }

  ghost predicate SyncedThroughout(raw: Size, actions: seq<Action>) {
    && Synced(Run(Init(raw), actions))
    && (actions != [] ==> SyncedThroughout(raw, actions[..|actions| - 1]))
  }

  /** Some step of the run loses a send. */
  ghost predicate SomeLost(raw: Size, actions: seq<Action>) {
    && actions != []
    && var front := actions[..|actions| - 1];
    LosesSend(Run(Init(raw), front), actions[|actions| - 1]) || SomeLost(raw, front)
  }

  /** Over a whole run bridge and playground agree throughout exactly when no send is lost. */
  lemma {:induction false} SyncedIff(raw: Size, actions: seq<Action>)
    ensures SyncedThroughout(raw, actions) <==> !SomeLost(raw, actions)
  {
    hide Step, LosesSend, Synced;
    if actions == [] {
      SyncedAtFirst(raw);
    } else {
      var front := actions[..|actions| - 1];
      SyncedIff(raw, front);
      if SyncedThroughout(raw, front) {
        StepSyncedIff(Run(Init(raw), front), actions[|actions| - 1]);
      }
    }
  }

  lemma SyncedAtFirst(raw: Size)
    ensures Synced(Init(raw))
  {
  }

  /** At rest the playground knows the terminal's size exactly when they agree; in
      particular after every run that loses no send. */
  lemma ToldIff(raw: Size, actions: seq<Action>)
    ensures var s := Run(Init(raw), actions);
            AtRest(s) ==>
              && (Told(s.sent) == Some(WinSize(s.raw)) <==> Synced(s))
              && (!SomeLost(raw, actions) ==> Told(s.sent) == Some(WinSize(s.raw)))
  {
    hide Run, Told;
    RunKeeps(raw, actions);
    SyncedIff(raw, actions);
  }

  /** A single failed send leaves it wrong: the playground keeps the size before. */
  lemma OneFailureMisleads(raw: Size, actions: seq<Action>)
    ensures var s := Run(Init(raw), actions);
            var n := |s.sent|;
            AtRest(s) && n >= 2 && !s.sent[n - 1].delivered && s.sent[n - 2].delivered
            ==> Told(s.sent) == Some(s.sent[n - 2].size) != Some(WinSize(s.raw))
  {
    hide Run;
    NoResizeLost(raw, actions);
  }

  /** The terminal's size has been reported, whether or not the report went through. */
  predicate Reported(s: State) {
    !s.w.at.Starting? && s.w.last == Some(WinSize(s.raw))
  }

  /** Once it has, nothing is sent until the terminal changes, so a report that failed is
      never repeated. */
  lemma {:induction false} ReportedStaysSilent(s: State, actions: seq<Action>)
    requires Reported(s) && forall i :: 0 <= i < |actions| ==> !actions[i].Change?
    ensures var t := Run(s, actions);
            Reported(t) && t.sent == s.sent && t.raw == s.raw
  {
    if actions != [] {
      ReportedStaysSilent(s, actions[..|actions| - 1]);
    }
  }

  /** A first report that fails is forgotten: whatever happens short of a change of size,
      the playground is never told. */
  lemma FailedSendForgotten(raw: Size, actions: seq<Action>)
    requires forall i :: 0 <= i < |actions| ==> !actions[i].Change?
    ensures var s := Run(Step(Init(raw), Start(false)), actions);
            s.raw == raw && s.sent == [Message(WinSize(raw), false)] && Told(s.sent) == None
  {
    hide Run;
    var s := Step(Init(raw), Start(false));
    ReportedStaysSilent(s, actions);
    assert Told([Message(WinSize(raw), false)]) == Told([Message(WinSize(raw), false)][..0]);
  }

  // ---------------------------------------------------------------------------
  // The bridge as an object. Each method takes the watcher of any state it may be in to
  // that of the next state.

  class Bridge {
    var flag: bool
    var lastSize: Option<Size>
    ghost var at: At

    ghost function View(): Watcher
      reads this
    {
      Watcher(flag, at, lastSize)
    }

    constructor ()
      ensures View() == Init(Size(0, 0)).w
    {
      flag, lastSize, at := false, None, Starting;
    }

    /** SIGWINCH's callback. */
    method OnSignal()
      modifies this
      ensures forall s: State :: s.w == old(View()) && s.pending ==> Step(s, Callback).w == View()
    {
      flag := true;
    }

    /** What to send, if anything: the size, unless it is the last one sent. Asked again
        at once there is nothing to send. */
    method SendSize(raw: Size) returns (message: Option<Size>)
      modifies `lastSize, `at
      ensures message.Some? ==> message != old(lastSize) && lastSize == message
      ensures message.None? ==> lastSize == old(lastSize)
      ensures raw.rows != 0 && raw.cols != 0 ==> lastSize == Some(raw)
      ensures raw.rows == 0 || raw.cols == 0 ==> lastSize == Some(Size(24, 80))
      ensures at == if message.Some? then Sending else Waiting
      ensures Outcome(View(), message) == Report(old(View()), raw)
    {
      var size := WinSize(raw);
      if lastSize == Some(size) {
        at := Waiting;
        return None;
      }
      lastSize, at := Some(size), Sending;
      message := Some(size);
    }

    method SendEnds()
      requires at.Sending?
      modifies `at
      ensures forall s: State :: s.w == old(View()) ==> Step(s, Action.SendEnds).w == View()
    {
      at := Waiting;
    }

    /** The wait is over: from clearing the flag to falling asleep. */
    method Wake()
      requires at.Waiting? && flag
      modifies this
      ensures forall s: State :: s.w == old(View()) ==> Step(s, Action.Wake).w == View() && Noticed(Step(s, Action.Wake))
    {
      flag, at := false, Sleeping;
    }

    /** The sleep is over: from clearing the flag again to sending. */
    method SleepEnds(raw: Size) returns (message: Option<Size>)
      requires at.Sleeping?
      modifies this
      ensures forall s: State, ok: bool :: s.w == old(View()) && s.raw == raw ==>
                var t := Step(s, Action.SleepEnds(ok));
                && t.w == View() && Noticed(t)
                && t.sent == s.sent + if message.Some? then [Message(message.value, ok)] else []
    {
      flag := false;
      message := SendSize(raw);
    }
  }
}
