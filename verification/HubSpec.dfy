/** The console hub as values, generic in what identifies a client's queue, and the
    protocol of clients that attach to it while output is being published. */
module HubSpec {
  import opened Basics
  import opened Utf8
  import Queries

  type Chunk = seq<byte>

  /** What a client's queue holds: output, or the mark that the console was closed. */
  datatype Item = Data(bytes: Chunk) | Closed

  const QUEUE_MAX := 1024

  datatype Hub<!Q(==)> = Hub(buf: Chunk, limit: nat, queues: map<Q, seq<Item>>, subs: set<Q>, closed: bool)

  function LastBytes(s: Chunk, n: nat): Chunk {
    if |s| <= n then s else s[|s| - n..]
  }

  function Offer(items: seq<Item>, item: Item): seq<Item> {
    if |items| < QUEUE_MAX then items + [item] else items
  }

  /** Every subscribed queue with room gets the chunk; the others are dropped. */
  function Publish<Q>(h: Hub<Q>, data: Chunk): Hub<Q> {
    if data == [] then h
    else h.(buf := LastBytes(h.buf + data, h.limit),
            queues := map q | q in h.queues ::
              if q in h.subs then Offer(h.queues[q], Data(data)) else h.queues[q],
            subs := set q | q in h.subs && q in h.queues && |h.queues[q]| < QUEUE_MAX)
  }

  function Close<Q>(h: Hub<Q>): Hub<Q> {
    h.(queues := map q | q in h.queues ::
         if q in h.subs then Offer(h.queues[q], Item.Closed) else h.queues[q],
       subs := {}, closed := true)
  }

  function Subscribe<Q>(h: Hub<Q>, q: Q): Hub<Q> {
    h.(queues := h.queues[q := []], subs := h.subs + {q})
  }

  function Unsubscribe<Q>(h: Hub<Q>, q: Q): Hub<Q> {
    h.(subs := h.subs - {q})
  }

  function Take<Q>(h: Hub<Q>, q: Q): Hub<Q>
    requires q in h.queues && h.queues[q] != []
  {
    h.(queues := h.queues[q := h.queues[q][1..]])
  }

  function Scrollback<Q>(h: Hub<Q>): Chunk {
    Queries.Strip(h.buf)
  }

  // ---------------------------------------------------------------------------
  // The ring

  /** Trimming after every chunk is trimming once at the end. */
  lemma RingIsSuffix(all: Chunk, data: Chunk, limit: nat)
    ensures LastBytes(LastBytes(all, limit) + data, limit) == LastBytes(all + data, limit)
  {
  }

  // ---------------------------------------------------------------------------
  // Clients

  /** Replaying: the history is being sent. Pumping: waiting for the queue. Sending:
      an item taken from the queue is being sent. Stalled: that failed and nothing more
      is sent, though the handler is still listening. Gone: the handler has ended. */
  datatype Phase = Replaying | Pumping | Sending(item: Item) | Stalled(item: Item) | Gone

  /** `start` chunks had been published when the client attached, and `back` is the
      history it is to be sent first; `got` is what has been sent to it since. */
  datatype Client = Client(replay: bool, back: Chunk, start: nat, phase: Phase, replayed: bool, got: seq<Item>)

  datatype World<!Q(==)> = World(hub: Hub<Q>, log: seq<Chunk>, clients: map<Q, Client>)

  datatype Action<Q> =
    | DoPublish(data: Chunk)
    | DoClose
    | Attach(q: Q, replay: bool)   // subscribe and take the history in one step
    | SentHistory(q: Q)
    | TakeNext(q: Q)
    | SentNext(q: Q)
    | SendFails(q: Q)
    | Disconnect(q: Q)             // the handler, listening, sees its client leave

  function Init<Q>(limit: nat): World<Q> {
    World(Hub([], limit, map[], {}, false), [], map[])
  }

  /** One atomic step; an action that is not enabled changes nothing. */
  function Step<Q>(w: World<Q>, a: Action<Q>): World<Q> {
    match a
    case DoPublish(data) =>
      w.(hub := Publish(w.hub, data), log := if data == [] then w.log else w.log + [data])
    case DoClose =>
      w.(hub := Close(w.hub))
    case Attach(q, replay) =>
      if q in w.clients || q in w.hub.queues then w
      else
        var back := if replay then Scrollback(w.hub) else [];
        w.(hub := Subscribe(w.hub, q),
           clients := w.clients[q := Client(replay, back, |w.log|, if back != [] then Replaying else Pumping, false, [])])
    case SentHistory(q) =>
      if q in w.clients && w.clients[q].phase.Replaying? then
        SetClient(w, q, w.clients[q].(phase := Pumping, replayed := true))
      else w
    case TakeNext(q) =>
      if q in w.clients && w.clients[q].phase.Pumping? && q in w.hub.queues && w.hub.queues[q] != [] then
        SetClient(w.(hub := Take(w.hub, q)), q, w.clients[q].(phase := Sending(w.hub.queues[q][0])))
      else w
    case SentNext(q) =>
      if q in w.clients && w.clients[q].phase.Sending? then
        var c := w.clients[q];
        SetClient(w, q, c.(got := c.got + [c.phase.item], phase := if c.phase.item.Closed? then Gone else Pumping))
      else w
    case SendFails(q) =>
      // neither failure unsubscribes: the first ends the handler, the second its pump
      if q in w.clients && w.clients[q].phase.Replaying? then
        SetClient(w, q, w.clients[q].(phase := Gone))
      else if q in w.clients && w.clients[q].phase.Sending? then
        SetClient(w, q, w.clients[q].(phase := Stalled(w.clients[q].phase.item)))
      else w
    case Disconnect(q) =>
      if q in w.clients && Listening(w.clients[q].phase) then
        SetClient(w.(hub := Unsubscribe(w.hub, q)), q, w.clients[q].(phase := Gone))
      else w
  }

  predicate Listening(phase: Phase) {
    phase.Pumping? || phase.Sending? || phase.Stalled?
  }

  function SetClient<Q>(w: World<Q>, q: Q, c: Client): World<Q> {
    w.(clients := w.clients[q := c])
  }

  function Run<Q>(w: World<Q>, actions: seq<Action<Q>>): World<Q> {
    if actions == [] then w else Step(Run(w, actions[..|actions| - 1]), actions[|actions| - 1])
  }

  // ---------------------------------------------------------------------------
  // What a client receives

  function Wrap(chunks: seq<Chunk>): seq<Item> {
    seq(|chunks|, i requires 0 <= i < |chunks| => Data(chunks[i]))
  }

  /** Sent, being sent or lost in sending, and queued, in that order. */
  function Pipeline(c: Client, queue: seq<Item>): seq<Item> {
    c.got + (if c.phase.Sending? || c.phase.Stalled? then [c.phase.item] else []) + queue
  }

  /** `items` is the beginning of the stream of chunks, perhaps ended by the closing mark. */
  ghost predicate Beginning(items: seq<Item>, chunks: seq<Chunk>) {
    || items <= Wrap(chunks)
    || (items != [] && items[|items| - 1] == Item.Closed && items[..|items| - 1] <= Wrap(chunks))
  }

  function From(log: seq<Chunk>, n: nat): seq<Chunk> {
    if n <= |log| then log[n..] else []
  }

  function Before(log: seq<Chunk>, n: nat): seq<Chunk> {
    if n <= |log| then log[..n] else log
  }

  /** The history a client that asks for it is sent, attaching after `n` chunks. */
  function History(log: seq<Chunk>, n: nat, limit: nat): Chunk {
    Queries.Strip(LastBytes(Concat(Before(log, n)), limit))
  }

  /** The client's history is the replay of everything published before it attached,
      and its pipeline begins the stream of everything published since; while it is
      subscribed the pipeline is exactly that stream. */
  ghost predicate ClientOk(c: Client, queue: seq<Item>, subscribed: bool, log: seq<Chunk>, limit: nat) {
    && c.start <= |log|
    && c.back == (if c.replay then History(log, c.start, limit) else [])
    && (c.phase.Replaying? ==> c.got == [] && c.back != [] && !c.replayed)
    && (c.phase.Pumping? || c.phase.Sending? ==> (c.replayed <==> c.back != []))
    && (c.phase == Gone || Beginning(Pipeline(c, queue), From(log, c.start)))
    && (subscribed ==> Pipeline(c, queue) == Wrap(From(log, c.start)))
    && Beginning(c.got, From(log, c.start))
    && (c.got != [] && c.back != [] ==> c.replayed)
  }

  ghost predicate Inv<Q>(w: World<Q>) {
    && w.hub.buf == LastBytes(Concat(w.log), w.hub.limit)
    && w.hub.subs <= w.clients.Keys <= w.hub.queues.Keys
    && (forall q :: q in w.clients ==>
          ClientOk(w.clients[q], w.hub.queues[q], q in w.hub.subs, w.log, w.hub.limit))
  }

  // --- one client, one step

  lemma BeginningGrows(items: seq<Item>, chunks: seq<Chunk>, more: Chunk)
    requires Beginning(items, chunks)
    ensures Beginning(items, chunks + [more])
  {
    assert Wrap(chunks) <= Wrap(chunks + [more]);
  }

  lemma BeginningCut(items: seq<Item>, chunks: seq<Chunk>, n: nat)
    requires Beginning(items, chunks) && n <= |items|
    ensures Beginning(items[..n], chunks)
  {
    if n == |items| {
      assert items[..n] == items;
    }
  }

  /** A new chunk comes at the end of what a client is to get, and leaves its history. */
  lemma LogGrows(log: seq<Chunk>, data: Chunk, n: nat, limit: nat)
    requires n <= |log|
    ensures From(log + [data], n) == From(log, n) + [data]
    ensures Wrap(From(log + [data], n)) == Wrap(From(log, n)) + [Data(data)]
    ensures History(log + [data], n, limit) == History(log, n, limit)
  {
    hide Concat, Queries.Strip;
    assert Before(log + [data], n) == Before(log, n);
  }

  lemma PublishOk(c: Client, queue: seq<Item>, sub: bool, log: seq<Chunk>, limit: nat, data: Chunk)
    requires ClientOk(c, queue, sub, log, limit)
    ensures var room := |queue| < QUEUE_MAX;
            ClientOk(c, if sub then Offer(queue, Data(data)) else queue, sub && room, log + [data], limit)
  {
    hide History, From, Wrap, Beginning;
    LogGrows(log, data, c.start, limit);
    BeginningGrows(c.got, From(log, c.start), data);
    if c.phase != Gone {
      BeginningGrows(Pipeline(c, queue), From(log, c.start), data);
    }
    if sub && |queue| < QUEUE_MAX {
      assert Pipeline(c, queue + [Data(data)]) == Pipeline(c, queue) + [Data(data)];
      WholeIsBeginning(From(log + [data], c.start));
    }
  }

  lemma WholeIsBeginning(chunks: seq<Chunk>)
    ensures Beginning(Wrap(chunks), chunks)
  {
  }

  lemma CloseOk(c: Client, queue: seq<Item>, sub: bool, log: seq<Chunk>, limit: nat)
    requires ClientOk(c, queue, sub, log, limit)
    ensures ClientOk(c, if sub then Offer(queue, Item.Closed) else queue, false, log, limit)
  {
    hide History, From, Wrap;
    var p := Pipeline(c, queue);
    assert Pipeline(c, queue + [Item.Closed]) == p + [Item.Closed];
    assert (p + [Item.Closed])[..|p|] == p;
  }

  lemma TakeOk(c: Client, queue: seq<Item>, sub: bool, log: seq<Chunk>, limit: nat)
    requires ClientOk(c, queue, sub, log, limit) && c.phase.Pumping? && queue != []
    ensures ClientOk(c.(phase := Sending(queue[0])), queue[1..], sub, log, limit)
  {
    hide History, From, Wrap;
    assert Pipeline(c.(phase := Sending(queue[0])), queue[1..]) == Pipeline(c, queue);
  }

  lemma NoMarkInChunks(chunks: seq<Chunk>)
    ensures forall i :: 0 <= i < |Wrap(chunks)| ==> Wrap(chunks)[i].Data?
  {
  }

  lemma SentOk(c: Client, queue: seq<Item>, sub: bool, log: seq<Chunk>, limit: nat)
    requires ClientOk(c, queue, sub, log, limit) && c.phase.Sending?
    ensures var item := c.phase.item;
            ClientOk(c.(got := c.got + [item], phase := if item.Closed? then Gone else Pumping), queue, sub, log, limit)
  {
    hide History, From, Wrap;
    var all, n := Pipeline(c, queue), |c.got|;
    NoMarkInChunks(From(log, c.start));
    var c' := c.(got := c.got + [c.phase.item], phase := if c.phase.item.Closed? then Gone else Pumping);
    assert c'.got == all[..n + 1] && all[n] == c.phase.item;
    BeginningCut(all, From(log, c.start), n + 1);
    assert Pipeline(c', queue) == all;
  }

  lemma HistoryOk(c: Client, queue: seq<Item>, sub: bool, log: seq<Chunk>, limit: nat)
    requires ClientOk(c, queue, sub, log, limit) && c.phase.Replaying?
    ensures ClientOk(c.(phase := Pumping, replayed := true), queue, sub, log, limit)
  {
    hide History, From, Wrap;
    assert Pipeline(c.(phase := Pumping, replayed := true), queue) == Pipeline(c, queue);
  }

  lemma StalledOk(c: Client, queue: seq<Item>, sub: bool, log: seq<Chunk>, limit: nat)
    requires ClientOk(c, queue, sub, log, limit) && c.phase.Sending?
    ensures ClientOk(c.(phase := Stalled(c.phase.item)), queue, sub, log, limit)
  {
    hide History, From, Wrap;
    assert Pipeline(c.(phase := Stalled(c.phase.item)), queue) == Pipeline(c, queue);
  }

  lemma GoneOk(c: Client, queue: seq<Item>, sub: bool, log: seq<Chunk>, limit: nat)
    requires ClientOk(c, queue, sub, log, limit)
    ensures ClientOk(c.(phase := Gone), queue, sub && c.phase.Replaying?, log, limit)
  {
    hide History, From, Wrap;
  }

  // --- the world

  lemma PublishKeeps<Q>(w: World<Q>, data: Chunk)
    requires Inv(w) && data != []
    ensures Inv(Step(w, DoPublish(data)))
  {
    hide ClientOk, Queries.Strip;
    var w' := Step(w, DoPublish(data));
    assert w'.log[..|w.log|] == w.log;
    RingIsSuffix(Concat(w.log), data, w.hub.limit);
    forall q | q in w'.clients
      ensures ClientOk(w'.clients[q], w'.hub.queues[q], q in w'.hub.subs, w'.log, w'.hub.limit)
    {
      PublishOk(w.clients[q], w.hub.queues[q], q in w.hub.subs, w.log, w.hub.limit, data);
    }
  }

  lemma CloseKeeps<Q>(w: World<Q>)
    requires Inv(w)
    ensures Inv(Step(w, DoClose))
  {
    hide ClientOk, Queries.Strip;
    var w' := Step(w, DoClose);
    forall q | q in w'.clients
      ensures ClientOk(w'.clients[q], w'.hub.queues[q], q in w'.hub.subs, w'.log, w'.hub.limit)
    {
      CloseOk(w.clients[q], w.hub.queues[q], q in w.hub.subs, w.log, w.hub.limit);
    }
  }

  /** A step of one client that leaves all others as they were. */
  lemma OneClientKeeps<Q>(w: World<Q>, w': World<Q>, q: Q)
    requires Inv(w)
    requires w'.log == w.log && w'.hub.buf == w.hub.buf && w'.hub.limit == w.hub.limit
    requires w'.clients.Keys == w.clients.Keys + {q} && w'.hub.queues.Keys == w.hub.queues.Keys + {q}
    requires w'.hub.subs <= w'.clients.Keys
    requires forall p :: p in w.clients && p != q ==>
               && w'.clients[p] == w.clients[p] && w'.hub.queues[p] == w.hub.queues[p]
               && (p in w'.hub.subs <==> p in w.hub.subs)
    requires ClientOk(w'.clients[q], w'.hub.queues[q], q in w'.hub.subs, w'.log, w'.hub.limit)
    ensures Inv(w')
  {
    hide ClientOk, Concat;
  }

  lemma AttachKeeps<Q>(w: World<Q>, q: Q, replay: bool)
    requires Inv(w) && q !in w.clients && q !in w.hub.queues
    ensures Inv(Step(w, Attach(q, replay)))
  {
    hide Queries.Strip, Concat;
    var w' := Step(w, Attach(q, replay));
    assert ClientOk(w'.clients[q], [], true, w.log, w.hub.limit) by {
      assert w.log[..|w.log|] == w.log && w.log[|w.log|..] == [];
    }
    OneClientKeeps(w, w', q);
  }

  /** The steps of one client after it has attached. */
  predicate OfClient<Q>(a: Action<Q>) {
    a.SentHistory? || a.TakeNext? || a.SentNext? || a.SendFails? || a.Disconnect?
  }

  lemma ClientStepKeeps<Q>(w: World<Q>, a: Action<Q>)
    requires Inv(w) && OfClient(a)
    ensures Inv(Step(w, a))
  {
    hide Queries.Strip, Concat, ClientOk;
    var w', q := Step(w, a), a.q;
    if w' != w {
      MovedClientOk(w, a);
      OneClientKeeps(w, w', q);
    }
  }

  lemma MovedClientOk<Q>(w: World<Q>, a: Action<Q>)
    requires Inv(w) && OfClient(a) && Step(w, a) != w
    ensures var w' := Step(w, a);
            ClientOk(w'.clients[a.q], w'.hub.queues[a.q], a.q in w'.hub.subs, w'.log, w'.hub.limit)
  {
    hide Queries.Strip, Concat, ClientOk;
    var c, queue, sub := w.clients[a.q], w.hub.queues[a.q], a.q in w.hub.subs;
    assert ClientOk(c, queue, sub, w.log, w.hub.limit);
    if a.TakeNext? {
      TakeOk(c, queue, sub, w.log, w.hub.limit);
    } else if a.SentNext? {
      SentOk(c, queue, sub, w.log, w.hub.limit);
    } else if a.SentHistory? {
      HistoryOk(c, queue, sub, w.log, w.hub.limit);
    } else if a.SendFails? && c.phase.Sending? {
      StalledOk(c, queue, sub, w.log, w.hub.limit);
    } else {
      GoneOk(c, queue, sub, w.log, w.hub.limit);
    }
  }

  lemma StepKeeps<Q>(w: World<Q>, a: Action<Q>)
    requires Inv(w)
    ensures Inv(Step(w, a))
  {
    match a {
      case DoPublish(data) => if data != [] { PublishKeeps(w, data); }
      case DoClose => CloseKeeps(w);
      case Attach(q, replay) => if q !in w.clients && q !in w.hub.queues { AttachKeeps(w, q, replay); }
      case _ => ClientStepKeeps(w, a);
    }
  }

  lemma InitOk<Q>(limit: nat)
    ensures Inv<Q>(Init(limit)) && Init<Q>(limit).hub.limit == limit
  {
  }

  lemma {:induction false} RunKeeps<Q>(w: World<Q>, actions: seq<Action<Q>>)
    requires Inv(w)
    ensures Inv(Run(w, actions)) && Run(w, actions).hub.limit == w.hub.limit
  {
    hide Inv;
    if actions != [] {
      RunKeeps(w, actions[..|actions| - 1]);
      StepKeeps(Run(w, actions[..|actions| - 1]), actions[|actions| - 1]);
    }
  }

  // ---------------------------------------------------------------------------
  // Over every run

  /** The bytes of output among the items. */
  function Bytes(items: seq<Item>): Chunk {
    if items == [] then []
    else Bytes(items[..|items| - 1])
         + (match items[|items| - 1] case Data(b) => b case Closed => [])
  }

  /** Everything the hub has sent to the client. */
  function Received(c: Client): Chunk {
    (if c.replayed then c.back else []) + Bytes(c.got)
  }

  lemma {:induction false} BytesOfWrap(chunks: seq<Chunk>)
    ensures Bytes(Wrap(chunks)) == Concat(chunks)
  {
    if chunks != [] {
      BytesOfWrap(chunks[..|chunks| - 1]);
      assert Wrap(chunks)[..|chunks| - 1] == Wrap(chunks[..|chunks| - 1]);
    }
  }

  /** How many chunks have been sent to the client. */
  function ChunksSent(items: seq<Item>): nat {
    if items != [] && items[|items| - 1] == Item.Closed then |items| - 1 else |items|
  }

  lemma BytesOfBeginning(items: seq<Item>, chunks: seq<Chunk>)
    requires Beginning(items, chunks)
    ensures ChunksSent(items) <= |chunks| && Bytes(items) == Concat(Before(chunks, ChunksSent(items)))
  {
    var n := ChunksSent(items);
    if n == |items| {
      assert items[..n] == items <= Wrap(chunks);
    }
    assert items[..n] == Wrap(chunks[..n]);
    BytesOfWrap(chunks[..n]);
  }

  /** In every run a client has been sent nothing before its history, and then
      exactly the chunks published after it attached, in order, up to some point. */
  lemma {:induction false} GapFreeAttach<Q>(limit: nat, actions: seq<Action<Q>>, q: Q)
    requires q in Run(Init(limit), actions).clients
    ensures var w := Run(Init(limit), actions);
            var c := w.clients[q];
            var replay := if c.replay then History(w.log, c.start, limit) else [];
            var live := From(w.log, c.start);
            && ChunksSent(c.got) <= |live|
            && (c.got != [] ==> Received(c) == replay + Concat(Before(live, ChunksSent(c.got))))
            && (c.got == [] ==> Received(c) == [] || Received(c) == replay)
  {
    hide Run, History, Concat;
    var w0: World<Q> := Init(limit);
    InitOk<Q>(limit);
    RunKeeps(w0, actions);
    var w := Run(w0, actions);
    var c := w.clients[q];
    BytesOfBeginning(c.got, From(w.log, c.start));
  }

  /** A client that keeps up misses nothing: as long as it is subscribed, what it was
      sent, is being sent and has queued is every chunk published since it attached. */
  lemma SubscribedMissesNothing<Q>(limit: nat, actions: seq<Action<Q>>, q: Q)
    requires q in Run(Init(limit), actions).hub.subs
    ensures var w := Run(Init(limit), actions);
            q in w.clients && q in w.hub.queues
            && Pipeline(w.clients[q], w.hub.queues[q]) == Wrap(From(w.log, w.clients[q].start))
  {
    hide Run, History, Concat;
    var w0: World<Q> := Init(limit);
    InitOk<Q>(limit);
    RunKeeps(w0, actions);
  }

  /** A client whose pump was lost is sent nothing more. */
  lemma {:induction false} StalledGetsNothing<Q>(w: World<Q>, actions: seq<Action<Q>>, q: Q)
    requires q in w.clients && (w.clients[q].phase.Stalled? || w.clients[q].phase == Gone)
    ensures var t := Run(w, actions);
            && q in t.clients && (t.clients[q].phase.Stalled? || t.clients[q].phase == Gone)
            && t.clients[q].got == w.clients[q].got && t.clients[q].replayed == w.clients[q].replayed
  {
    hide Publish, Close;
    if actions != [] {
      StalledGetsNothing(w, actions[..|actions| - 1], q);
    }
  }

  /** A publish with something to say reaches a subscriber whose queue holds fewer than
      1024 items, who stays subscribed; a fuller one gets nothing and is dropped. */
  lemma RoomDecides<Q>(w: World<Q>, data: Chunk, q: Q)
    requires data != [] && q in w.hub.subs && q in w.hub.queues
    ensures var h := Step(w, DoPublish(data)).hub;
            && q in h.queues
            && if |w.hub.queues[q]| < 1024 then q in h.subs && h.queues[q] == w.hub.queues[q] + [Data(data)]
               else q !in h.subs && h.queues[q] == w.hub.queues[q]
  {
  }

  /** A client replays exactly when it asked to. */
  lemma {:induction false} AttachedAsAsked<Q>(w: World<Q>, q: Q, replay: bool, after: seq<Action<Q>>)
    requires q !in w.clients && q !in w.hub.queues
    ensures var t := Run(Step(w, Attach(q, replay)), after);
            q in t.clients && t.clients[q].replay == replay && t.clients[q].start == |w.log|
  {
    hide Publish, Close, Scrollback;
    if after != [] {
      AttachedAsAsked(w, q, replay, after[..|after| - 1]);
    }
  }

  /** The ring always holds the last bytes of everything published, up to its limit. */
  lemma RingHoldsLatest<Q>(limit: nat, actions: seq<Action<Q>>)
    ensures var w := Run(Init(limit), actions);
            var total := Concat(w.log);
            && w.hub.buf == LastBytes(total, limit)
            && |w.hub.buf| == (if |total| <= limit then |total| else limit)
            && w.hub.buf == total[|total| - |w.hub.buf|..]
  {
    hide Run, Concat;
    var w0: World<Q> := Init(limit);
    InitOk<Q>(limit);
    RunKeeps(w0, actions);
  }
}
