/** Who is told that the console was closed. */
module ClosingMark {
  import opened HubSpec
  import Queries

  /** The mark has been sent to the client, is being sent, was lost in sending or waits in
      its queue. */
  ghost predicate Marked(c: Client, queue: seq<Item>) {
    var items := Pipeline(c, queue);
    exists i :: 0 <= i < |items| && items[i] == Item.Closed
  }

  ghost predicate HasMark<Q>(w: World<Q>, q: Q) {
    q in w.clients && q in w.hub.queues && Marked(w.clients[q], w.hub.queues[q])
  }

  /** The console is closed while the client is subscribed and its queue has room. */
  predicate ClosedFor<Q>(w: World<Q>, a: Action<Q>, q: Q) {
    a.DoClose? && q in w.hub.subs && q in w.hub.queues && |w.hub.queues[q]| < 1024
  }

  lemma MarkedAppend(c: Client, queue: seq<Item>, item: Item)
    ensures Marked(c, queue + [item]) <==> Marked(c, queue) || item == Item.Closed
  {
    var p := Pipeline(c, queue);
    assert Pipeline(c, queue + [item]) == p + [item];
    assert (p + [item])[|p|] == item;
    if Marked(c, queue) {
      var i :| 0 <= i < |p| && p[i] == Item.Closed;
      assert (p + [item])[i] == Item.Closed;
    }
  }

  lemma MarkedSame(c: Client, queue: seq<Item>, c': Client, queue': seq<Item>)
    requires Pipeline(c', queue') == Pipeline(c, queue)
    ensures Marked(c', queue') <==> Marked(c, queue)
  {
  }

  lemma MarkedLess(c: Client, queue: seq<Item>)
    ensures Marked(c.(phase := Gone), queue) ==> Marked(c, queue)
  {
    var p, p' := Pipeline(c, queue), Pipeline(c.(phase := Gone), queue);
    if i :| 0 <= i < |p'| && p'[i] == Item.Closed {
      assert p[if i < |c.got| then i else i + |p| - |p'|] == Item.Closed;
    }
  }

  lemma PublishMark<Q>(w: World<Q>, a: Action<Q>, q: Q)
    requires Inv(w) && q in w.clients && (a.DoPublish? || a.DoClose?)
    ensures HasMark(Step(w, a), q) <==> HasMark(w, q) || ClosedFor(w, a, q)
  {
    hide Marked, ClientOk, Queries.Strip;
    MarkedAppend(w.clients[q], w.hub.queues[q], if a.DoClose? then Item.Closed else Data(a.data));
  }

  lemma MoveMark<Q>(w: World<Q>, a: Action<Q>, q: Q)
    requires Inv(w) && q in w.clients && OfClient(a) && !a.Disconnect? && a.q == q
    ensures HasMark(Step(w, a), q) <==> HasMark(w, q)
  {
    hide Marked, ClientOk;
    var w' := Step(w, a);
    assert Pipeline(w'.clients[q], w'.hub.queues[q]) == Pipeline(w.clients[q], w.hub.queues[q]);
    MarkedSame(w.clients[q], w.hub.queues[q], w'.clients[q], w'.hub.queues[q]);
  }

  /** Only a close of the console that finds the client subscribed, with room, brings the
      mark; only leaving loses it. */
  lemma StepMark<Q>(w: World<Q>, a: Action<Q>, q: Q)
    requires Inv(w) && q in w.clients
    ensures q in Step(w, a).clients
    ensures HasMark(Step(w, a), q) ==> HasMark(w, q) || ClosedFor(w, a, q)
    ensures (HasMark(w, q) || ClosedFor(w, a, q)) && Step(w, a).clients[q].phase != Gone ==> HasMark(Step(w, a), q)
    ensures w.clients[q].phase == Gone ==> Step(w, a).clients[q].phase == Gone
  {
    hide Marked, ClientOk, Queries.Strip;
    if a.DoPublish? || a.DoClose? {
      PublishMark(w, a, q);
    } else if a.q == q && !a.Attach? {
      if a.Disconnect? {
        MarkedLess(w.clients[q], w.hub.queues[q]);
      } else {
        MoveMark(w, a, q);
      }
    }
  }

  ghost predicate WasClosedFor<Q>(limit: nat, actions: seq<Action<Q>>, q: Q) {
    && actions != []
    && var front := actions[..|actions| - 1];
    ClosedFor(Run(Init(limit), front), actions[|actions| - 1], q) || WasClosedFor(limit, front, q)
  }

  /** In every run the mark is on its way to a client that has not gone, or was sent to it,
      exactly when a close found it subscribed and with room in its queue. */
  lemma {:induction false} MarkIff<Q>(limit: nat, actions: seq<Action<Q>>, q: Q)
    ensures var w := Run(Init(limit), actions);
            && (HasMark(w, q) ==> WasClosedFor(limit, actions, q))
            && (q !in w.clients ==> !WasClosedFor(limit, actions, q))
            && (q in w.clients && w.clients[q].phase != Gone && WasClosedFor(limit, actions, q) ==> HasMark(w, q))
  {
    hide Step, HasMark, ClosedFor, Inv;
    if actions == [] {
      assert !HasMark(Run(Init(limit), actions), q) by { NobodyYet<Q>(limit, q); }
    } else {
      var front, last := actions[..|actions| - 1], actions[|actions| - 1];
      var w := Run(Init(limit), front);
      InitOk<Q>(limit);
      RunKeeps(Init(limit), front);
      MarkIff(limit, front, q);
      if q in w.clients {
        StepMark(w, last, q);
      } else {
        NewcomerUnmarked(w, last, q);
      }
    }
  }

  lemma NobodyYet<Q>(limit: nat, q: Q)
    ensures !HasMark(Init(limit), q)
  {
  }

  lemma NewcomerUnmarked<Q>(w: World<Q>, a: Action<Q>, q: Q)
    requires Inv(w) && q !in w.clients
    ensures !HasMark(Step(w, a), q) && !ClosedFor(w, a, q)
  {
    hide ClientOk, Queries.Strip;
    if q in Step(w, a).clients {
      assert Pipeline(Step(w, a).clients[q], Step(w, a).hub.queues[q]) == [];
    }
  }

  /** A client dropped for slowness is never told. */
  lemma {:induction false} DroppedNeverTold<Q>(w: World<Q>, actions: seq<Action<Q>>, q: Q)
    requires Inv(w) && q in w.clients && q !in w.hub.subs && !HasMark(w, q)
    ensures var t := Run(w, actions);
            q in t.clients && q !in t.hub.subs && !HasMark(t, q)
  {
    hide Step, HasMark, Inv;
    if actions != [] {
      var front, last := actions[..|actions| - 1], actions[|actions| - 1];
      DroppedNeverTold(w, front, q);
      RunKeeps(w, front);
      StepMark(Run(w, front), last, q);
      StaysDropped(Run(w, front), last, q);
    }
  }

  /** In particular one whose queue was full when something was published. */
  lemma SlowNeverTold<Q>(w: World<Q>, data: Chunk, actions: seq<Action<Q>>, q: Q)
    requires Inv(w) && q in w.hub.subs && |w.hub.queues[q]| >= 1024 && data != []
    ensures !HasMark(Run(Step(w, DoPublish(data)), actions), q)
  {
    hide Run, ClientOk, Queries.Strip;
    var w' := Step(w, DoPublish(data));
    SubscribedUnmarked(w, q);
    PublishMark(w, DoPublish(data), q);
    PublishKeeps(w, data);
    DroppedNeverTold(w', actions, q);
  }

  lemma SubscribedUnmarked<Q>(w: World<Q>, q: Q)
    requires Inv(w) && q in w.hub.subs
    ensures !HasMark(w, q)
  {
    hide Queries.Strip;
    assert ClientOk(w.clients[q], w.hub.queues[q], true, w.log, w.hub.limit);
    NoMarkInChunks(From(w.log, w.clients[q].start));
  }

  lemma StaysDropped<Q>(w: World<Q>, a: Action<Q>, q: Q)
    requires q in w.clients && q !in w.hub.subs
    ensures q !in Step(w, a).hub.subs
  {
  }
}
