/** The hub and its queues as objects, and the websocket handler that attaches to
    them. Every method is proved against the hub as a value. */
module ConsoleHub {
  import opened Basics
  import opened Utf8
  import Queries
  import Spec = HubSpec

  class Queue {
    var items: seq<Spec.Item>

    constructor ()
      ensures items == []
    {
      items := [];
    }

    method PutNowait(item: Spec.Item) returns (ok: bool)
      modifies this
      ensures ok == (old(|items|) < Spec.QUEUE_MAX)
      ensures items == Spec.Offer(old(items), item)
    {
      ok := |items| < Spec.QUEUE_MAX;
      if ok {
        items := items + [item];
      }
    }

    method Get() returns (item: Spec.Item)
      requires items != []
      modifies this
      ensures [item] + items == old(items)
    {
      item := items[0];
      items := items[1..];
    }
  }

  class Hub {
    var subs: set<Queue>
    var buf: Spec.Chunk
    const limit: nat
    var closed: bool
    ghost var all: set<Queue>      // every queue ever handed out

    ghost predicate Valid()
      reads this
    {
      subs <= all
    }

    ghost function View(): Spec.Hub<Queue>
      reads this, all
    {
      Spec.Hub(buf, limit, map q | q in all :: q.items, subs, closed)
    }

    constructor (limit: nat)
      ensures Valid() && all == {} && fresh(all)
      ensures View() == Spec.Hub([], limit, map[], {}, false)
    {
      this.limit := limit;
      subs, buf, closed, all := {}, [], false, {};
    }

    /** The loop of publish: offer to every subscriber, dropping those without room. */
    method FanOut(data: Spec.Chunk)
      requires Valid()
      modifies `subs, subs
      ensures Valid()
      ensures subs == set q | q in old(subs) && old(|q.items|) < Spec.QUEUE_MAX
      ensures forall q :: q in old(subs) ==> q.items == Spec.Offer(old(q.items), Spec.Data(data))
    {
      ghost var before := subs;
      var todo := subs;
      while todo != {}
        invariant todo <= before <= all
        invariant forall q :: q in before - todo ==> q.items == Spec.Offer(old(q.items), Spec.Data(data))
        invariant forall q :: q in todo ==> q.items == old(q.items)
        invariant subs == set q | q in before && (q in todo || old(|q.items|) < Spec.QUEUE_MAX)
        modifies `subs, before
        decreases todo
      {
        var q :| q in todo;
        var ok := q.PutNowait(Spec.Data(data));
        if !ok {
          subs := subs - {q};
        }
        todo := todo - {q};
      }
    }

    method Publish(data: Spec.Chunk)
      requires Valid()
      modifies this, subs
      ensures Valid() && all == old(all)
      ensures View() == Spec.Publish(old(View()), data)
    {
      if data == [] {
        return;
      }
      buf := buf + data;
      if |buf| > limit {
        buf := buf[|buf| - limit..];
      }
      FanOut(data);
    }

    method Close()
      requires Valid()
      modifies this, subs
      ensures Valid() && all == old(all)
      ensures View() == Spec.Close(old(View())) && closed && subs == {}
    {
      closed := true;
      ghost var before := subs;
      var todo := subs;
      while todo != {}
        invariant todo <= before <= all && all == old(all)
        invariant forall q :: q in before - todo ==> q.items == Spec.Offer(old(q.items), Spec.Item.Closed)
        invariant forall q :: q in all && (q in todo || q !in before) ==> q.items == old(q.items)
        modifies before
        decreases todo
      {
        var q :| q in todo;
        var _ := q.PutNowait(Spec.Item.Closed);
        todo := todo - {q};
      }
      subs := {};
    }

    method Scrollback() returns (history: Spec.Chunk)
      ensures history == Spec.Scrollback(View())
    {
      history := Queries.Strip(buf);
    }

    method Subscribe() returns (q: Queue)
      requires Valid()
      modifies this
      ensures Valid() && fresh(q) && all == old(all) + {q}
      ensures View() == Spec.Subscribe(old(View()), q)
    {
      q := new Queue();
      subs := subs + {q};
      all := all + {q};
    }

    method Unsubscribe(q: Queue)
      requires Valid()
      modifies `subs
      ensures Valid()
      ensures View() == Spec.Unsubscribe(old(View()), q)
    {
      subs := subs - {q};
    }
  }

  /** The websocket handler up to its first wait: subscribe and read the history in
      one step, so nothing can be published between the two. */
  method Attach(hub: Hub, replay: bool) returns (q: Queue, back: Spec.Chunk)
    requires hub.Valid()
    modifies hub
    ensures hub.Valid() && fresh(q)
    ensures hub.View() == Spec.Subscribe(old(hub.View()), q)
    ensures back == if replay then Spec.Scrollback(old(hub.View())) else []
    ensures forall w: Spec.World<Queue> :: w.hub == old(hub.View()) && q !in w.clients ==>
              var next := Spec.Step(w, Spec.Attach(q, replay));
              next.hub == hub.View() && q in next.clients && next.clients[q].replay == replay && next.clients[q].back == back
  {
    q := hub.Subscribe();
    back := [];
    if replay {
      back := hub.Scrollback();
    }
  }

  /** The pump between two waits: the next item of its own queue. */
  method PumpNext(hub: Hub, q: Queue) returns (item: Spec.Item)
    requires hub.Valid() && q in hub.all && q.items != []
    modifies q
    ensures item == old(q.items[0])
    ensures hub.View() == Spec.Take(old(hub.View()), q)
  {
    item := q.Get();
  }
}
