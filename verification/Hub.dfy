/**
 The pub/sub hub of internal/realtime/hub.go, one call at a time: `Subscribe`,
 `Unsubscribe` and `Publish` over the set of live subscriptions, each with its bounded
 channel buffer. What happens when calls overlap is in HubRuns.
 */
module Hub {

  const CAPACITY: nat := 32

  datatype Event = Event(topic: string, kind: string, payload: string)

  /** A non-blocking send on an open channel: kept if there is room, dropped otherwise. */
  function Offered<T>(buf: seq<T>, ev: T): seq<T> {
    if |buf| < CAPACITY then buf + [ev] else buf
  }

  class Subscription {
    const topics: set<string>
    var buf: seq<Event>
    var closed: bool

    constructor (topics: set<string>)
      ensures this.topics == topics && buf == [] && !closed
    {
      this.topics := topics;
      buf, closed := [], false;
    }
  }

  class EventHub {
    var subs: set<Subscription>

    /** Live channels are open and within their capacity. */
    ghost predicate Valid()
      reads this, subs
    {
      forall sub <- subs :: !sub.closed && |sub.buf| <= CAPACITY
    }

    constructor ()
      ensures Valid() && subs == {}
    {
      subs := {};
    }

    method Subscribe(topics: seq<string>) returns (sub: Subscription)
      requires Valid()
      modifies this
      ensures Valid() && fresh(sub) && subs == old(subs) + {sub}
      ensures sub.topics == (set t <- topics) && sub.buf == []
    {
      var wanted: set<string> := {};
      for i := 0 to |topics|
        invariant wanted == set t <- topics[..i]
      {
        assert topics[..i + 1] == topics[..i] + [topics[i]];
        wanted := wanted + {topics[i]};
      }
      assert topics[..|topics|] == topics;
      sub := new Subscription(wanted);
      subs := subs + {sub};
    }

    /** Closes the channel only of a live subscription, so a second call does nothing. */
    method Unsubscribe(sub: Subscription)
      requires Valid()
      modifies this, sub`closed
      ensures Valid() && subs == old(subs) - {sub}
      ensures sub.closed == (old(sub.closed) || sub in old(subs))
    {
      if sub in subs {
        subs := subs - {sub};
        sub.closed := true;
      }
    }

    /** Every live subscription to the topic is offered the event once; nobody else sees it. */
    method Publish(topic: string, kind: string, payload: string)
      requires Valid()
      modifies subs`buf
      ensures Valid()
      ensures forall sub <- subs ::
        sub.buf == if topic in sub.topics then Offered(old(sub.buf), Event(topic, kind, payload)) else old(sub.buf)
    {
      var ev := Event(topic, kind, payload);
      var todo := subs;
      while todo != {}
        invariant todo <= subs && subs == old(subs)
        invariant forall sub <- subs :: !sub.closed
        invariant forall sub <- todo :: sub.buf == old(sub.buf)
        invariant forall sub <- subs - todo ::
          sub.buf == if topic in sub.topics then Offered(old(sub.buf), ev) else old(sub.buf)
        decreases |todo|
      {
        var sub :| sub in todo;
        todo := todo - {sub};
        if topic !in sub.topics {
          continue;
        }
        if |sub.buf| < CAPACITY {
          sub.buf := sub.buf + [ev];
        }
      }
    }
  }
}
