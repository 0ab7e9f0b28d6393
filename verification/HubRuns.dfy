/**
 The hub of internal/realtime/hub.go with its callers interleaved.

 The lock is explicit: any number of publishers hold it for reading, one subscriber or
 unsubscriber holds it for writing. A publisher sends to one subscription at a time
 while others run; an unsubscriber deletes, then closes. Sending on a closed channel
 and closing one twice are modelled as what they are in Go, a crash. Publications are
 numbered, and the number stands for the event; each subscription carries the history
 of what it was offered, kept or dropped, and of what it has received.
 */
module HubRuns {
  import opened Wrappers
  import opened Hub

  datatype Offer = Offer(pub: nat, kept: bool)

  datatype Sub = Sub(topics: set<string>, buf: seq<nat>, closed: bool, offers: seq<Offer>, received: seq<nat>)

  datatype PubPc = PubWaiting | Sending(todo: set<nat>) | PubDone

  /** `audience` is the set of live subscriptions when the publisher got the lock. */
  datatype Pub = Pub(topic: string, pc: PubPc, audience: set<nat>)

  datatype OpPc = OpWaiting | Locked | Deleted | Unlocking | OpDone

  /** A Subscribe (`join`) or an Unsubscribe call on a subscription. */
  datatype Op = Op(join: bool, sub: nat, pc: OpPc)

  /** `readers` are the publishers holding the read lock, `writer` the call holding it for writing. */
  datatype Sys = Sys(subs: seq<Sub>, live: set<nat>, readers: set<nat>, writer: Option<nat>,
                     pubs: seq<Pub>, ops: seq<Op>, crashed: bool)

  datatype Event =
    | CallSubscribe(topics: set<string>)
    | CallUnsubscribe(sub: nat)
    | OpStep(op: nat)
    | CallPublish(topic: string)
    | PubLock(pub: nat)
    | PubSend(pub: nat, sub: nat)
    | PubUnlock(pub: nat)
    | Receive(sub: nat)

  const EMPTY := Sys([], {}, {}, None, [], [], false)

  predicate LockFree(s: Sys) {
    s.readers == {} && s.writer.None?
  }

  function SetOp(s: Sys, k: nat, pc: OpPc): seq<Op>
    requires k < |s.ops|
  {
    s.ops[k := s.ops[k].(pc := pc)]
  }

  function Close(s: Sys, sub: nat): Sys
    requires sub < |s.subs|
  {
    if s.subs[sub].closed then s.(crashed := true)
    else s.(subs := s.subs[sub := s.subs[sub].(closed := true)])
  }

  function StepOp(s: Sys, k: nat): Sys
    requires k < |s.ops| && s.ops[k].sub < |s.subs|
  {
    var op := s.ops[k];
    match op.pc
    case OpWaiting => if LockFree(s) then s.(writer := Some(k), ops := SetOp(s, k, Locked)) else s
    case Locked =>
      if op.join then s.(live := s.live + {op.sub}, ops := SetOp(s, k, Unlocking))
      else if op.sub in s.live then s.(live := s.live - {op.sub}, ops := SetOp(s, k, Deleted))
      else s.(ops := SetOp(s, k, Unlocking))
    case Deleted => Close(s.(ops := SetOp(s, k, Unlocking)), op.sub)
    case Unlocking => s.(writer := None, ops := SetOp(s, k, OpDone))
    case OpDone => s
  }

  /** The select-default send of one publication to one subscription. */
  function Send(sub: Sub, pub: nat): Sub {
    sub.(buf := Offered(sub.buf, pub), offers := sub.offers + [Offer(pub, |sub.buf| < CAPACITY)])
  }

  function StepSend(s: Sys, p: nat, i: nat): Sys
    requires p < |s.pubs| && s.pubs[p].pc.Sending? && i in s.pubs[p].pc.todo && i < |s.subs|
  {
    var pub := s.pubs[p];
    var pubs := s.pubs[p := pub.(pc := Sending(pub.pc.todo - {i}))];
    if pub.topic !in s.subs[i].topics then s.(pubs := pubs)
    else if s.subs[i].closed then s.(pubs := pubs, crashed := true)
    else s.(pubs := pubs, subs := s.subs[i := Send(s.subs[i], p)])
  }

  /** A caller has the subscription to unsubscribe only once Subscribe has returned. */
  predicate Joined(s: Sys, sub: nat) {
    sub < |s.subs| && forall op <- s.ops :: op.join && op.sub == sub ==> op.pc.OpDone?
  }

  function Next(s: Sys, ev: Event): Sys {
    match ev
    case CallSubscribe(topics) =>
      s.(subs := s.subs + [Sub(topics, [], false, [], [])], ops := s.ops + [Op(true, |s.subs|, OpWaiting)])
    case CallUnsubscribe(sub) =>
      if Joined(s, sub) then s.(ops := s.ops + [Op(false, sub, OpWaiting)]) else s
    case OpStep(k) =>
      if k < |s.ops| && s.ops[k].sub < |s.subs| then StepOp(s, k) else s
    case CallPublish(topic) => s.(pubs := s.pubs + [Pub(topic, PubWaiting, {})])
    case PubLock(p) =>
      if p < |s.pubs| && s.pubs[p].pc.PubWaiting? && s.writer.None?
      then s.(readers := s.readers + {p}, pubs := s.pubs[p := Pub(s.pubs[p].topic, Sending(s.live), s.live)])
      else s
    case PubSend(p, i) =>
      if p < |s.pubs| && s.pubs[p].pc.Sending? && i in s.pubs[p].pc.todo && i < |s.subs| then StepSend(s, p, i) else s
    case PubUnlock(p) =>
      if p < |s.pubs| && s.pubs[p].pc == Sending({})
      then s.(readers := s.readers - {p}, pubs := s.pubs[p := s.pubs[p].(pc := PubDone)])
      else s
    case Receive(i) =>
      if i < |s.subs| && s.subs[i].buf != []
      then s.(subs := s.subs[i := s.subs[i].(buf := s.subs[i].buf[1..], received := s.subs[i].received + [s.subs[i].buf[0]])])
      else s
  }

  function Run(s: Sys, evs: seq<Event>): Sys
    decreases |evs|
  {
    if evs == [] then s else Run(Next(s, evs[0]), evs[1..])
  }

  // ---- The lock and the life of a subscription ----

  predicate HoldsWrite(pc: OpPc) {
    pc.Locked? || pc.Deleted? || pc.Unlocking?
  }

  ghost predicate LockInv(s: Sys) {
    && (s.writer.Some? ==> s.readers == {} && s.writer.value < |s.ops|)
    && (forall p: nat :: p in s.readers <==> p < |s.pubs| && s.pubs[p].pc.Sending?)
    && (forall k: nat | k < |s.ops| :: HoldsWrite(s.ops[k].pc) <==> s.writer == Some(k))
    && (forall p: nat | p < |s.pubs| && s.pubs[p].pc.Sending? ::
          s.pubs[p].audience == s.live && s.pubs[p].pc.todo <= s.live)
  }

  ghost predicate LifeInv(s: Sys) {
    && !s.crashed
    && (forall i <- s.live :: i < |s.subs| && !s.subs[i].closed)
    && (forall k: nat | k < |s.ops| :: s.ops[k].sub < |s.subs|)
    && (forall k: nat | k < |s.ops| && s.ops[k].pc.Deleted? ::
          !s.ops[k].join && !s.subs[s.ops[k].sub].closed && s.ops[k].sub !in s.live)
    // A subscription still being added is not live, not closed, and nobody is removing it.
    && (forall k: nat | k < |s.ops| && s.ops[k].join && (s.ops[k].pc.OpWaiting? || s.ops[k].pc.Locked?) ::
          !s.subs[s.ops[k].sub].closed && s.ops[k].sub !in s.live)
    && (forall j: nat, k: nat | j < |s.ops| && k < |s.ops| && j != k && s.ops[j].join && s.ops[j].sub == s.ops[k].sub ::
          !s.ops[k].join && s.ops[j].pc.OpDone?)
  }

  lemma OpStepKeepsLock(s: Sys, k: nat)
    requires LockInv(s) && k < |s.ops| && s.ops[k].sub < |s.subs|
    ensures LockInv(StepOp(s, k))
  {
    assert HoldsWrite(s.ops[k].pc) <==> s.writer == Some(k);
    if HoldsWrite(s.ops[k].pc) {
      forall p: nat | p < |s.pubs| ensures !s.pubs[p].pc.Sending? {
        assert p !in s.readers;
      }
    }
  }

  lemma StepKeepsLock(s: Sys, ev: Event)
    requires LockInv(s)
    ensures LockInv(Next(s, ev))
  {
    hide StepOp;
    if ev.OpStep? && ev.op < |s.ops| && s.ops[ev.op].sub < |s.subs| {
      OpStepKeepsLock(s, ev.op);
    }
  }

  lemma OpStepKeepsLife(s: Sys, k: nat)
    requires LockInv(s) && LifeInv(s) && k < |s.ops|
    ensures LifeInv(StepOp(s, k))
  {
    var op := s.ops[k];
    assert HoldsWrite(op.pc) <==> s.writer == Some(k);
  }

  /** What the publishers and receivers do leaves the callers of the lock alone. */
  lemma SameLife(s: Sys, s': Sys)
    requires LifeInv(s)
    requires s'.ops == s.ops && s'.live == s.live && s'.crashed == s.crashed && |s'.subs| == |s.subs|
    requires forall i: nat | i < |s.subs| :: s'.subs[i].closed == s.subs[i].closed
    ensures LifeInv(s')
  {}

  lemma PublishersKeepLife(s: Sys, ev: Event)
    requires LockInv(s) && LifeInv(s)
    requires ev.CallPublish? || ev.PubLock? || ev.PubSend? || ev.PubUnlock? || ev.Receive?
    ensures LifeInv(Next(s, ev))
  {
    if ev.PubSend? && ev.pub < |s.pubs| && s.pubs[ev.pub].pc.Sending? && ev.sub in s.pubs[ev.pub].pc.todo {
      assert ev.sub in s.live;
    }
    SameLife(s, Next(s, ev));
  }

  lemma StepKeepsLife(s: Sys, ev: Event)
    requires LockInv(s) && LifeInv(s)
    ensures LifeInv(Next(s, ev))
  {
    hide StepOp, StepSend, LockInv;
    match ev
    case OpStep(k) =>
      if k < |s.ops| {
        OpStepKeepsLife(s, k);
      }
    case CallSubscribe(topics) =>
    case CallUnsubscribe(sub) =>
      if Joined(s, sub) {
        forall j: nat | j < |s.ops| && s.ops[j].join && s.ops[j].sub == sub ensures s.ops[j].pc.OpDone? {
          assert s.ops[j] in s.ops;
        }
      }
    case _ => PublishersKeepLife(s, ev);
  }

  // ---- What a subscription has been offered ----

  function Kept(offers: seq<Offer>): seq<nat> {
    if offers == [] then []
    else Kept(offers[..|offers| - 1]) + (if offers[|offers| - 1].kept then [offers[|offers| - 1].pub] else [])
  }

  function Dropped(offers: seq<Offer>): seq<nat> {
    if offers == [] then []
    else Dropped(offers[..|offers| - 1]) + (if offers[|offers| - 1].kept then [] else [offers[|offers| - 1].pub])
  }

  predicate OfferedTo(sub: Sub, p: nat) {
    exists o <- sub.offers :: o.pub == p
  }

  /** The publisher has already dealt with subscription `i`. */
  predicate Visited(pub: Pub, i: nat) {
    match pub.pc
    case PubWaiting => false
    case Sending(todo) => i in pub.audience && i !in todo
    case PubDone => i in pub.audience
  }

  /** The publisher has dealt with the subscription, and its topic was wanted there. */
  predicate Reached(s: Sys, p: nat, i: nat) {
    p < |s.pubs| && i < |s.subs| && Visited(s.pubs[p], i) && s.pubs[p].topic in s.subs[i].topics
  }

  ghost predicate SubInv(sub: Sub) {
    && sub.received + sub.buf == Kept(sub.offers)
    && |sub.buf| <= CAPACITY
    && (forall i: nat, j: nat | i < j < |sub.offers| :: sub.offers[i].pub != sub.offers[j].pub)
    && (forall i: nat | i < |sub.offers| && !sub.offers[i].kept :: |Kept(sub.offers[..i])| >= CAPACITY)
  }

  ghost predicate OfferInv(s: Sys) {
    && (forall i: nat | i < |s.subs| :: SubInv(s.subs[i]))
    && (forall i: nat, p: nat | i < |s.subs| ::
          OfferedTo(s.subs[i], p) <==> Reached(s, p, i))
    && (forall p: nat, i: nat | p < |s.pubs| && i in s.pubs[p].audience :: i < |s.subs|)
  }

  lemma KeptSnoc(offers: seq<Offer>, o: Offer)
    ensures Kept(offers + [o]) == Kept(offers) + if o.kept then [o.pub] else []
  {
    assert (offers + [o])[..|offers|] == offers;
  }

  lemma SendKeepsSubInv(sub: Sub, p: nat)
    requires SubInv(sub) && !OfferedTo(sub, p)
    ensures SubInv(Send(sub, p))
  {
    hide Kept;
    var sub' := Send(sub, p);
    var n := |sub.offers|;
    KeptSnoc(sub.offers, sub'.offers[n]);
    assert sub.received + (sub.buf + [p]) == sub.received + sub.buf + [p];
    forall i: nat | i < n ensures sub.offers[i].pub != p {
      assert sub.offers[i] in sub.offers;
    }
    forall i: nat | i <= n && !sub'.offers[i].kept ensures |Kept(sub'.offers[..i])| >= CAPACITY {
      assert sub'.offers[..i] == sub.offers[..i];
      if i == n {
        assert sub.offers[..n] == sub.offers;
      }
    }
  }

  lemma SendOffers(sub: Sub, p: nat)
    ensures Send(sub, p).topics == sub.topics
    ensures forall q: nat :: OfferedTo(Send(sub, p), q) <==> OfferedTo(sub, q) || q == p
  {
    var sub' := Send(sub, p);
    assert sub'.offers[|sub.offers|] in sub'.offers;
    assert forall o <- sub.offers :: o in sub'.offers;
  }

  lemma ReceiveKeepsSubInv(sub: Sub)
    requires SubInv(sub) && sub.buf != []
    ensures SubInv(sub.(buf := sub.buf[1..], received := sub.received + [sub.buf[0]]))
    ensures forall p: nat ::
      OfferedTo(sub.(buf := sub.buf[1..], received := sub.received + [sub.buf[0]]), p) <==> OfferedTo(sub, p)
  {
    assert sub.received + [sub.buf[0]] + sub.buf[1..] == sub.received + sub.buf;
  }

  lemma SendKeepsOffers(s: Sys, p: nat, i: nat)
    requires LockInv(s) && LifeInv(s) && OfferInv(s)
    requires p < |s.pubs| && s.pubs[p].pc.Sending? && i in s.pubs[p].pc.todo && i < |s.subs|
    ensures OfferInv(StepSend(s, p, i))
  {
    hide SubInv, OfferedTo, Send;
    var s' := StepSend(s, p, i);
    var pub := s.pubs[p];
    assert OfferedTo(s.subs[i], p) <==> Reached(s, p, i);
    assert !Visited(s.pubs[p], i);
    if pub.topic in s.subs[i].topics {
      SendKeepsSubInv(s.subs[i], p);
      SendOffers(s.subs[i], p);
    }
    forall j: nat, q: nat | j < |s'.subs|
      ensures OfferedTo(s'.subs[j], q) <==> Reached(s', q, j)
    {
      assert OfferedTo(s.subs[j], q) <==> Reached(s, q, j);
    }
  }

  /** Events that leave every history alone, and what the publishers have visited. */
  lemma OthersKeepOffers(s: Sys, ev: Event)
    requires LockInv(s) && LifeInv(s) && OfferInv(s)
    requires !ev.PubSend? && !ev.CallSubscribe?
    ensures OfferInv(Next(s, ev))
  {
    var s' := Next(s, ev);
    HistoriesKept(s, ev);
    AudiencesKept(s, ev);
    hide SubInv, OfferedTo, Visited, Next, LockInv, LifeInv;
    forall i: nat, p: nat | i < |s'.subs|
      ensures OfferedTo(s'.subs[i], p) <==> Reached(s', p, i)
    {
      assert OfferedTo(s.subs[i], p) <==> Reached(s, p, i);
    }
  }

  lemma AudiencesKept(s: Sys, ev: Event)
    requires LockInv(s) && LifeInv(s) && OfferInv(s)
    requires !ev.PubSend? && !ev.CallSubscribe?
    ensures |s.pubs| <= |Next(s, ev).pubs|
    ensures forall p: nat, i: nat | p < |Next(s, ev).pubs| && i in Next(s, ev).pubs[p].audience :: i < |s.subs|
    ensures forall p: nat | p < |s.pubs| :: Next(s, ev).pubs[p].topic == s.pubs[p].topic
    ensures forall p: nat, i: nat | p < |Next(s, ev).pubs| ::
      Visited(Next(s, ev).pubs[p], i) <==> p < |s.pubs| && Visited(s.pubs[p], i)
  {
    hide SubInv, OfferedTo;
    if ev.OpStep? && ev.op < |s.ops| && s.ops[ev.op].sub < |s.subs| {
      assert StepOp(s, ev.op).pubs == s.pubs;
    }
  }

  lemma StepKeepsOffers(s: Sys, ev: Event)
    requires LockInv(s) && LifeInv(s) && OfferInv(s)
    ensures OfferInv(Next(s, ev))
  {
    match ev
    case PubSend(p, i) =>
      if p < |s.pubs| && s.pubs[p].pc.Sending? && i in s.pubs[p].pc.todo && i < |s.subs| {
        SendKeepsOffers(s, p, i);
      }
    case CallSubscribe(topics) =>
      hide SubInv, OfferedTo;
      FreshSub(topics);
      forall p: nat | p < |s.pubs| ensures !Visited(s.pubs[p], |s.subs|) {}
    case _ =>
      OthersKeepOffers(s, ev);
  }

  lemma FreshSub(topics: set<string>)
    ensures SubInv(Sub(topics, [], false, [], []))
    ensures forall p: nat :: !OfferedTo(Sub(topics, [], false, [], []), p)
  {}

  lemma HistoriesKept(s: Sys, ev: Event)
    requires OfferInv(s) && !ev.PubSend? && !ev.CallSubscribe?
    ensures |Next(s, ev).subs| == |s.subs|
    ensures forall i: nat | i < |s.subs| ::
      && SubInv(Next(s, ev).subs[i])
      && Next(s, ev).subs[i].topics == s.subs[i].topics
      && (forall p: nat :: OfferedTo(Next(s, ev).subs[i], p) <==> OfferedTo(s.subs[i], p))
  {
    hide SubInv, OfferedTo;
    match ev
    case Receive(j) =>
      if j < |s.subs| && s.subs[j].buf != [] {
        ReceiveKeepsSubInv(s.subs[j]);
      }
    case OpStep(k) =>
      if k < |s.ops| && s.ops[k].sub < |s.subs| && s.ops[k].pc.Deleted? {
        CloseKeepsHistory(s.subs[s.ops[k].sub]);
      }
    case _ =>
  }

  lemma CloseKeepsHistory(sub: Sub)
    ensures SubInv(sub) ==> SubInv(sub.(closed := true))
    ensures forall p: nat :: OfferedTo(sub.(closed := true), p) <==> OfferedTo(sub, p)
  {}

  ghost predicate Inv(s: Sys) {
    LockInv(s) && LifeInv(s) && OfferInv(s)
  }

  lemma {:induction false} RunKeepsInv(s: Sys, evs: seq<Event>)
    requires Inv(s)
    ensures Inv(Run(s, evs))
    decreases |evs|
  {
    hide LockInv, LifeInv, OfferInv;
    if evs != [] {
      StepKeepsLock(s, evs[0]);
      StepKeepsLife(s, evs[0]);
      StepKeepsOffers(s, evs[0]);
      RunKeepsInv(Next(s, evs[0]), evs[1..]);
    }
  }

  // ---- Every run ----

  /** No interleaving ever sends on a closed channel or closes one twice, however often
      Unsubscribe is called, and a live subscription is never closed. */
  lemma CloseSafety(evs: seq<Event>)
    ensures !Run(EMPTY, evs).crashed
    ensures forall i <- Run(EMPTY, evs).live :: i < |Run(EMPTY, evs).subs| && !Run(EMPTY, evs).subs[i].closed
  {
    RunKeepsInv(EMPTY, evs);
  }

  lemma StepAfterClose(s: Sys, ev: Event, i: nat)
    requires Inv(s) && i < |s.subs| && s.subs[i].closed
    ensures i < |Next(s, ev).subs| && Next(s, ev).subs[i].closed && Next(s, ev).subs[i].offers == s.subs[i].offers
  {
    hide OfferInv;
    assert i !in s.live;
  }

  /** Nothing is delivered to a subscription after its channel is closed. */
  lemma {:induction false} NothingAfterClose(s: Sys, evs: seq<Event>, i: nat)
    requires Inv(s) && i < |s.subs| && s.subs[i].closed
    ensures i < |Run(s, evs).subs| && Run(s, evs).subs[i].offers == s.subs[i].offers
    decreases |evs|
  {
    hide LockInv, LifeInv, OfferInv;
    if evs != [] {
      StepAfterClose(s, evs[0], i);
      RunKeepsInv(s, [evs[0]]);
      assert [evs[0]][1..] == [];
      assert Run(s, [evs[0]]) == Next(s, evs[0]);
      NothingAfterClose(Next(s, evs[0]), evs[1..], i);
    }
  }

  /** Conservation, for every subscription in every run: what it received, followed by what
      its buffer holds, is in order exactly what it was offered and did not drop; its buffer
      is within capacity; no event is offered twice; and nothing was ever dropped before
      there were 32 kept events for it. */
  lemma Conservation(evs: seq<Event>, i: nat)
    requires i < |Run(EMPTY, evs).subs|
    ensures
      var sub := Run(EMPTY, evs).subs[i];
      && sub.received + sub.buf == Kept(sub.offers)
      && |sub.buf| <= 32
      && |sub.received| + |sub.buf| + |Dropped(sub.offers)| == |sub.offers|
      && (forall a: nat, b: nat | a < b < |sub.offers| :: sub.offers[a].pub != sub.offers[b].pub)
      && (forall a: nat | a < |sub.offers| && !sub.offers[a].kept :: |Kept(sub.offers[..a])| >= 32)
  {
    RunKeepsInv(EMPTY, evs);
    KeptOrDropped(Run(EMPTY, evs).subs[i].offers);
  }

  lemma {:induction false} KeptOrDropped(offers: seq<Offer>)
    ensures |Kept(offers)| + |Dropped(offers)| == |offers|
    ensures forall o <- offers :: o.pub in Kept(offers) || o.pub in Dropped(offers)
  {
    if offers != [] {
      var n := |offers| - 1;
      KeptOrDropped(offers[..n]);
      assert offers == offers[..n] + [offers[n]];
    }
  }

  lemma StepOffers(s: Sys, ev: Event, i: nat)
    requires i < |s.subs|
    ensures |s.subs| <= |Next(s, ev).subs|
    ensures
      var a, b := s.subs[i], Next(s, ev).subs[i];
      a.offers != b.offers ==> ev.PubSend? && ev.sub == i && b == Send(a, ev.pub)
  {
    if ev.OpStep? && ev.op < |s.ops| && s.ops[ev.op].sub < |s.subs| {
      assert StepOp(s, ev.op).subs[i].offers == s.subs[i].offers;
    }
  }

  /** One step offers a subscription at most one event, and drops it only when the buffer
      holds 32: then the buffer is left alone, otherwise the event goes to its end. */
  lemma DropsOnlyWhenFull(evs: seq<Event>, ev: Event, i: nat)
    requires i < |Run(EMPTY, evs).subs|
    ensures i < |Next(Run(EMPTY, evs), ev).subs|
    ensures
      var a, b := Run(EMPTY, evs).subs[i], Next(Run(EMPTY, evs), ev).subs[i];
      a.offers != b.offers ==>
        && ev.PubSend? && ev.sub == i
        && b.offers == a.offers + [Offer(ev.pub, |a.buf| != 32)]
        && b.buf == (if |a.buf| == 32 then a.buf else a.buf + [ev.pub])
        && b.received == a.received
  {
    RunKeepsInv(EMPTY, evs);
    var s := Run(EMPTY, evs);
    hide Run, LockInv, LifeInv, Next;
    assert SubInv(s.subs[i]);
    StepOffers(s, ev, i);
  }

  /** Every finished publication has reached exactly the subscriptions to its topic that were
      live when it took the lock: each has received it, holds it, or dropped it. */
  lemma PublishedToAudience(evs: seq<Event>, p: nat, i: nat)
    requires p < |Run(EMPTY, evs).pubs| && Run(EMPTY, evs).pubs[p].pc.PubDone?
    requires i < |Run(EMPTY, evs).subs|
    ensures
      var pub, sub := Run(EMPTY, evs).pubs[p], Run(EMPTY, evs).subs[i];
      && (OfferedTo(sub, p) <==> i in pub.audience && pub.topic in sub.topics)
      && (i in pub.audience && pub.topic in sub.topics ==>
            p in sub.received || p in sub.buf || p in Dropped(sub.offers))
  {
    RunKeepsInv(EMPTY, evs);
    var sub := Run(EMPTY, evs).subs[i];
    KeptOrDropped(sub.offers);
    if OfferedTo(sub, p) {
      var o :| o in sub.offers && o.pub == p;
      assert p in sub.received + sub.buf || p in Dropped(sub.offers);
    }
  }

  // ---- Who is subscribed ----

  datatype Stage = Asked | Entered | Left | Shut

  /** The call is one on subscription `i` that has come so far: a Subscribe at all, or past its
      insert; an Unsubscribe past its look at the live subscriptions, or past its close. */
  predicate Reaches(op: Op, i: nat, g: Stage) {
    op.sub == i &&
    match g
    case Asked => op.join
    case Entered => op.join && (op.pc.Unlocking? || op.pc.OpDone?)
    case Left => !op.join && (op.pc.Deleted? || op.pc.Unlocking? || op.pc.OpDone?)
    case Shut => !op.join && (op.pc.Unlocking? || op.pc.OpDone?)
  }

  predicate At(s: Sys, i: nat, g: Stage) {
    exists op <- s.ops :: Reaches(op, i, g)
  }

  ghost predicate MemberAt(s: Sys, i: nat)
    requires i < |s.subs|
  {
    && At(s, i, Asked)
    && (i in s.live <==> At(s, i, Entered) && !At(s, i, Left))
    && (s.subs[i].closed <==> At(s, i, Shut))
  }

  ghost predicate MemberInv(s: Sys) {
    && (forall i: nat | i < |s.subs| :: MemberAt(s, i))
    && (forall k: nat | k < |s.ops| && !s.ops[k].join :: At(s, s.ops[k].sub, Entered))
  }

  /** No call goes back, so a step of call `k` adds what `k` itself has come to. */
  lemma StageStep(s: Sys, s': Sys, k: nat, i: nat, g: Stage)
    requires k < |s.ops| && |s'.ops| == |s.ops| && s'.ops == s.ops[k := s'.ops[k]]
    requires Reaches(s.ops[k], i, g) ==> Reaches(s'.ops[k], i, g)
    ensures At(s', i, g) <==> At(s, i, g) || Reaches(s'.ops[k], i, g)
  {
    hide Reaches;
    assert s'.ops[k] in s'.ops;
    if At(s, i, g) {
      var j: nat :| j < |s.ops| && Reaches(s.ops[j], i, g);
      assert s'.ops[j] in s'.ops;
    }
  }

  lemma OpStepMoves(s: Sys, k: nat, i: nat, g: Stage)
    requires k < |s.ops| && s.ops[k].sub < |s.subs|
    ensures
      var s' := StepOp(s, k);
      && |s'.ops| == |s.ops| && s'.ops == s.ops[k := s'.ops[k]]
      && s'.ops[k].join == s.ops[k].join && s'.ops[k].sub == s.ops[k].sub
      && (At(s', i, g) <==> At(s, i, g) || Reaches(s'.ops[k], i, g))
  {
    StageStep(s, StepOp(s, k), k, i, g);
  }

  lemma NobodyElse(s: Sys, k: nat)
    requires LifeInv(s) && k < |s.ops| && s.ops[k].join && s.ops[k].pc.Locked?
    ensures !At(s, s.ops[k].sub, Left) && !At(s, s.ops[k].sub, Shut)
  {
    forall op | op in s.ops && op.sub == s.ops[k].sub ensures op.join {
      var j: nat :| j < |s.ops| && s.ops[j] == op;
    }
  }

  lemma LeftIsShut(s: Sys, k: nat, i: nat)
    requires LockInv(s) && k < |s.ops| && s.ops[k].pc.Locked? && At(s, i, Left)
    ensures At(s, i, Shut)
  {
    var j: nat :| j < |s.ops| && Reaches(s.ops[j], i, Left);
    assert HoldsWrite(s.ops[k].pc) <==> s.writer == Some(k);
    assert HoldsWrite(s.ops[j].pc) <==> s.writer == Some(j);
    assert Reaches(s.ops[j], i, Shut);
  }

  lemma ReachesAt(s: Sys, k: nat, i: nat, g: Stage)
    requires k < |s.ops| && Reaches(s.ops[k], i, g)
    ensures At(s, i, g)
  {}

  lemma OpStepKeepsMember(s: Sys, k: nat, i: nat)
    requires LockInv(s) && LifeInv(s) && MemberInv(s) && k < |s.ops| && i < |s.subs|
    ensures |StepOp(s, k).subs| == |s.subs| && MemberAt(StepOp(s, k), i)
  {
    hide At, LockInv;
    var op := s.ops[k];
    OpStepMoves(s, k, i, Asked);
    OpStepMoves(s, k, i, Entered);
    OpStepMoves(s, k, i, Left);
    OpStepMoves(s, k, i, Shut);
    forall g: Stage | Reaches(op, i, g) ensures At(s, i, g) {
      ReachesAt(s, k, i, g);
    }
    assert MemberAt(s, i);
    if op.pc.Locked? && op.sub == i {
      if op.join {
        NobodyElse(s, k);
      } else if i !in s.live {
        LeftIsShut(s, k, i);
      }
    }
  }

  lemma OpStepKeepsMembers(s: Sys, k: nat)
    requires LockInv(s) && LifeInv(s) && MemberInv(s) && k < |s.ops|
    ensures MemberInv(StepOp(s, k))
  {
    hide At, Reaches, LockInv, StepOp;
    var s' := StepOp(s, k);
    OpStepMoves(s, k, s.ops[k].sub, Entered);
    OpStepKeepsMember(s, k, s.ops[k].sub);
    forall i: nat | i < |s'.subs| ensures MemberAt(s', i) {
      OpStepKeepsMember(s, k, i);
    }
    forall j: nat | j < |s'.ops| && !s'.ops[j].join ensures At(s', s'.ops[j].sub, Entered) {
      OpStepMoves(s, k, s.ops[j].sub, Entered);
    }
  }

  /** What the publishers and receivers do is nothing to the callers of the lock. */
  lemma SameMembers(s: Sys, s': Sys)
    requires MemberInv(s)
    requires s'.ops == s.ops && s'.live == s.live && |s'.subs| == |s.subs|
    requires forall i: nat | i < |s.subs| :: s'.subs[i].closed == s.subs[i].closed
    ensures MemberInv(s')
  {
    hide Reaches;
    assert forall i: nat, g: Stage :: At(s', i, g) <==> At(s, i, g);
    forall i: nat | i < |s.subs| ensures MemberAt(s', i) {
      assert MemberAt(s, i);
    }
  }

  lemma CallAppended(s: Sys, s': Sys, op: Op, i: nat, g: Stage)
    requires s'.ops == s.ops + [op] && op.pc.OpWaiting?
    ensures At(s', i, g) <==> At(s, i, g) || (g == Asked && op.join && op.sub == i)
  {
    assert s'.ops[|s.ops|] == op && op in s'.ops;
    forall o <- s.ops ensures o in s'.ops {}
  }

  lemma SomebodyAt(s: Sys, i: nat, g: Stage)
    requires LifeInv(s) && At(s, i, g)
    ensures i < |s.subs|
  {
    var j: nat :| j < |s.ops| && Reaches(s.ops[j], i, g);
  }

  lemma NobodyAt(s: Sys, i: nat, g: Stage)
    requires LifeInv(s) && i >= |s.subs|
    ensures !At(s, i, g)
  {
    forall op | op in s.ops ensures op.sub < |s.subs| {
      var j: nat :| j < |s.ops| && s.ops[j] == op;
    }
  }

  lemma SubscribeKeepsMembers(s: Sys, topics: set<string>)
    requires LifeInv(s) && MemberInv(s)
    ensures MemberInv(Next(s, CallSubscribe(topics)))
  {
    hide At;
    var n := |s.subs|;
    var s', op := Next(s, CallSubscribe(topics)), Op(true, n, OpWaiting);
    forall i: nat, g: Stage ensures At(s', i, g) <==> At(s, i, g) || (g == Asked && i == n) {
      CallAppended(s, s', op, i, g);
    }
    forall g: Stage ensures !At(s, n, g) {
      NobodyAt(s, n, g);
    }
    forall i: nat | i <= n ensures MemberAt(s', i) {
      assert i < n ==> MemberAt(s, i);
    }
  }

  lemma UnsubscribeKeepsMembers(s: Sys, sub: nat)
    requires MemberInv(s)
    ensures MemberInv(Next(s, CallUnsubscribe(sub)))
  {
    if Joined(s, sub) {
      JoinedEntered(s, sub);
      hide At;
      var s', op := Next(s, CallUnsubscribe(sub)), Op(false, sub, OpWaiting);
      forall i: nat, g: Stage ensures At(s', i, g) <==> At(s, i, g) {
        CallAppended(s, s', op, i, g);
      }
      forall i: nat | i < |s.subs| ensures MemberAt(s', i) {
        assert MemberAt(s, i);
      }
    }
  }

  lemma JoinedEntered(s: Sys, sub: nat)
    requires MemberInv(s) && Joined(s, sub)
    ensures At(s, sub, Entered)
  {
    assert MemberAt(s, sub);
    var op :| op in s.ops && Reaches(op, sub, Asked);
    assert Reaches(op, sub, Entered);
  }

  lemma StepKeepsMembers(s: Sys, ev: Event)
    requires LockInv(s) && LifeInv(s) && MemberInv(s)
    ensures MemberInv(Next(s, ev))
  {
    hide LockInv, LifeInv, MemberInv, StepOp, At, Joined;
    match ev
    case CallSubscribe(topics) => SubscribeKeepsMembers(s, topics);
    case CallUnsubscribe(sub) => UnsubscribeKeepsMembers(s, sub);
    case OpStep(k) =>
      if k < |s.ops| && s.ops[k].sub < |s.subs| {
        OpStepKeepsMembers(s, k);
      }
    case _ => SameMembers(s, Next(s, ev));
  }

  lemma {:induction false} RunKeepsMembers(s: Sys, evs: seq<Event>)
    requires Inv(s) && MemberInv(s)
    ensures MemberInv(Run(s, evs))
    decreases |evs|
  {
    hide Inv, MemberInv, Next;
    if evs != [] {
      StepKeepsInv(s, evs[0]);
      StepKeepsMembers(s, evs[0]);
      RunKeepsMembers(Next(s, evs[0]), evs[1..]);
    }
  }

  lemma StepKeepsInv(s: Sys, ev: Event)
    requires Inv(s)
    ensures LockInv(s) && LifeInv(s) && Inv(Next(s, ev))
  {
    hide LockInv, LifeInv, OfferInv;
    StepKeepsLock(s, ev);
    StepKeepsLife(s, ev);
    StepKeepsOffers(s, ev);
  }

  /** In every run, at every moment: a subscription is live exactly when its Subscribe has put it in
      and no Unsubscribe has taken it out, and its channel is closed exactly when some Unsubscribe of
      it is past the close. */
  lemma LiveIff(evs: seq<Event>, i: nat)
    requires i < |Run(EMPTY, evs).subs|
    ensures
      var s := Run(EMPTY, evs);
      && (i in s.live <==>
            && (exists op <- s.ops :: op.join && op.sub == i && (op.pc.Unlocking? || op.pc.OpDone?))
            && (forall op <- s.ops :: !op.join && op.sub == i ==> op.pc.OpWaiting? || op.pc.Locked?))
      && (s.subs[i].closed <==>
            exists op <- s.ops :: !op.join && op.sub == i && (op.pc.Unlocking? || op.pc.OpDone?))
  {
    RunKeepsMembers(EMPTY, evs);
    var s := Run(EMPTY, evs);
    hide Run, LockInv, LifeInv, OfferInv;
    assert MemberAt(s, i);
    assert At(s, i, Entered) <==> exists op <- s.ops :: op.join && op.sub == i && (op.pc.Unlocking? || op.pc.OpDone?);
    assert At(s, i, Shut) <==> exists op <- s.ops :: !op.join && op.sub == i && (op.pc.Unlocking? || op.pc.OpDone?);
    assert At(s, i, Left) <==> exists op <- s.ops :: !op.join && op.sub == i && !op.pc.OpWaiting? && !op.pc.Locked?;
  }

  lemma StagesStay(s: Sys, ev: Event, i: nat, g: Stage)
    requires At(s, i, g)
    ensures At(Next(s, ev), i, g)
  {
    hide Reaches, StepOp, Joined;
    var s' := Next(s, ev);
    if ev.OpStep? && ev.op < |s.ops| && s.ops[ev.op].sub < |s.subs| {
      OpStepMoves(s, ev.op, i, g);
    } else {
      var j: nat :| j < |s.ops| && Reaches(s.ops[j], i, g);
      assert s'.ops[j] == s.ops[j] && s'.ops[j] in s'.ops;
    }
  }

  /** The publisher has taken the lock. */
  predicate Begun(s: Sys, p: nat) {
    p < |s.pubs| && !s.pubs[p].pc.PubWaiting?
  }

  /** Subscription `i` is in, and a publication that has begun counts it in, unless it has left. */
  ghost predicate Counted(s: Sys, p: nat, i: nat) {
    && i < |s.subs| && At(s, i, Entered)
    && (Begun(s, p) ==> i in s.pubs[p].audience || At(s, i, Left))
  }

  lemma StepKeepsCounted(s: Sys, ev: Event, p: nat, i: nat)
    requires LockInv(s) && LifeInv(s) && MemberInv(s) && Counted(s, p, i)
    ensures Counted(Next(s, ev), p, i) && Next(s, ev).subs[i].topics == s.subs[i].topics
  {
    hide At, Next, LockInv, LifeInv, Begun;
    assert MemberAt(s, i);
    StagesStay(s, ev, i, Entered);
    if At(s, i, Left) {
      StagesStay(s, ev, i, Left);
    }
    if Begun(Next(s, ev), p) {
      AudienceIs(s, ev, p);
    }
    TopicsStay(s, ev, i);
  }

  /** A publication's audience is what is live as it takes the lock, and does not change. */
  lemma AudienceIs(s: Sys, ev: Event, p: nat)
    requires Begun(Next(s, ev), p)
    ensures p < |Next(s, ev).pubs|
    ensures Next(s, ev).pubs[p].audience == if Begun(s, p) then s.pubs[p].audience else s.live
  {
    if ev.OpStep? && ev.op < |s.ops| && s.ops[ev.op].sub < |s.subs| {
      assert StepOp(s, ev.op).pubs == s.pubs;
    }
  }

  lemma TopicsStay(s: Sys, ev: Event, i: nat)
    requires i < |s.subs|
    ensures i < |Next(s, ev).subs| && Next(s, ev).subs[i].topics == s.subs[i].topics
  {
    if ev.OpStep? && ev.op < |s.ops| && s.ops[ev.op].sub < |s.subs| {
      assert |StepOp(s, ev.op).subs| == |s.subs| && StepOp(s, ev.op).subs[i].topics == s.subs[i].topics;
    }
  }

  lemma {:induction false} RunKeepsCounted(s: Sys, evs: seq<Event>, p: nat, i: nat)
    requires Inv(s) && MemberInv(s) && Counted(s, p, i)
    ensures Counted(Run(s, evs), p, i) && Run(s, evs).subs[i].topics == s.subs[i].topics
    decreases |evs|
  {
    hide Inv, MemberInv, Counted, Next;
    if evs != [] {
      StepKeepsInv(s, evs[0]);
      StepKeepsMembers(s, evs[0]);
      CountedIn(s, p, i);
      StepKeepsCounted(s, evs[0], p, i);
      RunKeepsCounted(Next(s, evs[0]), evs[1..], p, i);
    }
  }

  lemma CountedIn(s: Sys, p: nat, i: nat)
    requires Counted(s, p, i)
    ensures i < |s.subs|
  {}

  lemma {:induction false} RunConcat(s: Sys, a: seq<Event>, b: seq<Event>)
    ensures Run(s, a + b) == Run(Run(s, a), b)
    decreases |a|
  {
    if a == [] {
      assert a + b == b;
    } else {
      assert (a + b)[1..] == a[1..] + b;
      RunConcat(Next(s, a[0]), a[1..], b);
    }
  }

  /** A subscription that is live before a publication begins, and still live at some moment after
      it is done, has been offered the event exactly when it is one of its topics, which are the
      ones it was made with. */
  lemma PublishedWhileLive(a: seq<Event>, b: seq<Event>, p: nat, i: nat)
    requires i in Run(EMPTY, a).live && !Begun(Run(EMPTY, a), p)
    requires i in Run(EMPTY, a + b).live
    requires p < |Run(EMPTY, a + b).pubs| && Run(EMPTY, a + b).pubs[p].pc.PubDone?
    ensures i < |Run(EMPTY, a).subs| && i < |Run(EMPTY, a + b).subs|
    ensures
      var sub := Run(EMPTY, a + b).subs[i];
      && sub.topics == Run(EMPTY, a).subs[i].topics
      && (OfferedTo(sub, p) <==> Run(EMPTY, a + b).pubs[p].topic in sub.topics)
  {
    CloseSafety(a);
    CloseSafety(a + b);
    RunKeepsInv(EMPTY, a);
    RunKeepsMembers(EMPTY, a);
    RunKeepsMembers(EMPTY, a + b);
    RunConcat(EMPTY, a, b);
    assert MemberAt(Run(EMPTY, a), i) && MemberAt(Run(EMPTY, a + b), i);
    hide Inv, At, Run, OfferedTo;
    RunKeepsCounted(Run(EMPTY, a), b, p, i);
    PublishedToAudience(a + b, p, i);
  }

  /** Once an Unsubscribe has returned the subscription is out and its channel closed, for good. */
  lemma UnsubscribedForGood(a: seq<Event>, b: seq<Event>, k: nat)
    requires k < |Run(EMPTY, a).ops| && !Run(EMPTY, a).ops[k].join && Run(EMPTY, a).ops[k].pc.OpDone?
    ensures
      var i, s := Run(EMPTY, a).ops[k].sub, Run(EMPTY, a + b);
      i < |s.subs| && i !in s.live && s.subs[i].closed
  {
    RunConcat(EMPTY, a, b);
    RunKeepsInv(EMPTY, a);
    RunKeepsInv(EMPTY, a + b);
    RunKeepsMembers(EMPTY, a + b);
    var i := Run(EMPTY, a).ops[k].sub;
    hide Run, OfferInv, LockInv, StepOp;
    ReachesAt(Run(EMPTY, a), k, i, Left);
    ReachesAt(Run(EMPTY, a), k, i, Shut);
    StagesStayAlong(Run(EMPTY, a), b, i, Left);
    StagesStayAlong(Run(EMPTY, a), b, i, Shut);
    SomebodyAt(Run(EMPTY, a + b), i, Left);
    assert MemberAt(Run(EMPTY, a + b), i);
  }

  lemma {:induction false} StagesStayAlong(s: Sys, evs: seq<Event>, i: nat, g: Stage)
    requires At(s, i, g)
    ensures At(Run(s, evs), i, g)
    decreases |evs|
  {
    hide At, Next;
    if evs != [] {
      StagesStay(s, evs[0], i, g);
      StagesStayAlong(Next(s, evs[0]), evs[1..], i, g);
    }
  }

  // ---- A publisher left alone ----

  ghost function SetOf(order: seq<nat>): set<nat> {
    set i <- order
  }

  function Sends(p: nat, order: seq<nat>): seq<Event> {
    if order == [] then [] else [PubSend(p, order[0])] + Sends(p, order[1..])
  }

  /** The sends of one undisturbed Publish, in whatever order the map is iterated, offer the event
      once to every subscription to the topic and leave the others alone: what `EventHub.Publish`
      does in one piece. */
  lemma {:induction false} LonePublish(s: Sys, p: nat, order: seq<nat>)
    requires p < |s.pubs| && s.pubs[p].pc == Sending(SetOf(order))
    requires forall i <- order :: i < |s.subs| && !s.subs[i].closed
    requires forall a: nat, b: nat | a < b < |order| :: order[a] != order[b]
    ensures
      var s' := Run(s, Sends(p, order));
      && |s'.subs| == |s.subs| && s'.crashed == s.crashed
      && p < |s'.pubs| && s'.pubs[p].pc == Sending({})
      && forall i: nat | i < |s.subs| ::
           s'.subs[i] == if i in order && s.pubs[p].topic in s.subs[i].topics then Send(s.subs[i], p) else s.subs[i]
    decreases |order|
  {
    hide Send, Next;
    if order == [] {
      assert SetOf(order) == {};
    } else {
      var i, rest := order[0], order[1..];
      assert order == [i] + rest && i in order;
      var s1 := Next(s, PubSend(p, i));
      SendStep(s, p, i);
      assert SetOf(order) - {i} == SetOf(rest) by {
        assert forall b: nat | b < |rest| :: rest[b] == order[b + 1] && i != rest[b];
      }
      forall j <- rest ensures j < |s1.subs| && !s1.subs[j].closed {
        assert j in order;
      }
      LonePublish(s1, p, rest);
      assert Sends(p, order)[1..] == Sends(p, rest);
      assert Run(s, Sends(p, order)) == Run(s1, Sends(p, rest));
    }
  }

  lemma SendStep(s: Sys, p: nat, i: nat)
    requires p < |s.pubs| && s.pubs[p].pc.Sending? && i in s.pubs[p].pc.todo
    requires i < |s.subs| && !s.subs[i].closed
    ensures
      var s1 := Next(s, PubSend(p, i));
      && |s1.subs| == |s.subs| && s1.crashed == s.crashed
      && p < |s1.pubs| && s1.pubs[p] == s.pubs[p].(pc := Sending(s.pubs[p].pc.todo - {i}))
      && forall j: nat | j < |s.subs| ::
           && s1.subs[j] == (if j == i && s.pubs[p].topic in s.subs[j].topics then Send(s.subs[j], p) else s.subs[j])
           && s1.subs[j].topics == s.subs[j].topics && s1.subs[j].closed == s.subs[j].closed
  {}

  // ---- Calls left alone ----

  lemma RunOne(s: Sys, ev: Event)
    ensures Run(s, [ev]) == Next(s, ev)
  {
    assert [ev][1..] == [];
  }

  lemma RunTwo(s: Sys, ev: Event, ev2: Event)
    ensures Run(s, [ev, ev2]) == Next(Next(s, ev), ev2)
  {
    assert [ev, ev2] == [ev] + [ev2];
    RunConcat(s, [ev], [ev2]);
    RunOne(s, ev);
    RunOne(Next(s, ev), ev2);
  }

  lemma RunFour(s: Sys, a: Event, b: Event, c: Event, d: Event)
    ensures Run(s, [a, b, c, d]) == Next(Next(Next(Next(s, a), b), c), d)
  {
    assert [a, b, c, d] == [a, b] + [c, d];
    RunConcat(s, [a, b], [c, d]);
    RunTwo(s, a, b);
    RunTwo(Next(Next(s, a), b), c, d);
  }

  /** The state once the last call has come to `pc`. */
  function WithLast(s: Sys, ops: seq<Op>, op: Op, pc: OpPc): Sys {
    s.(ops := ops + [op.(pc := pc)])
  }

  lemma LastStep(s: Sys, ops: seq<Op>, op: Op)
    requires s.ops == ops + [op] && op.sub < |s.subs|
    ensures
      var s', k := Next(s, OpStep(|ops|)), |ops|;
      && (op.pc.OpWaiting? && LockFree(s) ==> s' == WithLast(s.(writer := Some(k)), ops, op, Locked))
      && (op.pc.Locked? && op.join ==> s' == WithLast(s.(live := s.live + {op.sub}), ops, op, Unlocking))
      && (op.pc.Locked? && !op.join && op.sub in s.live ==>
            s' == WithLast(s.(live := s.live - {op.sub}), ops, op, Deleted))
      && (op.pc.Locked? && !op.join && op.sub !in s.live ==> s' == WithLast(s, ops, op, Unlocking))
      && (op.pc.Deleted? && !s.subs[op.sub].closed ==>
            s' == WithLast(s.(subs := s.subs[op.sub := s.subs[op.sub].(closed := true)]), ops, op, Unlocking))
      && (op.pc.Unlocking? ==> s' == WithLast(s.(writer := None), ops, op, OpDone))
      && (op.pc.OpDone? ==> s' == s)
  {
    forall pc: OpPc ensures SetOp(s, |ops|, pc) == ops + [op.(pc := pc)] {}
  }

  /** A Subscribe that nobody disturbs returns with its subscription live, open and empty, and free to
      be unsubscribed: what `EventHub.Subscribe` does in one piece. */
  lemma LoneSubscribe(s: Sys, topics: set<string>)
    requires LifeInv(s) && LockFree(s)
    ensures
      var k := |s.ops|;
      Joined(Run(s, [CallSubscribe(topics), OpStep(k), OpStep(k), OpStep(k)]), |s.subs|)
    ensures
      var k := |s.ops|;
      Run(s, [CallSubscribe(topics), OpStep(k), OpStep(k), OpStep(k)]) ==
        s.(subs := s.subs + [Sub(topics, [], false, [], [])], live := s.live + {|s.subs|},
           ops := s.ops + [Op(true, |s.subs|, OpDone)])
  {
    var k, op := |s.ops|, Op(true, |s.subs|, OpWaiting);
    RunFour(s, CallSubscribe(topics), OpStep(k), OpStep(k), OpStep(k));
    var s1 := s.(subs := s.subs + [Sub(topics, [], false, [], [])], ops := s.ops + [op]);
    assert Next(s, CallSubscribe(topics)) == s1;
    hide Next, Run;
    LastStep(s1, s.ops, op);
    var s2 := Next(s1, OpStep(k));
    LastStep(s2, s.ops, op.(pc := Locked));
    LastStep(Next(s2, OpStep(k)), s.ops, op.(pc := Unlocking));
    JustJoined(s, Next(Next(s2, OpStep(k)), OpStep(k)));
  }

  lemma JustJoined(s: Sys, s': Sys)
    requires LifeInv(s) && s'.ops == s.ops + [Op(true, |s.subs|, OpDone)] && |s'.subs| == |s.subs| + 1
    ensures Joined(s', |s.subs|)
  {
    assert forall op <- s.ops :: op.sub < |s.subs|;
    assert forall op <- s'.ops :: op in s.ops || op == Op(true, |s.subs|, OpDone);
  }

  /** An Unsubscribe that nobody disturbs takes a live subscription out and closes it, and leaves any
      other as it is: what `EventHub.Unsubscribe` does in one piece. */
  lemma LoneUnsubscribe(s: Sys, i: nat)
    requires LifeInv(s) && LockFree(s) && Joined(s, i)
    ensures
      var k := |s.ops|;
      Run(Next(s, CallUnsubscribe(i)), [OpStep(k), OpStep(k), OpStep(k), OpStep(k)]) ==
        s.(subs := if i in s.live then s.subs[i := s.subs[i].(closed := true)] else s.subs, live := s.live - {i},
           ops := s.ops + [Op(false, i, OpDone)])
  {
    var k, op := |s.ops|, Op(false, i, OpWaiting);
    var s1 := s.(ops := s.ops + [op]);
    LiveOpen(s);
    CalledUnsubscribe(s, i);
    RunFour(s1, OpStep(k), OpStep(k), OpStep(k), OpStep(k));
    hide Next, Run, LifeInv, Joined;
    LastStep(s1, s.ops, op);
    var s2 := Next(s1, OpStep(k));
    LastStep(s2, s.ops, op.(pc := Locked));
    var s3 := Next(s2, OpStep(k));
    var s4 := Next(s3, OpStep(k));
    if i in s.live {
      LastStep(s3, s.ops, op.(pc := Deleted));
      LastStep(s4, s.ops, op.(pc := Unlocking));
    } else {
      assert s.live - {i} == s.live;
      LastStep(s3, s.ops, op.(pc := Unlocking));
      LastStep(s4, s.ops, op.(pc := OpDone));
    }
  }

  lemma CalledUnsubscribe(s: Sys, i: nat)
    requires Joined(s, i)
    ensures i < |s.subs| && Next(s, CallUnsubscribe(i)) == s.(ops := s.ops + [Op(false, i, OpWaiting)])
  {}

  /** A Publish that nobody disturbs, from its call to its return: each live subscription to the topic
      is offered the event, and nothing else changes. */
  lemma LonePublishCall(s: Sys, topic: string, order: seq<nat>)
    requires LifeInv(s) && LockFree(s) && SetOf(order) == s.live
    requires forall a: nat, b: nat | a < b < |order| :: order[a] != order[b]
    ensures
      var p := |s.pubs|;
      var s' := Run(s, [CallPublish(topic), PubLock(p)] + Sends(p, order) + [PubUnlock(p)]);
      && |s'.subs| == |s.subs| && !s'.crashed && LockFree(s')
      && p < |s'.pubs| && s'.pubs[p] == Pub(topic, PubDone, s.live)
      && forall i: nat | i < |s.subs| ::
           s'.subs[i] == if i in s.live && topic in s.subs[i].topics then Send(s.subs[i], p) else s.subs[i]
  {
    hide LifeInv, Send, Sends, Next;
    var p := |s.pubs|;
    var s1 := s.(readers := {p}, pubs := s.pubs + [Pub(topic, Sending(s.live), s.live)]);
    LockedPublish(s, topic);
    RunConcat(s, [CallPublish(topic), PubLock(p)], Sends(p, order));
    RunConcat(s, [CallPublish(topic), PubLock(p)] + Sends(p, order), [PubUnlock(p)]);
    LiveOpen(s);
    assert forall i <- order :: i in SetOf(order);
    LonePublish(s1, p, order);
    SendsKeepLock(s1, p, order);
    var s2 := Run(s1, Sends(p, order));
    UnlockedPublish(s2, p);
  }

  lemma LockedPublish(s: Sys, topic: string)
    requires LockFree(s)
    ensures
      var p := |s.pubs|;
      Run(s, [CallPublish(topic), PubLock(p)]) ==
        s.(readers := {p}, pubs := s.pubs + [Pub(topic, Sending(s.live), s.live)])
  {
    var p := |s.pubs|;
    RunTwo(s, CallPublish(topic), PubLock(p));
    var s1 := s.(pubs := s.pubs + [Pub(topic, PubWaiting, {})]);
    assert Next(s, CallPublish(topic)) == s1;
    assert s1.pubs[p := Pub(topic, Sending(s.live), s.live)] == s.pubs + [Pub(topic, Sending(s.live), s.live)];
    assert s1.readers + {p} == {p};
  }

  lemma UnlockedPublish(s: Sys, p: nat)
    requires p < |s.pubs| && s.pubs[p].pc == Sending({})
    ensures Run(s, [PubUnlock(p)]) == s.(readers := s.readers - {p}, pubs := s.pubs[p := s.pubs[p].(pc := PubDone)])
  {
    RunOne(s, PubUnlock(p));
  }

  lemma LiveOpen(s: Sys)
    requires LifeInv(s)
    ensures !s.crashed && forall i <- s.live :: i < |s.subs| && !s.subs[i].closed
  {}

  lemma {:induction false} SendsKeepLock(s: Sys, p: nat, order: seq<nat>)
    requires p < |s.pubs|
    ensures
      var s' := Run(s, Sends(p, order));
      && s'.readers == s.readers && s'.writer == s.writer && |s'.pubs| == |s.pubs|
      && s'.pubs[p].topic == s.pubs[p].topic && s'.pubs[p].audience == s.pubs[p].audience
    decreases |order|
  {
    if order != [] {
      assert Sends(p, order)[1..] == Sends(p, order[1..]);
      SendsKeepLock(Next(s, PubSend(p, order[0])), p, order[1..]);
    }
  }

  /** A listener receives the oldest event its buffer holds. */
  lemma ReceiveIs(s: Sys, i: nat)
    requires i < |s.subs| && s.subs[i].buf != []
    ensures
      var sub := s.subs[i];
      Next(s, Receive(i)) ==
        s.(subs := s.subs[i := sub.(buf := sub.buf[1..], received := sub.received + [sub.buf[0]])])
  {}
}
