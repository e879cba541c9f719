/** The flood on the ring overlay: delivered in hop order it reaches everyone up
    to 43 peers, and with 44 or more somebody can never be reached. */
module FloodRing {
  import opened Prelude
  import opened PublicNode
  import opened Flood
  import opened FloodOnce
  import opened FloodReach
  import Ring

  // ----- Delivery in hop order -----

  /** Copies of this message are delivered round by round: fewest hops first. */
  ghost predicate InHopOrder(net: Net, evs: seq<Event>, id: MsgId)
    requires IsRun(net, evs)
    decreases |evs|
  {
    evs != [] ==> HopStep(net, evs[0], id) && InHopOrder(Apply(net, evs[0]), evs[1..], id)
  }

  ghost predicate HopStep(net: Net, ev: Event, id: MsgId) {
    ev.Deliver? && ev.copy.msg.id == id ==>
      forall c :: c in net.flight && c.msg.id == id ==> ev.copy.hops <= c.hops
  }

  /** What was shown took no more hops than what is in flight, and a peer that
      showed the message after h hops has its neighbours served after h + 1. */
  ghost predicate Leveled(net: Net, id: MsgId) {
    && (forall d, c :: d in net.shown && d.msg.id == id && c in net.flight && c.msg.id == id ==> d.hops <= c.hops)
    && (forall u, h: nat, w ::
          u in net.peers && h < MAX_HOPS && ShownAt(net, u, id, h) && w in net.peers[u].neighbors ==>
          ReachedBy(net, w, id, h + 1) || OnTheWay(net, u, w, id, h + 1))
  }

  lemma {:induction false} SameForLevels(net: Net, net': Net, id: MsgId)
    requires Integrity(net) && Integrity(net') && SameFor(net, net', id) && Leveled(net, id)
    ensures Leveled(net', id)
  {
    assert forall p, h: nat :: ShownAt(net', p, id, h) <==> ShownAt(net, p, id, h);
    assert forall p, k: nat :: ReachedBy(net, p, id, k) ==> ReachedBy(net', p, id, k);
    assert forall p, q, h: nat :: OnTheWay(net', p, q, id, h) <==> OnTheWay(net, p, q, id, h);
  }

  ghost predicate LeveledBut(net: Net, id: MsgId, p: PeerId, hops: nat) {
    && (forall c :: c in net.flight && c.msg.id == id ==> hops <= c.hops)
    && (forall d :: d in net.shown && d.msg.id == id ==> d.hops <= hops)
    && (forall u, h: nat, w ::
          u in net.peers && h < MAX_HOPS && ShownAt(net, u, id, h) && w in net.peers[u].neighbors ==>
          ReachedBy(net, w, id, h + 1) || OnTheWay(net, u, w, id, h + 1) || (w == p && hops <= h + 1))
  }

  lemma {:induction false} TakeLevels(
    net: Net, p: PeerId, r: Reaction, id: MsgId, dsts: seq<PeerId>, out: PublicMsg, hops: nat)
    requires TakesAt(net, p, r, id, dsts, out, hops) && LeveledBut(net, id, p, hops)
    requires forall w :: w in net.peers[p].neighbors && hops < MAX_HOPS ==>
               w in dsts || ReachedBy(net, w, id, hops + 1) || w == p
    ensures Leveled(Record(net, p, r, hops), id)
  {
    var net' := Record(net, p, r, hops);
    TakeShows(net, p, r, id, dsts, out, hops);
    TakeSends(net, p, r, id, dsts, out, hops);
    forall q, k: nat | ReachedBy(net, q, id, k) ensures ReachedBy(net', q, id, k) {
      var h: nat :| h <= k && ShownAt(net, q, id, h);
      assert ShownAt(net', q, id, h);
    }
    assert ShownAt(net', p, id, hops);
    forall u, h: nat, w | u in net'.peers && h < MAX_HOPS && ShownAt(net', u, id, h) && w in net'.peers[u].neighbors
      ensures ReachedBy(net', w, id, h + 1) || OnTheWay(net', u, w, id, h + 1)
    {
      assert net'.peers[u].neighbors == net.peers[u].neighbors;
    }
  }

  lemma {:induction false} WriteLevels(net: Net, p: PeerId, id: MsgId, ts: int, text: string, room: string)
    requires Integrity(net) && Once(net) && Leveled(net, id) && Attentive(net, room)
    requires Enabled(net, Write(p, id, ts, text))
    ensures Leveled(Apply(net, Write(p, id, ts, text)), id)
  {
    var n := net.peers[p];
    var r := Compose(p, n, id, ts, text);
    ComposeTakes(net, p, id, ts, text);
    if r.shown.Some? {
      var msg := r.shown.value;
      var net1 := Authored(net, msg);
      var dsts := Targets(n.neighbors, n.open, {});
      TargetsAre(n.neighbors, n.open, {});
      NothingYet(net, id);
      assert Apply(net, Write(p, id, ts, text)) == Record(net1, p, r, 0);
      assert MsgAt(net1, id, 0) == msg && MsgAt(net1, id, 1) == msg;
      TakeLevels(net1, p, r, id, dsts, msg, 0);
    } else {
      NothingKeepsOnce(net, p, 0);
    }
  }

  lemma {:induction false} TakenOffLevels(net: Net, c: Copy)
    requires Integrity(net) && Leveled(net, c.msg.id) && Rooted(net, c.msg.id) && c in net.flight
    requires HopStep(net, Deliver(c), c.msg.id)
    ensures LeveledBut(net.(flight := net.flight - multiset{c}), c.msg.id, c.dst, c.hops)
  {
    var net1 := net.(flight := net.flight - multiset{c});
    var id := c.msg.id;
    TakenOff(net, c, id);
    assert forall p, k: nat :: ReachedBy(net, p, id, k) ==> ReachedBy(net1, p, id, k);
    forall u, h: nat, w | u in net1.peers && h < MAX_HOPS && ShownAt(net1, u, id, h) && w in net1.peers[u].neighbors
      ensures ReachedBy(net1, w, id, h + 1) || OnTheWay(net1, u, w, id, h + 1) || (w == c.dst && c.hops <= h + 1)
    {
      if OnTheWay(net, u, w, id, h + 1) && w == c.dst {
        assert MsgAt(net, id, h + 1).id == id by { assert c in net.sent; }
      }
    }
  }

  lemma {:induction false} AlreadyReached(net: Net, id: MsgId, p: PeerId, hops: nat)
    requires LeveledBut(net, id, p, hops) && ReachedBy(net, p, id, hops)
    ensures Leveled(net, id)
  {
    var h: nat :| h <= hops && ShownAt(net, p, id, h);
  }

  /** The neighbours of a first receiver, other than those it passes the
      message to, showed it already. */
  lemma {:induction false} ServedBefore(net: Net, room: string, c: Copy, v: PeerId)
    requires Spreading(net, room, c.msg.id) && c in net.flight && c.dst in net.peers
    requires v in net.peers[c.dst].neighbors && c.hops < MAX_HOPS
    ensures v in Onward(net.peers[c.dst], c) || ReachedBy(net, v, c.msg.id, c.hops + 1)
  {
    var n := net.peers[c.dst];
    assert c in net.sent;
    SendersHold(net, room, c);
    TargetsAre(n.neighbors, n.open, {c.src, c.msg.origin});
    if v == c.src {
      assert ShownAt(net, v, c.msg.id, c.hops - 1);
    }
  }

  lemma {:induction false} NewlyReached(net: Net, room: string, c: Copy)
    requires Spreading(net, room, c.msg.id) && HopStep(net, Deliver(c), c.msg.id) && Leveled(net, c.msg.id)
    requires Enabled(net, Deliver(c)) && Uncut(net, Deliver(c)) && !Has(net, c.dst, c.msg.id)
    ensures Leveled(Apply(net, Deliver(c)), c.msg.id)
  {
    var id, n := c.msg.id, net.peers[c.dst];
    var net1 := net.(flight := net.flight - multiset{c});
    var r := Receive(n, c.src, c.msg);
    TakenOffLevels(net, c);
    DeliverReady(net, room, c);
    assert TakesAt(net1, c.dst, r, id, Onward(n, c), Spent(c.msg), c.hops) by {
      ReceiveTakes(net, c) by { assert c in net.sent; }
    }
    forall v | v in n.neighbors && c.hops < MAX_HOPS
      ensures v in Onward(n, c) || ReachedBy(net1, v, id, c.hops + 1)
    {
      ServedBefore(net, room, c, v);
      if ReachedBy(net, v, id, c.hops + 1) {
        var h: nat :| h <= c.hops + 1 && ShownAt(net, v, id, h);
        assert ShownAt(net1, v, id, h) by { TakenOff(net, c, id); }
      }
    }
    TakeLevels(net1, c.dst, r, id, Onward(n, c), Spent(c.msg), c.hops);
  }

  /** A repeated copy is dropped by a peer that showed the message before. */
  lemma {:induction false} ReachedBefore(net: Net, room: string, c: Copy)
    requires Spreading(net, room, c.msg.id) && HopStep(net, Deliver(c), c.msg.id) && Leveled(net, c.msg.id)
    requires c in net.flight && Has(net, c.dst, c.msg.id)
    ensures ReachedBy(net, c.dst, c.msg.id, c.hops)
  {
    var d :| d in net.shown && d.peer == c.dst && d.msg.id == c.msg.id;
    assert Genuine(net, d.msg, d.hops);
    assert ShownAt(net, c.dst, c.msg.id, d.hops);
  }

  lemma {:induction false} DeliverLevels(net: Net, room: string, c: Copy)
    requires Spreading(net, room, c.msg.id) && Leveled(net, c.msg.id) && HopStep(net, Deliver(c), c.msg.id)
    requires Enabled(net, Deliver(c)) && Uncut(net, Deliver(c))
    ensures Leveled(Apply(net, Deliver(c)), c.msg.id)
  {
    var id, w := c.msg.id, c.dst;
    if Has(net, w, id) {
      var net1 := net.(flight := net.flight - multiset{c});
      assert Apply(net, Deliver(c)) == net1 by {
        ReceiveTakes(net, c) by { assert c in net.sent; }
        NothingKeepsOnce(net1, w, c.hops);
      }
      TakenOffLevels(net, c);
      ReachedBefore(net, room, c);
      var h: nat :| h <= c.hops && ShownAt(net, w, id, h);
      assert ShownAt(net1, w, id, h) by { TakenOff(net, c, id); }
      AlreadyReached(net1, id, w, c.hops);
    } else {
      NewlyReached(net, room, c);
    }
  }

  lemma {:induction false} LeveledStep(net: Net, room: string, ev: Event, id: MsgId)
    requires Spreading(net, room, id) && Leveled(net, id) && HopStep(net, ev, id)
    requires Enabled(net, ev) && !ev.Local? && Uncut(net, ev)
    requires ev.Lose? ==> ev.copy.msg.id != id
    ensures Leveled(Apply(net, ev), id)
  {
    if ev.Write? && ev.id == id {
      WriteLevels(net, ev.author, id, ev.ts, ev.text, room);
    } else if ev.Deliver? && ev.copy.msg.id == id {
      DeliverLevels(net, room, ev.copy);
    } else {
      IntegrityStep(net, ev);
      OtherEvent(net, ev, id);
      SameForLevels(net, Apply(net, ev), id);
    }
  }

  lemma {:induction false} LeveledOverRuns(net: Net, room: string, evs: seq<Event>, id: MsgId)
    requires Spreading(net, room, id) && Leveled(net, id) && FloodRun(net, room, evs, id) && InHopOrder(net, evs, id)
    ensures Spreading(Exec(net, evs), room, id) && Leveled(Exec(net, evs), id)
    decreases |evs|
  {
    if evs != [] {
      FloodRunHead(net, room, evs, id);
      SpreadingStep(net, room, evs[0], id);
      LeveledStep(net, room, evs[0], id);
      LeveledOverRuns(Apply(net, evs[0]), room, evs[1..], id);
    }
  }

  // ----- The ring overlay -----

  /** The peers in hash order, each with exactly its ring neighbours. */
  ghost predicate IsRing(net: Net, order: seq<PeerId>) {
    && Distinct(order)
    && (forall p :: p in order <==> p in net.peers)
    && (forall p, q :: p in net.peers && q in net.peers[p].neighbors ==> q in net.peers)
    && (forall i, j :: 0 <= i < |order| && 0 <= j < |order| ==>
          (order[j] in net.peers[order[i]].neighbors <==> Ring.Adjacent(|order|, i, j)))
  }

  function Place(order: seq<PeerId>, p: PeerId): (i: nat)
    requires p in order
    ensures i < |order| && order[i] == p
  {
    IndexOf(order, p)
  }

  lemma {:induction false} RingPathReached(
    end: Net, order: seq<PeerId>, room: string, id: MsgId, path: seq<nat>)
    requires IsRing(end, order) && Spreading(end, room, id) && Leveled(end, id) && Quiescent(end, id) && id in end.made
    requires Ring.IsPath(|order|, path) && order[path[0]] == end.made[id].origin && |path| - 1 <= MAX_HOPS
    ensures ReachedBy(end, order[path[|path| - 1]], id, |path| - 1)
  {
    if |path| == 1 {
    } else {
      var init := path[..|path| - 1];
      RingPathReached(end, order, room, id, init);
      var u, w := path[|path| - 2], path[|path| - 1];
      assert u == init[|init| - 1];
      assert Ring.Adjacent(|order|, u, w);
      var h: nat :| h <= |path| - 2 && ShownAt(end, order[u], id, h);
      NoneOnTheWay(end, id);
      assert ReachedBy(end, order[w], id, h + 1);
    }
  }

  lemma {:induction false} RingKept(net: Net, order: seq<PeerId>, evs: seq<Event>)
    requires IsRing(net, order) && IsRun(net, evs) && FixedOverlay(net, evs)
    ensures IsRing(Exec(net, evs), order)
    decreases |evs|
  {
    if evs != [] {
      RingStep(net, order, evs[0]);
      RingKept(Apply(net, evs[0]), order, evs[1..]);
    }
  }

  lemma {:induction false} SteadyIsFixed(net: Net, evs: seq<Event>)
    requires IsRun(net, evs) && Steady(evs)
    ensures FixedOverlay(net, evs)
    decreases |evs|
  {
    if evs != [] { SteadyIsFixed(Apply(net, evs[0]), evs[1..]); }
  }

  lemma {:induction false} SameRing(net: Net, net': Net, order: seq<PeerId>)
    requires IsRing(net, order) && net'.peers.Keys == net.peers.Keys
    requires forall p :: p in net.peers ==> net'.peers[p].neighbors == net.peers[p].neighbors
    ensures IsRing(net', order)
  {
    forall p, q | p in net'.peers && q in net'.peers[p].neighbors ensures q in net'.peers {
      assert q in net.peers[p].neighbors;
    }
    forall i, j | 0 <= i < |order| && 0 <= j < |order|
      ensures order[j] in net'.peers[order[i]].neighbors <==> Ring.Adjacent(|order|, i, j)
    {
      assert order[i] in net.peers;
    }
  }

  lemma {:induction false} RingStep(net: Net, order: seq<PeerId>, ev: Event)
    requires IsRing(net, order) && Enabled(net, ev) && FixedLinks(net, ev)
    ensures IsRing(Apply(net, ev), order)
  {
    NeighborsKept(net, ev);
    SameRing(net, Apply(net, ev), order);
  }

  lemma {:induction false} ReachedIsShown(end: Net, id: MsgId, p: PeerId, k: nat)
    requires Integrity(end) && ReachedBy(end, p, id, k)
    ensures exists d :: d in end.shown && d.peer == p && d.msg.id == id
  {
    var h: nat :| h <= k && ShownAt(end, p, id, h);
    assert MsgAt(end, id, h).id == id;
  }

  lemma {:induction false} RingEndReached(end: Net, order: seq<PeerId>, room: string, id: MsgId, i: nat, j: nat)
    requires IsRing(end, order) && Spreading(end, room, id) && Leveled(end, id) && Quiescent(end, id) && id in end.made
    requires |order| <= 43 && i < |order| && j < |order| && order[i] == end.made[id].origin
    ensures ReachedBy(end, order[j], id, MAX_HOPS)
  {
    var path := Ring.HopDistance(|order|, i, j);
    RingPathReached(end, order, room, id, path);
    var h: nat :| h <= |path| - 1 && ShownAt(end, order[j], id, h);
  }

  /** Up to 43 peers, delivery in hop order reaches everyone: seven hops of three
      places cover half the ring. */
  lemma {:induction false} EveryoneReachedInHopOrder(
    net: Net, order: seq<PeerId>, evs: seq<Event>, room: string, id: MsgId, p: PeerId)
    requires IsRing(net, order) && |order| <= 43
    requires Flooded(net, evs, room, id) && InHopOrder(net, evs, id)
    requires p in net.peers
    ensures exists d :: d in Exec(net, evs).shown && d.peer == p && d.msg.id == id
  {
    FreshSpreads(net, room, id);
    LeveledOverRuns(net, room, evs, id);
    MadeGrows(net, evs);
    SteadyIsFixed(net, evs);
    RingKept(net, order, evs);
    var end := Exec(net, evs);
    assert end.made[id].origin in end.peers;
    RingEndReached(end, order, room, id, Place(order, end.made[id].origin), Place(order, p));
    ReachedIsShown(end, id, p, MAX_HOPS);
  }

  // ----- No order helps beyond 43 peers -----

  ghost predicate Within(order: seq<PeerId>, p: PeerId, q: PeerId, distance: nat) {
    p in order && q in order && Ring.Gap(|order|, Place(order, p), Place(order, q)) <= distance
  }

  ghost predicate Near(net: Net, order: seq<PeerId>) {
    && (forall c :: c in net.sent ==> Within(order, c.msg.origin, c.dst, Ring.SIDE * c.hops))
    && (forall d :: d in net.shown ==> Within(order, d.msg.origin, d.peer, Ring.SIDE * d.hops))
  }

  lemma {:induction false} OneLinkFurther(
    net: Net, order: seq<PeerId>, author: PeerId, p: PeerId, q: PeerId, distance: nat)
    requires IsRing(net, order) && Within(order, author, p, distance) && q in net.peers[p].neighbors
    ensures Within(order, author, q, distance + Ring.SIDE)
  {
    var n := |order|;
    var i, j, k := Place(order, author), Place(order, p), Place(order, q);
    assert order[k] in net.peers[order[j]].neighbors;
    Ring.GapTriangle(n, i, j, k);
  }

  lemma {:induction false} RecordNear(net: Net, order: seq<PeerId>, p: PeerId, r: Reaction, hops: nat, author: PeerId)
    requires IsRing(net, order) && Near(net, order) && p in net.peers
    requires r.sends != [] || r.shown.Some? ==> Within(order, author, p, Ring.SIDE * hops)
    requires r.shown.Some? ==> r.shown.value.origin == author
    requires forall s :: s in r.sends ==> s.dst in net.peers[p].neighbors && s.msg.origin == author
    ensures Near(Record(net, p, r, hops), order)
  {
    var net' := Record(net, p, r, hops);
    var copies := Copies(p, r.sends, hops + 1);
    forall c | c in net'.sent ensures Within(order, c.msg.origin, c.dst, Ring.SIDE * c.hops) {
      if c !in net.sent {
        assert c in copies;
        var i :| 0 <= i < |copies| && copies[i] == c;
        assert r.sends[i] in r.sends;
        OneLinkFurther(net, order, author, p, c.dst, Ring.SIDE * hops);
      }
    }
  }

  lemma {:induction false} WriteNear(net: Net, order: seq<PeerId>, p: PeerId, id: MsgId, ts: int, text: string)
    requires IsRing(net, order) && Near(net, order) && Enabled(net, Write(p, id, ts, text))
    ensures Near(Apply(net, Write(p, id, ts, text)), order)
  {
    var n := net.peers[p];
    TargetsAre(n.neighbors, n.open, {});
    RecordNear(net, order, p, Compose(p, n, id, ts, text), 0, p);
  }

  lemma {:induction false} DeliverNear(net: Net, order: seq<PeerId>, c: Copy)
    requires Integrity(net) && IsRing(net, order) && Near(net, order) && Enabled(net, Deliver(c))
    ensures Near(Apply(net, Deliver(c)), order)
  {
    var n := net.peers[c.dst];
    assert c in net.sent;
    TargetsAre(n.neighbors, n.open, {c.src, c.msg.origin});
    RecordNear(net.(flight := net.flight - multiset{c}), order, c.dst, Receive(n, c.src, c.msg), c.hops, c.msg.origin);
  }

  lemma {:induction false} NearStep(net: Net, order: seq<PeerId>, ev: Event)
    requires Integrity(net) && IsRing(net, order) && Near(net, order) && Enabled(net, ev)
    requires FixedLinks(net, ev)
    ensures Near(Apply(net, ev), order)
  {
    match ev
    case Write(p, id, ts, text) => WriteNear(net, order, p, id, ts, text);
    case Deliver(c) => DeliverNear(net, order, c);
    case Lose(c) =>
    case Local(p, change) => RecordNear(net, order, p, React(p, net.peers[p], change), 0, p);
  }

  lemma {:induction false} NearOverRuns(net: Net, order: seq<PeerId>, evs: seq<Event>)
    requires Integrity(net) && IsRing(net, order) && Near(net, order) && IsRun(net, evs) && FixedOverlay(net, evs)
    ensures Integrity(Exec(net, evs)) && Near(Exec(net, evs), order)
    decreases |evs|
  {
    if evs != [] {
      IntegrityStep(net, evs[0]);
      NearStep(net, order, evs[0]);
      RingStep(net, order, evs[0]);
      NearOverRuns(Apply(net, evs[0]), order, evs[1..]);
    }
  }

  /** The place across the ring. */
  function Opposite(n: nat, i: nat): (j: nat)
    requires i < n
    ensures j < n && Ring.Gap(n, i, j) == n / 2
  {
    if i + n / 2 < n then i + n / 2 else i + n / 2 - n
  }

  lemma {:induction false} NearEnd(end: Net, order: seq<PeerId>, author: PeerId, far: PeerId, d: Display)
    requires Integrity(end) && Near(end, order) && d in end.shown && d.msg.origin == author
    requires author in order && far in order && Ring.Gap(|order|, Place(order, author), Place(order, far)) > 21
    ensures d.peer != far
  {
    assert Genuine(end, d.msg, d.hops) && Within(order, author, d.peer, Ring.SIDE * d.hops);
  }

  /** With 44 peers or more, the peer across the ring never shows the message:
      in any order, with or without loss, whatever rooms and channels do. */
  lemma {:induction false} FarPeerNeverReached(
    net: Net, order: seq<PeerId>, evs: seq<Event>, author: PeerId) returns (far: PeerId)
    requires Fresh(net) && IsRing(net, order) && |order| >= 44 && author in net.peers
    requires IsRun(net, evs) && FixedOverlay(net, evs)
    ensures far in net.peers && far != author
    ensures forall d :: d in Exec(net, evs).shown && d.msg.origin == author ==> d.peer != far
  {
    var n := |order|;
    var i := Place(order, author);
    far := order[Opposite(n, i)];
    PlaceUnique(order, Opposite(n, i));
    assert far != author;
    NearOverRuns(net, order, evs);
    forall d | d in Exec(net, evs).shown && d.msg.origin == author ensures d.peer != far {
      NearEnd(Exec(net, evs), order, author, far, d);
    }
  }
}
