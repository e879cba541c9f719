/** How far a flooded message gets: everywhere the overlay connects when the
    order allows it, and never more than seven hops. */
module FloodReach {
  import opened Prelude
  import opened PublicNode
  import opened Flood
  import opened FloodOnce
  import Rooms

  /** All channels along the overlay are open, nobody is blocked, and every
      peer displays what is sent to `room` (sharing that room is enough). */
  ghost predicate Attentive(net: Net, room: string) {
    forall p :: p in net.peers ==>
      && Rooms.Displays(net.peers[p].room, room)
      && net.peers[p].blocked == {}
      && (forall q :: q in net.peers[p].neighbors ==> q in net.peers[p].open && q in net.peers)
  }

  ghost predicate Has(net: Net, p: PeerId, id: MsgId) {
    p in net.peers && id in net.peers[p].seen
  }

  ghost predicate ShownAt(net: Net, p: PeerId, id: MsgId, hops: nat) {
    id in net.made && hops <= MAX_HOPS && Display(p, MsgAt(net, id, hops), hops) in net.shown
  }

  /** p showed the message after at most k hops. */
  ghost predicate ReachedBy(net: Net, p: PeerId, id: MsgId, k: nat) {
    exists h: nat :: h <= k && ShownAt(net, p, id, h)
  }

  ghost predicate OnTheWay(net: Net, src: PeerId, dst: PeerId, id: MsgId, hops: nat) {
    id in net.made && hops <= MAX_HOPS && Copy(src, dst, MsgAt(net, id, hops), hops) in net.flight
  }

  ghost predicate Quiescent(net: Net, id: MsgId) {
    forall c :: c in net.flight ==> c.msg.id != id
  }

  /** No peer changes room, neighbours, channels or block list. */
  ghost predicate Steady(evs: seq<Event>) {
    forall i :: 0 <= i < |evs| ==> !evs[i].Local?
  }

  ghost predicate NoEviction(net: Net, evs: seq<Event>)
    requires IsRun(net, evs)
    decreases |evs|
  {
    evs != [] ==> Uncut(net, evs[0]) && NoEviction(Apply(net, evs[0]), evs[1..])
  }

  /** No copy of this message is lost. */
  ghost predicate Lossless(evs: seq<Event>, id: MsgId) {
    forall i :: 0 <= i < |evs| && evs[i].Lose? ==> evs[i].copy.msg.id != id
  }

  // ----- Invariants of lossless runs -----

  ghost predicate Rooted(net: Net, id: MsgId) {
    && (id in net.made ==> net.made[id].origin in net.peers && ShownAt(net, net.made[id].origin, id, 0))
    && (forall c :: c in net.flight && c.msg.id == id ==> c.hops >= 1 && ShownAt(net, c.src, id, c.hops - 1))
  }

  ghost predicate Covered(net: Net, id: MsgId) {
    forall u, h: nat, w :: u in net.peers && h < MAX_HOPS && ShownAt(net, u, id, h) && w in net.peers[u].neighbors ==>
      Has(net, w, id) || OnTheWay(net, u, w, id, h + 1)
  }

  ghost function Holders(net: Net, id: MsgId): set<PeerId> {
    set p | p in net.peers && id in net.peers[p].seen
  }

  /** A copy has taken no more hops than there are peers that hold the message. */
  ghost predicate Counted(net: Net, id: MsgId) {
    && (forall c :: c in net.flight && c.msg.id == id ==> c.hops <= |Holders(net, id)|)
    && (forall d :: d in net.shown && d.msg.id == id ==> d.hops < |Holders(net, id)|)
  }

  ghost predicate Spreading(net: Net, room: string, id: MsgId) {
    && Integrity(net) && Once(net) && Attentive(net, room)
    && (id in net.made ==> net.made[id].room == room)
    && Rooted(net, id) && Covered(net, id) && Counted(net, id)
  }

  lemma {:induction false} ShownIsHeld(net: Net, p: PeerId, id: MsgId, h: nat)
    requires Integrity(net) && Once(net) && ShownAt(net, p, id, h)
    ensures Has(net, p, id)
  {
    var i :| 0 <= i < |net.shown| && net.shown[i] == Display(p, MsgAt(net, id, h), h);
  }

  /** In a lossless setting with everyone attentive, a first copy is always taken
      in and passed to every neighbour but the sender and the author. */
  lemma {:induction false} AttentiveAccepts(net: Net, room: string, c: Copy)
    requires Integrity(net) && Attentive(net, room) && c in net.flight && c.dst in net.peers
    requires net.made[c.msg.id].room == room && !Has(net, c.dst, c.msg.id)
    ensures Accepts(net.peers[c.dst], c.src, c.msg)
  {
    assert c in net.sent;
  }

  // ----- Events about other messages -----

  /** Nothing that concerns this id differs between the two states. */
  ghost predicate SameFor(net: Net, net': Net, id: MsgId) {
    && net'.peers.Keys == net.peers.Keys
    && (forall p :: p in net.peers ==> net'.peers[p].neighbors == net.peers[p].neighbors)
    && (forall p :: Has(net', p, id) <==> Has(net, p, id))
    && (id in net.made <==> id in net'.made)
    && (id in net.made ==> net'.made[id] == net.made[id])
    && (forall c: Copy :: c.msg.id == id ==> (c in net'.flight <==> c in net.flight))
    && (forall d: Display :: d.msg.id == id ==> (d in net'.shown <==> d in net.shown))
  }

  lemma {:induction false} SameForKeeps(net: Net, net': Net, id: MsgId)
    requires Integrity(net) && Integrity(net') && SameFor(net, net', id)
    ensures Rooted(net, id) ==> Rooted(net', id)
    ensures Covered(net, id) ==> Covered(net', id)
    ensures Counted(net, id) ==> Counted(net', id)
  {
    assert forall p, h: nat :: ShownAt(net', p, id, h) <==> ShownAt(net, p, id, h);
    assert forall p, q, h: nat :: OnTheWay(net', p, q, id, h) <==> OnTheWay(net, p, q, id, h);
    assert Holders(net', id) == Holders(net, id) by {
      forall p ensures p in Holders(net', id) <==> p in Holders(net, id) {
        assert Has(net', p, id) <==> Has(net, p, id);
      }
    }
  }

  lemma {:induction false} TakeIsOther(
    net: Net, p: PeerId, r: Reaction, msg: PublicMsg, dsts: seq<PeerId>, out: PublicMsg, hops: nat, id: MsgId)
    requires p in net.peers && Takes(net.peers[p], r, msg, dsts, out) && msg.id != id
    ensures SameFor(net, Record(net, p, r, hops), id)
  {
    CopiesAre(p, dsts, out, hops + 1);
  }

  // ----- Events about this message -----

  /** p takes the message in after `hops` hops and passes it to dsts. */
  ghost predicate TakesAt(net: Net, p: PeerId, r: Reaction, id: MsgId, dsts: seq<PeerId>, out: PublicMsg, hops: nat) {
    && p in net.peers && id in net.made && net.made[id].id == id && hops <= MAX_HOPS
    && Takes(net.peers[p], r, MsgAt(net, id, hops), dsts, out)
    && (hops < MAX_HOPS ==> out == MsgAt(net, id, hops + 1))
    && (hops == MAX_HOPS ==> dsts == [])
  }

  lemma {:induction false} TakeShows(
    net: Net, p: PeerId, r: Reaction, id: MsgId, dsts: seq<PeerId>, out: PublicMsg, hops: nat)
    requires TakesAt(net, p, r, id, dsts, out, hops)
    ensures var net' := Record(net, p, r, hops);
      && net'.shown == net.shown + [Display(p, MsgAt(net, id, hops), hops)]
      && (forall q, h: nat :: ShownAt(net', q, id, h) <==> ShownAt(net, q, id, h) || (q == p && h == hops))
  {
    var net' := Record(net, p, r, hops);
    var d := Display(p, MsgAt(net, id, hops), hops);
    assert net'.shown == net.shown + [d];
    forall q, h: nat ensures ShownAt(net', q, id, h) <==> ShownAt(net, q, id, h) || (q == p && h == hops) {
      if h <= MAX_HOPS { assert MsgAt(net', id, h) == MsgAt(net, id, h); }
    }
  }

  lemma {:induction false} TakeHolds(
    net: Net, p: PeerId, r: Reaction, id: MsgId, dsts: seq<PeerId>, out: PublicMsg, hops: nat)
    requires TakesAt(net, p, r, id, dsts, out, hops)
    ensures var net' := Record(net, p, r, hops);
      && (forall q :: Has(net', q, id) <==> Has(net, q, id) || q == p)
      && |Holders(net', id)| == |Holders(net, id)| + 1
  {
    var net' := Record(net, p, r, hops);
    assert p !in Holders(net, id);
    assert Holders(net', id) == Holders(net, id) + {p};
  }

  lemma {:induction false} TakeSends(
    net: Net, p: PeerId, r: Reaction, id: MsgId, dsts: seq<PeerId>, out: PublicMsg, hops: nat)
    requires TakesAt(net, p, r, id, dsts, out, hops)
    ensures var net' := Record(net, p, r, hops);
      && (forall s, d, h: nat :: OnTheWay(net, s, d, id, h) ==> OnTheWay(net', s, d, id, h))
      && (forall d :: d in dsts ==> OnTheWay(net', p, d, id, hops + 1))
      && (forall c :: c in net'.flight ==>
        c in net.flight || (c.src == p && c.hops == hops + 1 && c.msg == out && c.dst in dsts))
  {
    var net' := Record(net, p, r, hops);
    CopiesAre(p, dsts, out, hops + 1);
    assert net'.flight == net.flight + multiset(Copies(p, r.sends, hops + 1));
    forall d | d in dsts ensures OnTheWay(net', p, d, id, hops + 1) {
      assert Copy(p, d, out, hops + 1) in Copies(p, r.sends, hops + 1);
    }
  }

  /** Covered, were it not for the peer that is about to take the message in. */
  ghost predicate CoveredBut(net: Net, id: MsgId, p: PeerId) {
    forall u, h: nat, w :: u in net.peers && h < MAX_HOPS && ShownAt(net, u, id, h) && w in net.peers[u].neighbors ==>
      Has(net, w, id) || w == p || OnTheWay(net, u, w, id, h + 1)
  }

  ghost predicate TakerReady(net: Net, id: MsgId, p: PeerId, dsts: seq<PeerId>, hops: nat)
    requires id in net.made && p in net.peers
  {
    && net.made[id].origin in net.peers
    && (if hops == 0 then p == net.made[id].origin else ShownAt(net, net.made[id].origin, id, 0))
    && (forall w :: w in net.peers[p].neighbors && hops < MAX_HOPS ==> w in dsts || Has(net, w, id) || w == p)
    && (forall c :: c in net.flight && c.msg.id == id ==> c.hops >= 1 && ShownAt(net, c.src, id, c.hops - 1))
  }

  /** One link of a peer that has shown the message, after p took it in. */
  lemma {:induction false} TakeCoversLink(
    net: Net, p: PeerId, r: Reaction, id: MsgId, dsts: seq<PeerId>, out: PublicMsg, hops: nat,
                       u: PeerId, h: nat, w: PeerId)
    requires TakesAt(net, p, r, id, dsts, out, hops) && h < MAX_HOPS && u in net.peers
    requires w in net.peers[u].neighbors
    requires if ShownAt(net, u, id, h) then Has(net, w, id) || w == p || OnTheWay(net, u, w, id, h + 1)
             else u == p && h == hops && (w in dsts || Has(net, w, id) || w == p)
    ensures var net' := Record(net, p, r, hops); Has(net', w, id) || OnTheWay(net', u, w, id, h + 1)
  {
    var net' := Record(net, p, r, hops);
    if Has(net, w, id) || w == p {
      assert Has(net', w, id) by { TakeHolds(net, p, r, id, dsts, out, hops); }
    } else {
      assert OnTheWay(net', u, w, id, h + 1) by { TakeSends(net, p, r, id, dsts, out, hops); }
    }
  }

  lemma {:induction false} TakeCovers(
    net: Net, p: PeerId, r: Reaction, id: MsgId, dsts: seq<PeerId>, out: PublicMsg, hops: nat)
    requires TakesAt(net, p, r, id, dsts, out, hops) && TakerReady(net, id, p, dsts, hops)
    requires CoveredBut(net, id, p)
    ensures Covered(Record(net, p, r, hops), id)
  {
    var net' := Record(net, p, r, hops);
    forall u, h: nat, w | u in net'.peers && h < MAX_HOPS && ShownAt(net', u, id, h) && w in net'.peers[u].neighbors
      ensures Has(net', w, id) || OnTheWay(net', u, w, id, h + 1)
    {
      assert ShownAt(net, u, id, h) || (u == p && h == hops) by { TakeShows(net, p, r, id, dsts, out, hops); }
      TakeCoversLink(net, p, r, id, dsts, out, hops, u, h, w);
    }
  }

  lemma {:induction false} TakeRoots(
    net: Net, p: PeerId, r: Reaction, id: MsgId, dsts: seq<PeerId>, out: PublicMsg, hops: nat)
    requires TakesAt(net, p, r, id, dsts, out, hops) && TakerReady(net, id, p, dsts, hops)
    ensures Rooted(Record(net, p, r, hops), id)
  {
    TakeShows(net, p, r, id, dsts, out, hops);
    TakeSends(net, p, r, id, dsts, out, hops);
  }

  lemma {:induction false} TakeCounts(
    net: Net, p: PeerId, r: Reaction, id: MsgId, dsts: seq<PeerId>, out: PublicMsg, hops: nat)
    requires TakesAt(net, p, r, id, dsts, out, hops)
    requires Counted(net, id) && hops <= |Holders(net, id)|
    ensures Counted(Record(net, p, r, hops), id)
  {
    TakeShows(net, p, r, id, dsts, out, hops);
    TakeHolds(net, p, r, id, dsts, out, hops);
    TakeSends(net, p, r, id, dsts, out, hops);
  }

  lemma {:induction false} TakeSpreads(
    net: Net, p: PeerId, r: Reaction, id: MsgId, dsts: seq<PeerId>, out: PublicMsg, hops: nat)
    requires TakesAt(net, p, r, id, dsts, out, hops) && TakerReady(net, id, p, dsts, hops)
    requires CoveredBut(net, id, p)
    requires Counted(net, id) && hops <= |Holders(net, id)|
    ensures var net' := Record(net, p, r, hops); Rooted(net', id) && Covered(net', id) && Counted(net', id)
  {
    TakeRoots(net, p, r, id, dsts, out, hops);
    TakeCovers(net, p, r, id, dsts, out, hops);
    TakeCounts(net, p, r, id, dsts, out, hops);
  }

  lemma {:induction false} WriteSpreads(net: Net, room: string, p: PeerId, id: MsgId, ts: int, text: string)
    requires Spreading(net, room, id) && Enabled(net, Write(p, id, ts, text))
    requires var net' := Apply(net, Write(p, id, ts, text)); id in net'.made ==> net'.made[id].room == room
    ensures var net' := Apply(net, Write(p, id, ts, text)); Rooted(net', id) && Covered(net', id) && Counted(net', id)
  {
    var n := net.peers[p];
    var r := Compose(p, n, id, ts, text);
    ComposeTakes(net, p, id, ts, text);
    if r.shown.Some? {
      var msg := r.shown.value;
      var net1 := Authored(net, msg);
      var dsts := Targets(n.neighbors, n.open, {});
      TargetsAre(n.neighbors, n.open, {});
      NothingYet(net, id);
      assert Apply(net, Write(p, id, ts, text)) == Record(net1, p, r, 0);
      assert MsgAt(net1, id, 0) == msg && MsgAt(net1, id, 1) == msg;
      TakeSpreads(net1, p, r, id, dsts, msg, 0);
    } else {
      NothingKeepsOnce(net, p, 0);
    }
  }

  /** Before its composition an id occurs nowhere. */
  lemma {:induction false} NothingYet(net: Net, id: MsgId)
    requires Integrity(net) && Once(net) && id !in net.made
    ensures forall c :: c in net.flight ==> c.msg.id != id
    ensures forall d :: d in net.shown ==> d.msg.id != id
    ensures forall p :: !Has(net, p, id)
  {
  }

  /** Taking a copy off the channel changes nothing but that copy. */
  lemma {:induction false} TakenOff(net: Net, c: Copy, id: MsgId)
    requires c in net.flight
    ensures var net1 := net.(flight := net.flight - multiset{c});
      && (forall p, h: nat :: ShownAt(net1, p, id, h) <==> ShownAt(net, p, id, h))
      && (forall s, d, h: nat :: d != c.dst && OnTheWay(net, s, d, id, h) ==> OnTheWay(net1, s, d, id, h))
      && Holders(net1, id) == Holders(net, id)
      && (forall c' :: c' in net1.flight ==> c' in net.flight)
  {
    var net1 := net.(flight := net.flight - multiset{c});
    assert Holders(net1, id) == Holders(net, id);
    assert forall h: nat :: id in net.made && h <= MAX_HOPS ==> MsgAt(net1, id, h) == MsgAt(net, id, h);
  }

  lemma {:induction false} TakenOffCovers(net: Net, c: Copy)
    requires Covered(net, c.msg.id) && c in net.flight
    ensures CoveredBut(net.(flight := net.flight - multiset{c}), c.msg.id, c.dst)
  {
    TakenOff(net, c, c.msg.id);
  }

  /** Whoever handed the copy over, and the author, hold the message. */
  lemma {:induction false} SendersHold(net: Net, room: string, c: Copy)
    requires Spreading(net, room, c.msg.id) && c in net.flight
    ensures Has(net, c.src, c.msg.id) && Has(net, c.msg.origin, c.msg.id)
    ensures c.hops >= 1 && ShownAt(net, c.msg.origin, c.msg.id, 0)
  {
    assert c in net.sent;
    ShownIsHeld(net, c.src, c.msg.id, c.hops - 1);
    ShownIsHeld(net, c.msg.origin, c.msg.id, 0);
  }

  lemma {:induction false} DeliverReady(net: Net, room: string, c: Copy)
    requires Spreading(net, room, c.msg.id) && Enabled(net, Deliver(c)) && !Has(net, c.dst, c.msg.id)
    ensures c.msg.id in net.made && c.hops <= MAX_HOPS && c.msg == MsgAt(net, c.msg.id, c.hops) && c.hops >= 1
    ensures Accepts(net.peers[c.dst], c.src, c.msg)
    ensures TakerReady(net, c.msg.id, c.dst, Onward(net.peers[c.dst], c), c.hops)
  {
    var n := net.peers[c.dst];
    assert c in net.sent;
    AttentiveAccepts(net, room, c);
    TargetsAre(n.neighbors, n.open, {c.src, c.msg.origin});
    SendersHold(net, room, c);
  }

  lemma {:induction false} DeliverSpreads(net: Net, room: string, c: Copy)
    requires Spreading(net, room, c.msg.id) && Enabled(net, Deliver(c)) && Uncut(net, Deliver(c))
    ensures var net' := Apply(net, Deliver(c)); var id := c.msg.id;
      Rooted(net', id) && Covered(net', id) && Counted(net', id)
  {
    var id, w := c.msg.id, c.dst;
    var n := net.peers[w];
    var r := Receive(n, c.src, c.msg);
    var net1 := net.(flight := net.flight - multiset{c});
    assert c in net.sent;
    assert Apply(net, Deliver(c)) == Record(net1, w, r, c.hops);
    TakenOff(net, c, id);
    TakenOffCovers(net, c);
    ReceiveTakes(net, c);
    if Has(net, w, id) {
      NothingKeepsOnce(net1, w, c.hops);
      assert Has(net1, w, id);
    } else {
      DeliverReady(net, room, c);
      assert MsgAt(net1, id, c.hops) == c.msg;
      TakeSpreads(net1, w, r, id, Onward(n, c), Spent(c.msg), c.hops);
    }
  }

  // ----- Lossless runs in any order -----

  predicate About(ev: Event, id: MsgId) {
    match ev
    case Write(_, i, _, _) => i == id
    case Deliver(c) => c.msg.id == id
    case Lose(c) => c.msg.id == id
    case Local(_, _) => true
  }

  lemma {:induction false} AuthoredIsOther(net: Net, msg: PublicMsg, id: MsgId)
    requires msg.id != id
    ensures SameFor(net, Authored(net, msg), id)
  {
  }

  lemma {:induction false} SameForBoth(a: Net, b: Net, c: Net, id: MsgId)
    requires SameFor(a, b, id) && SameFor(b, c, id)
    ensures SameFor(a, c, id)
  {
    forall p ensures Has(c, p, id) <==> Has(a, p, id) { assert Has(c, p, id) <==> Has(b, p, id); }
  }

  lemma {:induction false} WriteOther(net: Net, p: PeerId, i: MsgId, ts: int, text: string, id: MsgId)
    requires Integrity(net) && Once(net) && Enabled(net, Write(p, i, ts, text)) && i != id
    ensures SameFor(net, Apply(net, Write(p, i, ts, text)), id)
  {
    var n := net.peers[p];
    var r := Compose(p, n, i, ts, text);
    ComposeTakes(net, p, i, ts, text);
    if r.shown.Some? {
      var msg := r.shown.value;
      var net1 := Authored(net, msg);
      assert Apply(net, Write(p, i, ts, text)) == Record(net1, p, r, 0);
      AuthoredIsOther(net, msg, id);
      TakeIsOther(net1, p, r, msg, Targets(n.neighbors, n.open, {}), msg, 0, id);
      SameForBoth(net, net1, Record(net1, p, r, 0), id);
    } else {
      NothingKeepsOnce(net, p, 0);
    }
  }

  lemma {:induction false} DeliverOther(net: Net, c: Copy, id: MsgId)
    requires Integrity(net) && Once(net) && Enabled(net, Deliver(c)) && c.msg.id != id && Uncut(net, Deliver(c))
    ensures SameFor(net, Apply(net, Deliver(c)), id)
  {
    var n := net.peers[c.dst];
    var r := Receive(n, c.src, c.msg);
    var net1 := net.(flight := net.flight - multiset{c});
    assert c in net.sent;
    ReceiveTakes(net, c);
    assert Apply(net, Deliver(c)) == Record(net1, c.dst, r, c.hops);
    assert SameFor(net, net1, id);
    if Accepts(n, c.src, c.msg) {
      TakeIsOther(net1, c.dst, r, c.msg, Onward(n, c), Spent(c.msg), c.hops, id);
    } else {
      NothingKeepsOnce(net1, c.dst, c.hops);
    }
  }

  /** An event about another id leaves this one alone. */
  lemma {:induction false} OtherEvent(net: Net, ev: Event, id: MsgId)
    requires Integrity(net) && Once(net) && Enabled(net, ev) && !About(ev, id) && Uncut(net, ev)
    ensures SameFor(net, Apply(net, ev), id)
  {
    match ev
    case Write(p, i, ts, text) => WriteOther(net, p, i, ts, text, id);
    case Deliver(c) => DeliverOther(net, c, id);
    case Lose(c) =>
  }

  lemma {:induction false} AttentiveStep(net: Net, ev: Event, room: string)
    requires Attentive(net, room) && Enabled(net, ev) && !ev.Local?
    ensures Attentive(Apply(net, ev), room)
  {
  }

  lemma {:induction false} SpreadingStep(net: Net, room: string, ev: Event, id: MsgId)
    requires Spreading(net, room, id) && Enabled(net, ev) && !ev.Local? && Uncut(net, ev)
    requires ev.Lose? ==> ev.copy.msg.id != id
    requires id in Apply(net, ev).made ==> Apply(net, ev).made[id].room == room
    ensures Spreading(Apply(net, ev), room, id)
  {
    IntegrityStep(net, ev);
    OnceStep(net, ev);
    AttentiveStep(net, ev, room);
    if ev.Write? && ev.id == id {
      WriteSpreads(net, room, ev.author, id, ev.ts, ev.text);
    } else if ev.Deliver? && ev.copy.msg.id == id {
      DeliverSpreads(net, room, ev.copy);
    } else {
      OtherEvent(net, ev, id);
      SameForKeeps(net, Apply(net, ev), id);
    }
  }

  lemma {:induction false} MadeKept(net: Net, evs: seq<Event>, id: MsgId)
    requires IsRun(net, evs) && id in net.made
    ensures id in Exec(net, evs).made && Exec(net, evs).made[id] == net.made[id]
    decreases |evs|
  {
    if evs != [] { MadeKept(Apply(net, evs[0]), evs[1..], id); }
  }

  /** A run that evicts nothing, loses no copy of this message and composes it, if at all, for `room`. */
  ghost predicate FloodRun(net: Net, room: string, evs: seq<Event>, id: MsgId) {
    && IsRun(net, evs) && Steady(evs) && NoEviction(net, evs) && Lossless(evs, id)
    && var end := Exec(net, evs);
       id in end.made ==> end.made[id].room == room
  }

  lemma {:induction false} FloodRunHead(net: Net, room: string, evs: seq<Event>, id: MsgId)
    requires FloodRun(net, room, evs, id) && evs != []
    ensures Enabled(net, evs[0]) && !evs[0].Local? && Uncut(net, evs[0])
    ensures evs[0].Lose? ==> evs[0].copy.msg.id != id
    ensures var next := Apply(net, evs[0]);
      && (id in next.made ==> next.made[id].room == room)
      && FloodRun(next, room, evs[1..], id)
  {
    MadeGrows(net, evs);
    var next := Apply(net, evs[0]);
    if id in next.made { MadeKept(next, evs[1..], id); }
  }

  lemma {:induction false} SpreadingOverRuns(net: Net, room: string, evs: seq<Event>, id: MsgId)
    requires Spreading(net, room, id) && FloodRun(net, room, evs, id)
    ensures Spreading(Exec(net, evs), room, id)
    decreases |evs|
  {
    if evs != [] {
      FloodRunHead(net, room, evs, id);
      SpreadingStep(net, room, evs[0], id);
      SpreadingOverRuns(Apply(net, evs[0]), room, evs[1..], id);
    }
  }

  lemma {:induction false} FreshSpreads(net: Net, room: string, id: MsgId)
    requires Fresh(net) && WellListed(net) && Attentive(net, room)
    ensures Spreading(net, room, id)
  {
  }

  ghost predicate OverlayPath(net: Net, path: seq<PeerId>) {
    && path != []
    && (forall i :: 0 <= i < |path| ==> path[i] in net.peers)
    && (forall i :: 0 <= i < |path| - 1 ==> path[i + 1] in net.peers[path[i]].neighbors)
  }

  /** The end of a lossless steady run that composed this message for `room`. */
  ghost predicate Flooded(net: Net, evs: seq<Event>, room: string, id: MsgId) {
    && Fresh(net) && WellListed(net) && Attentive(net, room)
    && FloodRun(net, room, evs, id)
    && id in Exec(net, evs).made && Quiescent(Exec(net, evs), id)
  }

  lemma {:induction false} FloodedSpreads(net: Net, evs: seq<Event>, room: string, id: MsgId)
    requires Flooded(net, evs, room, id)
    ensures Spreading(Exec(net, evs), room, id)
  {
    FreshSpreads(net, room, id);
    SpreadingOverRuns(net, room, evs, id);
  }

  lemma {:induction false} NoneOnTheWay(end: Net, id: MsgId)
    requires Integrity(end) && Quiescent(end, id)
    ensures forall u, w, h: nat :: !OnTheWay(end, u, w, id, h)
  {
    assert forall h: nat :: id in end.made && h <= MAX_HOPS ==> MsgAt(end, id, h).id == id;
  }

  /** Under any delivery order: once no copy is left, every neighbour of a peer
      whose first copy could still be forwarded has shown the message. */
  lemma {:induction false} NeighborsReached(
    net: Net, evs: seq<Event>, room: string, id: MsgId, u: PeerId, h: nat, w: PeerId)
    requires Flooded(net, evs, room, id)
    requires var end := Exec(net, evs);
      u in end.peers && h < MAX_HOPS && ShownAt(end, u, id, h) && w in end.peers[u].neighbors
    ensures exists d :: d in Exec(net, evs).shown && d.peer == w && d.msg.id == id
  {
    FloodedSpreads(net, evs, room, id);
    var end := Exec(net, evs);
    NoneOnTheWay(end, id);
    assert Has(end, w, id);
  }

  lemma {:induction false} PathReached(end: Net, room: string, id: MsgId, path: seq<PeerId>)
    requires Spreading(end, room, id) && Quiescent(end, id) && id in end.made
    requires forall p :: !ShownAt(end, p, id, MAX_HOPS)
    requires OverlayPath(end, path) && path[0] == end.made[id].origin
    ensures Has(end, path[|path| - 1], id)
  {
    if |path| == 1 {
      ShownIsHeld(end, path[0], id, 0);
    } else {
      var init := path[..|path| - 1];
      PathReached(end, room, id, init);
      var u, w := path[|path| - 2], path[|path| - 1];
      assert u == init[|init| - 1];
      var d :| d in end.shown && d.peer == u && d.msg.id == id;
      assert ShownAt(end, u, id, d.hops);
      NoneOnTheWay(end, id);
    }
  }

  /** If no first copy arrived with its ttl used up, everyone connected to the
      author has shown the message, whatever the delivery order. */
  lemma {:induction false} ComponentReached(net: Net, evs: seq<Event>, room: string, id: MsgId, path: seq<PeerId>)
    requires Flooded(net, evs, room, id)
    requires forall p :: !ShownAt(Exec(net, evs), p, id, MAX_HOPS)
    requires OverlayPath(Exec(net, evs), path) && path[0] == Exec(net, evs).made[id].origin
    ensures exists d :: d in Exec(net, evs).shown && d.peer == path[|path| - 1] && d.msg.id == id
  {
    FloodedSpreads(net, evs, room, id);
    PathReached(Exec(net, evs), room, id, path);
  }

  /** A network of at most eight peers always gets there: a copy whose ttl is
      used up has visited seven others, so nobody is left without the message. */
  lemma {:induction false} SmallNetworkReached(net: Net, evs: seq<Event>, room: string, id: MsgId, path: seq<PeerId>)
    requires Flooded(net, evs, room, id) && |net.peers| <= 8
    requires OverlayPath(Exec(net, evs), path) && path[0] == Exec(net, evs).made[id].origin
    ensures exists d :: d in Exec(net, evs).shown && d.peer == path[|path| - 1] && d.msg.id == id
  {
    FloodedSpreads(net, evs, room, id);
    var end := Exec(net, evs);
    MadeGrows(net, evs);
    if p :| ShownAt(end, p, id, MAX_HOPS) {
      assert |Holders(end, id)| >= 8;
      assert end.peers.Keys == net.peers.Keys && |end.peers.Keys| <= 8;
      FullHolders(Holders(end, id), end.peers.Keys);
      assert Has(end, path[|path| - 1], id);
    } else {
      PathReached(end, room, id, path);
    }
  }

  lemma {:induction false} FullHolders(a: set<PeerId>, b: set<PeerId>)
    requires a <= b && |a| >= |b|
    ensures a == b
  {
    if x :| x in b && x !in a { SubsetSize(a, b - {x}); }
  }
}
