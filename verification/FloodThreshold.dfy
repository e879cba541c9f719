/** The reach of the flood is exactly 43 peers: there is a completed run in hop
    order that reaches everyone if and only if the ring has at most 43. */
module FloodThreshold {
  import opened Prelude
  import opened PublicNode
  import opened Flood
  import opened FloodOnce
  import opened FloodReach
  import opened FloodRing

  lemma {:induction false} LowestCopy(flight: multiset<Copy>) returns (low: Copy)
    requires flight != multiset{}
    ensures low in flight && forall c :: c in flight ==> low.hops <= c.hops
    decreases |flight|
  {
    var c :| c in flight;
    var rest := flight - multiset{c};
    if rest == multiset{} {
      low := c;
      assert flight == multiset{c};
    } else {
      var l := LowestCopy(rest);
      low := if c.hops <= l.hops then c else l;
      assert forall d :: d in flight ==> d == c || d in rest;
    }
  }

  ghost predicate KnownNeighbors(net: Net) {
    forall p, q :: p in net.peers && q in net.peers[p].neighbors ==> q in net.peers
  }

  ghost predicate OnlyDeliveries(evs: seq<Event>) {
    forall i :: 0 <= i < |evs| ==> evs[i].Deliver?
  }

  lemma {:induction false} ConsRun(net: Net, ev: Event, rest: seq<Event>)
    requires Enabled(net, ev) && IsRun(Apply(net, ev), rest)
    ensures IsRun(net, [ev] + rest) && Exec(net, [ev] + rest) == Exec(Apply(net, ev), rest)
    ensures forall id :: HopStep(net, ev, id) && InHopOrder(Apply(net, ev), rest, id) ==>
      InHopOrder(net, [ev] + rest, id)
  {
    assert ([ev] + rest)[1..] == rest;
  }

  /** Deliveries alone, in hop order for every id, until nothing is in flight. */
  ghost predicate Drains(net: Net, evs: seq<Event>) {
    && IsRun(net, evs) && OnlyDeliveries(evs)
    && (forall id :: InHopOrder(net, evs, id)) && NoEviction(net, evs)
    && Exec(net, evs).flight == multiset{} && Exec(net, evs).made == net.made
  }

  lemma {:induction false} ConsDrains(net: Net, c: Copy, rest: seq<Event>)
    requires Enabled(net, Deliver(c)) && Drains(Apply(net, Deliver(c)), rest)
    requires Apply(net, Deliver(c)).made == net.made
    requires forall d :: d in net.flight ==> c.hops <= d.hops
    requires Uncut(net, Deliver(c))
    ensures Drains(net, [Deliver(c)] + rest)
  {
    ConsRun(net, Deliver(c), rest);
    forall id ensures InHopOrder(net, [Deliver(c)] + rest, id) {
      assert InHopOrder(Apply(net, Deliver(c)), rest, id);
    }
  }

  /** The flood can always be delivered to its end, in hop order for all ids. */
  lemma {:induction false} DrainInHopOrder(net: Net) returns (evs: seq<Event>)
    requires Integrity(net) && Once(net) && |net.made| <= SEEN_LIMIT && KnownNeighbors(net) && AlongLinks(net)
    ensures Drains(net, evs)
    decreases |Unseen(net)|, |net.flight|
  {
    if net.flight == multiset{} {
      evs := [];
    } else {
      var c := LowestCopy(net.flight);
      assert Enabled(net, Deliver(c)) by { assert c in net.sent; }
      FewMessagesUncut(net, Deliver(c));
      IntegrityStep(net, Deliver(c));
      OnceStep(net, Deliver(c));
      FloodShrinks(net, Deliver(c));
      KnownStep(net, c);
      AlongLinksStep(net, Deliver(c));
      var rest := DrainInHopOrder(Apply(net, Deliver(c)));
      ConsDrains(net, c, rest);
      evs := [Deliver(c)] + rest;
    }
  }

  lemma {:induction false} KnownStep(net: Net, c: Copy)
    requires KnownNeighbors(net) && Enabled(net, Deliver(c))
    ensures KnownNeighbors(Apply(net, Deliver(c))) && Apply(net, Deliver(c)).made == net.made
  {
  }

  ghost predicate EveryoneShown(end: Net, id: MsgId) {
    forall p :: p in end.peers ==> exists d :: d in end.shown && d.peer == p && d.msg.id == id
  }

  /** A lossless run in hop order that starts with this message, ends with no
      copy of it in flight and has shown it to everyone. */
  ghost predicate FullFlood(net: Net, evs: seq<Event>, first: Event, room: string, id: MsgId) {
    && evs != [] && evs[0] == first
    && Flooded(net, evs, room, id) && InHopOrder(net, evs, id)
    && EveryoneShown(Exec(net, evs), id)
  }

  ghost predicate RingParty(net: Net, order: seq<PeerId>, room: string, author: PeerId) {
    && Fresh(net) && WellListed(net) && IsRing(net, order) && Attentive(net, room)
    && author in net.peers && net.peers[author].room == Some(room) && room != ""
  }

  lemma {:induction false} FirstWrite(
    net: Net, order: seq<PeerId>, room: string, author: PeerId, id: MsgId, ts: int, text: string)
    requires RingParty(net, order, room, author)
    ensures Enabled(net, Write(author, id, ts, text))
    ensures var next := Apply(net, Write(author, id, ts, text));
      && Integrity(next) && Once(next) && KnownNeighbors(next) && AlongLinks(next) && |next.made| <= SEEN_LIMIT
      && id in next.made && next.made[id].room == room && next.made[id].origin == author
  {
    var ev := Write(author, id, ts, text);
    IntegrityStep(net, ev);
    OnceStep(net, ev);
    AlongLinksStep(net, ev);
    assert |net.made[id := Apply(net, ev).made[id]]| == 1;
  }

  lemma {:induction false} DeliveriesAfterWrite(ev: Event, rest: seq<Event>, id: MsgId)
    requires ev.Write? && OnlyDeliveries(rest)
    ensures Steady([ev] + rest) && Lossless([ev] + rest, id)
  {
    var evs := [ev] + rest;
    assert forall i :: 0 < i < |evs| ==> evs[i] == rest[i - 1];
  }

  lemma {:induction false} StartedFlood(
    net: Net, next: Net, end: Net, room: string, ev: Event, rest: seq<Event>, id: MsgId)
    requires Fresh(net) && WellListed(net) && Attentive(net, room)
    requires Enabled(net, ev) && ev.Write? && next == Apply(net, ev) && Drains(next, rest) && end == Exec(next, rest)
    requires |next.made| <= SEEN_LIMIT && id in next.made && next.made[id].room == room
    ensures Flooded(net, [ev] + rest, room, id) && InHopOrder(net, [ev] + rest, id)
  {
    ConsRun(net, ev, rest);
    DeliveriesAfterWrite(ev, rest, id);
    assert InHopOrder(next, rest, id);
    assert Exec(net, [ev] + rest) == end;
  }

  lemma {:induction false} WrittenThenDrained(
    net: Net, order: seq<PeerId>, room: string, author: PeerId, id: MsgId, ts: int, text: string)
    returns (evs: seq<Event>)
    requires RingParty(net, order, room, author)
    ensures evs != [] && evs[0] == Write(author, id, ts, text)
    ensures Flooded(net, evs, room, id) && InHopOrder(net, evs, id)
  {
    var ev := Write(author, id, ts, text);
    FirstWrite(net, order, room, author, id, ts, text);
    var rest := DrainInHopOrder(Apply(net, ev));
    evs := [ev] + rest;
    StartedFlood(net, Apply(net, ev), Exec(Apply(net, ev), rest), room, ev, rest, id);
  }

  /** The exact threshold. */
  lemma {:induction false} ReachThreshold(
    net: Net, order: seq<PeerId>, room: string, author: PeerId, id: MsgId, ts: int, text: string)
    requires RingParty(net, order, room, author)
    ensures |order| <= 43 <==> exists evs :: FullFlood(net, evs, Write(author, id, ts, text), room, id)
  {
    var ev := Write(author, id, ts, text);
    if |order| <= 43 {
      var evs := WrittenThenDrained(net, order, room, author, id, ts, text);
      MadeGrows(net, evs);
      forall p | p in Exec(net, evs).peers
        ensures exists d :: d in Exec(net, evs).shown && d.peer == p && d.msg.id == id
      {
        EveryoneReachedInHopOrder(net, order, evs, room, id, p);
      }
      assert FullFlood(net, evs, ev, room, id);
    } else {
      forall evs ensures !FullFlood(net, evs, ev, room, id) {
        if FullFlood(net, evs, ev, room, id) {
          NotEveryone(net, order, evs, room, author, id, ts, text);
        }
      }
    }
  }

  lemma {:induction false} NotEveryone(
    net: Net, order: seq<PeerId>, evs: seq<Event>, room: string, author: PeerId, id: MsgId, ts: int, text: string)
    requires RingParty(net, order, room, author) && |order| >= 44
    requires evs != [] && evs[0] == Write(author, id, ts, text) && Flooded(net, evs, room, id)
    ensures !EveryoneShown(Exec(net, evs), id)
  {
    FirstWrite(net, order, room, author, id, ts, text);
    var end := Exec(net, evs);
    MadeKept(Apply(net, evs[0]), evs[1..], id);
    MadeGrows(net, evs);
    FloodedSpreads(net, evs, room, id);
    SteadyIsFixed(net, evs);
    var far := FarPeerNeverReached(net, order, evs, author);
    forall d | d in end.shown && d.peer == far ensures d.msg.id != id {
      assert Genuine(end, d.msg, d.hops);
    }
  }
}
