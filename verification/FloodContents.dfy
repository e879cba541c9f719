/** What the flood shows and carries: the messages as their authors wrote them,
    and nothing from an author the peer blocks. */
module FloodContents {
  import opened Prelude
  import opened PublicNode
  import opened Flood
  import Rooms

  // ----- Every copy is what was written -----

  /** The message that a step writes, read off the step and the author's room. */
  ghost function WrittenBy(net: Net, ev: Event): map<MsgId, PublicMsg> {
    if ev.Write? && ev.author in net.peers && net.peers[ev.author].room !in {None, Some("")} then
      map[ev.id := PublicMsg(ev.id, net.peers[ev.author].room.value, ev.author, ev.ts, 6, ev.text)]
    else map[]
  }

  /** The messages that a run writes. */
  ghost function Written(net: Net, evs: seq<Event>): map<MsgId, PublicMsg>
    requires IsRun(net, evs)
    decreases |evs|
  {
    if evs == [] then map[] else WrittenBy(net, evs[0]) + Written(Apply(net, evs[0]), evs[1..])
  }

  lemma {:induction false} WriteMakes(net: Net, ev: Event)
    requires Enabled(net, ev)
    ensures Apply(net, ev).made == net.made + WrittenBy(net, ev)
  {
    match ev
    case Write(p, id, ts, text) => CompositionSends(p, net.peers[p], id, ts, text);
    case Deliver(c) =>
    case Lose(c) =>
    case Local(p, change) =>
  }

  lemma {:induction false} JoinAssociative(a: map<MsgId, PublicMsg>, b: map<MsgId, PublicMsg>, c: map<MsgId, PublicMsg>)
    ensures (a + b) + c == a + (b + c) && a + map[] == a && map[] + a == a
  {
  }

  lemma {:induction false} MadeIsWritten(net: Net, evs: seq<Event>)
    requires IsRun(net, evs)
    ensures Exec(net, evs).made == net.made + Written(net, evs)
    decreases |evs|
  {
    if evs == [] {
      JoinAssociative(net.made, map[], map[]);
    } else {
      var next, rest := Apply(net, evs[0]), evs[1..];
      WriteMakes(net, evs[0]);
      MadeIsWritten(next, rest);
      JoinAssociative(net.made, WrittenBy(net, evs[0]), Written(next, rest));
    }
  }

  lemma {:induction false} MadeFromNothing(net: Net, evs: seq<Event>)
    requires Fresh(net) && IsRun(net, evs)
    ensures Exec(net, evs).made == Written(net, evs) && Integrity(Exec(net, evs))
  {
    MadeIsWritten(net, evs);
    JoinAssociative(Written(net, evs), map[], map[]);
    IntegrityOverRuns(net, evs);
  }

  /** The message with what is left of its ttl after so many hops. */
  function After(msg: PublicMsg, hops: nat): PublicMsg {
    msg.(ttl := if hops == 0 then 6 else if hops < 7 then 7 - hops else 0)
  }

  lemma {:induction false} GenuineIsAfter(net: Net, msg: PublicMsg, hops: nat)
    requires Genuine(net, msg, hops) && net.made[msg.id].ttl == 6
    ensures hops <= 7 && msg == After(net.made[msg.id], hops)
  {
  }

  ghost predicate AsWritten(written: map<MsgId, PublicMsg>, msg: PublicMsg, hops: nat) {
    msg.id in written && hops <= 7 && msg == After(written[msg.id], hops)
  }

  /** In every run, with loss, reordering, room switches, evictions and changing
      overlays: whatever is sent or shown under an id has the room, author, time
      and text with which that id was written, and its ttl tells the hops. */
  lemma {:induction false} CarriedAsWritten(net: Net, evs: seq<Event>)
    requires Fresh(net) && IsRun(net, evs)
    ensures forall c :: c in Exec(net, evs).sent ==> AsWritten(Written(net, evs), c.msg, c.hops)
    ensures forall d :: d in Exec(net, evs).shown ==> AsWritten(Written(net, evs), d.msg, d.hops)
  {
    MadeFromNothing(net, evs);
    GenuineAreWritten(Exec(net, evs));
  }

  lemma {:induction false} GenuineAreWritten(end: Net)
    requires Integrity(end)
    ensures forall c :: c in end.sent ==> AsWritten(end.made, c.msg, c.hops)
    ensures forall d :: d in end.shown ==> AsWritten(end.made, d.msg, d.hops)
  {
    forall c | c in end.sent ensures AsWritten(end.made, c.msg, c.hops) { GenuineIsAfter(end, c.msg, c.hops); }
    forall d | d in end.shown ensures AsWritten(end.made, d.msg, d.hops) { GenuineIsAfter(end, d.msg, d.hops); }
  }

  /** Right after it is written a message is on the author's screen and on its
      way to every neighbour with an open channel. */
  lemma {:induction false} WriteShowsAndSends(net: Net, p: PeerId, id: MsgId, ts: int, text: string)
    requires Enabled(net, Write(p, id, ts, text))
    requires net.peers[p].room !in {None, Some("")}
    ensures var net' := Apply(net, Write(p, id, ts, text));
      var msg := PublicMsg(id, net.peers[p].room.value, p, ts, 6, text);
      && Display(p, msg, 0) in net'.shown
      && forall q :: q in net.peers[p].neighbors && q in net.peers[p].open ==> Copy(p, q, msg, 1) in net'.flight
  {
    var n := net.peers[p];
    var r, msg := Compose(p, n, id, ts, text), PublicMsg(id, n.room.value, p, ts, 6, text);
    CompositionSends(p, n, id, ts, text);
    forall q | q in n.neighbors && q in n.open ensures Copy(p, q, msg, 1) in multiset(Copies(p, r.sends, 1)) {
      assert SentTo(r.sends, q);
      var i :| 0 <= i < |r.sends| && r.sends[i].dst == q;
      assert r.sends[i] in r.sends;
      assert Copies(p, r.sends, 1)[i] == Copy(p, q, msg, 1);
    }
  }

  // ----- Blocking -----

  /** What a step shows at a peer is its own, or is in a room the peer displays
      and neither written nor passed on by anyone it blocks at that moment. */
  lemma {:induction false} ShowsNoBlocked(net: Net, ev: Event, d: Display)
    requires Enabled(net, ev) && d in Apply(net, ev).shown && d !in net.shown
    ensures d.peer in net.peers
    ensures
      || (ev.Write? && ev.author == d.peer == d.msg.origin)
      || (&& ev.Deliver? && ev.copy.dst == d.peer && ev.copy.msg == d.msg
          && d.msg.origin !in net.peers[d.peer].blocked && ev.copy.src !in net.peers[d.peer].blocked
          && Rooms.Displays(net.peers[d.peer].room, d.msg.room))
  {
    match ev
    case Write(p, id, ts, text) =>
    case Deliver(c) =>
      ReceptionShows(net.peers[c.dst], c.src, c.msg);
      if net.peers[c.dst].room == Some(c.msg.room) { assert Rooms.Displays(net.peers[c.dst].room, c.msg.room); }
    case Lose(c) =>
    case Local(p, change) =>
  }

  /** What a step sends is its own author's, or was not written by anyone the
      sender blocks at that moment. */
  lemma {:induction false} SendsNoBlocked(net: Net, ev: Event, k: Copy)
    requires Enabled(net, ev) && k in Apply(net, ev).sent && k !in net.sent
    ensures k.src in net.peers
    ensures (ev.Write? && k.msg.origin == k.src) || (ev.Deliver? && k.msg.origin !in net.peers[k.src].blocked)
  {
    match ev
    case Write(p, id, ts, text) => SentByReaction(p, Compose(p, net.peers[p], id, ts, text), 0, k);
    case Deliver(c) =>
      ReceptionShows(net.peers[c.dst], c.src, c.msg);
      SentByReaction(c.dst, Receive(net.peers[c.dst], c.src, c.msg), c.hops, k);
    case Lose(c) =>
    case Local(p, change) =>
  }

  lemma {:induction false} SentByReaction(p: PeerId, r: Reaction, hops: nat, k: Copy)
    ensures k in Copies(p, r.sends, hops + 1) ==>
      k.src == p && exists i :: 0 <= i < |r.sends| && r.sends[i].msg == k.msg
  {
    if k in Copies(p, r.sends, hops + 1) {
      var i :| 0 <= i < |r.sends| && Copies(p, r.sends, hops + 1)[i] == k;
      assert r.sends[i].msg == k.msg;
    }
  }

  /** A change of the block list or of the open channels takes hold at once, at
      this peer only. */
  lemma {:induction false} ChangeTakesHold(net: Net, p: PeerId, peers: set<PeerId>)
    requires p in net.peers
    ensures Apply(net, Local(p, Blocks(peers))).peers == net.peers[p := net.peers[p].(blocked := peers)]
    ensures Apply(net, Local(p, Channels(peers))).peers == net.peers[p := net.peers[p].(open := peers)]
  {
  }

  /** From now on p never stops blocking x. */
  ghost predicate KeepsBlocking(evs: seq<Event>, p: PeerId, x: PeerId) {
    forall i :: 0 <= i < |evs| && evs[i].Local? && evs[i].at == p && evs[i].change.Blocks? ==>
      x in evs[i].change.blocked
  }

  lemma {:induction false} BlockStays(net: Net, ev: Event, p: PeerId, x: PeerId)
    requires Enabled(net, ev) && p in net.peers && x in net.peers[p].blocked
    requires ev.Local? && ev.at == p && ev.change.Blocks? ==> x in ev.change.blocked
    ensures p in Apply(net, ev).peers && x in Apply(net, ev).peers[p].blocked
  {
    match ev
    case Write(q, id, ts, text) =>
    case Deliver(c) =>
    case Lose(c) =>
    case Local(q, change) =>
  }

  /** While p blocks x, in any run from any state, p shows nothing that x wrote
      and passes nothing of x's on. */
  lemma {:induction false} BlockedAuthorNeverShown(net: Net, evs: seq<Event>, p: PeerId, x: PeerId)
    requires IsRun(net, evs) && p in net.peers && p != x
    requires x in net.peers[p].blocked && KeepsBlocking(evs, p, x)
    ensures forall d :: d in Exec(net, evs).shown && d.peer == p && d.msg.origin == x ==> d in net.shown
    ensures forall k :: k in Exec(net, evs).sent && k.src == p && k.msg.origin == x ==> k in net.sent
    decreases |evs|
  {
    if evs != [] {
      var net', rest := Apply(net, evs[0]), evs[1..];
      BlockStays(net, evs[0], p, x);
      assert KeepsBlocking(rest, p, x) by { assert forall i :: 0 <= i < |rest| ==> rest[i] == evs[i + 1]; }
      BlockedAuthorNeverShown(net', rest, p, x);
      forall d | d in net'.shown && d.peer == p && d.msg.origin == x ensures d in net.shown {
        if d !in net.shown { ShowsNoBlocked(net, evs[0], d); }
      }
      forall k | k in net'.sent && k.src == p && k.msg.origin == x ensures k in net.sent {
        if k !in net.sent { SendsNoBlocked(net, evs[0], k); }
      }
    }
  }
}
