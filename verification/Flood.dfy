/** The public-room flood as a step system: peers, copies in flight on lossy
    unordered channels, and the events that move them. */
module Flood {
  import opened Prelude
  import opened PublicNode

  /** A message on its way from one peer to another; `hops` counts the links it
      has taken, including this one. The code does not carry it: it is history. */
  datatype Copy = Copy(src: PeerId, dst: PeerId, msg: PublicMsg, hops: nat)
  datatype Display = Display(peer: PeerId, msg: PublicMsg, hops: nat)

  /** `sent`, `shown` and `made` (the message first composed under an id) are history. */
  datatype Net = Net(
    peers: map<PeerId, Node>, flight: multiset<Copy>,
    sent: seq<Copy>, shown: seq<Display>, made: map<MsgId, PublicMsg>)

  datatype Event =
    | Write(author: PeerId, id: MsgId, ts: int, text: string)
    | Deliver(copy: Copy)
    | Lose(copy: Copy)
    | Local(at: PeerId, change: NodeEvent)

  const MAX_HOPS: nat := ORIGIN_TTL + 1

  predicate Enabled(net: Net, ev: Event) {
    match ev
    case Write(p, id, _, _) => p in net.peers && id !in net.made
    case Deliver(c) => c in net.flight && c.dst in net.peers
    case Lose(c) => c in net.flight
    case Local(p, change) => p in net.peers && (change.Listed? || change.Channels? || change.Blocks?)
  }

  function Copies(src: PeerId, sends: seq<Send>, hops: nat): seq<Copy> {
    seq(|sends|, i requires 0 <= i < |sends| => Copy(src, sends[i].dst, sends[i].msg, hops))
  }

  function Record(net: Net, p: PeerId, r: Reaction, hops: nat): Net {
    var copies := Copies(p, r.sends, hops + 1);
    net.(peers := net.peers[p := r.node],
         flight := net.flight + multiset(copies),
         sent := net.sent + copies,
         shown := if r.shown.Some? then net.shown + [Display(p, r.shown.value, hops)] else net.shown)
  }

  function Apply(net: Net, ev: Event): Net
    requires Enabled(net, ev)
  {
    match ev
    case Write(p, id, ts, text) =>
      var r := Compose(p, net.peers[p], id, ts, text);
      var after := Record(net, p, r, 0);
      if r.shown.Some? then after.(made := net.made[id := r.shown.value]) else after
    case Deliver(c) =>
      Record(net.(flight := net.flight - multiset{c}), c.dst, Receive(net.peers[c.dst], c.src, c.msg), c.hops)
    case Lose(c) => net.(flight := net.flight - multiset{c})
    case Local(p, change) => Record(net, p, React(p, net.peers[p], change), 0)
  }

  ghost predicate IsRun(net: Net, evs: seq<Event>)
    decreases |evs|
  {
    evs != [] ==> Enabled(net, evs[0]) && IsRun(Apply(net, evs[0]), evs[1..])
  }

  ghost function Exec(net: Net, evs: seq<Event>): Net
    requires IsRun(net, evs)
    decreases |evs|
  {
    if evs == [] then net else Exec(Apply(net, evs[0]), evs[1..])
  }

  ghost predicate Fresh(net: Net) {
    && net.flight == multiset{} && net.sent == [] && net.shown == [] && net.made == map[]
    && forall p :: p in net.peers ==> net.peers[p].seen == []
  }

  // ----- What every run keeps -----

  /** The message of an id as it looks after so many hops. */
  function MsgAt(net: Net, id: MsgId, hops: nat): PublicMsg
    requires id in net.made && hops <= MAX_HOPS
  {
    net.made[id].(ttl := if hops == 0 then ORIGIN_TTL else MAX_HOPS - hops)
  }

  ghost predicate Genuine(net: Net, msg: PublicMsg, hops: nat) {
    msg.id in net.made && hops <= MAX_HOPS && msg == MsgAt(net, msg.id, hops)
  }

  /** A copy is the composed message with nothing but the ttl changed, and its
      ttl and hop count always sum to seven. */
  ghost predicate Integrity(net: Net) {
    && (forall id :: id in net.made ==> net.made[id].id == id && net.made[id].ttl == ORIGIN_TTL)
    && (forall c :: c in net.flight ==> c in net.sent)
    && (forall c :: c in net.sent ==> 1 <= c.hops && Genuine(net, c.msg, c.hops) && c.hops + c.msg.ttl == MAX_HOPS)
    && (forall d :: d in net.shown ==> Genuine(net, d.msg, d.hops))
  }

  lemma {:induction false} CopiesAre(src: PeerId, dsts: seq<PeerId>, msg: PublicMsg, hops: nat)
    ensures forall c :: c in Copies(src, SendAll(dsts, msg), hops) <==>
      c.dst in dsts && c == Copy(src, c.dst, msg, hops)
    ensures forall c :: c in multiset(Copies(src, SendAll(dsts, msg), hops)) <==>
      c in Copies(src, SendAll(dsts, msg), hops)
  {
    var copies := Copies(src, SendAll(dsts, msg), hops);
    forall c: Copy | c.dst in dsts && c == Copy(src, c.dst, msg, hops) ensures c in copies {
      var i :| 0 <= i < |dsts| && dsts[i] == c.dst;
      assert copies[i] == c;
    }
  }

  lemma {:induction false} RecordSent(net: Net, p: PeerId, r: Reaction, hops: nat)
    requires Integrity(net)
    ensures forall c :: c in Record(net, p, r, hops).flight ==> c in Record(net, p, r, hops).sent
  {
    var copies := Copies(p, r.sends, hops + 1);
    forall c | c in Record(net, p, r, hops).flight ensures c in net.sent + copies {
      if c !in net.flight { assert c in multiset(copies); }
    }
  }

  lemma {:induction false} SameBook(net: Net, net': Net, msg: PublicMsg, hops: nat)
    requires Genuine(net, msg, hops) && net'.made == net.made
    ensures Genuine(net', msg, hops)
  {
  }

  lemma {:induction false} RecordIntegrity(net: Net, p: PeerId, r: Reaction, hops: nat)
    requires Integrity(net)
    requires forall c :: c in Copies(p, r.sends, hops + 1) ==> Genuine(net, c.msg, c.hops)
    requires r.shown.Some? ==> Genuine(net, r.shown.value, hops)
    ensures Integrity(Record(net, p, r, hops))
  {
    var copies := Copies(p, r.sends, hops + 1);
    var net' := Record(net, p, r, hops);
    RecordSent(net, p, r, hops);
    forall c | c in net'.sent
      ensures 1 <= c.hops && Genuine(net', c.msg, c.hops) && c.hops + c.msg.ttl == MAX_HOPS
    {
      assert c in net.sent || c in copies;
      SameBook(net, net', c.msg, c.hops);
    }
    forall d | d in net'.shown ensures Genuine(net', d.msg, d.hops) {
      SameBook(net, net', d.msg, d.hops);
    }
  }

  /** The composed message enters the book of made messages, then is recorded. */
  function Authored(net: Net, msg: PublicMsg): Net {
    net.(made := net.made[msg.id := msg])
  }

  lemma {:induction false} AuthoredIntegrity(net: Net, msg: PublicMsg)
    requires Integrity(net) && msg.id !in net.made && msg.ttl == ORIGIN_TTL
    ensures Integrity(Authored(net, msg))
  {
    var net1 := Authored(net, msg);
    forall m: PublicMsg, h | Genuine(net, m, h) ensures Genuine(net1, m, h) {
      assert net1.made[m.id] == net.made[m.id];
    }
  }

  lemma {:induction false} WriteIntegrity(net: Net, p: PeerId, id: MsgId, ts: int, text: string)
    requires Integrity(net) && Enabled(net, Write(p, id, ts, text))
    ensures Integrity(Apply(net, Write(p, id, ts, text)))
  {
    var n := net.peers[p];
    var r := Compose(p, n, id, ts, text);
    if r.shown.Some? {
      var net1 := Authored(net, r.shown.value);
      AuthoredIntegrity(net, r.shown.value);
      assert Apply(net, Write(p, id, ts, text)) == Record(net1, p, r, 0);
      CopiesAre(p, Targets(n.neighbors, n.open, {}), r.shown.value, 1);
      RecordIntegrity(net1, p, r, 0);
    } else {
      RecordIntegrity(net, p, r, 0);
    }
  }

  /** One more hop costs one unit of ttl. */
  lemma {:induction false} OneMoreHop(net: Net, c: Copy)
    requires Integrity(net) && c in net.sent && c.msg.ttl > 0
    ensures Genuine(net, c.msg.(ttl := c.msg.ttl - 1), c.hops + 1)
  {
  }

  lemma {:induction false} ForwardedGenuine(net: Net, c: Copy, r: Reaction)
    requires Integrity(net) && c in net.sent && c.dst in net.peers
    requires r == Receive(net.peers[c.dst], c.src, c.msg)
    ensures forall k :: k in Copies(c.dst, r.sends, c.hops + 1) ==> Genuine(net, k.msg, k.hops)
    ensures r.shown.Some? ==> Genuine(net, r.shown.value, c.hops)
  {
    var n := net.peers[c.dst];
    if r.sends != [] {
      OneMoreHop(net, c);
      CopiesAre(c.dst, Targets(n.neighbors, n.open, {c.src, c.msg.origin}), c.msg.(ttl := c.msg.ttl - 1), c.hops + 1);
    }
  }

  lemma {:induction false} DeliverIntegrity(net: Net, c: Copy)
    requires Integrity(net) && Enabled(net, Deliver(c))
    ensures Integrity(Apply(net, Deliver(c)))
  {
    var net1 := net.(flight := net.flight - multiset{c});
    var r := Receive(net.peers[c.dst], c.src, c.msg);
    assert Integrity(net1) && c in net1.sent;
    ForwardedGenuine(net1, c, r);
    RecordIntegrity(net1, c.dst, r, c.hops);
  }

  lemma {:induction false} IntegrityStep(net: Net, ev: Event)
    requires Integrity(net) && Enabled(net, ev)
    ensures Integrity(Apply(net, ev))
  {
    match ev
    case Write(p, id, ts, text) => WriteIntegrity(net, p, id, ts, text);
    case Deliver(c) => DeliverIntegrity(net, c);
    case Lose(c) =>
    case Local(p, change) => RecordIntegrity(net, p, React(p, net.peers[p], change), 0);
  }

  /** With loss, reordering, room switches, evictions and changing overlays. */
  lemma {:induction false} IntegrityOverRuns(net: Net, evs: seq<Event>)
    requires Integrity(net) && IsRun(net, evs)
    ensures Integrity(Exec(net, evs))
    decreases |evs|
  {
    if evs != [] {
      IntegrityStep(net, evs[0]);
      IntegrityOverRuns(Apply(net, evs[0]), evs[1..]);
    }
  }
}
