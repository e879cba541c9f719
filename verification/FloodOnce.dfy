/** Runs without eviction or room switch: every peer shows and forwards an id at
    most once, every link carries it at most once, and the flood dies out. */
module FloodOnce {
  import opened Prelude
  import opened PublicNode
  import opened Flood

  /** Taking a message in pushes no seen id out. */
  ghost predicate Uncut(net: Net, ev: Event) {
    ev.Deliver? && ev.copy.dst in net.peers && Accepts(net.peers[ev.copy.dst], ev.copy.src, ev.copy.msg) ==>
      |net.peers[ev.copy.dst].seen| < SEEN_LIMIT
  }

  /** No eviction and no room switch: channels open and close, block lists
      change, and new lists arrive for the room a peer is in. */
  ghost predicate Calm(net: Net, ev: Event) {
    && Uncut(net, ev)
    && (ev.Local? && ev.at in net.peers ==> !Switches(net.peers[ev.at], ev.change))
    && (ev.Local? && ev.change.Listed? && ev.change.room != WORLD_ROOM ==> Distinct(ev.change.neighbors))
  }

  ghost predicate CalmRun(net: Net, evs: seq<Event>)
    requires IsRun(net, evs)
    decreases |evs|
  {
    evs != [] ==> Calm(net, evs[0]) && CalmRun(Apply(net, evs[0]), evs[1..])
  }

  ghost predicate SeenSound(net: Net) {
    forall p :: p in net.peers ==>
      && Distinct(net.peers[p].seen)
      && Distinct(net.peers[p].neighbors)
      && forall id :: id in net.peers[p].seen ==> id in net.made
  }

  ghost predicate SentSound(net: Net) {
    && (forall i :: 0 <= i < |net.sent| ==>
          net.sent[i].src in net.peers && net.sent[i].msg.id in net.peers[net.sent[i].src].seen)
    && (forall i, j | 0 <= i < j < |net.sent| ::
          net.sent[i].src == net.sent[j].src && net.sent[i].msg.id == net.sent[j].msg.id ==>
            net.sent[i].dst != net.sent[j].dst)
  }

  ghost predicate ShownSound(net: Net) {
    && (forall i :: 0 <= i < |net.shown| ==>
          net.shown[i].peer in net.peers && net.shown[i].msg.id in net.peers[net.shown[i].peer].seen)
    && (forall i, j :: 0 <= i < j < |net.shown| && net.shown[i].peer == net.shown[j].peer ==>
          net.shown[i].msg.id != net.shown[j].msg.id)
    && (forall p, id :: p in net.peers && id in net.peers[p].seen ==>
          exists d :: d in net.shown && d.peer == p && d.msg.id == id)
  }

  ghost predicate Once(net: Net) {
    SeenSound(net) && SentSound(net) && ShownSound(net)
  }

  /** A reaction that takes a message in: remembers it, shows it, passes it on. */
  ghost predicate Takes(n: Node, r: Reaction, msg: PublicMsg, dsts: seq<PeerId>, out: PublicMsg) {
    && msg.id !in n.seen
    && r == Reaction(n.(seen := n.seen + [msg.id]), Some(msg), SendAll(dsts, out))
    && out.id == msg.id
    && (forall p :: p in dsts ==> p in n.neighbors)
    && (Distinct(n.neighbors) ==> Distinct(dsts))
  }

  /** With fewer ids in the world than the window holds nothing is evicted. */
  lemma {:induction false} FewMessagesUncut(net: Net, ev: Event)
    requires Integrity(net) && SeenSound(net) && Enabled(net, ev) && |net.made| <= SEEN_LIMIT
    ensures Uncut(net, ev)
  {
    if ev.Deliver? && Accepts(net.peers[ev.copy.dst], ev.copy.src, ev.copy.msg) {
      var seen, id := net.peers[ev.copy.dst].seen, ev.copy.msg.id;
      assert ev.copy in net.sent;
      DistinctSize(seen + [id]);
      SubsetSize(Elements(seen + [id]), net.made.Keys);
    }
  }

  lemma {:induction false} ComposeTakes(net: Net, p: PeerId, id: MsgId, ts: int, text: string)
    requires SeenSound(net) && p in net.peers && id !in net.made
    ensures var n := net.peers[p]; var r := Compose(p, n, id, ts, text);
      if n.room.None? || n.room.value == "" then r == Reaction(n, None, [])
      else Takes(n, r, r.shown.value, Targets(n.neighbors, n.open, {}), r.shown.value)
           && r.shown.value.id == id
  {
    TargetsAre(net.peers[p].neighbors, net.peers[p].open, {});
  }

  function Onward(n: Node, c: Copy): seq<PeerId> {
    if c.msg.ttl > 0 then Targets(n.neighbors, n.open, {c.src, c.msg.origin}) else []
  }

  function Spent(msg: PublicMsg): PublicMsg {
    if msg.ttl > 0 then msg.(ttl := msg.ttl - 1) else msg
  }

  lemma {:induction false} ReceiveTakes(net: Net, c: Copy)
    requires c.dst in net.peers && Uncut(net, Deliver(c))
    ensures var n := net.peers[c.dst]; var r := Receive(n, c.src, c.msg);
      if Accepts(n, c.src, c.msg) then Takes(n, r, c.msg, Onward(n, c), Spent(c.msg))
      else r == Reaction(n, None, [])
  {
    var n := net.peers[c.dst];
    TargetsAre(n.neighbors, n.open, {c.src, c.msg.origin});
  }

  // ----- One step -----

  lemma {:induction false} TakeKeepsSeen(
    net: Net, p: PeerId, r: Reaction, msg: PublicMsg, dsts: seq<PeerId>, out: PublicMsg, hops: nat)
    requires SeenSound(net) && p in net.peers && msg.id in net.made && Takes(net.peers[p], r, msg, dsts, out)
    ensures SeenSound(Record(net, p, r, hops))
  {
  }

  lemma {:induction false} TakeKeepsSent(
    net: Net, p: PeerId, r: Reaction, msg: PublicMsg, dsts: seq<PeerId>, out: PublicMsg, hops: nat)
    requires SeenSound(net) && SentSound(net) && p in net.peers && Takes(net.peers[p], r, msg, dsts, out)
    ensures SentSound(Record(net, p, r, hops))
  {
    var net' := Record(net, p, r, hops);
    var copies := Copies(p, r.sends, hops + 1);
    assert net'.sent == net.sent + copies;
    assert forall i :: 0 <= i < |copies| ==> copies[i] == Copy(p, dsts[i], out, hops + 1);
    var before := |net.sent|;
    assert forall i :: 0 <= i < before ==> net'.sent[i] == net.sent[i];
    assert forall i :: before <= i < |net'.sent| ==> net'.sent[i] == copies[i - before];
    forall i | 0 <= i < |net'.sent|
      ensures net'.sent[i].src in net'.peers && net'.sent[i].msg.id in net'.peers[net'.sent[i].src].seen
    {
    }
    forall i, j | 0 <= i < j < |net'.sent| && net'.sent[i].src == net'.sent[j].src
               && net'.sent[i].msg.id == net'.sent[j].msg.id
      ensures net'.sent[i].dst != net'.sent[j].dst
    {
    }
  }

  lemma {:induction false} TakeKeepsShown(
    net: Net, p: PeerId, r: Reaction, msg: PublicMsg, dsts: seq<PeerId>, out: PublicMsg, hops: nat)
    requires ShownSound(net) && p in net.peers && Takes(net.peers[p], r, msg, dsts, out)
    ensures ShownSound(Record(net, p, r, hops))
  {
    var net' := Record(net, p, r, hops);
    var d := Display(p, msg, hops);
    assert net'.shown == net.shown + [d];
    forall q, id | q in net'.peers && id in net'.peers[q].seen
      ensures exists d' :: d' in net'.shown && d'.peer == q && d'.msg.id == id
    {
      if q == p && id == msg.id {
        assert d in net'.shown;
      } else {
        assert id in net.peers[q].seen;
        var d' :| d' in net.shown && d'.peer == q && d'.msg.id == id;
        assert d' in net'.shown;
      }
    }
  }

  lemma {:induction false} NothingKeepsOnce(net: Net, p: PeerId, hops: nat)
    requires p in net.peers
    ensures Record(net, p, Reaction(net.peers[p], None, []), hops) == net
  {
    assert net.sent + [] == net.sent;
    assert net.peers[p := net.peers[p]] == net.peers;
  }

  lemma {:induction false} TakeKeepsOnce(
    net: Net, p: PeerId, r: Reaction, msg: PublicMsg, dsts: seq<PeerId>, out: PublicMsg, hops: nat)
    requires Once(net) && p in net.peers && msg.id in net.made && Takes(net.peers[p], r, msg, dsts, out)
    ensures Once(Record(net, p, r, hops))
  {
    TakeKeepsSeen(net, p, r, msg, dsts, out, hops);
    TakeKeepsSent(net, p, r, msg, dsts, out, hops);
    TakeKeepsShown(net, p, r, msg, dsts, out, hops);
  }

  lemma {:induction false} WriteOnce(net: Net, p: PeerId, id: MsgId, ts: int, text: string)
    requires Once(net) && Enabled(net, Write(p, id, ts, text))
    ensures Once(Apply(net, Write(p, id, ts, text)))
  {
    var n := net.peers[p];
    var r := Compose(p, n, id, ts, text);
    ComposeTakes(net, p, id, ts, text);
    if r.shown.Some? {
      var msg := r.shown.value;
      var net1 := Authored(net, msg);
      assert Apply(net, Write(p, id, ts, text)) == Record(net1, p, r, 0);
      TakeKeepsOnce(net1, p, r, msg, Targets(n.neighbors, n.open, {}), msg, 0);
    } else {
      NothingKeepsOnce(net, p, 0);
    }
  }

  lemma {:induction false} DeliverOnce(net: Net, c: Copy)
    requires Integrity(net) && Once(net) && Enabled(net, Deliver(c)) && Uncut(net, Deliver(c))
    ensures Once(Apply(net, Deliver(c)))
  {
    var n := net.peers[c.dst];
    var r := Receive(n, c.src, c.msg);
    var net1 := net.(flight := net.flight - multiset{c});
    assert c in net.sent;
    ReceiveTakes(net, c);
    assert Apply(net, Deliver(c)) == Record(net1, c.dst, r, c.hops);
    if Accepts(n, c.src, c.msg) {
      TakeKeepsOnce(net1, c.dst, r, c.msg, Onward(n, c), Spent(c.msg), c.hops);
    } else {
      NothingKeepsOnce(net1, c.dst, c.hops);
    }
  }

  /** A change of channels, blocks or list leaves what was seen, sent and shown. */
  lemma {:induction false} LocalOnce(net: Net, p: PeerId, change: NodeEvent)
    requires Once(net) && Enabled(net, Local(p, change)) && Calm(net, Local(p, change))
    ensures Once(Apply(net, Local(p, change)))
  {
    var net' := Apply(net, Local(p, change));
    assert net'.sent == net.sent && net'.shown == net.shown;
    assert forall q :: q in net.peers ==> net'.peers[q].seen == net.peers[q].seen;
  }

  lemma {:induction false} OnceStep(net: Net, ev: Event)
    requires Integrity(net) && Once(net) && Enabled(net, ev) && Calm(net, ev)
    ensures Once(Apply(net, ev))
  {
    match ev
    case Write(p, id, ts, text) => WriteOnce(net, p, id, ts, text);
    case Deliver(c) => DeliverOnce(net, c);
    case Lose(c) =>
    case Local(p, change) => LocalOnce(net, p, change);
  }

  // ----- Whole runs -----

  lemma {:induction false} MadeGrows(net: Net, evs: seq<Event>)
    requires IsRun(net, evs)
    ensures net.made.Keys <= Exec(net, evs).made.Keys && |net.made| <= |Exec(net, evs).made|
    ensures Exec(net, evs).peers.Keys == net.peers.Keys
    decreases |evs|
  {
    if evs != [] {
      MadeGrows(Apply(net, evs[0]), evs[1..]);
      assert Apply(net, evs[0]).peers.Keys == net.peers.Keys;
    }
    SubsetSize(net.made.Keys, Exec(net, evs).made.Keys);
  }

  lemma {:induction false} OnceOverRuns(net: Net, evs: seq<Event>)
    requires Integrity(net) && Once(net) && IsRun(net, evs) && CalmRun(net, evs)
    ensures Integrity(Exec(net, evs)) && Once(Exec(net, evs))
    decreases |evs|
  {
    if evs != [] {
      IntegrityStep(net, evs[0]);
      OnceStep(net, evs[0]);
      OnceOverRuns(Apply(net, evs[0]), evs[1..]);
    }
  }

  ghost predicate WellListed(net: Net) {
    forall p :: p in net.peers ==> Distinct(net.peers[p].neighbors)
  }

  /** At-most-once display and forwarding in every run from a fresh network
      without eviction or room switch, whatever is lost or reordered and however
      channels, block lists and neighbours change. */
  lemma {:induction false} ShownAndForwardedOnce(net: Net, evs: seq<Event>)
    requires Fresh(net) && WellListed(net) && IsRun(net, evs) && CalmRun(net, evs)
    ensures var end := Exec(net, evs);
      && (forall i, j :: 0 <= i < j < |end.shown| && end.shown[i].peer == end.shown[j].peer ==>
            end.shown[i].msg.id != end.shown[j].msg.id)
      && (forall i, j :: 0 <= i < j < |end.sent| && end.sent[i].msg.id == end.sent[j].msg.id ==>
            (end.sent[i].src, end.sent[i].dst) != (end.sent[j].src, end.sent[j].dst))
  {
    OnceOverRuns(net, evs);
  }

  // ----- How many copies one message costs -----

  ghost function Links(net: Net): set<(PeerId, PeerId)> {
    set p, q | p in net.peers && q in net.peers[p].neighbors :: (p, q)
  }

  function CopiesOf(sent: seq<Copy>, id: MsgId): nat {
    if sent == [] then 0
    else CopiesOf(sent[..|sent| - 1], id) + if sent[|sent| - 1].msg.id == id then 1 else 0
  }

  lemma {:induction false} CopiesAreLinks(sent: seq<Copy>, id: MsgId) returns (used: set<(PeerId, PeerId)>)
    requires forall i, j :: 0 <= i < j < |sent| && sent[i].src == sent[j].src && sent[i].msg.id == sent[j].msg.id ==>
               sent[i].dst != sent[j].dst
    ensures |used| == CopiesOf(sent, id)
    ensures forall l :: l in used ==>
      exists i :: 0 <= i < |sent| && sent[i].msg.id == id && l == (sent[i].src, sent[i].dst)
  {
    if sent == [] {
      used := {};
    } else {
      var last := |sent| - 1;
      var init := sent[..last];
      used := CopiesAreLinks(init, id);
      assert forall i :: 0 <= i < last ==> init[i] == sent[i];
      if sent[last].msg.id == id {
        used := used + {(sent[last].src, sent[last].dst)};
      }
    }
  }

  /** Nobody gets other neighbours; rooms, channels, losses and block lists are
      free, and so are lists that lead to the same neighbours. */
  ghost predicate FixedLinks(net: Net, ev: Event) {
    ev.Local? && ev.at in net.peers && ev.change.Listed? && ev.change.room != WORLD_ROOM ==>
      ev.change.neighbors == net.peers[ev.at].neighbors
  }

  ghost predicate FixedOverlay(net: Net, evs: seq<Event>)
    requires IsRun(net, evs)
    decreases |evs|
  {
    evs != [] ==> FixedLinks(net, evs[0]) && FixedOverlay(Apply(net, evs[0]), evs[1..])
  }

  lemma {:induction false} NeighborsKept(net: Net, ev: Event)
    requires Enabled(net, ev) && FixedLinks(net, ev)
    ensures Apply(net, ev).peers.Keys == net.peers.Keys
    ensures forall p :: p in net.peers ==> Apply(net, ev).peers[p].neighbors == net.peers[p].neighbors
  {
    match ev
    case Write(p, id, ts, text) =>
    case Deliver(c) =>
    case Lose(c) =>
    case Local(p, change) =>
  }

  /** Every copy went along a link of the overlay. */
  ghost predicate AlongLinks(net: Net) {
    forall c :: c in net.sent ==> c.src in net.peers && c.dst in net.peers[c.src].neighbors
  }

  lemma {:induction false} SentToNeighbors(net: Net, p: PeerId, r: Reaction, hops: nat)
    requires AlongLinks(net) && p in net.peers && r.node.neighbors == net.peers[p].neighbors
    requires forall s :: s in r.sends ==> s.dst in net.peers[p].neighbors
    ensures AlongLinks(Record(net, p, r, hops))
  {
    var copies := Copies(p, r.sends, hops + 1);
    forall c | c in copies ensures c.src == p && c.dst in net.peers[p].neighbors {
      var i :| 0 <= i < |copies| && copies[i] == c;
      assert r.sends[i] in r.sends;
    }
  }

  lemma {:induction false} AlongLinksStep(net: Net, ev: Event)
    requires AlongLinks(net) && Enabled(net, ev) && FixedLinks(net, ev)
    ensures AlongLinks(Apply(net, ev))
  {
    match ev
    case Write(p, id, ts, text) =>
      var n := net.peers[p];
      TargetsAre(n.neighbors, n.open, {});
      SentToNeighbors(net, p, Compose(p, n, id, ts, text), 0);
    case Deliver(c) =>
      var n := net.peers[c.dst];
      TargetsAre(n.neighbors, n.open, {c.src, c.msg.origin});
      SentToNeighbors(net.(flight := net.flight - multiset{c}), c.dst, Receive(n, c.src, c.msg), c.hops);
    case Lose(c) =>
    case Local(p, change) => SentToNeighbors(net, p, React(p, net.peers[p], change), 0);
  }

  lemma {:induction false} AlongLinksOverRuns(net: Net, evs: seq<Event>)
    requires AlongLinks(net) && IsRun(net, evs) && FixedOverlay(net, evs)
    ensures AlongLinks(Exec(net, evs)) && Links(Exec(net, evs)) == Links(net)
    decreases |evs|
  {
    if evs != [] {
      AlongLinksStep(net, evs[0]);
      NeighborsKept(net, evs[0]);
      assert Links(Apply(net, evs[0])) == Links(net);
      AlongLinksOverRuns(Apply(net, evs[0]), evs[1..]);
    }
  }

  /** Without eviction or room switch, and while the neighbours stay, one message
      costs at most as many copies as there are directed links: the sum of all
      degrees. */
  lemma {:induction false} CostAtMostLinks(net: Net, evs: seq<Event>, id: MsgId)
    requires Fresh(net) && WellListed(net) && IsRun(net, evs) && CalmRun(net, evs) && FixedOverlay(net, evs)
    ensures CopiesOf(Exec(net, evs).sent, id) <= |Links(net)|
  {
    OnceOverRuns(net, evs);
    AlongLinksOverRuns(net, evs);
    var end := Exec(net, evs);
    var used := CopiesAreLinks(end.sent, id);
    forall l | l in used ensures l in Links(end) {
      var i :| 0 <= i < |end.sent| && end.sent[i].msg.id == id && l == (end.sent[i].src, end.sent[i].dst);
      assert end.sent[i] in end.sent;
    }
    SubsetSize(used, Links(end));
  }

  // ----- Termination -----

  /** The ids still unseen somewhere. */
  ghost function Unseen(net: Net): set<(PeerId, MsgId)> {
    set p, id | p in net.peers && id in net.made && id !in net.peers[p].seen :: (p, id)
  }

  /** A first copy takes one place off the unseen ones and adds none. */
  lemma {:induction false} FirstCopyShrinks(net: Net, c: Copy)
    requires Integrity(net) && Once(net) && Enabled(net, Deliver(c)) && Uncut(net, Deliver(c))
    requires Accepts(net.peers[c.dst], c.src, c.msg)
    ensures |Unseen(Apply(net, Deliver(c)))| < |Unseen(net)|
  {
    var net' := Apply(net, Deliver(c));
    assert c in net.sent;
    ReceiveTakes(net, c);
    assert (c.dst, c.msg.id) in Unseen(net);
    assert Unseen(net') <= Unseen(net) - {(c.dst, c.msg.id)};
    SubsetSize(Unseen(net'), Unseen(net) - {(c.dst, c.msg.id)});
  }

  /** Each delivery or loss makes the pair (unseen places, copies in flight)
      smaller in lexicographic order: without new messages the flood stops. */
  lemma {:induction false} FloodShrinks(net: Net, ev: Event)
    requires Integrity(net) && Once(net) && Enabled(net, ev) && (ev.Deliver? || ev.Lose?) && Uncut(net, ev)
    ensures var net' := Apply(net, ev);
      || |Unseen(net')| < |Unseen(net)|
      || (Unseen(net') == Unseen(net) && |net'.flight| < |net.flight|)
  {
    if ev.Deliver? {
      var c := ev.copy;
      if Accepts(net.peers[c.dst], c.src, c.msg) {
        FirstCopyShrinks(net, c);
      } else {
        assert c in net.sent;
        ReceiveTakes(net, c);
        NothingKeepsOnce(net.(flight := net.flight - multiset{c}), c.dst, c.hops);
      }
    }
  }
}
