/** The public-room half of PeerService: fields updated in place by its methods. */
module PublicPeer {
  import opened Prelude
  import opened PublicNode
  import Ring
  import Rooms
  import StableSort

  // ----- Hash order -----

  function StrHash(s: PeerId): bv32 {
    if s == [] then 5381 else (StrHash(s[1..]) * 33) ^ (s[0] as bv32)
  }

  /** The seed, one character, and the order of two: "a" and "ab". */
  lemma {:induction false} StrHashValues()
    ensures StrHash([]) == 5381 && StrHash([97]) == 177604 && StrHash([97, 98]) == 5861062
  {
    assert [97 as bv16, 98][1..] == [98] && [98 as bv16][1..] == [] && [97 as bv16][1..] == [];
  }

  function HashKey(s: PeerId): nat { StrHash(s) as nat }

  /** The peers in the order every member computes. */
  function HashOrder(peers: seq<PeerId>): seq<PeerId> { StableSort.Sort(HashKey, peers) }

  ghost predicate IsNeighborhood(order: seq<PeerId>, me: PeerId, neighbors: seq<PeerId>) {
    && Distinct(neighbors)
    && (forall p :: p in neighbors <==>
          p in order && me in order && Ring.Adjacent(|order|, IndexOf(order, me), IndexOf(order, p)))
  }

  // ----- Which connections stay -----

  const MAX_PUBLIC_BRIDGES: nat := 3
  const AI_PREFIX: PeerId := [0x61, 0x69, 0x2d]

  predicate IsAi(p: PeerId) { AI_PREFIX <= p }

  function Filter(s: seq<PeerId>, keep: set<PeerId>): seq<PeerId> {
    if s == [] then [] else (if s[0] in keep then [s[0]] else []) + Filter(s[1..], keep)
  }

  function FirstBridges(bridges: seq<PeerId>): seq<PeerId> {
    var sorted := StableSort.Sort(HashKey, bridges);
    if |sorted| <= MAX_PUBLIC_BRIDGES then sorted else sorted[..MAX_PUBLIC_BRIDGES]
  }

  function OpenOf(channels: map<PeerId, bool>): set<PeerId> {
    set p | p in channels && channels[p]
  }

  /** Order of JavaScript strings: by UTF-16 code unit. */
  predicate Greater(a: PeerId, b: PeerId) {
    a != [] && (b == [] || a[0] > b[0] || (a[0] == b[0] && Greater(a[1..], b[1..])))
  }

  /** The ids agree up to k, where b ends or has the smaller code unit. */
  ghost predicate Exceeds(a: PeerId, b: PeerId, k: nat) {
    k < |a| && k <= |b| && a[..k] == b[..k] && (k == |b| || a[k] > b[k])
  }

  lemma {:induction false} ExceedsLater(a: PeerId, b: PeerId, k: nat)
    requires a != [] && b != [] && a[0] == b[0]
    ensures Exceeds(a, b, k + 1) <==> Exceeds(a[1..], b[1..], k)
  {
    if k < |a| - 1 && k <= |b| - 1 {
      assert a[..k + 1] == [a[0]] + a[1..][..k] && b[..k + 1] == [b[0]] + b[1..][..k];
    }
  }

  /** The first place where the ids differ decides; an id is greater than its own
      beginnings. */
  lemma {:induction false} GreaterIff(a: PeerId, b: PeerId)
    ensures Greater(a, b) <==> exists k: nat :: Exceeds(a, b, k)
  {
    if a != [] && b != [] && a[0] == b[0] {
      GreaterIff(a[1..], b[1..]);
      if k: nat :| Exceeds(a[1..], b[1..], k) { ExceedsLater(a, b, k); }
      if k: nat :| Exceeds(a, b, k) {
        assert k > 0;
        ExceedsLater(a, b, k - 1);
      }
    } else {
      assert Greater(a, b) ==> Exceeds(a, b, 0);
      forall k: nat | k > 0 ensures !Exceeds(a, b, k) {
        if k <= |a| && k <= |b| { assert a[..k][0] == a[0] && b[..k][0] == b[0]; }
      }
    }
  }

  /** Two peers never both open the channels, and an id opens them to its own
      beginnings. */
  lemma {:induction false} OneSideInitiates(a: PeerId, b: PeerId)
    ensures !(Greater(a, b) && Greater(b, a))
    ensures b != [] ==> Greater(a + b, a)
  {
    if a == [] {
      assert a + b == b;
    } else {
      if b != [] && a[0] == b[0] { OneSideInitiates(a[1..], b[1..]); }
      OneSideInitiates(a[1..], b);
      assert (a + b)[0] == a[0] && (a + b)[1..] == a[1..] + b;
    }
  }

  datatype Role = Auto | Initiator | Responder

  /** Who opens the channels: unless told otherwise, the peer with the greater id. */
  predicate Initiates(me: PeerId, p: PeerId, role: Role) {
    role.Initiator? || (role.Auto? && Greater(me, p))
  }

  function AddAll(s: seq<PeerId>, xs: seq<PeerId>): seq<PeerId> {
    if xs == [] then s else SetAdd(AddAll(s, xs[..|xs| - 1]), xs[|xs| - 1])
  }

  /** Still-listed public contacts that are neither neighbours nor chat partners. */
  function Bridges(
    connections: seq<PeerId>, near: seq<PeerId>, chat: set<PeerId>, public: set<PeerId>,
    listed: seq<PeerId>): seq<PeerId> {
    Filter(connections, set p | p in connections && p !in near && p !in chat && p in public && p in listed)
  }

  /** What a neighbour update leaves of the connections. Closing skips the ids
      that look like AI agents. */
  function Pruned(
    connections: seq<PeerId>, near: seq<PeerId>, chat: set<PeerId>, public: set<PeerId>,
    listed: seq<PeerId>): seq<PeerId> {
    var kept := FirstBridges(Bridges(connections, near, chat, public, listed));
    Filter(connections, set p | p in connections && (p in near || p in chat || p in kept || IsAi(p)))
  }

  lemma {:induction false} AddAllAre(s: seq<PeerId>, xs: seq<PeerId>)
    ensures forall p :: p in AddAll(s, xs) <==> p in s || p in xs
    ensures Distinct(s) ==> Distinct(AddAll(s, xs))
  {
    if xs != [] {
      AddAllAre(s, xs[..|xs| - 1]);
      assert xs == xs[..|xs| - 1] + [xs[|xs| - 1]];
    }
  }

  lemma {:induction false} FilterTwice(s: seq<PeerId>, a: set<PeerId>, b: set<PeerId>)
    ensures Filter(Filter(s, a), b) == Filter(s, a * b)
  {
    if s != [] {
      FilterTwice(s[1..], a, b);
      if s[0] in a {
        assert ([s[0]] + Filter(s[1..], a))[1..] == Filter(s[1..], a);
      } else {
        assert Filter(s, a) == Filter(s[1..], a);
      }
    }
  }

  lemma {:induction false} FilterAgree(s: seq<PeerId>, a: set<PeerId>, b: set<PeerId>)
    requires forall p :: p in s ==> (p in a <==> p in b)
    ensures Filter(s, a) == Filter(s, b)
  {
    if s != [] { FilterAgree(s[1..], a, b); }
  }

  lemma {:induction false} FilterAll(s: seq<PeerId>)
    ensures Filter(s, Elements(s)) == s
  {
    if s != [] {
      FilterAgree(s[1..], Elements(s), Elements(s[1..]));
      FilterAll(s[1..]);
    }
  }

  lemma {:induction false} FirstBridgesAre(bridges: seq<PeerId>)
    ensures |FirstBridges(bridges)| == if |bridges| <= 3 then |bridges| else 3
    ensures forall p :: p in FirstBridges(bridges) ==> p in bridges
    ensures |bridges| <= MAX_PUBLIC_BRIDGES ==> forall p :: p in bridges ==> p in FirstBridges(bridges)
  {
    StableSort.SortFacts(HashKey, bridges);
    StableSort.MultisetElements(bridges, StableSort.Sort(HashKey, bridges));
  }

  /** A bridge stays exactly when fewer than three come before it: with a smaller
      hash, or with the same hash and an older connection. */
  lemma {:induction false} FirstThreeStay(bridges: seq<PeerId>, p: PeerId)
    requires Distinct(bridges) && p in bridges
    ensures p in FirstBridges(bridges) <==> |StableSort.Earlier(HashKey, bridges, p)| < 3
  {
    var sorted := StableSort.Sort(HashKey, bridges);
    StableSort.SortFacts(HashKey, bridges);
    StableSort.MultisetElements(bridges, sorted);
    var i :| 0 <= i < |sorted| && sorted[i] == p;
    StableSort.SortedPlace(HashKey, bridges, i);
    if i >= 3 {
      forall k | 0 <= k < 3 ensures sorted[k] != p { }
      assert p !in sorted[..3];
    } else {
      assert FirstBridges(bridges)[i] == p;
    }
  }

  /** Every kept bridge comes before every dropped one. */
  lemma {:induction false} KeptComeFirst(bridges: seq<PeerId>, k: PeerId, d: PeerId)
    requires Distinct(bridges) && k in FirstBridges(bridges) && d in bridges && d !in FirstBridges(bridges)
    ensures HashKey(k) < HashKey(d) || (HashKey(k) == HashKey(d) && IndexOf(bridges, k) < IndexOf(bridges, d))
    ensures |FirstBridges(bridges)| == 3
  {
    var sorted := StableSort.Sort(HashKey, bridges);
    FirstBridgesAre(bridges);
    StableSort.SortFacts(HashKey, bridges);
    StableSort.MultisetElements(bridges, sorted);
    StableSort.SortInOrder(HashKey, bridges);
    var i :| 0 <= i < 3 && sorted[i] == k;
    var j :| 0 <= j < |sorted| && sorted[j] == d;
    assert forall q :: 0 <= q < |FirstBridges(bridges)| ==> sorted[q] == FirstBridges(bridges)[q];
    assert StableSort.Before(HashKey, bridges, sorted[i], sorted[j]);
  }

  /** The connections without a chat channel after an update. */
  ghost function Spare(connections: seq<PeerId>, chat: set<PeerId>): set<PeerId> {
    set p | p in connections && p !in chat
  }

  /** After an update every neighbour is connected, every chat partner that was
      connected still is, and what remains besides is at most three still-listed
      public bridges and the connections that look like AI agents. */
  lemma {:induction false} PruningOutcome(
    connections: seq<PeerId>, near: seq<PeerId>, chat: set<PeerId>, public: set<PeerId>, listed: seq<PeerId>)
    requires forall p :: p in near ==> p in connections
    ensures var left := Pruned(connections, near, chat, public, listed);
      var extra := Spare(left, chat) - Elements(near);
      && (forall p :: p in near ==> p in left)
      && (forall p :: p in connections && p in chat ==> p in left)
      && (forall p :: p in extra && !IsAi(p) ==> p in public && p in listed)
      && |set p | p in extra && !IsAi(p)| <= MAX_PUBLIC_BRIDGES
  {
    var bridges := Bridges(connections, near, chat, public, listed);
    var kept := FirstBridges(bridges);
    var retained := set p | p in connections && (p in near || p in chat || p in kept || IsAi(p));
    FilterAre(connections, retained);
    FilterAre(connections, set p | p in connections && p !in near && p !in chat && p in public && p in listed);
    FirstBridgesAre(bridges);
    var extra := set p | p in Spare(Pruned(connections, near, chat, public, listed), chat) - Elements(near) && !IsAi(p);
    assert extra <= Elements(kept);
    SubsetSize(extra, Elements(kept));
    ElementsSize(kept);
  }

  /** With at most six neighbours, at most nine connections carry no chat and no
      AI id after an update. */
  lemma {:induction false} AtMostNineSpare(
    connections: seq<PeerId>, near: seq<PeerId>, chat: set<PeerId>, public: set<PeerId>, listed: seq<PeerId>)
    requires |near| <= 6 && forall p :: p in near ==> p in connections
    ensures |SpareOrdinary(Pruned(connections, near, chat, public, listed), chat)| <= 9
  {
    var left := Pruned(connections, near, chat, public, listed);
    var extra := Spare(left, chat) - Elements(near);
    var bridges := set p | p in extra && !IsAi(p);
    PruningOutcome(connections, near, chat, public, listed);
    ElementsSize(near);
    SubsetSize(SpareOrdinary(left, chat), Elements(near) + bridges);
  }

  ghost function SpareOrdinary(connections: seq<PeerId>, chat: set<PeerId>): set<PeerId> {
    set p | p in Spare(connections, chat) && !IsAi(p)
  }

  /** A listed public contact that is no neighbour and no chat partner loses its
      connection exactly when it has no AI id and three such contacts come before
      it; those three keep theirs. */
  lemma {:induction false} BridgeStaysIff(
    connections: seq<PeerId>, near: seq<PeerId>, chat: set<PeerId>, public: set<PeerId>, listed: seq<PeerId>, p: PeerId)
    requires Distinct(connections) && p in Bridges(connections, near, chat, public, listed)
    ensures var bridges, left := Bridges(connections, near, chat, public, listed),
                                 Pruned(connections, near, chat, public, listed);
      && (p in left <==> IsAi(p) || |StableSort.Earlier(HashKey, bridges, p)| < 3)
      && (p !in left ==> |FirstBridges(bridges)| == 3 && forall k :: k in FirstBridges(bridges) ==>
            k in left && HashKey(k) <= HashKey(p))
  {
    var bridges := Bridges(connections, near, chat, public, listed);
    var kept := FirstBridges(bridges);
    var wanted := set q | q in connections && q !in near && q !in chat && q in public && q in listed;
    FilterAre(connections, wanted);
    FilterAre(connections, set q | q in connections && (q in near || q in chat || q in kept || IsAi(q)));
    FirstThreeStay(bridges, p);
    FirstBridgesAre(bridges);
    if p !in kept {
      forall k | k in kept ensures HashKey(k) <= HashKey(p) && |kept| == 3 { KeptComeFirst(bridges, k, p); }
      assert |bridges| > 3;
    }
  }

  /** The listed public contacts among these connections that are no neighbours
      and no chat partners and have no greater hash than p. */
  ghost function NoGreater(
    connections: seq<PeerId>, near: seq<PeerId>, chat: set<PeerId>, public: set<PeerId>, listed: seq<PeerId>,
    p: PeerId): set<PeerId> {
    set k | k in connections && k !in near && k !in chat && k in public && k in listed && HashKey(k) <= HashKey(p)
  }

  /** A listed public contact that is no neighbour and no chat partner is closed
      only where three such contacts with no greater hash stay. */
  ghost predicate ThreeStayFirst(
    before: seq<PeerId>, after: seq<PeerId>, near: seq<PeerId>, chat: set<PeerId>, public: set<PeerId>,
    listed: seq<PeerId>) {
    forall p :: p in before && p !in near && p !in chat && p in public && p in listed && p !in after ==>
      |NoGreater(after, near, chat, public, listed, p)| >= 3
  }

  lemma {:induction false} PrunedThreeFirst(
    before: seq<PeerId>, connections: seq<PeerId>, near: seq<PeerId>, chat: set<PeerId>, public: set<PeerId>,
    listed: seq<PeerId>)
    requires Distinct(connections) && forall p :: p in before ==> p in connections
    ensures ThreeStayFirst(before, Pruned(connections, near, chat, public, listed), near, chat, public, listed)
  {
    var bridges, left := Bridges(connections, near, chat, public, listed),
                         Pruned(connections, near, chat, public, listed);
    var kept := FirstBridges(bridges);
    BridgesAre(connections, near, chat, public, listed);
    FirstBridgesAre(bridges);
    forall p | p in before && p in bridges && p !in left
      ensures |NoGreater(left, near, chat, public, listed, p)| >= 3
    {
      BridgeStaysIff(connections, near, chat, public, listed, p);
      FilterAre(connections, set q | q in connections && q !in near && q !in chat && q in public && q in listed);
      KeptDistinct(bridges);
      DistinctSize(kept);
      SubsetSize(Elements(kept), NoGreater(left, near, chat, public, listed, p));
    }
  }

  lemma {:induction false} KeptDistinct(bridges: seq<PeerId>)
    ensures Distinct(bridges) ==> Distinct(FirstBridges(bridges))
  {
    StableSort.SortFacts(HashKey, bridges);
    StableSort.MultisetElements(bridges, StableSort.Sort(HashKey, bridges));
  }

  lemma {:induction false} ElementsSize(s: seq<PeerId>)
    ensures |Elements(s)| <= |s|
  {
    if s == [] {
      assert Elements(s) == {};
    } else {
      ElementsSize(s[1..]);
      assert Elements(s) == {s[0]} + Elements(s[1..]);
    }
  }

  /** A connection that an update should close: no neighbour, no chat, and not a
      public contact the server still lists. */
  predicate Stale(p: PeerId, near: seq<PeerId>, chat: set<PeerId>, public: set<PeerId>, listed: seq<PeerId>) {
    p !in near && p !in chat && !(p in public && p in listed)
  }

  /** The stale connections are all closed exactly when none of them carries an
      id with the AI prefix, which the closing routine refuses to touch. */
  lemma {:induction false} StaleClosedIffNoAi(
    connections: seq<PeerId>, near: seq<PeerId>, chat: set<PeerId>, public: set<PeerId>, listed: seq<PeerId>)
    ensures (forall p :: p in Pruned(connections, near, chat, public, listed) ==> !Stale(p, near, chat, public, listed))
       <==> (forall p :: p in connections && IsAi(p) ==> !Stale(p, near, chat, public, listed))
  {
    var bridges := Bridges(connections, near, chat, public, listed);
    var kept := FirstBridges(bridges);
    FilterAre(connections, set p | p in connections && (p in near || p in chat || p in kept || IsAi(p)));
    FilterAre(connections, set p | p in connections && p !in near && p !in chat && p in public && p in listed);
    FirstBridgesAre(bridges);
  }

  lemma {:induction false} Wrap(n: nat, x: nat)
    requires n > 0 && x < 2 * n
    ensures x % n == if x < n then x else x - n
  {
    if x >= n { assert x == n + (x - n); }
  }

  const AI_XYZ: PeerId := [0x61, 0x69, 0x2d, 0x78, 0x79, 0x7a]

  /** A connection to "ai-xyz" that nobody lists and nobody chats on stays. */
  lemma {:induction false} StaleAiStays()
    ensures IsAi(AI_XYZ) && Stale(AI_XYZ, [], {}, {}, [])
    ensures AI_XYZ in Pruned([AI_XYZ], [], {}, {}, [])
  {
    var kept := FirstBridges(Bridges([AI_XYZ], [], {}, {}, []));
    FilterAre([AI_XYZ], set p | p in [AI_XYZ] && (p in [] || p in {} || p in kept || IsAi(p)));
    FilterAgree([AI_XYZ], set p | p in [AI_XYZ] && (p in [] || p in {} || p in kept || IsAi(p)), {AI_XYZ});
  }

  /** The two places i steps from a member of a ring of more than seven. */
  lemma {:induction false} PlacesAtDistance(n: nat, my: nat, i: nat)
    requires n > 7 && my < n && 1 <= i <= Ring.SIDE
    ensures var right, left := (my + i) % n, (my + n - i) % n;
      && right < n && left < n && right != left
      && (forall j :: 0 <= j < n ==> (Ring.Gap(n, my, j) == i <==> j == right || j == left))
  {
    Wrap(n, my + i);
    Wrap(n, my + n - i);
  }

  lemma {:induction false} FilterAre(s: seq<PeerId>, keep: set<PeerId>)
    ensures forall p :: p in Filter(s, keep) <==> p in s && p in keep
    ensures Distinct(s) ==> Distinct(Filter(s, keep))
  {
    if s != [] {
      FilterAre(s[1..], keep);
      assert s == [s[0]] + s[1..];
    }
  }

  lemma {:induction false} FilterSnoc(s: seq<PeerId>, x: PeerId, keep: set<PeerId>)
    ensures Filter(s + [x], keep) == Filter(s, keep) + if x in keep then [x] else []
  {
    if s == [] {
      assert [x][1..] == [];
    } else {
      FilterSnoc(s[1..], x, keep);
      assert (s + [x])[1..] == s[1..] + [x];
    }
  }

  lemma {:induction false} TargetsSnoc(s: seq<PeerId>, x: PeerId, open: set<PeerId>, skip: set<PeerId>)
    ensures Targets(s + [x], open, skip) == Targets(s, open, skip) + if x in open && x !in skip then [x] else []
  {
    var tail := if x in open && x !in skip then [x] else [];
    if s == [] {
      assert s + [x] == [x] && [x][1..] == [];
    } else {
      var head := if s[0] in open && s[0] !in skip then [s[0]] else [];
      TargetsSnoc(s[1..], x, open, skip);
      assert (s + [x])[1..] == s[1..] + [x];
      assert head + (Targets(s[1..], open, skip) + tail) == (head + Targets(s[1..], open, skip)) + tail;
    }
  }

  lemma {:induction false} BridgesAre(
    connections: seq<PeerId>, near: seq<PeerId>, chat: set<PeerId>, public: set<PeerId>, listed: seq<PeerId>)
    ensures forall p :: p in Bridges(connections, near, chat, public, listed) <==>
      p in connections && p !in near && p !in chat && p in public && p in listed
  {
    FilterAre(connections, set p | p in connections && p !in near && p !in chat && p in public && p in listed);
  }

  /** Closing the stale connections and the surplus bridges leaves the pruned ones. */
  lemma {:induction false} PruneCloses(
    connections: seq<PeerId>, near: seq<PeerId>, chat: set<PeerId>, public: set<PeerId>, listed: seq<PeerId>,
                    toClose: seq<PeerId>)
    requires forall p :: p in toClose <==> p in connections && Stale(p, near, chat, public, listed)
    ensures var bridges := Bridges(connections, near, chat, public, listed);
      var surplus := Filter(bridges, Elements(bridges) - Elements(FirstBridges(bridges)));
      Filter(connections, Surviving(connections, Elements(toClose + surplus)))
        == Pruned(connections, near, chat, public, listed)
  {
    var bridges := Bridges(connections, near, chat, public, listed);
    var kept := FirstBridges(bridges);
    var surplus := Filter(bridges, Elements(bridges) - Elements(kept));
    BridgesAre(connections, near, chat, public, listed);
    FirstBridgesAre(bridges);
    FilterAre(bridges, Elements(bridges) - Elements(kept));
    FilterAgree(connections, Surviving(connections, Elements(toClose + surplus)),
                set p | p in connections && (p in near || p in chat || p in kept || IsAi(p)));
  }

  /** One more connection closed. */
  lemma {:induction false} CloseOne(s: seq<PeerId>, closing: set<PeerId>, p: PeerId)
    ensures var left := Filter(s, Surviving(s, closing));
      Filter(s, Surviving(s, closing + {p})) == if IsAi(p) then left else Filter(left, Elements(left) - {p})
  {
    var left := Filter(s, Surviving(s, closing));
    FilterAre(s, Surviving(s, closing));
    if IsAi(p) {
      FilterAgree(s, Surviving(s, closing), Surviving(s, closing + {p}));
    } else {
      FilterTwice(s, Surviving(s, closing), Elements(left) - {p});
      FilterAgree(s, Surviving(s, closing) * (Elements(left) - {p}), Surviving(s, closing + {p}));
    }
  }

  /** What closing these leaves of the connections. */
  function Surviving(s: seq<PeerId>, closing: set<PeerId>): set<PeerId> {
    set p | p in s && (p !in closing || IsAi(p))
  }

  /** The chosen peers are those less than i steps away on the ring. */
  ghost predicate Within(order: seq<PeerId>, my: nat, chosen: seq<PeerId>, i: nat)
    requires my < |order|
  {
    && Distinct(chosen)
    && forall p :: p in chosen <==> p in order && 1 <= Ring.Gap(|order|, my, IndexOf(order, p)) < i
  }

  lemma {:induction false} PlaceIs(order: seq<PeerId>, p: PeerId, j: nat)
    requires Distinct(order) && p in order && j < |order|
    ensures p == order[j] <==> IndexOf(order, p) == j
  {
    PlaceUnique(order, j);
  }

  lemma {:induction false} FurtherOut(order: seq<PeerId>, my: nat, chosen: seq<PeerId>, i: nat)
    requires Distinct(order) && |order| > 7 && my < |order| && 1 <= i <= Ring.SIDE && Within(order, my, chosen, i)
    requires (my + i) % |order| < |order| && (my + |order| - i) % |order| < |order|
    ensures var right, left := order[(my + i) % |order|], order[(my + |order| - i) % |order|];
      && right !in chosen && left !in chosen && right != left
      && Within(order, my, SetAdd(SetAdd(chosen, right), left), i + 1)
  {
    var n := |order|;
    var r, l := (my + i) % n, (my + n - i) % n;
    PlacesAtDistance(n, my, i);
    PairAdded(order, my, chosen, i, r, l);
  }

  lemma {:induction false} PairAdded(order: seq<PeerId>, my: nat, chosen: seq<PeerId>, i: nat, r: nat, l: nat)
    requires Distinct(order) && my < |order| && 1 <= i && Within(order, my, chosen, i)
    requires r < |order| && l < |order| && r != l
    requires forall j :: 0 <= j < |order| ==> (Ring.Gap(|order|, my, j) == i <==> j == r || j == l)
    ensures order[r] !in chosen && order[l] !in chosen && order[r] != order[l]
    ensures Within(order, my, SetAdd(SetAdd(chosen, order[r]), order[l]), i + 1)
  {
    PlaceUnique(order, r);
    PlaceUnique(order, l);
    var wider := SetAdd(SetAdd(chosen, order[r]), order[l]);
    assert wider == chosen + [order[r], order[l]];
    forall p | p in order
      ensures p in wider <==> 1 <= Ring.Gap(|order|, my, IndexOf(order, p)) < i + 1
    {
      PlaceIs(order, p, r);
      PlaceIs(order, p, l);
    }
  }

  class Service {
    const me: PeerId
    var room: Option<string>
    var peers: seq<PeerId>                 // publicPeers, in insertion order
    var neighbors: seq<PeerId>             // publicNeighbors, in insertion order
    var seen: seq<MsgId>                   // seenPublicMessages, in insertion order
    var connections: seq<PeerId>           // keys of peerConnections, in insertion order
    var chat: set<PeerId>                  // keys of dataChannels
    var publicData: map<PeerId, bool>      // publicDataChannels; true when the channel is open
    var publicCtrl: set<PeerId>            // keys of publicCtrlChannels
    var blocked: set<PeerId>
    ghost var shown: seq<MsgId>            // ids shown since the last room switch

    ghost predicate Linked()
      reads this
    {
      Distinct(peers) && Distinct(connections)
    }

    ghost predicate Valid()
      reads this
    {
      Linked() && Window(seen, shown)
    }

    function Snapshot(): Node
      reads this
    {
      Node(room, seen, neighbors, OpenOf(publicData), blocked)
    }

    constructor (id: PeerId)
      ensures Valid() && me == id && room == None && peers == [] && neighbors == [] && seen == []
      ensures connections == [] && chat == {} && publicData == map[] && publicCtrl == {} && blocked == {}
    {
      me := id;
      room, peers, neighbors, seen, connections := None, [], [], [], [];
      chat, publicData, publicCtrl, blocked := {}, map[], {}, {};
      shown := [];
    }

    method StrHashOf(str: PeerId) returns (hash: bv32)
      ensures hash == StrHash(str)
    {
      hash := 5381;
      var i := |str|;
      assert str[i..] == [];
      while i > 0
        invariant 0 <= i <= |str|
        invariant hash == StrHash(str[i..])
      {
        i := i - 1;
        hash := (hash * 33) ^ (str[i] as bv32);
        assert str[i..][1..] == str[i + 1..];
      }
      assert str[0..] == str;
    }

    // ----- Public messages -----

    method TrimSeenPublic(limit: nat)
      modifies this`seen
      ensures seen == Trim(old(seen), limit)
    {
      var excess := |seen| - limit;
      if excess <= 0 { return; }
      var dropped := 0;
      while dropped < excess
        invariant 0 <= dropped <= excess
        invariant seen == old(seen)[dropped..]
      {
        seen := seen[1..];
        dropped := dropped + 1;
      }
    }

    /** The loop over publicNeighbors that both senders run. */
    method SendToNeighbors(msg: PublicMsg, skip: set<PeerId>) returns (sends: seq<Send>)
      ensures sends == SendAll(Targets(neighbors, OpenOf(publicData), skip), msg)
    {
      sends := [];
      var i := 0;
      while i < |neighbors|
        invariant 0 <= i <= |neighbors|
        invariant sends == SendAll(Targets(neighbors[..i], OpenOf(publicData), skip), msg)
      {
        var nid := neighbors[i];
        TargetsSnoc(neighbors[..i], nid, OpenOf(publicData), skip);
        assert neighbors[..i + 1] == neighbors[..i] + [nid];
        if nid !in skip && nid in publicData && publicData[nid] {
          sends := sends + [Send(nid, msg)];
        }
        i := i + 1;
      }
      assert neighbors[..i] == neighbors;
    }

    method OnPublicMessage(src: PeerId, msg: PublicMsg) returns (emitted: Option<PublicMsg>, sends: seq<Send>)
      requires Valid()
      modifies this`seen, this`shown
      ensures Valid()
      ensures Reaction(Snapshot(), emitted, sends) == Receive(old(Snapshot()), src, msg)
      ensures shown == ShownAfter(me, old(Snapshot()), Received(src, msg), old(shown))
      ensures emitted == if src !in blocked && msg.origin !in blocked && Rooms.Displays(room, msg.room)
                            && msg.id !in old(seen) then Some(msg) else None
      ensures emitted.None? ==> sends == [] && seen == old(seen) && shown == old(shown)
      ensures emitted.Some? ==> msg.id in seen && |seen| <= 2048 && shown == old(shown) + [msg.id]
    {
      emitted, sends := None, [];
      if src in blocked || !Rooms.Displays(room, msg.room) || msg.origin in blocked || msg.id in seen { return; }
      AcceptKeepsWindow(seen, shown, msg.id);
      seen := seen + [msg.id];
      shown := shown + [msg.id];
      TrimKeepsWindow(seen, shown);
      TrimSeenPublic(SEEN_LIMIT);
      assert seen[|seen| - 1] == msg.id;
      emitted := Some(msg);
      if msg.ttl > 0 {
        sends := SendToNeighbors(msg.(ttl := msg.ttl - 1), {src, msg.origin});
      }
    }

    /** `id` is the fresh uuid the code draws. */
    method BroadcastToPublicRoom(
      id: MsgId, ts: int, text: string) returns (emitted: Option<PublicMsg>, sends: seq<Send>)
      requires Valid() && id !in seen
      modifies this`seen, this`shown
      ensures Valid()
      ensures Reaction(Snapshot(), emitted, sends) == Compose(me, old(Snapshot()), id, ts, text)
      ensures shown == ShownAfter(me, old(Snapshot()), Composed(id, ts, text), old(shown))
      ensures emitted ==
        if room.Some? && room.value != "" then Some(PublicMsg(id, room.value, me, ts, 6, text)) else None
      ensures emitted.None? ==> sends == [] && seen == old(seen)
      ensures emitted.Some? ==> seen == old(seen) + [id]
      ensures forall s :: s in sends ==>
        emitted == Some(s.msg) && s.dst in neighbors && s.dst in publicData && publicData[s.dst]
    {
      emitted, sends := None, [];
      if room.None? || room.value == "" { return; }
      var msg := PublicMsg(id, room.value, me, ts, ORIGIN_TTL, text);
      AcceptKeepsWindow(seen, shown, id);
      seen := SetAdd(seen, id);
      shown := shown + [id];
      emitted := Some(msg);
      sends := SendToNeighbors(msg, {});
      TargetsAre(neighbors, OpenOf(publicData), {});
      SendAllTo(Targets(neighbors, OpenOf(publicData), {}), msg);
      assert forall s :: s in sends ==> SentTo(sends, s.dst);
    }

    // ----- Neighbours and connections -----

    method AllOthers(order: seq<PeerId>) returns (chosen: seq<PeerId>)
      requires Distinct(order) && me in order
      ensures Distinct(chosen) && |chosen| == |order| - 1
      ensures forall p :: p in chosen <==> p in order && p != me
    {
      chosen := [];
      var i := 0;
      var my := IndexOf(order, me);
      while i < |order|
        invariant 0 <= i <= |order|
        invariant Distinct(chosen) && |chosen| == i - if my < i then 1 else 0
        invariant forall p :: p in chosen <==> p in order[..i] && p != me
      {
        if order[i] != me { chosen := SetAdd(chosen, order[i]); }
        i := i + 1;
      }
      assert order[..i] == order;
    }

    method RingNeighbors(order: seq<PeerId>) returns (chosen: seq<PeerId>)
      requires Distinct(order) && me in order && |order| > 7
      ensures IsNeighborhood(order, me, chosen) && |chosen| == 6
    {
      var my, n := IndexOf(order, me), |order|;
      var k := 7 / 2;
      chosen := [];
      var i := 1;
      while i <= k
        invariant 1 <= i <= k + 1
        invariant Within(order, my, chosen, i) && |chosen| == 2 * (i - 1)
      {
        var right, left := (my + i) % n, (my + n - i) % n;
        PlacesAtDistance(n, my, i);
        FurtherOut(order, my, chosen, i);
        chosen := SetAdd(SetAdd(chosen, order[right]), order[left]);
        i := i + 1;
      }
    }

    method SelectNeighbors() returns (chosen: seq<PeerId>)
      requires Distinct(peers)
      ensures IsNeighborhood(HashOrder(peers), me, chosen)
      ensures |chosen| == if me !in peers then 0 else if |peers| > 7 then 6 else |peers| - 1
    {
      var order := HashOrder(peers);
      StableSort.SortFacts(HashKey, peers);
      StableSort.MultisetElements(peers, order);
      if IndexOf(order, me) == -1 {
        chosen := [];
      } else if |order| <= 7 {
        chosen := AllOthers(order);
        SmallOrder(order, chosen);
      } else {
        chosen := RingNeighbors(order);
      }
    }

    lemma {:induction false} SmallOrder(order: seq<PeerId>, chosen: seq<PeerId>)
      requires Distinct(order) && Distinct(chosen) && me in order && |order| <= 7
      requires forall p :: p in chosen <==> p in order && p != me
      ensures IsNeighborhood(order, me, chosen)
    {
      var my := IndexOf(order, me);
      forall p | p in order
        ensures p != me <==> Ring.Adjacent(|order|, my, IndexOf(order, p))
      {
        if p != me { Ring.SmallRingIsComplete(|order|, my, IndexOf(order, p)); }
      }
    }

    /** The part of createPeerConnection before its first await. */
    method CreatePeerConnection(p: PeerId, role: Role)
      modifies this`connections, this`publicData, this`publicCtrl
      ensures connections == SetAdd(old(connections), p)
      ensures var opens := p !in old(connections) && Initiates(me, p, role) && p !in blocked;
        && publicData == (if opens then old(publicData)[p := false] else old(publicData))
        && publicCtrl == (if opens then old(publicCtrl) + {p} else old(publicCtrl))
    {
      if p in connections { return; }
      connections := connections + [p];
      var initiator := match role case Auto => Greater(me, p) case Initiator => true case Responder => false;
      if initiator && p !in blocked {
        publicData := publicData[p := false];
        publicCtrl := publicCtrl + {p};
      }
    }

    method ClosePeerConnection(p: PeerId)
      modifies this`connections, this`chat
      ensures connections == if IsAi(p)
        then old(connections) else Filter(old(connections), Elements(old(connections)) - {p})
      ensures chat == if IsAi(p) then old(chat) else old(chat) - {p}
    {
      if [0x61, 0x69, 0x2d] <= p { return; }
      if p in connections { connections := Filter(connections, Elements(connections) - {p}); }
      else {
        FilterAgree(connections, Elements(connections), Elements(connections) - {p});
        FilterAll(connections);
      }
      chat := chat - {p};
    }

    /** Channels were opened, not yet in state "open", to the new neighbours with
        smaller ids that are not blocked, and to nobody else. */
    ghost predicate OpenedFor(
      before: seq<PeerId>, data: map<PeerId, bool>, ctrl: set<PeerId>, chosen: seq<PeerId>)
      reads this
    {
      && (forall p :: p in publicCtrl <==>
            p in ctrl || (p in chosen && p !in before && Greater(me, p) && p !in blocked))
      && (forall p :: p in publicData <==>
            p in data || (p in chosen && p !in before && Greater(me, p) && p !in blocked))
      && (forall p :: p in publicData ==>
            (publicData[p] <==>
               !(p in chosen && p !in before && Greater(me, p) && p !in blocked) && data[p]))
    }

    method ConnectNeighbors(chosen: seq<PeerId>)
      requires Distinct(connections) && me !in chosen
      modifies this`connections, this`publicData, this`publicCtrl
      ensures connections == AddAll(old(connections), chosen) && Distinct(connections)
      ensures OpenedFor(old(connections), old(publicData), old(publicCtrl), chosen)
    {
      var i := 0;
      while i < |chosen|
        modifies this`connections, this`publicData, this`publicCtrl
        invariant 0 <= i <= |chosen|
        invariant connections == AddAll(old(connections), chosen[..i])
        invariant OpenedFor(old(connections), old(publicData), old(publicCtrl), chosen[..i])
      {
        assert chosen[..i + 1] == chosen[..i] + [chosen[i]] && chosen[..i + 1][..i] == chosen[..i];
        AddAllAre(old(connections), chosen[..i]);
        if chosen[i] != me && chosen[i] !in connections { CreatePeerConnection(chosen[i], Auto); }
        i := i + 1;
      }
      assert chosen[..i] == chosen;
      AddAllAre(old(connections), chosen);
    }

    method CloseAll(closing: seq<PeerId>)
      requires forall p :: p in closing ==> p !in chat
      modifies this`connections, this`chat
      ensures connections == Filter(old(connections), Surviving(old(connections), Elements(closing)))
      ensures chat == old(chat)
    {
      var i := 0;
      ghost var closed: set<PeerId> := {};
      FilterAll(connections);
      FilterAgree(connections, Elements(connections), Surviving(connections, closed));
      while i < |closing|
        modifies this`connections, this`chat
        invariant 0 <= i <= |closing| && chat == old(chat)
        invariant closed <= Elements(closing) && forall j :: 0 <= j < i ==> closing[j] in closed
        invariant connections == Filter(old(connections), Surviving(old(connections), closed))
      {
        ClosePeerConnection(closing[i]);
        CloseOne(old(connections), closed, closing[i]);
        closed := closed + {closing[i]};
        i := i + 1;
      }
      assert closed == Elements(closing);
    }

    /** Splits the connections that are neither neighbours nor chat partners into
        public bridges and the rest. */
    method Classify(chosen: seq<PeerId>, public: set<PeerId>) returns (bridges: seq<PeerId>, toClose: seq<PeerId>)
      ensures bridges == Bridges(connections, chosen, chat, public, peers)
      ensures forall p :: p in toClose <==> p in connections && Stale(p, chosen, chat, public, peers)
    {
      bridges, toClose := [], [];
      ghost var wanted := set p | p in connections && p !in chosen && p !in chat && p in public && p in peers;
      var i := 0;
      while i < |connections|
        invariant 0 <= i <= |connections|
        invariant bridges == Filter(connections[..i], wanted)
        invariant forall p :: p in toClose <==> p in connections[..i] && Stale(p, chosen, chat, public, peers)
      {
        var p := connections[i];
        FilterSnoc(connections[..i], p, wanted);
        assert connections[..i + 1] == connections[..i] + [p];
        if p !in chosen && p !in chat {
          if p in public && p in peers { bridges := bridges + [p]; } else { toClose := toClose + [p]; }
        }
        i := i + 1;
      }
      assert connections[..i] == connections;
    }

    /** Closes every stale connection and the bridges beyond the first three. */
    method Prune(chosen: seq<PeerId>, public: set<PeerId>)
      modifies this`connections, this`chat
      ensures connections == Pruned(old(connections), chosen, chat, public, peers) && chat == old(chat)
      ensures Distinct(old(connections)) ==> Distinct(connections)
      ensures Distinct(old(connections)) ==>
        ThreeStayFirst(old(connections), connections, chosen, chat, public, peers)
    {
      if Distinct(connections) { PrunedThreeFirst(connections, connections, chosen, chat, public, peers); }
      var bridges, toClose := Classify(chosen, public);
      var keep := FirstBridges(bridges);
      var bridgesToClose := Filter(bridges, Elements(bridges) - Elements(keep));
      PruneCloses(connections, chosen, chat, public, peers, toClose);
      BridgesAre(connections, chosen, chat, public, peers);
      FilterAre(bridges, Elements(bridges) - Elements(keep));
      FilterAre(connections, Surviving(connections, Elements(toClose + bridgesToClose)));
      CloseAll(toClose + bridgesToClose);
    }

    method UpdatePublicNeighbors()
      requires Linked()
      modifies this`neighbors, this`connections, this`chat, this`publicData, this`publicCtrl
      ensures Linked() && chat == old(chat)
      ensures IsNeighborhood(HashOrder(peers), me, neighbors)
      ensures |neighbors| == if me !in peers then 0 else if |peers| > 7 then 6 else |peers| - 1
      ensures if me !in peers then connections == old(connections)
        else connections == Pruned(AddAll(old(connections), neighbors), neighbors, chat,
                                   publicData.Keys + publicCtrl, peers)
      ensures me in peers ==> |SpareOrdinary(connections, chat)| <= 9
      ensures me in peers ==>
        ThreeStayFirst(old(connections), connections, neighbors, chat, publicData.Keys + publicCtrl, peers)
      ensures OpenedFor(old(connections), old(publicData), old(publicCtrl), neighbors)
    {
      var chosen := SelectNeighbors();
      if me !in peers { neighbors := []; return; }
      ConnectNeighbors(chosen);
      AddAllAre(old(connections), chosen);
      AtMostNineSpare(connections, chosen, chat, publicData.Keys + publicCtrl, peers);
      Prune(chosen, publicData.Keys + publicCtrl);
      neighbors := chosen;
    }

    /** The listed peers that are not blocked, and always oneself. */
    method AdmitListed(listed: seq<PeerId>) returns (next: seq<PeerId>)
      ensures Distinct(next)
      ensures forall p :: p in next <==> p == me || (p in listed && p !in blocked)
    {
      next := [];
      var i := 0;
      while i < |listed|
        invariant 0 <= i <= |listed|
        invariant Distinct(next) && forall p :: p in next <==> p in listed[..i] && p !in blocked
      {
        if listed[i] !in blocked { next := SetAdd(next, listed[i]); }
        i := i + 1;
      }
      assert listed[..i] == listed;
      next := SetAdd(next, me);
    }

    method EnterRoom(roomId: string)
      requires Valid()
      modifies this`room, this`seen, this`shown
      ensures Valid() && room == Some(roomId)
      ensures seen == if old(room) == Some(roomId) then old(seen) else []
      ensures shown == if old(room) == Some(roomId) then old(shown) else []
    {
      if room != Some(roomId) {
        room := Some(roomId);
        seen := [];
        shown := [];
      }
    }

    ghost predicate Admitted(listed: seq<PeerId>)
      reads this
    {
      forall p :: p in peers <==> p == me || (p in listed && p !in blocked)
    }

    /** What an update leaves of these connections, at most nine of them spare. */
    ghost predicate PrunedFrom(before: seq<PeerId>)
      reads this
    {
      && connections == Pruned(AddAll(before, neighbors), neighbors, chat, publicData.Keys + publicCtrl, peers)
      && |SpareOrdinary(connections, chat)| <= 9
    }

    method AdoptPeers(listed: seq<PeerId>)
      requires Linked()
      modifies this`peers, this`neighbors, this`connections, this`chat, this`publicData, this`publicCtrl
      ensures Linked() && chat == old(chat) && Admitted(listed)
      ensures IsNeighborhood(HashOrder(peers), me, neighbors)
      ensures |neighbors| == if |peers| > 7 then 6 else |peers| - 1
      ensures PrunedFrom(old(connections))
      ensures OpenedFor(old(connections), old(publicData), old(publicCtrl), neighbors)
    {
      peers := AdmitListed(listed);
      assert me in peers;
      UpdatePublicNeighbors();
    }

    /** The server's list of nearby peers arrives. */
    method OnNearbyPeers(listed: seq<PeerId>, roomId: string)
      requires Valid()
      modifies this`room, this`peers, this`seen, this`shown, this`neighbors
      modifies this`connections, this`chat, this`publicData, this`publicCtrl
      ensures Valid() && chat == old(chat)
      ensures roomId == "group:public:world" ==>
        && room == old(room) && seen == old(seen) && shown == old(shown) && peers == old(peers)
        && neighbors == old(neighbors) && connections == old(connections)
      ensures roomId != "group:public:world" ==>
        && room == Some(roomId)
        && seen == (if old(room) == Some(roomId) then old(seen) else [])
        && shown == (if old(room) == Some(roomId) then old(shown) else [])
        && Admitted(listed)
        && IsNeighborhood(HashOrder(peers), me, neighbors)
        && |neighbors| == (if |peers| > 7 then 6 else |peers| - 1)
        && PrunedFrom(old(connections))
        && OpenedFor(old(connections), old(publicData), old(publicCtrl), neighbors)
      ensures var listing := Enlist(Node(old(room), old(seen), old(neighbors), {}, blocked), roomId, neighbors);
        listing == Node(room, seen, neighbors, {}, blocked)
    {
      if roomId == WORLD_ROOM { return; }
      EnterRoom(roomId);
      AdoptPeers(listed);
      assert Valid() by { assert Window(seen, shown); }
    }
  }
}
