/** The list of public messages the page holds: `capPublicMessages`, one backward
    scan over the whole list, applied again at every arrival. */
module MemoryCap {
  import opened Prelude
  import opened Eviction
  import PublicCache

  /** A message object; the room or a numeric timestamp may be missing. */
  datatype Entry = Entry(msg: Rec, hasRoom: bool, hasTs: bool)

  datatype Caps = Caps(perRoom: nat, total: nat, ttlMs: nat)

  function RoomKey(e: Entry): string { if e.hasRoom then e.msg.room else "__unknown__" }

  predicate Expired(e: Entry, now: int, caps: Caps) {
    caps.ttlMs != 0 && e.hasTs && now - e.msg.ts > caps.ttlMs
  }

  function InRoom(s: seq<Entry>, key: string): nat {
    if s == [] then 0 else (if RoomKey(s[0]) == key then 1 else 0) + InRoom(s[1..], key)
  }

  /** Whether the scan, holding `kept` so far, takes the next older entry. */
  predicate TakesIn(e: Entry, kept: seq<Entry>, now: int, caps: Caps) {
    !Expired(e, now, caps) && InRoom(kept, RoomKey(e)) < caps.perRoom && |kept| < caps.total
  }

  /** The scan over s, from its end, on top of what was kept of newer entries. */
  function Scan(s: seq<Entry>, newer: seq<Entry>, now: int, caps: Caps): seq<Entry> {
    if s == [] then newer
    else
      var kept := Scan(s[1..], newer, now, caps);
      if TakesIn(s[0], kept, now, caps) then [s[0]] + kept else kept
  }

  function Cap(s: seq<Entry>, now: int, caps: Caps): seq<Entry> { Scan(s, [], now, caps) }

  // ----- The loop -----

  lemma {:induction false} FullStays(s: seq<Entry>, newer: seq<Entry>, now: int, caps: Caps)
    requires |newer| >= caps.total
    ensures Scan(s, newer, now, caps) == newer
  {
    if s != [] { FullStays(s[1..], newer, now, caps); }
  }

  lemma {:induction false} ScanSplit(s: seq<Entry>, i: nat, newer: seq<Entry>, now: int, caps: Caps)
    requires i <= |s|
    ensures Scan(s, newer, now, caps) == Scan(s[..i], Scan(s[i..], newer, now, caps), now, caps)
  {
    if i == 0 {
      assert s[0..] == s;
    } else {
      ScanSplit(s[1..], i - 1, newer, now, caps);
      assert s[1..][..i - 1] == s[..i][1..] && s[1..][i - 1..] == s[i..];
    }
  }

  function Reverse(s: seq<Entry>): seq<Entry> {
    if s == [] then [] else Reverse(s[1..]) + [s[0]]
  }

  method CapPublicMessages(messages: seq<Entry>, now: int, caps: Caps) returns (result: seq<Entry>)
    requires caps.total > 0
    ensures result == Cap(messages, now, caps)
  {
    var perRoomCounts: map<string, nat> := map[];
    var trimmed: seq<Entry> := [];
    ghost var kept: seq<Entry> := [];
    var i := |messages|;
    while i > 0
      invariant 0 <= i <= |messages|
      invariant trimmed == Reverse(kept) && |trimmed| == |kept| && |kept| < caps.total
      invariant kept == Scan(messages[i..], [], now, caps)
      invariant forall k :: (if k in perRoomCounts then perRoomCounts[k] else 0) == InRoom(kept, k)
    {
      i := i - 1;
      var msg := messages[i];
      assert messages[i..][1..] == messages[i + 1..];
      if caps.ttlMs != 0 && msg.hasTs && now - msg.msg.ts > caps.ttlMs { continue; }
      var room := if msg.hasRoom then msg.msg.room else "__unknown__";
      var roomCount := if room in perRoomCounts then perRoomCounts[room] else 0;
      if roomCount >= caps.perRoom { continue; }
      perRoomCounts := perRoomCounts[room := roomCount + 1];
      trimmed := trimmed + [msg];
      kept := [msg] + kept;
      assert kept[1..] == Scan(messages[i + 1..], [], now, caps);
      if |trimmed| >= caps.total {
        ScanSplit(messages, i, [], now, caps);
        FullStays(messages[..i], kept, now, caps);
        ReverseTwice(kept);
        return Reverse(trimmed);
      }
    }
    assert messages[0..] == messages;
    ReverseTwice(kept);
    result := Reverse(trimmed);
  }

  lemma {:induction false} ReverseSnoc(s: seq<Entry>, x: Entry)
    ensures Reverse(s + [x]) == [x] + Reverse(s)
  {
    if s != [] {
      ReverseSnoc(s[1..], x);
      assert (s + [x])[1..] == s[1..] + [x];
    }
  }

  lemma {:induction false} ReverseTwice(s: seq<Entry>)
    ensures Reverse(Reverse(s)) == s
  {
    if s != [] {
      ReverseTwice(s[1..]);
      ReverseSnoc(Reverse(s[1..]), s[0]);
    }
  }

  // ----- What a scan keeps -----

  ghost predicate Subsequence(a: seq<Entry>, b: seq<Entry>)
    decreases |b|
  {
    if b == [] then a == []
    else Subsequence(a, b[1..]) || (a != [] && a[0] == b[0] && Subsequence(a[1..], b[1..]))
  }

  /** The result is a subsequence of the list, unexpired and within both caps. */
  lemma {:induction false} CapWithinCaps(s: seq<Entry>, now: int, caps: Caps)
    ensures var r := Cap(s, now, caps);
      && Subsequence(r, s) && |r| <= caps.total
      && (forall k :: InRoom(r, k) <= caps.perRoom)
      && (forall e :: e in r ==> !Expired(e, now, caps))
  {
    if s != [] {
      CapWithinCaps(s[1..], now, caps);
      var kept := Cap(s[1..], now, caps);
      if TakesIn(s[0], kept, now, caps) { assert ([s[0]] + kept)[1..] == kept; }
    }
  }

  /** At a fixed clock capping twice is capping once. */
  lemma {:induction false} CapIdempotent(s: seq<Entry>, now: int, caps: Caps)
    ensures Cap(Cap(s, now, caps), now, caps) == Cap(s, now, caps)
  {
    if s != [] {
      CapIdempotent(s[1..], now, caps);
      var kept := Cap(s[1..], now, caps);
      if TakesIn(s[0], kept, now, caps) { assert ([s[0]] + kept)[1..] == kept; }
    }
  }

  // ----- Capping after each arrival -----

  ghost predicate InTime(s: seq<Entry>) {
    (forall i :: 0 <= i < |s| ==> s[i].hasTs) && (forall i, j :: 0 <= i < j < |s| ==> s[i].msg.ts <= s[j].msg.ts)
  }

  ghost predicate AllFresh(s: seq<Entry>, now: int, caps: Caps) {
    forall i :: 0 <= i < |s| ==> !Expired(s[i], now, caps)
  }

  /** How the scan with one more, newer entry m compares with the scan without:
      one ahead, level again after m pushed an entry of its room out, or full. */
  ghost predicate Ahead(without: seq<Entry>, with: seq<Entry>, m: Entry, caps: Caps) {
    || (&& |with| == |without| + 1 && |with| <= caps.total
        && forall k :: InRoom(with, k) == InRoom(without, k) + if k == RoomKey(m) then 1 else 0)
    || (|with| == |without| && forall k :: InRoom(with, k) == InRoom(without, k))
    || |with| >= caps.total
  }

  lemma {:induction false} AheadStep(
    x: Entry, without: seq<Entry>, with: seq<Entry>, m: Entry, now: int, later: int, caps: Caps)
    requires Ahead(without, with, m, caps) && !Expired(x, now, caps) && !Expired(x, later, caps)
    ensures TakesIn(x, with, later, caps) ==> TakesIn(x, without, now, caps)
    ensures Ahead(if TakesIn(x, without, now, caps) then [x] + without else without,
                  if TakesIn(x, with, later, caps) then [x] + with else with, m, caps)
  {
    assert ([x] + without)[1..] == without && ([x] + with)[1..] == with;
    assert forall k :: InRoom([x] + without, k) == InRoom(without, k) + if k == RoomKey(x) then 1 else 0;
    assert forall k :: InRoom([x] + with, k) == InRoom(with, k) + if k == RoomKey(x) then 1 else 0;
  }

  lemma {:induction false} ScanAhead(s: seq<Entry>, m: Entry, now: int, later: int, caps: Caps)
    requires AllFresh(s, now, caps) && AllFresh(s, later, caps)
    ensures Ahead(Cap(s, now, caps), Scan(s, Cap([m], later, caps), later, caps), m, caps)
  {
    if s == [] {
      assert Scan([m][1..], [], later, caps) == [] && [m] + [] == [m];
      assert Cap([m], later, caps) == if TakesIn(m, [], later, caps) then [m] else [];
      assert forall k :: InRoom([m], k) == if k == RoomKey(m) then 1 else 0;
    } else {
      ScanAhead(s[1..], m, now, later, caps);
      AheadStep(s[0], Cap(s[1..], now, caps), Scan(s[1..], Cap([m], later, caps), later, caps), m, now, later, caps);
    }
  }

  /** What an earlier cap dropped would be dropped by the later one as well. */
  lemma {:induction false} DroppedStaysDropped(s: seq<Entry>, m: Entry, now: int, later: int, caps: Caps)
    requires InTime(s) && now <= later
    ensures Scan(Cap(s, now, caps), Cap([m], later, caps), later, caps) == Scan(s, Cap([m], later, caps), later, caps)
  {
    if s != [] {
      var x, rest := s[0], s[1..];
      DroppedStaysDropped(rest, m, now, later, caps);
      var kept := Cap(rest, now, caps);
      var with := Scan(rest, Cap([m], later, caps), later, caps);
      if TakesIn(x, kept, now, caps) {
        assert ([x] + kept)[1..] == kept;
      } else if !Expired(x, later, caps) {
        assert AllFresh(rest, now, caps) && AllFresh(rest, later, caps);
        ScanAhead(rest, m, now, later, caps);
        AheadStep(x, kept, with, m, now, later, caps);
      }
    }
  }

  /** Capping after one more arrival equals capping the whole list. */
  lemma {:induction false} CapIncremental(s: seq<Entry>, m: Entry, now: int, later: int, caps: Caps)
    requires InTime(s) && now <= later
    ensures Cap(Cap(s, now, caps) + [m], later, caps) == Cap(s + [m], later, caps)
  {
    var kept := Cap(s, now, caps);
    ScanSplit(kept + [m], |kept|, [], later, caps);
    ScanSplit(s + [m], |s|, [], later, caps);
    assert (kept + [m])[..|kept|] == kept && (kept + [m])[|kept|..] == [m];
    assert (s + [m])[..|s|] == s && (s + [m])[|s|..] == [m];
    DroppedStaysDropped(s, m, now, later, caps);
  }

  /** An arrival: its entry and the clock at which the list is capped. */
  datatype Arrival = Arrival(entry: Entry, now: int)

  function Entries(arrivals: seq<Arrival>): seq<Entry> {
    seq(|arrivals|, i requires 0 <= i < |arrivals| => arrivals[i].entry)
  }

  /** The page's list after the arrivals; a known id leaves it as it is. */
  function Listed(arrivals: seq<Arrival>, caps: Caps): seq<Entry> {
    if arrivals == [] then []
    else
      var before := Listed(arrivals[..|arrivals| - 1], caps);
      var a := arrivals[|arrivals| - 1];
      if exists e :: e in before && e.msg.msgId == a.entry.msg.msgId then before
      else Cap(before + [a.entry], a.now, caps)
  }

  ghost predicate WellTimed(arrivals: seq<Arrival>) {
    && InTime(Entries(arrivals))
    && (forall i, j :: 0 <= i < j < |arrivals| ==> arrivals[i].now <= arrivals[j].now)
    && (forall i, j :: 0 <= i < j < |arrivals| ==> arrivals[i].entry.msg.msgId != arrivals[j].entry.msg.msgId)
  }

  lemma {:induction false} ScanFrom(s: seq<Entry>, newer: seq<Entry>, now: int, caps: Caps)
    ensures forall e :: e in Scan(s, newer, now, caps) ==> e in s || e in newer
  {
    if s != [] { ScanFrom(s[1..], newer, now, caps); }
  }

  /** No id twice. */
  ghost predicate OnceEach(s: seq<Entry>) {
    forall i, j :: 0 <= i < j < |s| ==> s[i].msg.msgId != s[j].msg.msgId
  }

  lemma {:induction false} ScanOnce(s: seq<Entry>, now: int, caps: Caps)
    requires OnceEach(s)
    ensures OnceEach(Cap(s, now, caps))
  {
    if s != [] {
      ScanOnce(s[1..], now, caps);
      ScanFrom(s[1..], [], now, caps);
      forall e | e in Cap(s[1..], now, caps) ensures e.msg.msgId != s[0].msg.msgId {
        var k :| 0 <= k < |s[1..]| && s[1..][k] == e;
        assert s[k + 1] == e;
      }
    }
  }

  /** Whatever arrives, in whatever order and however often: the page holds no id
      twice and only what has arrived, within both caps. */
  lemma {:induction false} ListedOnce(arrivals: seq<Arrival>, caps: Caps)
    ensures var page := Listed(arrivals, caps);
      && OnceEach(page) && |page| <= caps.total && (forall k :: InRoom(page, k) <= caps.perRoom)
      && forall e :: e in page ==> e in Entries(arrivals)
  {
    if arrivals != [] {
      var init, a := arrivals[..|arrivals| - 1], arrivals[|arrivals| - 1];
      var before := Listed(init, caps);
      ListedOnce(init, caps);
      assert Entries(arrivals) == Entries(init) + [a.entry];
      if !exists e :: e in before && e.msg.msgId == a.entry.msg.msgId {
        assert OnceEach(before + [a.entry]);
        ScanOnce(before + [a.entry], a.now, caps);
        ScanFrom(before + [a.entry], [], a.now, caps);
        CapWithinCaps(before + [a.entry], a.now, caps);
      }
    }
  }

  /** For messages that arrive in timestamp order, capping after every arrival
      equals capping the full history once. */
  lemma {:induction false} ListedIsCappedHistory(arrivals: seq<Arrival>, caps: Caps)
    requires WellTimed(arrivals) && arrivals != []
    ensures Listed(arrivals, caps) == Cap(Entries(arrivals), arrivals[|arrivals| - 1].now, caps)
  {
    var n := |arrivals|;
    var init, a := arrivals[..n - 1], arrivals[n - 1];
    assert Entries(arrivals) == Entries(init) + [a.entry];
    if init == [] {
      assert [] + [a.entry] == [a.entry];
    } else {
      assert forall i :: 0 <= i < n - 1 ==> Entries(init)[i] == Entries(arrivals)[i];
      ListedIsCappedHistory(init, caps);
      ScanFrom(Entries(init), [], init[n - 2].now, caps);
      CapIncremental(Entries(init), a.entry, init[n - 2].now, a.now, caps);
    }
  }

  // ----- Agreement with the stored cache -----

  function Lift(s: seq<Rec>): seq<Entry> {
    seq(|s|, i requires 0 <= i < |s| => Entry(s[i], true, true))
  }

  function LimitOf(now: int, caps: Caps): Option<int> {
    if caps.ttlMs == 0 then None else Some(now - caps.ttlMs)
  }

  lemma {:induction false} LiftCons(r: Rec, s: seq<Rec>)
    ensures Lift([r] + s) == [Entry(r, true, true)] + Lift(s)
  {
  }

  lemma {:induction false} InRoomLifted(s: seq<Rec>, room: string)
    ensures InRoom(Lift(s), room) == PublicCache.CountRoom(s, room)
  {
    if s != [] {
      InRoomLifted(s[1..], room);
      assert Lift(s)[1..] == Lift(s[1..]);
    }
  }

  lemma {:induction false} OldestPerRoom(u: set<Rec>, x: Rec, cap: nat)
    requires x !in u && forall r :: r in u ==> Newer(r, x)
    ensures PerRoom(u + {x}, cap) == PerRoom(u, cap) + if |Room(u, x.room)| < cap then {x} else {}
  {
    forall m | m in u ensures NewerThan(Room(u + {x}, m.room), m) == NewerThan(Room(u, m.room), m) { }
    assert NewerThan(Room(u + {x}, x.room), x) == Room(u, x.room);
  }

  lemma {:induction false} OldestTop(c: set<Rec>, x: Rec, cap: nat)
    requires x !in c && forall r :: r in c ==> Newer(r, x)
    ensures Top(c + {x}, cap) == Top(c, cap) + if |c| < cap then {x} else {}
  {
    forall m | m in c ensures NewerThan(c + {x}, m) == NewerThan(c, m) { }
    assert NewerThan(c + {x}, x) == c;
  }

  /** Whether an oldest record is kept can be read off what is kept without it. */
  lemma {:induction false} OldestFits(u: set<Rec>, x: Rec, caps: Caps)
    requires UniqueKeys(u)
    ensures var c := PerRoom(u, caps.perRoom); var before := Top(c, caps.total);
      (|Room(u, x.room)| < caps.perRoom && |c| < caps.total)
      <==> (|Room(before, x.room)| < caps.perRoom && |before| < caps.total)
  {
    var c := PerRoom(u, caps.perRoom);
    TopSize(c, caps.total);
    RoomKeys(u, x.room);
    TopSize(Room(u, x.room), caps.perRoom);
    PerRoomIsTop(u, caps.perRoom, x.room);
    if |c| < caps.total { PublicCache.SmallTop(c, caps.total); }
  }

  lemma {:induction false} OldestInTops(s: set<Rec>, x: Rec, caps: Caps)
    requires UniqueKeys(s) && x !in s && forall r :: r in s ==> Newer(r, x)
    ensures var before := Top(PerRoom(s, caps.perRoom), caps.total);
      Top(PerRoom(s + {x}, caps.perRoom), caps.total)
      == before + if |Room(before, x.room)| < caps.perRoom && |before| < caps.total then {x} else {}
  {
    var c := PerRoom(s, caps.perRoom);
    OldestPerRoom(s, x, caps.perRoom);
    OldestTop(c, x, caps.total);
    OldestFits(s, x, caps);
    if |Room(s, x.room)| >= caps.perRoom { assert c + {} == c; }
  }

  predicate WithinLimit(x: Rec, limit: Option<int>) { limit.Some? ==> x.ts >= limit.value }

  ghost predicate BatchTakes(x: Rec, before: set<Rec>, limit: Option<int>, caps: Caps) {
    WithinLimit(x, limit) && |Room(before, x.room)| < caps.perRoom && |before| < caps.total
  }

  /** Adding an oldest record to a set adds at most that record to what is kept. */
  lemma {:induction false} OldestInBatch(s: set<Rec>, x: Rec, limit: Option<int>, caps: Caps)
    requires UniqueKeys(s) && x !in s && forall r :: r in s ==> Newer(r, x)
    ensures var before := Batch(s, limit, caps.perRoom, caps.total);
      Batch(s + {x}, limit, caps.perRoom, caps.total) == before + if BatchTakes(x, before, limit, caps) then {x} else {}
  {
    if WithinLimit(x, limit) {
      assert Unexpired(s + {x}, limit) == s + {x} && Unexpired(s, limit) == s;
      OldestInTops(s, x, caps);
    } else {
      assert Unexpired(s + {x}, limit) == Unexpired(s, limit);
    }
  }

  /** How many of a room an ordered list holds, counted in the three ways. */
  lemma {:induction false} RoomCounts(s: seq<Rec>, room: string)
    requires PublicCache.Ordered(s)
    ensures InRoom(Lift(s), room) == |Room(Elements(s), room)| && |s| == |Elements(s)|
  {
    InRoomLifted(s, room);
    PublicCache.OrderedDistinct(s);
    PublicCache.RoomSize(s, room);
    DistinctSize(s);
  }

  /** The page and the database keep the same messages: for records in index
      order the backward scan keeps exactly what the store keeps. */
  lemma {:induction false} ScanMatchesStore(s: seq<Rec>, now: int, caps: Caps) returns (kept: seq<Rec>)
    requires PublicCache.Ordered(s) && UniqueKeys(Elements(s))
    ensures Cap(Lift(s), now, caps) == Lift(kept)
    ensures PublicCache.Ordered(kept)
    ensures Elements(kept) == Batch(Elements(s), LimitOf(now, caps), caps.perRoom, caps.total)
  {
    if s == [] {
      kept := [];
      assert Elements(s) == {};
      assert Batch({}, LimitOf(now, caps), caps.perRoom, caps.total) == {};
    } else {
      var x, rest := s[0], s[1..];
      assert s == [x] + rest;
      assert Elements(s) == Elements(rest) + {x};
      assert forall r :: r in rest ==> Newer(r, x);
      var before := ScanMatchesStore(rest, now, caps);
      kept := ScanOneMore(rest, x, before, now, caps);
    }
  }

  lemma {:induction false} ScanOneMore(
    rest: seq<Rec>, x: Rec, before: seq<Rec>, now: int, caps: Caps) returns (kept: seq<Rec>)
    requires PublicCache.Ordered(rest) && UniqueKeys(Elements(rest)) && forall r :: r in rest ==> Newer(r, x)
    requires Cap(Lift(rest), now, caps) == Lift(before) && PublicCache.Ordered(before)
    requires Elements(before) == Batch(Elements(rest), LimitOf(now, caps), caps.perRoom, caps.total)
    ensures Cap(Lift([x] + rest), now, caps) == Lift(kept) && PublicCache.Ordered(kept)
    ensures Elements(kept) == Batch(Elements(rest) + {x}, LimitOf(now, caps), caps.perRoom, caps.total)
  {
    OldestInBatch(Elements(rest), x, LimitOf(now, caps), caps);
    LiftCons(x, rest);
    assert Lift([x] + rest)[1..] == Lift(rest);
    LiftCons(x, before);
    var takes := TakesIn(Entry(x, true, true), Lift(before), now, caps);
    assert takes == BatchTakes(x, Elements(before), LimitOf(now, caps), caps) by { RoomCounts(before, x.room); }
    OrderedCons(x, before, rest, LimitOf(now, caps), caps);
    kept := if takes then [x] + before else before;
  }

  lemma {:induction false} OrderedCons(x: Rec, before: seq<Rec>, rest: seq<Rec>, limit: Option<int>, caps: Caps)
    requires PublicCache.Ordered(before) && forall r :: r in rest ==> Newer(r, x)
    requires Elements(before) == Batch(Elements(rest), limit, caps.perRoom, caps.total)
    ensures PublicCache.Ordered([x] + before) && Elements([x] + before) == Elements(before) + {x}
  {
    PublicCache.BatchFromHistory(before, Elements(rest), limit, caps.perRoom, caps.total);
  }

  /** How many are newer tells the place. */
  lemma {:induction false} RankIsPlace(s: seq<Rec>, i: nat)
    requires PublicCache.Ordered(s) && i < |s|
    ensures |NewerThan(Elements(s), s[i])| == |s| - 1 - i
  {
    PublicCache.AboveIsTail(s, i);
  }

  lemma {:induction false} OrderedSize(s: seq<Rec>)
    requires PublicCache.Ordered(s)
    ensures |Elements(s)| == |s|
  {
    PublicCache.OrderedDistinct(s);
    DistinctSize(s);
  }

  lemma {:induction false} OrderedUnique(a: seq<Rec>, b: seq<Rec>)
    requires PublicCache.Ordered(a) && PublicCache.Ordered(b) && Elements(a) == Elements(b)
    ensures a == b
  {
    OrderedSize(a);
    OrderedSize(b);
    forall i | 0 <= i < |a| ensures a[i] == b[i] {
      assert a[i] in Elements(b);
      var j :| 0 <= j < |b| && b[j] == a[i];
      RankIsPlace(a, i);
      RankIsPlace(b, j);
    }
  }

  /** Messages that arrive in timestamp order leave the page with exactly what
      the database holds, in the same order. */
  lemma {:induction false} PageMatchesStore(recs: seq<Rec>, arrivals: seq<Arrival>, byTs: seq<Rec>, caps: Caps)
    requires recs != [] && Entries(arrivals) == Lift(recs) && WellTimed(arrivals)
    requires PublicCache.Ordered(recs) && UniqueKeys(Elements(recs)) && PublicCache.Ordered(byTs)
    requires Elements(byTs) ==
      Batch(Elements(recs), LimitOf(arrivals[|arrivals| - 1].now, caps), caps.perRoom, caps.total)
    ensures Listed(arrivals, caps) == Lift(byTs)
  {
    var now := arrivals[|arrivals| - 1].now;
    ListedIsCappedHistory(arrivals, caps);
    var kept := ScanMatchesStore(recs, now, caps);
    OrderedUnique(kept, byTs);
  }
}
