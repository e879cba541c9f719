/** The stored cache of public messages: `appendPublicMessageCapped` walking its
    indexes, and `getRecentPublicMessages` reading them. */
module PublicCache {
  import opened Prelude
  import opened Eviction

  /** The records in timestamp-index order. */
  ghost predicate Ordered(s: seq<Rec>) {
    forall i, j :: 0 <= i < j < |s| ==> Newer(s[j], s[i])
  }

  ghost function CountRoom(s: seq<Rec>, room: string): nat {
    if s == [] then 0 else (if s[0].room == room then 1 else 0) + CountRoom(s[1..], room)
  }

  /** In timestamp order the expired records are a prefix. */
  lemma {:induction false} ExpiredPrefix(a: seq<Rec>, b: seq<Rec>, limitTs: int)
    requires Ordered(a + b)
    requires (forall r :: r in a ==> r.ts < limitTs) && (b == [] || b[0].ts >= limitTs)
    ensures Ordered(b) && Elements(b) == Unexpired(Elements(a + b), Some(limitTs))
  {
    forall i, j | 0 <= i < j < |b| ensures Newer(b[j], b[i]) {
      assert (a + b)[|a| + i] == b[i] && (a + b)[|a| + j] == b[j];
    }
    forall r | r in b ensures r.ts >= limitTs {
      var j :| 0 <= j < |b| && b[j] == r;
      if j > 0 { assert Newer(b[j], b[0]); }
    }
    assert Elements(a + b) == Elements(a) + Elements(b);
  }

  lemma {:induction false} HeadMoved(a: seq<Rec>, b: seq<Rec>)
    requires b != []
    ensures a + b == (a + [b[0]]) + b[1..]
  {
  }

  lemma {:induction false} RoomAbove(s: seq<Rec>, i: nat)
    requires Ordered(s) && i < |s|
    ensures |NewerThan(Room(Elements(s), s[i].room), s[i])| == CountRoom(s[i + 1..], s[i].room)
  {
    AboveIsTail(s, i);
    var tail := s[i + 1..];
    RoomSize(tail, s[i].room);
    assert NewerThan(Room(Elements(s), s[i].room), s[i]) == Room(Elements(tail), s[i].room);
  }

  lemma {:induction false} OrderedDistinct(s: seq<Rec>)
    requires Ordered(s)
    ensures Distinct(s)
  {
    forall i, j | 0 <= i < j < |s| ensures s[i] != s[j] {
      assert Newer(s[j], s[i]);
    }
  }

  lemma {:induction false} AboveIsTail(s: seq<Rec>, i: nat)
    requires Ordered(s) && i < |s|
    ensures NewerThan(Elements(s), s[i]) == Elements(s[i + 1..])
    ensures |Elements(s[i + 1..])| == |s| - i - 1
  {
    forall r | r in NewerThan(Elements(s), s[i]) ensures r in s[i + 1..] {
      var j :| 0 <= j < |s| && s[j] == r;
      assert j > i;
      assert s[i + 1..][j - i - 1] == r;
    }
    OrderedDistinct(s[i + 1..]);
    DistinctSize(s[i + 1..]);
  }

  lemma {:induction false} RoomSize(s: seq<Rec>, room: string)
    requires Distinct(s)
    ensures |Room(Elements(s), room)| == CountRoom(s, room)
  {
    if s == [] {
      assert Room(Elements(s), room) == {};
    } else {
      RoomSize(s[1..], room);
      var first := if s[0].room == room then {s[0]} else {};
      assert s[0] !in s[1..];
      assert s == [s[0]] + s[1..];
      assert Room(Elements(s), room) == first + Room(Elements(s[1..]), room);
    }
  }

  /** What a downward walk keeps that counts the records of one room. */
  ghost function KeepRoom(s: seq<Rec>, room: string, cap: nat): seq<Rec> {
    if s == [] then []
    else (if s[0].room != room || CountRoom(s, room) <= cap then [s[0]] else []) + KeepRoom(s[1..], room, cap)
  }

  lemma {:induction false} KeepRoomIs(s: seq<Rec>, i: nat, room: string, cap: nat)
    requires Ordered(s) && i <= |s|
    ensures forall r :: r in KeepRoom(s[i..], room, cap) <==> r in s[i..] && r in OneRoom(Elements(s), room, cap)
    ensures Ordered(KeepRoom(s[i..], room, cap))
    decreases |s| - i
  {
    if i < |s| {
      KeepRoomIs(s, i + 1, room, cap);
      assert s[i..][1..] == s[i + 1..] && s[i..] == [s[i]] + s[i + 1..];
      RoomAbove(s, i);
      assert CountRoom(s[i..], room) == (if s[i].room == room then 1 else 0) + CountRoom(s[i + 1..], room);
      var rest := KeepRoom(s[i + 1..], room, cap);
      forall r | r in rest ensures Newer(r, s[i]) {
        assert r in s[i + 1..];
      }
      var kept := KeepRoom(s[i..], room, cap);
      assert kept == rest || kept == [s[i]] + rest;
    }
  }

  /** No message is stored twice: the unique (room, id) index. */
  ghost predicate Unrepeated(s: seq<Rec>) {
    forall a, b :: a in s && b in s && a.room == b.room && a.msgId == b.msgId ==> a == b
  }

  lemma {:induction false} UnrepeatedSubset(a: seq<Rec>, b: seq<Rec>)
    requires Unrepeated(a) && Elements(b) <= Elements(a)
    ensures Unrepeated(b)
  {
    forall r | r in b ensures r in a { assert r in Elements(b); }
  }

  class Store {
    const perRoomCap: nat
    const totalCap: nat
    const ttlMs: nat                   // 0: no purge by age
    var byTs: seq<Rec>                 // the store, as its timestamp index lists it
    var nextKey: nat
    ghost var history: set<Rec>        // every record ever inserted
    ghost var limit: Option<int>       // oldest timestamp kept by the last purge

    ghost predicate Valid()
      reads this
    {
      && Ordered(byTs)
      && (forall r :: r in history ==> r.key < nextKey)
      && UniqueKeys(history)
      && Elements(byTs) == Batch(history, limit, perRoomCap, totalCap)
      && Unrepeated(byTs)
    }

    function LimitAt(now: int): Option<int> { if ttlMs == 0 then None else Some(now - ttlMs) }

    constructor (perRoomCap: nat, totalCap: nat, ttlMs: nat)
      ensures Valid() && byTs == [] && history == {} && limit == None
      ensures this.perRoomCap == perRoomCap && this.totalCap == totalCap && this.ttlMs == ttlMs
    {
      this.perRoomCap, this.totalCap, this.ttlMs := perRoomCap, totalCap, ttlMs;
      byTs, nextKey, history, limit := [], 0, {}, None;
      assert Batch({}, None, perRoomCap, totalCap) == {};
    }

    method Find(room: string, msgId: string) returns (found: bool)
      ensures found <==> exists r :: r in byTs && r.room == room && r.msgId == msgId
    {
      var i := 0;
      while i < |byTs|
        invariant 0 <= i <= |byTs|
        invariant forall r :: r in byTs[..i] ==> r.room != room || r.msgId != msgId
      {
        if byTs[i].room == room && byTs[i].msgId == msgId { return true; }
        assert byTs[..i + 1] == byTs[..i] + [byTs[i]];
        i := i + 1;
      }
      assert byTs[..i] == byTs;
      return false;
    }

    /** Inserts at the record's place in the index order. */
    method Insert(r: Rec)
      requires Ordered(byTs) && forall q :: q in byTs ==> q.key < r.key
      modifies this`byTs
      ensures Ordered(byTs) && Elements(byTs) == Elements(old(byTs)) + {r}
    {
      var i := |byTs|;
      while i > 0 && byTs[i - 1].ts > r.ts
        invariant 0 <= i <= |byTs|
        invariant forall j :: i <= j < |byTs| ==> Newer(byTs[j], r)
      {
        i := i - 1;
      }
      if i > 0 { assert byTs[i - 1] in byTs; assert Newer(r, byTs[i - 1]); }
      byTs := byTs[..i] + [r] + byTs[i..];
    }

    /** Walks the index upwards, deleting until a record is recent enough. */
    method DeleteWhileExpired(limitTs: int) returns (ghost dropped: seq<Rec>)
      modifies this`byTs
      ensures old(byTs) == dropped + byTs
      ensures forall r :: r in dropped ==> r.ts < limitTs
      ensures byTs == [] || byTs[0].ts >= limitTs
    {
      dropped := [];
      while byTs != [] && byTs[0].ts < limitTs
        invariant old(byTs) == dropped + byTs
        invariant forall r :: r in dropped ==> r.ts < limitTs
      {
        HeadMoved(dropped, byTs);
        dropped := dropped + [byTs[0]];
        byTs := byTs[1..];
      }
    }

    method PurgeExpired(limitTs: int)
      requires Ordered(byTs)
      modifies this`byTs
      ensures Ordered(byTs) && Elements(byTs) == Unexpired(Elements(old(byTs)), Some(limitTs))
    {
      ghost var dropped := DeleteWhileExpired(limitTs);
      ExpiredPrefix(dropped, byTs, limitTs);
    }

    /** Walks one room downwards, counting, and deletes what exceeds the cap. */
    method PurgeRoom(room: string)
      requires Ordered(byTs)
      modifies this`byTs
      ensures Ordered(byTs) && Elements(byTs) == OneRoom(Elements(old(byTs)), room, perRoomCap)
    {
      var kept: seq<Rec> := [];
      var count := 0;
      var i := |byTs|;
      while i > 0
        modifies {}
        invariant 0 <= i <= |byTs|
        invariant count == CountRoom(byTs[i..], room)
        invariant kept == KeepRoom(byTs[i..], room, perRoomCap)
      {
        i := i - 1;
        assert byTs[i..][1..] == byTs[i + 1..];
        if byTs[i].room == room { count := count + 1; }
        if byTs[i].room != room || count <= perRoomCap { kept := [byTs[i]] + kept; }
      }
      KeepRoomIs(byTs, 0, room, perRoomCap);
      assert byTs[0..] == byTs;
      byTs := kept;
    }

    /** Walks the whole index downwards and deletes what exceeds the total cap. */
    method PurgeTotal()
      requires Ordered(byTs)
      modifies this`byTs
      ensures Ordered(byTs) && Elements(byTs) == Top(Elements(old(byTs)), totalCap)
    {
      var kept: seq<Rec> := [];
      var total := 0;
      var i := |byTs|;
      while i > 0
        modifies {}
        invariant 0 <= i <= |byTs| && total == |byTs| - i
        invariant kept == if total <= totalCap then byTs[i..] else byTs[|byTs| - totalCap..]
      {
        i := i - 1;
        total := total + 1;
        if total <= totalCap { kept := [byTs[i]] + kept; }
      }
      NewestAreTop(byTs, totalCap);
      byTs := kept;
    }

    predicate IsStored(room: string, msgId: string)
      reads this
    {
      exists r :: r in byTs && r.room == room && r.msgId == msgId
    }

    /** The insert, with its lookup in the unique (room, id) index. */
    method StoreUnlessRepeated(rec: Rec) returns (repeated: bool)
      requires Ordered(byTs) && Unrepeated(byTs) && forall q :: q in byTs ==> q.key < rec.key
      modifies this`byTs
      ensures Ordered(byTs) && Unrepeated(byTs)
      ensures repeated == old(IsStored(rec.room, rec.msgId))
      ensures Elements(byTs) == Elements(old(byTs)) + if repeated then {} else {rec}
    {
      repeated := Find(rec.room, rec.msgId);
      if !repeated {
        Insert(rec);
        assert forall r :: r in byTs ==> r in Elements(byTs);
        assert forall r :: r in old(byTs) ==> r in Elements(old(byTs));
      }
    }

    /** The three purges that follow every call. */
    method Purge(room: string, now: int)
      requires Ordered(byTs) && Unrepeated(byTs)
      modifies this`byTs
      ensures Ordered(byTs) && Unrepeated(byTs)
      ensures Elements(byTs) == InsertStep(Elements(old(byTs)), room, LimitAt(now), perRoomCap, totalCap)
    {
      if ttlMs != 0 { PurgeExpired(now - ttlMs); } else { NoExpiry(Elements(byTs)); }
      PurgeRoom(room);
      PurgeTotal();
      UnrepeatedSubset(old(byTs), byTs);
    }

    /** Stores a public message under both caps and, if asked, an age limit. The
        clock must not have gone back since the last purge. */
    method AppendPublicMessageCapped(room: string, msgId: string, origin: string, text: string, ts: int, now: int)
      requires Valid() && NotEarlier(limit, LimitAt(now))
      modifies this`byTs, this`nextKey, this`history, this`limit
      ensures Valid() && limit == LimitAt(now)
      ensures history == old(history) +
        if old(IsStored(room, msgId)) then {} else {Rec(old(nextKey), room, msgId, origin, text, ts)}
      ensures Elements(byTs) == Batch(history, LimitAt(now), perRoomCap, totalCap)
    {
      var rec := Rec(nextKey, room, msgId, origin, text, ts);
      BatchFromHistory(byTs, history, limit, perRoomCap, totalCap);
      var repeated := StoreUnlessRepeated(rec);
      ghost var added := if repeated then {} else {rec};
      CallMatchesBatch(history, added, rec, limit, LimitAt(now), perRoomCap, totalCap);
      if !repeated { nextKey := nextKey + 1; }
      history := history + added;
      Purge(room, now);
      limit := LimitAt(now);
    }

    /** The newest `most` messages of a room, oldest first. */
    method GetRecentPublicMessages(room: string, most: nat) returns (out: seq<Rec>)
      requires Valid()
      ensures Ordered(out) && Elements(out) == Top(Room(Elements(byTs), room), most)
      ensures perRoomCap <= most ==> Elements(out) == Room(Batch(history, limit, perRoomCap, totalCap), room)
    {
      out := [];
      var i := |byTs|;
      while i > 0 && |out| < most
        invariant 0 <= i <= |byTs|
        invariant out == OfRoom(byTs[i..], room) && |out| <= most
      {
        i := i - 1;
        assert byTs[i..][1..] == byTs[i + 1..];
        if byTs[i].room == room { out := [byTs[i]] + out; }
      }
      RecentAreTop(byTs, i, room, most);
      if perRoomCap <= most {
        BatchWithinCaps(history, limit, perRoomCap, totalCap, room);
        SmallTop(Room(Elements(byTs), room), most);
      }
    }
  }

  lemma {:induction false} BatchFromHistory(
    s: seq<Rec>, history: set<Rec>, limit: Option<int>, roomCap: nat, totalCap: nat)
    requires Elements(s) == Batch(history, limit, roomCap, totalCap)
    ensures forall r :: r in s ==> r in history
  {
    forall r | r in s ensures r in history { assert r in Elements(s); }
  }

  /** Both kinds of call, with `added` empty for a repeated message. */
  lemma {:induction false} CallMatchesBatch(
    h: set<Rec>, added: set<Rec>, rec: Rec, before: Option<int>, after: Option<int>, roomCap: nat, totalCap: nat)
    requires added == {} || added == {rec}
    requires UniqueKeys(h) && (forall r :: r in h ==> r.key < rec.key) && NotEarlier(before, after)
    ensures InsertStep(Batch(h, before, roomCap, totalCap) + added, rec.room, after, roomCap, totalCap)
         == Batch(h + added, after, roomCap, totalCap)
    ensures UniqueKeys(h + added)
  {
    if added == {} {
      assert h + added == h && Batch(h, before, roomCap, totalCap) + added == Batch(h, before, roomCap, totalCap);
      RepeatMatchesBatch(h, rec.room, before, after, roomCap, totalCap);
    } else {
      InsertMatchesBatch(h, rec, before, after, roomCap, totalCap);
    }
  }

  lemma {:induction false} NoExpiry(s: set<Rec>)
    ensures Unexpired(s, None) == s
  {
  }

  lemma {:induction false} SmallTop(s: set<Rec>, cap: nat)
    requires |s| <= cap
    ensures Top(s, cap) == s
  {
    forall m | m in s ensures |NewerThan(s, m)| < cap {
      assert NewerThan(s, m) <= s - {m};
      SubsetSize(NewerThan(s, m), s - {m});
    }
  }

  lemma {:induction false} TopIsTail(s: seq<Rec>, cap: nat, k: nat)
    requires Ordered(s) && k < |s|
    ensures s[k] in Top(Elements(s), cap) <==> k + cap >= |s|
  {
    AboveIsTail(s, k);
  }

  lemma {:induction false} NewestAreTop(s: seq<Rec>, cap: nat)
    requires Ordered(s)
    ensures Elements(if |s| <= cap then s else s[|s| - cap..]) == Top(Elements(s), cap)
  {
    var cut := if |s| <= cap then 0 else |s| - cap;
    var tail := s[cut..];
    forall r | r in tail ensures r in Top(Elements(s), cap) {
      var j :| 0 <= j < |tail| && tail[j] == r;
      TopIsTail(s, cap, cut + j);
    }
    forall r | r in Top(Elements(s), cap) ensures r in tail {
      var k :| 0 <= k < |s| && s[k] == r;
      TopIsTail(s, cap, k);
      assert tail[k - cut] == r;
    }
  }

  ghost function OfRoom(s: seq<Rec>, room: string): seq<Rec> {
    if s == [] then [] else (if s[0].room == room then [s[0]] else []) + OfRoom(s[1..], room)
  }

  lemma {:induction false} OfRoomIs(s: seq<Rec>, room: string)
    requires Ordered(s)
    ensures Ordered(OfRoom(s, room)) && Elements(OfRoom(s, room)) == Room(Elements(s), room)
  {
    if s != [] {
      OfRoomIs(s[1..], room);
      assert s == [s[0]] + s[1..];
      forall r | r in OfRoom(s[1..], room) ensures Newer(r, s[0]) {
        assert r in Elements(OfRoom(s[1..], room));
        assert r in s[1..];
      }
      var first := if s[0].room == room then [s[0]] else [];
      assert Elements(OfRoom(s, room)) == Elements(first) + Elements(OfRoom(s[1..], room));
      assert Elements(s) == {s[0]} + Elements(s[1..]);
    }
  }

  lemma {:induction false} OfRoomSplit(s: seq<Rec>, i: nat, room: string)
    requires i <= |s|
    ensures OfRoom(s, room) == OfRoom(s[..i], room) + OfRoom(s[i..], room)
  {
    if i == 0 {
      assert s[0..] == s;
    } else {
      OfRoomSplit(s[1..], i - 1, room);
      assert s[1..][..i - 1] == s[..i][1..] && s[1..][i - 1..] == s[i..];
    }
  }

  lemma {:induction false} RecentAreTop(s: seq<Rec>, i: nat, room: string, most: nat)
    requires Ordered(s) && i <= |s|
    requires var out := OfRoom(s[i..], room); |out| <= most && (i > 0 ==> |out| == most)
    ensures Ordered(OfRoom(s[i..], room))
    ensures Elements(OfRoom(s[i..], room)) == Top(Room(Elements(s), room), most)
  {
    var all, out := OfRoom(s, room), OfRoom(s[i..], room);
    OfRoomIs(s, room);
    OfRoomIs(s[i..], room);
    OfRoomSplit(s, i, room);
    if i == 0 { assert s[0..] == s; }
    assert out == all[|all| - |out|..];
    NewestAreTop(all, most);
  }
}
