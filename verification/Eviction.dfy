/** Which public messages a capped cache keeps, as a function of the whole
    history; and why evicting after each insert comes to the same. */
module Eviction {
  import opened Prelude

  /** `key` is the auto-increment primary key: the insertion number. */
  datatype Rec = Rec(key: nat, room: string, msgId: string, origin: string, text: string, ts: int)

  /** Cursor order of the timestamp indexes: by timestamp, ties by primary key. */
  predicate Newer(a: Rec, b: Rec) {
    a.ts > b.ts || (a.ts == b.ts && a.key > b.key)
  }

  ghost predicate UniqueKeys(s: set<Rec>) {
    forall a, b :: a in s && b in s && a.key == b.key ==> a == b
  }

  ghost function NewerThan(s: set<Rec>, m: Rec): set<Rec> {
    set r | r in s && Newer(r, m)
  }

  ghost function Room(s: set<Rec>, room: string): set<Rec> {
    set r | r in s && r.room == room
  }

  /** The newest `cap` of a set. */
  ghost function Top(s: set<Rec>, cap: nat): set<Rec> {
    set m | m in s && |NewerThan(s, m)| < cap
  }

  /** The newest `cap` of each room. */
  ghost function PerRoom(s: set<Rec>, cap: nat): set<Rec> {
    set m | m in s && |NewerThan(Room(s, m.room), m)| < cap
  }

  /** The newest `cap` of one room; the other rooms untouched. */
  ghost function OneRoom(s: set<Rec>, room: string, cap: nat): set<Rec> {
    set m | m in s && (m.room == room ==> |NewerThan(Room(s, m.room), m)| < cap)
  }

  /** None: no expiry was asked for. */
  ghost function Unexpired(s: set<Rec>, limit: Option<int>): set<Rec> {
    set m | m in s && (limit.Some? ==> m.ts >= limit.value)
  }

  /** The reference: expire, cap each room, cap the whole, once over everything. */
  ghost function Batch(history: set<Rec>, limit: Option<int>, roomCap: nat, totalCap: nat): set<Rec> {
    Top(PerRoom(Unexpired(history, limit), roomCap), totalCap)
  }

  /** What one insert does to the stored set: expire, cap the insert's own room
      only, cap the whole. */
  ghost function InsertStep(stored: set<Rec>, room: string, limit: Option<int>, roomCap: nat, totalCap: nat): set<Rec> {
    Top(OneRoom(Unexpired(stored, limit), room, roomCap), totalCap)
  }

  ghost predicate NotEarlier(a: Option<int>, b: Option<int>) {
    (a.Some? ==> b.Some? && a.value <= b.value)
  }

  // ----- Newest-first ranks -----

  lemma {:induction false} Oldest(s: set<Rec>) returns (o: Rec)
    requires s != {} && UniqueKeys(s)
    ensures o in s && forall r :: r in s && r != o ==> Newer(r, o)
  {
    var x :| x in s;
    if s == {x} {
      o := x;
    } else {
      var rest := s - {x};
      assert s == rest + {x};
      var p := Oldest(rest);
      assert x.key != p.key;
      o := if Newer(x, p) then p else x;
      forall r | r in s && r != o ensures Newer(r, o) {
        if r != x { assert r in rest; }
      }
    }
  }

  lemma {:induction false} TopWithOldest(rest: set<Rec>, o: Rec, cap: nat)
    requires o !in rest && forall r :: r in rest ==> Newer(r, o)
    ensures Top(rest + {o}, cap) == Top(rest, cap) + if |rest| < cap then {o} else {}
  {
    var s := rest + {o};
    assert NewerThan(s, o) == rest;
    forall m | m in rest ensures NewerThan(s, m) == NewerThan(rest, m) { }
  }

  lemma {:induction false} TopSize(s: set<Rec>, cap: nat)
    requires UniqueKeys(s)
    ensures |Top(s, cap)| == if |s| <= cap then |s| else cap
  {
    if s == {} {
      assert Top(s, cap) == {};
    } else {
      var o := Oldest(s);
      TopWithOldest(s - {o}, o, cap);
      assert (s - {o}) + {o} == s;
      TopSize(s - {o}, cap);
      assert o !in Top(s - {o}, cap);
    }
  }

  /** If at least `cap` members of s are newer than y, then at least `cap`
      members of the top are. */
  lemma {:induction false} TopAbove(s: set<Rec>, cap: nat, y: Rec)
    requires UniqueKeys(s)
    ensures |NewerThan(s, y)| < cap ==> NewerThan(Top(s, cap), y) == NewerThan(s, y)
    ensures |NewerThan(s, y)| >= cap ==> |NewerThan(Top(s, cap), y)| >= cap
  {
    var above := NewerThan(s, y);
    forall r | r in above ensures NewerThan(s, r) == NewerThan(above, r) { }
    TopSize(above, cap);
    assert Top(above, cap) == NewerThan(Top(s, cap), y);
    if |above| < cap {
      forall r | r in above ensures r in Top(s, cap) {
        SubsetSize(NewerThan(s, r), above);
      }
    }
  }

  // ----- Expiry commutes with the caps -----

  lemma {:induction false} ExpiryTop(s: set<Rec>, cap: nat, limit: Option<int>)
    ensures Top(Unexpired(s, limit), cap) == Unexpired(Top(s, cap), limit)
  {
    forall m | m in Unexpired(s, limit)
      ensures NewerThan(Unexpired(s, limit), m) == NewerThan(s, m)
    { }
  }

  lemma {:induction false} ExpiryPerRoom(s: set<Rec>, cap: nat, limit: Option<int>)
    ensures PerRoom(Unexpired(s, limit), cap) == Unexpired(PerRoom(s, cap), limit)
  {
    forall m | m in Unexpired(s, limit)
      ensures NewerThan(Room(Unexpired(s, limit), m.room), m) == NewerThan(Room(s, m.room), m)
    { }
  }

  lemma {:induction false} ExpiryOneRoom(s: set<Rec>, room: string, cap: nat, limit: Option<int>)
    ensures OneRoom(Unexpired(s, limit), room, cap) == Unexpired(OneRoom(s, room, cap), limit)
  {
    forall m | m in Unexpired(s, limit)
      ensures NewerThan(Room(Unexpired(s, limit), m.room), m) == NewerThan(Room(s, m.room), m)
    { }
  }

  // ----- One insert, without expiry -----

  lemma {:induction false} RoomKeys(s: set<Rec>, room: string)
    requires UniqueKeys(s)
    ensures UniqueKeys(Room(s, room))
  {
  }

  lemma {:induction false} PerRoomIsTop(s: set<Rec>, cap: nat, room: string)
    ensures Room(PerRoom(s, cap), room) == Top(Room(s, room), cap)
  {
  }

  /** Capping a room after each insert equals capping it once. */
  lemma {:induction false} PerRoomStep(h: set<Rec>, y: Rec, cap: nat)
    requires UniqueKeys(h + {y}) && y !in h
    ensures PerRoom(h + {y}, cap) == OneRoom(PerRoom(h, cap) + {y}, y.room, cap)
  {
    var c := PerRoom(h, cap);
    RoomKeys(h, y.room);
    PerRoomIsTop(h, cap, y.room);
    forall m | m in h + {y}
      ensures m in PerRoom(h + {y}, cap) <==> m in OneRoom(c + {y}, y.room, cap)
    {
      PerRoomMember(h, y, cap, m);
    }
  }

  lemma {:induction false} PerRoomMember(h: set<Rec>, y: Rec, cap: nat, m: Rec)
    requires UniqueKeys(h + {y}) && y !in h && m in h + {y}
    ensures m in PerRoom(h + {y}, cap) <==> m in OneRoom(PerRoom(h, cap) + {y}, y.room, cap)
  {
    RoomKeys(h, m.room);
    PerRoomIsTop(h, cap, m.room);
    TopAbove(Room(h, m.room), cap, m);
    RoomRankWith(h, y, m);
    RoomRankWith(PerRoom(h, cap), y, m);
  }

  /** The member an insert pushes out of its room, if any, is older than the
      inserted one; so the insert does not lower anyone's global rank. */
  lemma {:induction false} RankKept(c: set<Rec>, y: Rec, cap: nat, m: Rec)
    requires UniqueKeys(c + {y}) && y !in c
    requires forall r :: r in c && r.room == y.room ==> |NewerThan(Room(c, r.room), r)| < cap
    ensures |NewerThan(OneRoom(c + {y}, y.room, cap), m)| >= |NewerThan(c, m)|
  {
    var a := OneRoom(c + {y}, y.room, cap);
    if gone :| gone in NewerThan(c, m) && gone !in a {
      PushedOut(c, y, cap, gone);
      forall r | r in NewerThan(c, m) && r != gone ensures r in a {
        if r !in a { OnlyOnePushedOut(c, y, cap, gone, r); }
      }
      assert NewerThan(c, m) - {gone} + {y} <= NewerThan(a, m);
      SubsetSize(NewerThan(c, m) - {gone} + {y}, NewerThan(a, m));
    } else {
      SubsetSize(NewerThan(c, m), NewerThan(a, m));
    }
  }

  lemma {:induction false} RoomRankWith(c: set<Rec>, y: Rec, r: Rec)
    requires y !in c
    ensures |NewerThan(Room(c + {y}, r.room), r)|
         == |NewerThan(Room(c, r.room), r)| + if y.room == r.room && Newer(y, r) then 1 else 0
  {
    var plus := if y.room == r.room && Newer(y, r) then {y} else {};
    assert NewerThan(Room(c + {y}, r.room), r) == NewerThan(Room(c, r.room), r) + plus;
  }

  lemma {:induction false} PushedOut(c: set<Rec>, y: Rec, cap: nat, gone: Rec)
    requires UniqueKeys(c + {y}) && y !in c
    requires forall r :: r in c && r.room == y.room ==> |NewerThan(Room(c, r.room), r)| < cap
    requires gone in c && gone !in OneRoom(c + {y}, y.room, cap)
    ensures gone.room == y.room && Newer(y, gone) && |NewerThan(Room(c, y.room), gone)| == cap - 1
    ensures y in OneRoom(c + {y}, y.room, cap)
  {
    RoomRankWith(c, y, gone);
    RoomRankWith(c, y, y);
    SubsetSize(NewerThan(Room(c, y.room), y), NewerThan(Room(c, y.room), gone));
  }

  lemma {:induction false} OnlyOnePushedOut(c: set<Rec>, y: Rec, cap: nat, g: Rec, r: Rec)
    requires UniqueKeys(c + {y}) && y !in c
    requires forall r :: r in c && r.room == y.room ==> |NewerThan(Room(c, r.room), r)| < cap
    requires g in c && r in c && g !in OneRoom(c + {y}, y.room, cap) && r !in OneRoom(c + {y}, y.room, cap)
    ensures g == r
  {
    PushedOut(c, y, cap, g);
    PushedOut(c, y, cap, r);
    if Newer(g, r) {
      StrictRank(Room(c, y.room), g, r);
    } else if Newer(r, g) {
      StrictRank(Room(c, y.room), r, g);
    }
  }

  lemma {:induction false} StrictRank(s: set<Rec>, newer: Rec, older: Rec)
    requires newer in s && Newer(newer, older)
    ensures |NewerThan(s, newer)| < |NewerThan(s, older)|
  {
    assert newer !in NewerThan(s, newer);
    SubsetSize(NewerThan(s, newer) + {newer}, NewerThan(s, older));
  }

  /** Capping the whole before the insert loses nothing that would survive it. */
  lemma {:induction false} GlobalStep(c: set<Rec>, y: Rec, roomCap: nat, totalCap: nat)
    requires UniqueKeys(c + {y}) && y !in c
    requires forall r :: r in c && r.room == y.room ==> |NewerThan(Room(c, r.room), r)| < roomCap
    ensures Top(OneRoom(Top(c, totalCap) + {y}, y.room, roomCap), totalCap)
         == Top(OneRoom(c + {y}, y.room, roomCap), totalCap)
  {
    forall m | m in c + {y}
      ensures m in Top(OneRoom(Top(c, totalCap) + {y}, y.room, roomCap), totalCap)
         <==> m in Top(OneRoom(c + {y}, y.room, roomCap), totalCap)
    {
      GlobalMember(c, y, roomCap, totalCap, m);
    }
  }

  lemma {:induction false} GlobalMember(c: set<Rec>, y: Rec, roomCap: nat, totalCap: nat, m: Rec)
    requires UniqueKeys(c + {y}) && y !in c && m in c + {y}
    requires forall r :: r in c && r.room == y.room ==> |NewerThan(Room(c, r.room), r)| < roomCap
    ensures m in Top(OneRoom(Top(c, totalCap) + {y}, y.room, roomCap), totalCap)
       <==> m in Top(OneRoom(c + {y}, y.room, roomCap), totalCap)
  {
    var k := Top(c, totalCap);
    if m in c && m !in k {
      RankKept(c, y, roomCap, m);
    } else if m in k {
      SameAbove(c, k, y, roomCap, totalCap, m);
    } else if |NewerThan(c, y)| < totalCap {
      SameAbove(c, k, y, roomCap, totalCap, y);
    } else {
      TopAbove(c, totalCap, y);
      InsertedRank(c, y, roomCap);
      TopRanks(c, totalCap, y.room, roomCap);
      InsertedRank(k, y, roomCap);
    }
  }

  lemma {:induction false} TopRanks(c: set<Rec>, totalCap: nat, room: string, roomCap: nat)
    requires forall r :: r in c && r.room == room ==> |NewerThan(Room(c, r.room), r)| < roomCap
    ensures forall r :: r in Top(c, totalCap) && r.room == room ==>
      |NewerThan(Room(Top(c, totalCap), r.room), r)| < roomCap
  {
    var k := Top(c, totalCap);
    forall r | r in k && r.room == room ensures |NewerThan(Room(k, r.room), r)| < roomCap {
      SubsetSize(NewerThan(Room(k, r.room), r), NewerThan(Room(c, r.room), r));
    }
  }

  /** Nothing newer than the inserted record is pushed out by it. */
  lemma {:induction false} InsertedRank(c: set<Rec>, y: Rec, cap: nat)
    requires UniqueKeys(c + {y}) && y !in c
    requires forall r :: r in c && r.room == y.room ==> |NewerThan(Room(c, r.room), r)| < cap
    ensures NewerThan(OneRoom(c + {y}, y.room, cap), y) == NewerThan(c, y)
  {
    forall r | r in NewerThan(c, y) ensures r in OneRoom(c + {y}, y.room, cap) {
      RoomRankWith(c, y, r);
    }
  }

  /** When everything above m survived the cap, m fares the same either way. */
  lemma {:induction false} SameAbove(c: set<Rec>, k: set<Rec>, y: Rec, roomCap: nat, totalCap: nat, m: Rec)
    requires UniqueKeys(c + {y}) && y !in c && k == Top(c, totalCap) && (m in k || m == y)
    requires |NewerThan(c, m)| < totalCap
    ensures m in Top(OneRoom(k + {y}, y.room, roomCap), totalCap)
       <==> m in Top(OneRoom(c + {y}, y.room, roomCap), totalCap)
  {
    var a, b := OneRoom(k + {y}, y.room, roomCap), OneRoom(c + {y}, y.room, roomCap);
    forall r | r in c && (r == m || Newer(r, m)) ensures r in k {
      if r != m { SubsetSize(NewerThan(c, r), NewerThan(c, m)); }
    }
    forall r | r in k + {y} && (r == m || Newer(r, m))
      ensures r in a <==> r in b
    {
      assert NewerThan(Room(k + {y}, r.room), r) == NewerThan(Room(c + {y}, r.room), r);
    }
    assert NewerThan(a, m) == NewerThan(b, m);
  }

  // ----- Whole histories -----

  /** One insert without expiry. */
  lemma {:induction false} InsertWithoutExpiry(h: set<Rec>, y: Rec, roomCap: nat, totalCap: nat)
    requires UniqueKeys(h + {y}) && y !in h
    ensures Top(OneRoom(Top(PerRoom(h, roomCap), totalCap) + {y}, y.room, roomCap), totalCap)
         == Top(PerRoom(h + {y}, roomCap), totalCap)
  {
    var c := PerRoom(h, roomCap);
    PerRoomStep(h, y, roomCap);
    forall r | r in c && r.room == y.room ensures |NewerThan(Room(c, r.room), r)| < roomCap {
      SubsetSize(NewerThan(Room(c, r.room), r), NewerThan(Room(h, r.room), r));
    }
    GlobalStep(c, y, roomCap, totalCap);
  }

  lemma {:induction false} BatchIsExpiredTop(h: set<Rec>, limit: Option<int>, roomCap: nat, totalCap: nat)
    ensures Batch(h, limit, roomCap, totalCap) == Unexpired(Top(PerRoom(h, roomCap), totalCap), limit)
  {
    ExpiryPerRoom(h, roomCap, limit);
    ExpiryTop(PerRoom(h, roomCap), totalCap, limit);
  }

  lemma {:induction false} StepIsExpiredTop(s: set<Rec>, room: string, limit: Option<int>, roomCap: nat, totalCap: nat)
    ensures InsertStep(s, room, limit, roomCap, totalCap) == Unexpired(Top(OneRoom(s, room, roomCap), totalCap), limit)
  {
    ExpiryOneRoom(s, room, roomCap, limit);
    ExpiryTop(OneRoom(s, room, roomCap), totalCap, limit);
  }

  /** Incremental eviction equals batch eviction: an insert into what was kept
      keeps what the reference keeps of the longer history, although it purges
      its own room only. */
  lemma {:induction false} InsertMatchesBatch(
    h: set<Rec>, y: Rec, before: Option<int>, after: Option<int>, roomCap: nat, totalCap: nat)
    requires UniqueKeys(h + {y}) && y !in h && NotEarlier(before, after)
    ensures InsertStep(Batch(h, before, roomCap, totalCap) + {y}, y.room, after, roomCap, totalCap)
         == Batch(h + {y}, after, roomCap, totalCap)
  {
    var kept := Top(PerRoom(h, roomCap), totalCap);
    BatchIsExpiredTop(h, before, roomCap, totalCap);
    BatchIsExpiredTop(h + {y}, after, roomCap, totalCap);
    assert Unexpired(Unexpired(kept, before) + {y}, after) == Unexpired(kept + {y}, after);
    StepIsExpiredTop(kept + {y}, y.room, after, roomCap, totalCap);
    InsertWithoutExpiry(h, y, roomCap, totalCap);
  }

  /** A repeated message is not inserted, but the purges still run. */
  lemma {:induction false} RepeatMatchesBatch(
    h: set<Rec>, room: string, before: Option<int>, after: Option<int>, roomCap: nat, totalCap: nat)
    requires UniqueKeys(h) && NotEarlier(before, after)
    ensures InsertStep(Batch(h, before, roomCap, totalCap), room, after, roomCap, totalCap)
         == Batch(h, after, roomCap, totalCap)
  {
    var c := PerRoom(h, roomCap);
    var kept := Top(c, totalCap);
    BatchIsExpiredTop(h, before, roomCap, totalCap);
    BatchIsExpiredTop(h, after, roomCap, totalCap);
    assert Unexpired(Unexpired(kept, before), after) == Unexpired(kept, after);
    StepIsExpiredTop(kept, room, after, roomCap, totalCap);
    forall m | m in kept
      ensures |NewerThan(Room(kept, m.room), m)| < roomCap && |NewerThan(kept, m)| < totalCap
    {
      SubsetSize(NewerThan(Room(kept, m.room), m), NewerThan(Room(h, m.room), m));
      SubsetSize(NewerThan(kept, m), NewerThan(c, m));
    }
    assert OneRoom(kept, room, roomCap) == kept;
    assert Top(kept, totalCap) == kept;
  }

  /** Both caps hold of what is kept. */
  lemma {:induction false} BatchWithinCaps(h: set<Rec>, limit: Option<int>, roomCap: nat, totalCap: nat, room: string)
    requires UniqueKeys(h)
    ensures |Batch(h, limit, roomCap, totalCap)| <= totalCap
    ensures |Room(Batch(h, limit, roomCap, totalCap), room)| <= roomCap
  {
    var u := Unexpired(h, limit);
    TopSize(PerRoom(u, roomCap), totalCap);
    PerRoomIsTop(u, roomCap, room);
    RoomKeys(u, room);
    TopSize(Room(u, room), roomCap);
    SubsetSize(Room(Batch(h, limit, roomCap, totalCap), room), Room(PerRoom(u, roomCap), room));
  }
}
