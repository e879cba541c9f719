/** Public room identifiers: how the server names a client's room, and when a
    peer in one room displays a message of another. */
module Rooms {
  import opened Prelude

  // ----- Text helpers of the platform -----

  /** `String.prototype.split` on one character. */
  function Split(s: string, sep: char): (parts: seq<string>)
    ensures |parts| >= 1
  {
    if s == "" then [""]
    else
      var rest := Split(s[1..], sep);
      if s[0] == sep then [""] + rest else [[s[0]] + rest[0]] + rest[1..]
  }

  predicate IsDigit(c: char) { '0' <= c <= '9' }

  function LeadingDigits(s: string): string {
    if s == "" || !IsDigit(s[0]) then "" else [s[0]] + LeadingDigits(s[1..])
  }

  function DigitsValue(s: string): int {
    if s == "" then 0
    else 10 * DigitsValue(s[..|s| - 1]) + (s[|s| - 1] as int - '0' as int)
  }

  /** `parseInt(s, 10)`; None stands for NaN. */
  function ParseInt(s: string): Option<int> {
    var negative := s != "" && s[0] == '-';
    var body := if s != "" && (s[0] == '-' || s[0] == '+') then s[1..] else s;
    var digits := LeadingDigits(body);
    if digits == "" then None
    else Some(if negative then -DigitsValue(digits) else DigitsValue(digits))
  }

  lemma {:induction false} LeadingDigitsOf(digits: string, rest: string)
    requires (forall c :: c in digits ==> IsDigit(c)) && (rest == "" || !IsDigit(rest[0]))
    ensures LeadingDigits(digits + rest) == digits
  {
    if digits == "" {
      assert digits + rest == rest;
    } else {
      LeadingDigitsOf(digits[1..], rest);
      assert (digits + rest)[1..] == digits[1..] + rest;
    }
  }

  /** Digits are read up to the first other character, with an optional sign; text
      without digits in front is no number. */
  lemma {:induction false} ParseIntMeaning(digits: string, rest: string)
    requires (forall c :: c in digits ==> IsDigit(c)) && (rest == "" || !IsDigit(rest[0]))
    ensures digits != "" ==>
      && ParseInt(digits + rest) == ParseInt("+" + (digits + rest)) == Some(DigitsValue(digits))
      && ParseInt("-" + (digits + rest)) == Some(-DigitsValue(digits))
    ensures digits == "" ==> ParseInt("+" + rest) == ParseInt("-" + rest) == None
  {
    var s := digits + rest;
    LeadingDigitsOf(digits, rest);
    if digits == "" { assert s == rest; }
    assert ("+" + s)[1..] == s && ("-" + s)[1..] == s;
    if digits != "" { assert s[0] == digits[0] && IsDigit(s[0]); }
  }

  /** `substring(1)`. */
  function DropFirst(s: string): string { if s == "" then "" else s[1..] }

  // ----- Receiving side -----

  const KM_PREFIX := "group:km:"

  /** Whether a peer whose room is `my` displays a message sent to room `msg`. */
  predicate Displays(my: Option<string>, msg: string) {
    if my == Some(msg) then true
    else if my.Some? && my.value != "" && msg != "" && KM_PREFIX <= my.value && KM_PREFIX <= msg then
      var myParts, msgParts := Split(my.value, ':'), Split(msg, ':');
      |myParts| == 4 && |msgParts| == 4 &&
      var myPrecision, msgPrecision := ParseInt(DropFirst(myParts[2])), ParseInt(DropFirst(msgParts[2]));
      myPrecision.Some? && msgPrecision.Some? && myPrecision.value < msgPrecision.value && myParts[3] <= msgParts[3]
    else false
  }

  // ----- Server side -----

  datatype Radius = World | Country | City | Km(km: real)
  datatype Client<Location> = Client(
    radius: Radius, countryCode: Option<string>, cityName: Option<string>, location: Option<Location>)

  function Precision(km: real): nat {
    if km <= 1.0 then 7
    else if km <= 3.0 then 6
    else if km <= 25.0 then 5
    else if km <= 100.0 then 4
    else 3
  }

  function KmRoom(precision: nat, hash: string): string
    requires precision < 10
  {
    KM_PREFIX + "p" + [(precision + '0' as int) as char] + ":" + hash
  }

  /** Absent and empty codes are both falsy. */
  predicate Given(s: Option<string>) { s.Some? && s.value != "" }

  function RoomOf<Location>(c: Client<Location>, geohash: (Location, nat) -> string): string {
    if c.radius.World? then "group:public:world"
    else if c.radius.Country? && Given(c.countryCode) then "group:country:" + c.countryCode.value
    else if c.radius.City? && Given(c.countryCode) && Given(c.cityName) then
      "group:city:" + c.countryCode.value + ":" + c.cityName.value
    else if c.radius.Km? && c.location.Some? then
      var precision := Precision(c.radius.km);
      KmRoom(precision, geohash(c.location.value, precision))
    else "group:public:default"
  }

  /** What is assumed of the geohash library: a code has the requested length,
      no colon, and a shorter code of the same place is a prefix of a longer. */
  ghost predicate Geohash<Location(!new)>(geohash: (Location, nat) -> string) {
    && (forall l, p :: |geohash(l, p)| == p && ':' !in geohash(l, p))
    && (forall l, p, q :: p <= q ==> geohash(l, p) <= geohash(l, q))
  }

  /** The identifiers a server can produce. */
  ghost predicate ServerRoom(room: string) {
    KM_PREFIX <= room ==>
      exists precision: nat, hash: string ::
        precision < 10 && |hash| == precision && ':' !in hash && room == KmRoom(precision, hash)
  }

  lemma {:induction false} RoomOfIsServerRoom<Location(!new)>(c: Client<Location>, geohash: (Location, nat) -> string)
    requires Geohash(geohash)
    ensures ServerRoom(RoomOf(c, geohash))
  {
    var room := RoomOf(c, geohash);
    var numeric := c.radius.Km? && c.location.Some?;
    assert !numeric ==> room[6] == 'p' || room[6] == 'c';
    if KM_PREFIX <= room {
      assert room[6] == KM_PREFIX[6];
      assert numeric;
      var precision := Precision(c.radius.km);
      assert room == KmRoom(precision, geohash(c.location.value, precision));
    }
  }

  // ----- Parsing a room built by the server -----

  lemma {:induction false} SplitAtFirst(a: string, b: string, sep: char)
    requires sep !in a
    ensures Split(a + [sep] + b, sep) == [a] + Split(b, sep)
  {
    var s := a + [sep] + b;
    if a == "" {
      assert s[1..] == b;
    } else {
      SplitAtFirst(a[1..], b, sep);
      assert s[1..] == a[1..] + [sep] + b;
      assert [a[0]] + a[1..] == a;
    }
  }

  lemma {:induction false} SplitWhole(a: string, sep: char)
    requires sep !in a
    ensures Split(a, sep) == [a]
  {
    if a != "" {
      SplitWhole(a[1..], sep);
      assert [a[0]] + a[1..] == a;
    }
  }

  lemma {:induction false} ParseDigit(d: nat)
    requires d < 10
    ensures ParseInt([(d + '0' as int) as char]) == Some(d)
  {
    var s := [(d + '0' as int) as char];
    assert LeadingDigits(s[1..]) == "";
    assert LeadingDigits(s) == s;
    assert DigitsValue(s[..0]) == 0;
  }

  lemma {:induction false} KmRoomParts(precision: nat, hash: string)
    requires precision < 10 && ':' !in hash
    ensures var parts := Split(KmRoom(precision, hash), ':');
      |parts| == 4 && parts[3] == hash && ParseInt(DropFirst(parts[2])) == Some(precision)
    ensures KM_PREFIX <= KmRoom(precision, hash)
  {
    var d := [(precision + '0' as int) as char];
    var tail := "p" + d + ":" + hash;
    assert KmRoom(precision, hash) == "group" + [':'] + ("km" + [':'] + tail);
    SplitAtFirst("group", "km" + [':'] + tail, ':');
    SplitAtFirst("km", tail, ':');
    assert tail == ("p" + d) + [':'] + hash;
    SplitAtFirst("p" + d, hash, ':');
    SplitWhole(hash, ':');
    assert DropFirst("p" + d) == d;
    ParseDigit(precision);
  }

  /** Between two server rooms the display rule is: the same room, or a coarser
      geohash cell that contains the finer one. */
  lemma {:induction false} DisplaysMeaning(p: nat, g: string, q: nat, h: string)
    requires p < 10 && q < 10 && |g| == p && |h| == q && ':' !in g && ':' !in h
    ensures Displays(Some(KmRoom(p, g)), KmRoom(q, h)) <==> g <= h
  {
    KmRoomParts(p, g);
    KmRoomParts(q, h);
    if p == q && g <= h { assert g == h; }
  }

  lemma {:induction false} KmForm(room: string) returns (precision: nat, hash: string)
    requires ServerRoom(room) && KM_PREFIX <= room
    ensures precision < 10 && |hash| == precision && ':' !in hash && room == KmRoom(precision, hash)
  {
    precision, hash :| precision < 10 && |hash| == precision && ':' !in hash && room == KmRoom(precision, hash);
  }

  /** Display is a partial order on server rooms. */
  lemma {:induction false} DisplayOrder(a: string, b: string, c: string)
    requires ServerRoom(a) && ServerRoom(b) && ServerRoom(c)
    ensures Displays(Some(a), a)
    ensures Displays(Some(a), b) && Displays(Some(b), a) ==> a == b
    ensures Displays(Some(a), b) && Displays(Some(b), c) ==> Displays(Some(a), c)
  {
    if a != b && Displays(Some(a), b) {
      var p, g := KmForm(a);
      var q, h := KmForm(b);
      DisplaysMeaning(p, g, q, h);
      DisplaysMeaning(q, h, p, g);
      if b != c && Displays(Some(b), c) {
        var r, k := KmForm(c);
        DisplaysMeaning(q, h, r, k);
        DisplaysMeaning(p, g, r, k);
      }
    }
  }

  /** The rooms that display a given room form a chain: display is a forest order. */
  lemma {:induction false} DisplayChain(a: string, b: string, c: string)
    requires ServerRoom(a) && ServerRoom(b) && ServerRoom(c)
    requires Displays(Some(a), c) && Displays(Some(b), c)
    ensures Displays(Some(a), b) || Displays(Some(b), a)
  {
    if a != c && b != c {
      var p, g := KmForm(a);
      var q, h := KmForm(b);
      var r, k := KmForm(c);
      DisplaysMeaning(p, g, r, k);
      DisplaysMeaning(q, h, r, k);
      DisplaysMeaning(p, g, q, h);
      DisplaysMeaning(q, h, p, g);
    }
  }

  /** Both are numeric rooms, and the cell of a contains that of b. */
  ghost predicate Contains(a: string, b: string) {
    exists p: nat, g: string, q: nat, h: string ::
      p < 10 && q < 10 && |g| == p && |h| == q && ':' !in g && ':' !in h
      && a == KmRoom(p, g) && b == KmRoom(q, h) && g <= h
  }

  /** The whole display rule for a peer in a server room. */
  lemma {:induction false} DisplaysIff(a: string, b: string)
    requires ServerRoom(a) && ServerRoom(b)
    ensures Displays(Some(a), b) <==> (a == b || Contains(a, b))
    ensures !Displays(None, b)
  {
    if a != b && Displays(Some(a), b) {
      var p, g := KmForm(a);
      var q, h := KmForm(b);
      DisplaysMeaning(p, g, q, h);
    }
    if Contains(a, b) {
      var p: nat, g: string, q: nat, h: string :|
        p < 10 && q < 10 && |g| == p && |h| == q && ':' !in g && ':' !in h
        && a == KmRoom(p, g) && b == KmRoom(q, h) && g <= h;
      DisplaysMeaning(p, g, q, h);
    }
  }

  /** Which length of geohash a numeric radius gets: the largest radius of each. */
  lemma {:induction false} PrecisionLadder(km: real)
    ensures 3 <= Precision(km) <= 7
    ensures Precision(km) >= 7 <==> km <= 1.0
    ensures Precision(km) >= 6 <==> km <= 3.0
    ensures Precision(km) >= 5 <==> km <= 25.0
    ensures Precision(km) >= 4 <==> km <= 100.0
  {
  }

  /** Two clients with numeric radii share a room exactly when their radii belong
      to the same step and their places to the same cell of that size. */
  lemma {:induction false} SameKmRoomIff<Location(!new)>(
    a: Client<Location>, b: Client<Location>, geohash: (Location, nat) -> string)
    requires Geohash(geohash) && a.radius.Km? && b.radius.Km? && a.location.Some? && b.location.Some?
    ensures var p, q := Precision(a.radius.km), Precision(b.radius.km);
      RoomOf(a, geohash) == RoomOf(b, geohash) <==>
        p == q && geohash(a.location.value, p) == geohash(b.location.value, q)
  {
    var p, q := Precision(a.radius.km), Precision(b.radius.km);
    KmRoomParts(p, geohash(a.location.value, p));
    KmRoomParts(q, geohash(b.location.value, q));
  }

  /** Without a code, absent or empty, or without a place, a client is in the
      default room; the world has its own. */
  lemma {:induction false} NoPlaceRooms<Location>(c: Client<Location>, geohash: (Location, nat) -> string)
    ensures c.radius.World? ==> RoomOf(c, geohash) == "group:public:world"
    ensures !c.radius.World? && c.countryCode in {None, Some("")} && c.location.None? ==>
      RoomOf(c, geohash) == "group:public:default"
    ensures c.radius.City? && c.cityName in {None, Some("")} ==> RoomOf(c, geohash) == "group:public:default"
  {
  }

  /** The country and city codes stay readable in a room. */
  lemma {:induction false} PlaceRooms<Location>(c: Client<Location>, geohash: (Location, nat) -> string)
    requires Given(c.countryCode)
    ensures c.radius.Country? ==> RoomOf(c, geohash) == "group:country:" + c.countryCode.value
    ensures c.radius.City? && !Given(c.cityName) ==> RoomOf(c, geohash) == "group:public:default"
    ensures c.radius.City? && Given(c.cityName) && ':' !in c.countryCode.value && ':' !in c.cityName.value ==>
      Split(RoomOf(c, geohash), ':') == ["group", "city", c.countryCode.value, c.cityName.value]
  {
    if c.radius.City? && Given(c.cityName) && ':' !in c.countryCode.value && ':' !in c.cityName.value {
      var code, name := c.countryCode.value, c.cityName.value;
      SplitWhole(name, ':');
      SplitAtFirst(code, name, ':');
      SplitAtFirst("city", code + [':'] + name, ':');
      SplitAtFirst("group", "city" + [':'] + (code + [':'] + name), ':');
      assert RoomOf(c, geohash) == "group" + [':'] + ("city" + [':'] + (code + [':'] + name));
    }
  }

  /** At one place, a client with the larger numeric radius displays what a
      client with the smaller radius sends. */
  lemma {:induction false} LargerRadiusDisplaysSmaller<Location(!new)>(
    wide: Client<Location>, narrow: Client<Location>, geohash: (Location, nat) -> string)
    requires Geohash(geohash)
    requires wide.radius.Km? && narrow.radius.Km? && wide.radius.km >= narrow.radius.km
    requires wide.location.Some? && wide.location == narrow.location
    ensures Displays(Some(RoomOf(wide, geohash)), RoomOf(narrow, geohash))
  {
    var l := wide.location.value;
    var p, q := Precision(wide.radius.km), Precision(narrow.radius.km);
    assert p <= q;
    DisplaysMeaning(p, geohash(l, p), q, geohash(l, q));
  }
}
