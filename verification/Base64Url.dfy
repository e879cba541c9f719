/** base64url without padding, as the client and the server write it, and the
    decoder that restores the padding from the length alone (RFC 4648,
    sections 4 and 5). */
module Base64Url {
  import opened Prelude

  newtype sextet = x: int | 0 <= x < 64

  // ----- Alphabet -----

  function Digit(v: sextet): char {
    if v < 26 then ('A' as int + v as int) as char
    else if v < 52 then ('a' as int + (v as int - 26)) as char
    else if v < 62 then ('0' as int + (v as int - 52)) as char
    else if v == 62 then '+'
    else '/'
  }

  function Value(c: char): Option<sextet> {
    if 'A' <= c <= 'Z' then Some((c as int - 'A' as int) as sextet)
    else if 'a' <= c <= 'z' then Some((c as int - 'a' as int + 26) as sextet)
    else if '0' <= c <= '9' then Some((c as int - '0' as int + 52) as sextet)
    else if c == '+' then Some(62)
    else if c == '/' then Some(63)
    else None
  }

  /** The alphabet of RFC 4648, section 4: A to Z, a to z, 0 to 9, plus, slash. */
  lemma {:induction false} Alphabet(v: sextet)
    ensures Digit(0) == 'A' && Digit(25) == 'Z' && Digit(26) == 'a' && Digit(51) == 'z'
    ensures Digit(52) == '0' && Digit(61) == '9' && Digit(62) == '+' && Digit(63) == '/'
    ensures v < 61 && v != 25 && v != 51 ==> Digit(v + 1) as int == Digit(v) as int + 1
  {
  }

  predicate InAlphabet(s: string) { forall c :: c in s ==> Value(c).Some? }

  // ----- Section 4: the padded encoding -----

  function First(a: byte): sextet { (a as int / 4) as sextet }
  function Second(a: byte, b: byte): sextet { (a as int % 4 * 16 + b as int / 16) as sextet }
  function Third(b: byte, c: byte): sextet { (b as int % 16 * 4 + c as int / 64) as sextet }
  function Fourth(c: byte): sextet { (c as int % 64) as sextet }

  function Quad(a: byte, b: byte, c: byte): string {
    [Digit(First(a)), Digit(Second(a, b)), Digit(Third(b, c)), Digit(Fourth(c))]
  }

  /** Three bytes and their four digits are one and the same 24-bit number. */
  lemma {:induction false} QuadIsBigEndian(a: byte, b: byte, c: byte)
    ensures 262144 * First(a) as int + 4096 * Second(a, b) as int + 64 * Third(b, c) as int + Fourth(c) as int ==
      65536 * a as int + 256 * b as int + c as int
  {
  }

  /** btoa, and Buffer.toString('base64'). */
  function Encode(b: seq<byte>): string
    decreases |b|
  {
    if |b| == 0 then ""
    else if |b| == 1 then [Digit(First(b[0])), Digit(Second(b[0], 0)), '=', '=']
    else if |b| == 2 then [Digit(First(b[0])), Digit(Second(b[0], b[1])), Digit(Third(b[1], 0)), '=']
    else
      Quad(b[0], b[1], b[2]) + Encode(b[3..])
  }

  function ByteOne(v: sextet, w: sextet): byte { ((v as int * 4 + w as int / 16) % 256) as byte }
  function ByteTwo(w: sextet, x: sextet): byte { ((w as int % 16 * 16 + x as int / 4) % 256) as byte }
  function ByteThree(x: sextet, y: sextet): byte { ((x as int % 4 * 64 + y as int) % 256) as byte }

  function DecodeDigits(s: string): seq<byte>
    requires InAlphabet(s)
    decreases |s|
  {
    if |s| < 2 then []
    else
      var v, w := Value(s[0]).value, Value(s[1]).value;
      if |s| == 2 then [ByteOne(v, w)]
      else
        var x := Value(s[2]).value;
        if |s| == 3 then [ByteOne(v, w), ByteTwo(w, x)]
        else [ByteOne(v, w), ByteTwo(w, x), ByteThree(x, Value(s[3]).value)] + DecodeDigits(s[4..])
  }

  function DropPadding(s: string): string {
    if |s| % 4 != 0 || s == "" || s[|s| - 1] != '=' then s
    else if s[|s| - 2] == '=' then s[..|s| - 2]
    else s[..|s| - 1]
  }

  predicate IsSpace(c: char) { c == ' ' || c == '\t' || c == '\n' || c == '\r' || c as int == 12 }

  function DropSpace(s: string): string {
    if s == "" then "" else (if IsSpace(s[0]) then "" else [s[0]]) + DropSpace(s[1..])
  }

  lemma {:induction false} NoSpaceToDrop(s: string)
    requires forall i :: 0 <= i < |s| ==> !IsSpace(s[i])
    ensures DropSpace(s) == s
  {
    if s != "" { NoSpaceToDrop(s[1..]); }
  }

  /** atob, which skips white space; None when it throws. */
  function Atob(s: string): Option<seq<byte>> {
    var t := DropPadding(DropSpace(s));
    if |t| % 4 == 1 || !InAlphabet(t) then None else Some(DecodeDigits(t))
  }

  lemma {:induction false} SpaceDropped(a: string, c: char, b: string)
    requires c in {' ', '\t', '\n', '\r', 12 as char}
    ensures DropSpace(a + [c] + b) == DropSpace(a + b)
  {
    if a == "" {
      assert (a + [c] + b)[1..] == b && a + b == b;
    } else {
      SpaceDropped(a[1..], c, b);
      assert (a + [c] + b)[1..] == a[1..] + [c] + b && (a + b)[1..] == a[1..] + b;
    }
  }

  /** White space anywhere in what atob is given makes no difference. */
  lemma {:induction false} SpaceSkipped(a: string, c: char, b: string)
    requires c in {' ', '\t', '\n', '\r', 12 as char}
    ensures Atob(a + [c] + b) == Atob(a + b)
  {
    SpaceDropped(a, c, b);
  }

  // ----- Section 5: the url-safe alphabet, unpadded -----

  function ToUrl(s: string): string {
    seq(|s|, i requires 0 <= i < |s| => if s[i] == '+' then '-' else if s[i] == '/' then '_' else s[i])
  }

  function FromUrl(s: string): string {
    seq(|s|, i requires 0 <= i < |s| => if s[i] == '-' then '+' else if s[i] == '_' then '/' else s[i])
  }

  /** Section 5 of RFC 4648: minus and underscore for plus and slash, and back. */
  lemma {:induction false} UrlLetters(s: string, i: nat)
    requires i < |s|
    ensures ToUrl(s)[i] == '-' <==> s[i] in {'+', '-'}
    ensures ToUrl(s)[i] == '_' <==> s[i] in {'/', '_'}
    ensures s[i] !in {'+', '/'} ==> ToUrl(s)[i] == s[i]
    ensures FromUrl(s)[i] == '+' <==> s[i] in {'-', '+'}
    ensures FromUrl(s)[i] == '/' <==> s[i] in {'_', '/'}
    ensures s[i] !in {'-', '_'} ==> FromUrl(s)[i] == s[i]
  {
  }

  function StripEquals(s: string): string {
    if s == "" || s[|s| - 1] != '=' then s else StripEquals(s[..|s| - 1])
  }

  function ToBase64Url(b: seq<byte>): string { StripEquals(ToUrl(Encode(b))) }

  function Equals(n: nat): string { seq(n, _ => '=') }

  function RestorePadding(s: string): string { FromUrl(s + Equals((4 - |s| % 4) % 4)) }

  function UrlBase64ToBytes(s: string): Option<seq<byte>> {
    Atob(RestorePadding(s))
  }

  // ----- The encoding without its padding -----

  function Plain(b: seq<byte>): string
    decreases |b|
  {
    if |b| == 0 then ""
    else if |b| == 1 then [Digit(First(b[0])), Digit(Second(b[0], 0))]
    else if |b| == 2 then [Digit(First(b[0])), Digit(Second(b[0], b[1])), Digit(Third(b[1], 0))]
    else
      Quad(b[0], b[1], b[2]) + Plain(b[3..])
  }

  lemma {:induction false} DigitValue(v: sextet)
    ensures Value(Digit(v)) == Some(v)
  {
  }

  /** How many '=' the padded encoding of n bytes ends with. */
  function PadOf(n: nat): nat { if n % 3 == 0 then 0 else if n % 3 == 1 then 2 else 1 }

  lemma {:induction false} QuadDigits(a: byte, b: byte, c: byte)
    ensures InAlphabet(Quad(a, b, c))
  {
    DigitValue(First(a)); DigitValue(Second(a, b)); DigitValue(Third(b, c)); DigitValue(Fourth(c));
  }

  lemma {:induction false} PlainInAlphabet(b: seq<byte>)
    ensures InAlphabet(Plain(b))
    decreases |b|
  {
    if |b| == 1 {
      QuadDigits(b[0], 0, 0);
      assert forall c :: c in Plain(b) ==> c in Quad(b[0], 0, 0);
    } else if |b| == 2 {
      QuadDigits(b[0], b[1], 0);
      assert forall c :: c in Plain(b) ==> c in Quad(b[0], b[1], 0);
    } else if |b| >= 3 {
      QuadDigits(b[0], b[1], b[2]);
      PlainInAlphabet(b[3..]);
    }
  }

  /** How many letters beyond whole groups of four n bytes need. */
  function Odd(n: nat): nat { if n % 3 == 0 then 0 else n % 3 + 1 }

  lemma {:induction false} ThreeFewer(n: nat)
    requires n >= 3
    ensures PadOf(n) == PadOf(n - 3) && Odd(n) == Odd(n - 3)
  {
    assert n % 3 == (n - 3) % 3;
  }

  lemma {:induction false} FourMore(m: nat)
    ensures (m + 4) % 4 == m % 4
  {
  }

  lemma {:induction false} PlainLength(b: seq<byte>)
    ensures |Plain(b)| % 4 == Odd(|b|)
    decreases |b|
  {
    if |b| >= 3 {
      var rest := Plain(b[3..]);
      PlainLength(b[3..]);
      ThreeFewer(|b|);
      assert |Plain(b)| == |rest| + 4;
      FourMore(|rest|);
    }
  }

  lemma {:induction false} EncodeIsPadded(b: seq<byte>)
    ensures Encode(b) == Plain(b) + Equals(PadOf(|b|))
    decreases |b|
  {
    if |b| >= 3 {
      var quad, rest, pad := Quad(b[0], b[1], b[2]), b[3..], Equals(PadOf(|b|));
      EncodeIsPadded(rest);
      ThreeFewer(|b|);
      assert quad + (Plain(rest) + pad) == (quad + Plain(rest)) + pad;
    } else {
      assert Equals(0) == "" && Equals(1) == "=" && Equals(2) == "==";
    }
  }

  /** The high and low part of a number written as q * k + r. */
  lemma {:induction false} Parts(q: nat, r: nat, k: nat)
    requires k in {4, 16, 64} && r < k
    ensures (q * k + r) / k == q && (q * k + r) % k == r
  {
    if k == 4 { } else if k == 16 { } else { }
  }

  lemma {:induction false} RegroupOne(a: byte, b: byte)
    ensures ByteOne(First(a), Second(a, b)) == a
  {
    Parts(a as int % 4, b as int / 16, 16);
  }

  lemma {:induction false} RegroupTwo(a: byte, b: byte, c: byte)
    ensures ByteTwo(Second(a, b), Third(b, c)) == b
  {
    Parts(a as int % 4, b as int / 16, 16);
    Parts(b as int % 16, c as int / 64, 4);
  }

  lemma {:induction false} RegroupThree(b: byte, c: byte)
    ensures ByteThree(Third(b, c), Fourth(c)) == c
  {
    Parts(b as int % 16, c as int / 64, 4);
  }

  lemma {:induction false} Regroup(a: byte, b: byte, c: byte)
    ensures ByteOne(First(a), Second(a, b)) == a
    ensures ByteTwo(Second(a, b), Third(b, c)) == b
    ensures ByteThree(Third(b, c), Fourth(c)) == c
  {
    RegroupOne(a, b);
    RegroupTwo(a, b, c);
    RegroupThree(b, c);
  }

  lemma {:induction false} QuadDecodes(a: byte, b: byte, c: byte, rest: string)
    requires InAlphabet(rest) && InAlphabet(Quad(a, b, c) + rest)
    ensures DecodeDigits(Quad(a, b, c) + rest) == [a, b, c] + DecodeDigits(rest)
  {
    var s := Quad(a, b, c) + rest;
    DigitReads(s, 0, First(a)); DigitReads(s, 1, Second(a, b));
    DigitReads(s, 2, Third(b, c)); DigitReads(s, 3, Fourth(c));
    FourDigits(s, First(a), Second(a, b), Third(b, c), Fourth(c));
    assert s[4..] == rest;
    Regroup(a, b, c);
  }

  ghost predicate Reads(s: string, i: nat, v: sextet) { i < |s| && Value(s[i]) == Some(v) }

  lemma {:induction false} DigitReads(s: string, i: nat, v: sextet)
    requires i < |s| && s[i] == Digit(v)
    ensures Reads(s, i, v)
  {
    DigitValue(v);
  }

  lemma {:induction false} TwoDigits(s: string, v: sextet, w: sextet)
    requires |s| == 2 && Reads(s, 0, v) && Reads(s, 1, w)
    ensures InAlphabet(s) && DecodeDigits(s) == [ByteOne(v, w)]
  {
  }

  lemma {:induction false} ThreeDigits(s: string, v: sextet, w: sextet, x: sextet)
    requires |s| == 3 && Reads(s, 0, v) && Reads(s, 1, w) && Reads(s, 2, x)
    ensures InAlphabet(s) && DecodeDigits(s) == [ByteOne(v, w), ByteTwo(w, x)]
  {
  }

  lemma {:induction false} FourDigits(s: string, v: sextet, w: sextet, x: sextet, y: sextet)
    requires |s| >= 4 && InAlphabet(s) && Reads(s, 0, v) && Reads(s, 1, w) && Reads(s, 2, x) && Reads(s, 3, y)
    ensures InAlphabet(s[4..])
    ensures DecodeDigits(s) == [ByteOne(v, w), ByteTwo(w, x), ByteThree(x, y)] + DecodeDigits(s[4..])
  {
  }

  lemma {:induction false} PairDecodes(a: byte)
    ensures var s := [Digit(First(a)), Digit(Second(a, 0))];
      InAlphabet(s) && DecodeDigits(s) == [a]
  {
    var s := [Digit(First(a)), Digit(Second(a, 0))];
    DigitReads(s, 0, First(a)); DigitReads(s, 1, Second(a, 0));
    TwoDigits(s, First(a), Second(a, 0));
    Regroup(a, 0, 0);
  }

  lemma {:induction false} TripleDecodes(a: byte, b: byte)
    ensures var s := [Digit(First(a)), Digit(Second(a, b)), Digit(Third(b, 0))];
      InAlphabet(s) && DecodeDigits(s) == [a, b]
  {
    var s := [Digit(First(a)), Digit(Second(a, b)), Digit(Third(b, 0))];
    DigitReads(s, 0, First(a)); DigitReads(s, 1, Second(a, b)); DigitReads(s, 2, Third(b, 0));
    ThreeDigits(s, First(a), Second(a, b), Third(b, 0));
    Regroup(a, b, 0);
  }

  lemma {:induction false} QuadStep(b: seq<byte>, rest: string)
    requires |b| >= 3
    requires InAlphabet(rest) && DecodeDigits(rest) == b[3..]
    ensures var s := Quad(b[0], b[1], b[2]) + rest; InAlphabet(s) && DecodeDigits(s) == b
  {
    QuadDigits(b[0], b[1], b[2]);
    QuadDecodes(b[0], b[1], b[2], rest);
    assert b == [b[0], b[1], b[2]] + b[3..];
  }

  lemma {:induction false} DecodePlain(b: seq<byte>)
    ensures InAlphabet(Plain(b)) && DecodeDigits(Plain(b)) == b
    decreases |b|
  {
    if |b| >= 3 {
      DecodePlain(b[3..]);
      QuadStep(b, Plain(b[3..]));
      PlainUnrolled(b);
    } else {
      DecodeShort(b);
    }
  }

  lemma {:induction false} DecodeShort(b: seq<byte>)
    requires |b| < 3
    ensures InAlphabet(Plain(b)) && DecodeDigits(Plain(b)) == b
  {
    if |b| == 1 {
      PairDecodes(b[0]);
    } else if |b| == 2 {
      TripleDecodes(b[0], b[1]);
    }
  }

  lemma {:induction false} PlainUnrolled(b: seq<byte>)
    requires |b| >= 3
    ensures Plain(b) == Quad(b[0], b[1], b[2]) + Plain(b[3..])
  {
  }

  lemma {:induction false} StripPadding(s: string, n: nat)
    requires s == "" || s[|s| - 1] != '='
    ensures StripEquals(s + Equals(n)) == s
  {
    if n == 0 {
      assert s + Equals(0) == s;
    } else {
      assert (s + Equals(n))[..|s| + n - 1] == s + Equals(n - 1);
      StripPadding(s, n - 1);
    }
  }

  lemma {:induction false} PlainChars(b: seq<byte>)
    ensures forall i :: 0 <= i < |Plain(b)| ==> Plain(b)[i] != '=' && Plain(b)[i] != '-' && Plain(b)[i] != '_'
  {
    PlainInAlphabet(b);
    forall i | 0 <= i < |Plain(b)| ensures Value(Plain(b)[i]).Some? { assert Plain(b)[i] in Plain(b); }
  }

  /** The url form is the plain encoding in the safe alphabet: no '+', no '/' and
      no padding. */
  lemma {:induction false} UrlForm(b: seq<byte>)
    ensures ToBase64Url(b) == ToUrl(Plain(b))
    ensures forall c :: c in ToBase64Url(b) ==> c != '+' && c != '/' && c != '='
  {
    EncodeIsPadded(b);
    PlainChars(b);
    var pad := PadOf(|b|);
    assert ToUrl(Plain(b) + Equals(pad)) == ToUrl(Plain(b)) + Equals(pad);
    StripPadding(ToUrl(Plain(b)), pad);
  }

  lemma {:induction false} DropPaddingExact(p: string, pad: nat)
    requires pad <= 2 && (|p| + pad) % 4 == 0 && (pad == 0 ==> p == "" || p[|p| - 1] != '=')
    requires p != "" ==> p[|p| - 1] != '='
    requires p == "" ==> pad == 0
    ensures DropPadding(p + Equals(pad)) == p
  {
    var s := p + Equals(pad);
    if pad == 1 {
      assert s[|s| - 1] == '=' && s[|s| - 2] == p[|p| - 1] && s[..|s| - 1] == p;
    } else if pad == 2 {
      assert s[|s| - 1] == '=' && s[|s| - 2] == '=' && s[..|s| - 2] == p;
    } else {
      assert s == p;
    }
  }

  /** The number of '=' follows from the length of the text alone. */
  lemma {:induction false} PadFromLength(n: nat, m: nat)
    requires m % 4 == Odd(n)
    ensures (m + PadOf(n)) % 4 == 0 && m % 4 != 1
    ensures (4 - m % 4) % 4 == PadOf(n)
  {
  }

  lemma {:induction false} AtobOfPadded(p: string, pad: nat, b: seq<byte>)
    requires InAlphabet(p) && DecodeDigits(p) == b
    requires pad <= 2 && (|p| + pad) % 4 == 0 && |p| % 4 != 1 && (p == "" ==> pad == 0)
    requires p != "" ==> p[|p| - 1] != '='
    ensures Atob(p + Equals(pad)) == Some(b)
  {
    var s := p + Equals(pad);
    forall i | 0 <= i < |s| ensures !IsSpace(s[i]) {
      if i < |p| { assert s[i] in p && Value(s[i]).Some?; }
    }
    NoSpaceToDrop(s);
    DropPaddingExact(p, pad);
  }

  lemma {:induction false} PaddingRestored(n: nat, p: string)
    requires forall i :: 0 <= i < |p| ==> p[i] != '-' && p[i] != '_'
    requires |p| % 4 == Odd(n)
    ensures RestorePadding(ToUrl(p)) == p + Equals(PadOf(n))
  {
    PadFromLength(n, |p|);
    FromToUrl(p, PadOf(n));
  }

  /** Decoding the unpadded url form of any byte string returns it; the missing
      padding is a function of the length modulo four. */
  lemma {:induction false} RoundTrip(b: seq<byte>)
    ensures UrlBase64ToBytes(ToBase64Url(b)) == Some(b)
  {
    UrlForm(b);
    PlainChars(b);
    PlainLength(b);
    DecodePlain(b);
    PaddingRestored(|b|, Plain(b));
    PadFromLength(|b|, |Plain(b)|);
    AtobOfPadded(Plain(b), PadOf(|b|), b);
  }

  /** The padded form round-trips as well: keys and encrypted messages travel so. */
  lemma {:induction false} PaddedRoundTrip(b: seq<byte>)
    ensures Atob(Encode(b)) == Some(b)
  {
    EncodeIsPadded(b);
    PlainChars(b);
    PlainLength(b);
    DecodePlain(b);
    PadFromLength(|b|, |Plain(b)|);
    AtobOfPadded(Plain(b), PadOf(|b|), b);
  }

  lemma {:induction false} FromToUrl(p: string, pad: nat)
    requires forall i :: 0 <= i < |p| ==> p[i] != '-' && p[i] != '_'
    ensures FromUrl(ToUrl(p) + Equals(pad)) == p + Equals(pad)
  {
  }

  // ----- The loops around the platform's codec -----

  predicate IsBinary(s: string) { forall i :: 0 <= i < |s| ==> s[i] as int < 256 }

  /** One character per byte. */
  function Binary(b: seq<byte>): (s: string)
    ensures IsBinary(s)
  {
    seq(|b|, i requires 0 <= i < |b| => (b[i] as int) as char)
  }

  function Codes(s: string): seq<byte>
    requires IsBinary(s)
  {
    seq(|s|, i requires 0 <= i < |s| => (s[i] as int) as byte)
  }

  lemma {:induction false} CodesOfBinary(b: seq<byte>)
    ensures Codes(Binary(b)) == b
  {
  }

  /** The platform's `btoa` and `atob` work on binary strings. */
  function Btoa(s: string): string
    requires IsBinary(s)
  {
    Encode(Codes(s))
  }

  function AtobText(s: string): Option<string> {
    var b := Atob(s);
    if b.None? then None else Some(Binary(b.value))
  }

  method BinaryString(bytes: seq<byte>) returns (binary: string)
    ensures binary == Binary(bytes)
  {
    binary := "";
    var i := 0;
    while i < |bytes|
      invariant 0 <= i == |binary| <= |bytes|
      invariant forall j :: 0 <= j < i ==> binary[j] == Binary(bytes)[j]
    {
      binary := binary + [(bytes[i] as int) as char];
      i := i + 1;
    }
  }

  method EncodeBytes(bytes: seq<byte>) returns (text: string)
    ensures text == ToBase64Url(bytes)
  {
    var binary := BinaryString(bytes);
    CodesOfBinary(bytes);
    text := StripEquals(ToUrl(Btoa(binary)));
  }

  method BytesOf(raw: string) returns (output: array<byte>)
    requires IsBinary(raw)
    ensures fresh(output) && output[..] == Codes(raw)
  {
    output := new byte[|raw|];
    var i := 0;
    while i < |raw|
      invariant 0 <= i <= |raw|
      invariant forall j :: 0 <= j < i ==> output[j] == Codes(raw)[j]
    {
      output[i] := (raw[i] as int) as byte;
      i := i + 1;
    }
  }

  /** None when `atob` throws. */
  method UrlBase64ToUint8Array(text: string) returns (output: Option<array<byte>>)
    ensures output.None? <==> UrlBase64ToBytes(text).None?
    ensures output.Some? ==> fresh(output.value) && Some(output.value[..]) == UrlBase64ToBytes(text)
  {
    var base64 := RestorePadding(text);
    var raw := AtobText(base64);
    if raw.None? { return None; }
    CodesOfBinary(Atob(base64).value);
    var bytes := BytesOf(raw.value);
    output := Some(bytes);
  }
}
