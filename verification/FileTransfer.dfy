/** File transfer over a chat channel: the encrypted container, its slices, the
    frames on the wire, and the reassembly of interleaved transfers. */
module FileTransfer {
  import opened Prelude

  type Bytes = seq<byte>

  const CHUNK_SIZE: nat := 16384
  const ID_LENGTH: nat := 36
  const HEADER: nat := 48

  // ----- The container: 12 bytes IV, 32 bytes key, 4 bytes size, cipher text -----

  function LittleEndian(n: nat): Bytes
    requires n < 0x1_0000_0000
  {
    var high := n / 65536;
    [(n % 256) as byte, (n / 256 % 256) as byte, (high % 256) as byte, (high / 256) as byte]
  }

  function FromLittleEndian(b: Bytes): nat
    requires |b| == 4
  {
    b[0] as nat + 256 * (b[1] as nat) + 65536 * (b[2] as nat + 256 * (b[3] as nat))
  }

  /** The cipher and the compressor, taken as they are specified: AES-GCM with a
      key and an IV, and gzip. */
  datatype Platform = Platform(
    encrypt: (Bytes, Bytes, Bytes) -> Bytes, decrypt: (Bytes, Bytes, Bytes) -> Option<Bytes>,
    compress: Bytes -> Bytes, decompress: Bytes -> Bytes)

  ghost predicate Sound(p: Platform) {
    && (forall key, iv, plain :: p.decrypt(key, iv, p.encrypt(key, iv, plain)) == Some(plain))
    && (forall plain :: p.decompress(p.compress(plain)) == plain)
  }

  function EncryptFile(p: Platform, file: Bytes, key: Bytes, iv: Bytes): Bytes
    requires |iv| == 12 && |key| == 32
  {
    iv + key + LittleEndian(|file| % 0x1_0000_0000) + p.encrypt(key, iv, p.compress(file))
  }

  /** `slice` never fails: it cuts at the end of the data. */
  function Cut(b: Bytes, start: nat, end: nat): Bytes
    requires start <= end
  {
    if |b| <= start then [] else if |b| <= end then b[start..] else b[start..end]
  }

  function DecryptFile(p: Platform, container: Bytes): Option<Bytes> {
    var iv, key := Cut(container, 0, 12), Cut(container, 12, 44);
    var plain := p.decrypt(key, iv, Cut(container, HEADER, |container| + HEADER));
    if plain.None? then None else Some(p.decompress(plain.value))
  }

  /** The size the container declares; reading it fails on a truncated header. */
  function DeclaredSize(container: Bytes): Option<nat> {
    var b := Cut(container, 44, 48);
    if |b| == 4 then Some(FromLittleEndian(b)) else None
  }

  lemma {:induction false} LittleEndianRoundTrip(n: nat)
    requires n < 0x1_0000_0000
    ensures FromLittleEndian(LittleEndian(n)) == n
  {
    assert n / 256 / 256 == n / 65536;
  }

  /** Parsing the container gives the file back; the declared size is the file's
      size except that it wraps at 4 GiB. */
  lemma {:induction false} ContainerRoundTrip(p: Platform, file: Bytes, key: Bytes, iv: Bytes)
    requires Sound(p) && |iv| == 12 && |key| == 32
    ensures var c := EncryptFile(p, file, key, iv);
      && |c| >= HEADER
      && DecryptFile(p, c) == Some(file)
      && (DeclaredSize(c) == Some(|file|) <==> |file| < 0x1_0000_0000)
  {
    var size := LittleEndian(|file| % 0x1_0000_0000);
    var cipher := p.encrypt(key, iv, p.compress(file));
    var c := EncryptFile(p, file, key, iv);
    assert c[..12] == iv && c[12..44] == key && c[44..48] == size && c[48..] == cipher;
    LittleEndianRoundTrip(|file| % 0x1_0000_0000);
    assert Cut(c, 0, 12) == iv && Cut(c, 12, 44) == key && Cut(c, 48, |c| + HEADER) == cipher && Cut(c, 44, 48) == size;
  }

  /** Where each part of the container lies, and the size from its four bytes. */
  lemma {:induction false} ContainerLayout(p: Platform, file: Bytes, key: Bytes, iv: Bytes)
    requires |iv| == 12 && |key| == 32
    ensures var c := EncryptFile(p, file, key, iv);
      && |c| >= 48 && c[..12] == iv && c[12..44] == key && c[48..] == p.encrypt(key, iv, p.compress(file))
      && c[44] as nat + 256 * (c[45] as nat) + 65536 * (c[46] as nat) + 16777216 * (c[47] as nat) ==
           |file| % 0x1_0000_0000
  {
    var size := LittleEndian(|file| % 0x1_0000_0000);
    var c := EncryptFile(p, file, key, iv);
    LittleEndianRoundTrip(|file| % 0x1_0000_0000);
    assert c[44..48] == size && forall i :: 0 <= i < 4 ==> c[44 + i] == c[44..48][i];
    assert c[..12] == iv && c[12..44] == key;
  }

  // ----- Slices and frames -----

  /** At least one slice, all full but the last. */
  function Slices(container: Bytes): (s: seq<Bytes>)
    decreases |container|
  {
    if |container| <= CHUNK_SIZE then [container]
    else [container[..CHUNK_SIZE]] + Slices(container[CHUNK_SIZE..])
  }

  function Concat(chunks: seq<Bytes>): Bytes {
    if chunks == [] then [] else chunks[0] + Concat(chunks[1..])
  }

  /** Cutting and concatenating are inverse. */
  lemma {:induction false} SlicesConcat(container: Bytes)
    ensures Concat(Slices(container)) == container
    ensures forall i :: 0 <= i < |Slices(container)| ==> |Slices(container)[i]| <= CHUNK_SIZE
    ensures forall i :: 0 <= i < |Slices(container)| - 1 ==> |Slices(container)[i]| == CHUNK_SIZE
    decreases |container|
  {
    if |container| <= CHUNK_SIZE {
      assert [container][1..] == [] && container + [] == container;
    } else {
      SlicesConcat(container[CHUNK_SIZE..]);
      assert container[..CHUNK_SIZE] + container[CHUNK_SIZE..] == container;
    }
  }

  function Frame(id: Bytes, chunk: Bytes): Bytes { id + chunk }

  function FrameId(frame: Bytes): Bytes { Cut(frame, 0, ID_LENGTH) }

  function FrameChunk(frame: Bytes): Bytes { Cut(frame, ID_LENGTH, ID_LENGTH + |frame|) }

  /** A frame reads back as it was built exactly for ids of 36 bytes (or shorter
      ids with nothing behind them). */
  lemma {:induction false} FrameRoundTrip(id: Bytes, chunk: Bytes)
    ensures (FrameId(Frame(id, chunk)) == id && FrameChunk(Frame(id, chunk)) == chunk)
       <==> (|id| == 36 || (|id| < 36 && chunk == []))
  {
    var f := Frame(id, chunk);
    if |id| == ID_LENGTH {
      assert f[..ID_LENGTH] == id && f[ID_LENGTH..] == chunk;
      assert Cut(f, 0, ID_LENGTH) == f[..ID_LENGTH];
    } else if |id| < ID_LENGTH && chunk == [] {
      assert f == id && f[0..] == f;
    }
  }

  function Frames(id: Bytes, chunks: seq<Bytes>): seq<Bytes> {
    seq(|chunks|, i requires 0 <= i < |chunks| => Frame(id, chunks[i]))
  }

  /** The bytes not read yet, by position. */
  ghost predicate Unread(container: Bytes, offset: nat, rest: Bytes) {
    offset + |rest| == |container| && forall k :: 0 <= k < |rest| ==> rest[k] == container[offset + k]
  }

  lemma {:induction false} LastSlice(container: Bytes, offset: nat, rest: Bytes)
    requires Unread(container, offset, rest) && |rest| <= CHUNK_SIZE
    ensures var chunk := Cut(container, offset, offset + CHUNK_SIZE); chunk == rest && Slices(rest) == [chunk]
  {
  }

  lemma {:induction false} SliceOff(s: Bytes)
    requires |s| > CHUNK_SIZE
    ensures Slices(s) == [s[..CHUNK_SIZE]] + Slices(s[CHUNK_SIZE..])
  {
  }

  lemma {:induction false} NextChunk(container: Bytes, offset: nat, rest: Bytes)
    requires Unread(container, offset, rest) && |rest| > CHUNK_SIZE
    ensures Cut(container, offset, offset + CHUNK_SIZE) == rest[..CHUNK_SIZE]
  {
    var chunk := Cut(container, offset, offset + CHUNK_SIZE);
    forall k | 0 <= k < CHUNK_SIZE ensures chunk[k] == rest[k] {
      assert chunk[k] == container[offset + k];
    }
  }

  lemma {:induction false} ReadOn(container: Bytes, offset: nat, rest: Bytes)
    requires Unread(container, offset, rest) && |rest| > CHUNK_SIZE
    ensures Unread(container, offset + CHUNK_SIZE, rest[CHUNK_SIZE..])
  {
  }

  lemma {:induction false} FramesSnoc(id: Bytes, chunks: seq<Bytes>, chunk: Bytes)
    ensures Frames(id, chunks + [chunk]) == Frames(id, chunks) + [Frame(id, chunk)]
  {
  }

  /** The sending loop: read a slice, prefix the id, send, advance. */
  method SendChunks(id: Bytes, container: Bytes) returns (frames: seq<Bytes>)
    ensures frames == Frames(id, Slices(container))
  {
    frames := [];
    ghost var chunks: seq<Bytes>, rest := [], container;
    var offset := 0;
    var done := false;
    while !done
      invariant 0 <= offset <= |container|
      invariant frames == Frames(id, chunks)
      invariant if done then Slices(container) == chunks
                else Unread(container, offset, rest) && Slices(container) == chunks + Slices(rest)
      decreases !done, |container| - offset
    {
      var chunk := Cut(container, offset, offset + CHUNK_SIZE);
      frames := frames + [Frame(id, chunk)];
      FramesSnoc(id, chunks, chunk);
      if |rest| > CHUNK_SIZE {
        NextChunk(container, offset, rest);
        ReadOn(container, offset, rest);
        SliceOff(rest);
        assert chunks + ([chunk] + Slices(rest[CHUNK_SIZE..])) == (chunks + [chunk]) + Slices(rest[CHUNK_SIZE..]);
        rest := rest[CHUNK_SIZE..];
      } else {
        LastSlice(container, offset, rest);
      }
      chunks := chunks + [chunk];
      offset := offset + |chunk|;
      done := offset >= |container|;
    }
  }

  // ----- Reassembly -----

  datatype Receiver = Receiver(peer: PeerId, chunks: seq<Bytes>, declared: Option<nat>)

  /** What arrives from a peer's ordered channel, for any number of transfers. */
  datatype Arrival =
    | Start(peer: PeerId, id: Bytes, declared: Option<nat>)
    | Binary(peer: PeerId, frame: Bytes)
    | End(peer: PeerId, id: Bytes)

  datatype Outcome = Unknown | WrongSize | Container(bytes: Bytes)

  type Receivers = map<Bytes, Receiver>

  function Total(chunks: seq<Bytes>): nat {
    if chunks == [] then 0 else |chunks[0]| + Total(chunks[1..])
  }

  /** The size check, with its tolerance of max(1024, 0.1 %) scaled by 1000. */
  predicate SizeAccepted(total: nat, declared: Option<nat>) {
    declared.Some? ==>
      var diff := if total >= declared.value then total - declared.value else declared.value - total;
      1000 * diff <= if declared.value < 1_024_000 then 1_024_000 else declared.value
  }

  function OnArrival(r: Receivers, a: Arrival): Receivers {
    match a
    case Start(peer, id, declared) => r[id := Receiver(peer, [], declared)]
    case Binary(peer, frame) =>
      var id := FrameId(frame);
      if id in r && r[id].peer == peer then r[id := r[id].(chunks := r[id].chunks + [FrameChunk(frame)])] else r
    case End(_, id) => r - {id}
  }

  /** What an End event produces before the receiver is dropped. */
  function Assembled(r: Receivers, id: Bytes): Outcome {
    if id !in r then Unknown
    else if !SizeAccepted(Total(r[id].chunks), r[id].declared) then WrongSize
    else Container(Concat(r[id].chunks))
  }

  function Receive(r: Receivers, arrivals: seq<Arrival>): Receivers
    decreases |arrivals|
  {
    if arrivals == [] then r else Receive(OnArrival(r, arrivals[0]), arrivals[1..])
  }

  function IdOf(a: Arrival): Bytes {
    match a
    case Start(_, id, _) => id
    case Binary(_, frame) => FrameId(frame)
    case End(_, id) => id
  }

  /** The arrivals of one transfer, in their order. */
  function Only(arrivals: seq<Arrival>, id: Bytes): seq<Arrival> {
    if arrivals == [] then []
    else (if IdOf(arrivals[0]) == id then [arrivals[0]] else []) + Only(arrivals[1..], id)
  }

  ghost predicate SameAt(a: Receivers, b: Receivers, id: Bytes) {
    (id in a <==> id in b) && (id in a ==> a[id] == b[id])
  }

  /** Interleaving does not matter: a transfer's receiver depends only on that
      transfer's own arrivals. */
  lemma {:induction false} Demultiplexed(a: Receivers, b: Receivers, arrivals: seq<Arrival>, id: Bytes)
    requires SameAt(a, b, id)
    ensures SameAt(Receive(a, arrivals), Receive(b, Only(arrivals, id)), id)
    decreases |arrivals|
  {
    if arrivals != [] {
      var x := arrivals[0];
      if IdOf(x) == id {
        assert ([x] + Only(arrivals[1..], id))[1..] == Only(arrivals[1..], id);
        Demultiplexed(OnArrival(a, x), OnArrival(b, x), arrivals[1..], id);
      } else {
        assert Only(arrivals, id) == Only(arrivals[1..], id);
        Demultiplexed(OnArrival(a, x), b, arrivals[1..], id);
      }
    }
  }

  function ChunkArrivals(peer: PeerId, id: Bytes, chunks: seq<Bytes>): seq<Arrival> {
    seq(|chunks|, i requires 0 <= i < |chunks| => Binary(peer, Frame(id, chunks[i])))
  }

  /** The arrivals of a peer's transfer: all under its id except the frames that
      come from other peers. */
  function Addressed(arrivals: seq<Arrival>, peer: PeerId, id: Bytes): seq<Arrival> {
    if arrivals == [] then []
    else
      var a := arrivals[0];
      (if IdOf(a) == id && (a.Binary? ==> a.peer == peer) then [a] else []) + Addressed(arrivals[1..], peer, id)
  }

  /** Frames are collected in order; other transfers and frames from other peers
      leave no trace. */
  lemma {:induction false} ChunksCollected(
    r: Receivers, arrivals: seq<Arrival>, peer: PeerId, id: Bytes, chunks: seq<Bytes>)
    requires |id| == ID_LENGTH && id in r && r[id].peer == peer
    requires Addressed(arrivals, peer, id) == ChunkArrivals(peer, id, chunks)
    ensures var r' := Receive(r, arrivals);
      id in r' && r'[id] == r[id].(chunks := r[id].chunks + chunks)
    decreases |arrivals|
  {
    var frames := ChunkArrivals(peer, id, chunks);
    if arrivals == [] {
      assert chunks == [] && r[id].chunks + [] == r[id].chunks;
    } else {
      var a := arrivals[0];
      if IdOf(a) == id && (a.Binary? ==> a.peer == peer) {
        assert a == frames[0];
        assert ([a] + Addressed(arrivals[1..], peer, id))[1..] == Addressed(arrivals[1..], peer, id);
        FrameRoundTrip(id, chunks[0]);
        assert frames[1..] == ChunkArrivals(peer, id, chunks[1..]);
        ChunksCollected(OnArrival(r, a), arrivals[1..], peer, id, chunks[1..]);
        assert r[id].chunks + chunks == r[id].chunks + [chunks[0]] + chunks[1..];
      } else {
        assert Addressed(arrivals, peer, id) == Addressed(arrivals[1..], peer, id);
        ChunksCollected(OnArrival(r, a), arrivals[1..], peer, id, chunks);
      }
    }
  }

  lemma {:induction false} TotalIsLength(chunks: seq<Bytes>)
    ensures Total(chunks) == |Concat(chunks)|
  {
    if chunks != [] { TotalIsLength(chunks[1..]); }
  }

  /** Whatever chunks a transfer delivers, in whatever company, its End event
      judges their total length and yields their concatenation. */
  lemma {:induction false} TransferOutcome(
    r: Receivers, arrivals: seq<Arrival>, peer: PeerId, id: Bytes, declared: Option<nat>, chunks: seq<Bytes>)
    requires |id| == ID_LENGTH
    requires Addressed(arrivals, peer, id) == [Start(peer, id, declared)] + ChunkArrivals(peer, id, chunks)
    ensures Assembled(Receive(r, arrivals), id) ==
      if SizeAccepted(|Concat(chunks)|, declared) then Container(Concat(chunks)) else WrongSize
    decreases |arrivals|
  {
    var a, own := arrivals[0], Addressed(arrivals, peer, id);
    if IdOf(a) == id && (a.Binary? ==> a.peer == peer) {
      assert a == own[0] == Start(peer, id, declared);
      assert ([a] + Addressed(arrivals[1..], peer, id))[1..] == Addressed(arrivals[1..], peer, id);
      assert own[1..] == ChunkArrivals(peer, id, chunks);
      ChunksCollected(OnArrival(r, a), arrivals[1..], peer, id, chunks);
      assert [] + chunks == chunks;
      TotalIsLength(chunks);
    } else {
      assert own == Addressed(arrivals[1..], peer, id);
      TransferOutcome(OnArrival(r, a), arrivals[1..], peer, id, declared, chunks);
    }
  }

  /** After its end a transfer is unknown, and stays so until it is started again:
      late frames are dropped and a second end finds nothing. */
  lemma {:induction false} EndForgets(r: Receivers, id: Bytes, peer: PeerId, later: seq<Arrival>)
    requires forall a :: a in later && a.Start? ==> a.id != id
    ensures Assembled(Receive(OnArrival(r, End(peer, id)), later), id) == Unknown
  {
    NotStarted(OnArrival(r, End(peer, id)), id, later);
  }

  lemma {:induction false} NotStarted(r: Receivers, id: Bytes, later: seq<Arrival>)
    requires id !in r && forall a :: a in later && a.Start? ==> a.id != id
    ensures id !in Receive(r, later)
    decreases |later|
  {
    if later != [] { NotStarted(OnArrival(r, later[0]), id, later[1..]); }
  }

  /** Any number of files, interleaved in any way and amid frames that other peers
      send under the same id: each End event finds exactly the container that was
      cut up, and decrypting it gives the file back. */
  lemma {:induction false} InterleavedFilesArrive(
    p: Platform, r: Receivers, arrivals: seq<Arrival>, peer: PeerId, id: Bytes, file: Bytes, key: Bytes, iv: Bytes)
    requires Sound(p) && |id| == ID_LENGTH && |iv| == 12 && |key| == 32
    requires var c := EncryptFile(p, file, key, iv);
      Addressed(arrivals, peer, id) == [Start(peer, id, Some(|c|))] + ChunkArrivals(peer, id, Slices(c))
    ensures var outcome := Assembled(Receive(r, arrivals), id);
      outcome == Container(EncryptFile(p, file, key, iv)) && DecryptFile(p, outcome.bytes) == Some(file)
  {
    var c := EncryptFile(p, file, key, iv);
    TransferOutcome(r, arrivals, peer, id, Some(|c|), Slices(c));
    SlicesConcat(c);
    ContainerRoundTrip(p, file, key, iv);
  }

  /** The size check fails exactly when the gap, in either direction, exceeds both
      1024 bytes and a thousandth of the declared size; no declared size, no check. */
  lemma {:induction false} GapNoticed(total: nat, declared: nat)
    ensures var gap := if total <= declared then declared - total else total - declared;
      !SizeAccepted(total, Some(declared)) <==> gap > 1024 && 1000 * gap > declared
    ensures SizeAccepted(total, None)
  {
  }

  function Without(chunks: seq<Bytes>, k: nat): seq<Bytes>
    requires k < |chunks|
  {
    chunks[..k] + chunks[k + 1..]
  }

  lemma {:induction false} ConcatSplit(a: seq<Bytes>, b: seq<Bytes>)
    ensures |Concat(a + b)| == |Concat(a)| + |Concat(b)|
  {
    if a == [] {
      assert a + b == b;
    } else {
      ConcatSplit(a[1..], b);
      assert (a + b)[1..] == a[1..] + b;
    }
  }

  lemma {:induction false} WithoutLength(chunks: seq<Bytes>, k: nat)
    requires k < |chunks|
    ensures |Concat(Without(chunks, k))| + |chunks[k]| == |Concat(chunks)|
  {
    assert chunks == chunks[..k] + ([chunks[k]] + chunks[k + 1..]);
    ConcatSplit(chunks[..k], [chunks[k]] + chunks[k + 1..]);
    ConcatSplit([chunks[k]], chunks[k + 1..]);
    ConcatSplit(chunks[..k], chunks[k + 1..]);
    assert Concat([chunks[k]]) == chunks[k] by { assert [chunks[k]][1..] == [] && chunks[k] + [] == chunks[k]; }
  }

  /** Losing one full chunk is noticed exactly below 16,384,000 bytes. */
  lemma {:induction false} LostChunkNoticed(
    r: Receivers, arrivals: seq<Arrival>, peer: PeerId, id: Bytes, container: Bytes, k: nat)
    requires |id| == ID_LENGTH && k < |Slices(container)| && |Slices(container)[k]| == CHUNK_SIZE
    requires Addressed(arrivals, peer, id) ==
      [Start(peer, id, Some(|container|))] + ChunkArrivals(peer, id, Without(Slices(container), k))
    ensures Assembled(Receive(r, arrivals), id) == WrongSize <==> |container| < 16_384_000
  {
    var left := Without(Slices(container), k);
    TransferOutcome(r, arrivals, peer, id, Some(|container|), left);
    SlicesConcat(container);
    WithoutLength(Slices(container), k);
    GapNoticed(|Concat(left)|, |container|);
  }

  // ----- The code's own loops and tables -----

  /** `Uint8Array.prototype.set`. */
  method Set(target: array<byte>, source: Bytes, offset: nat)
    requires offset + |source| <= target.Length
    modifies target
    ensures forall k :: 0 <= k < |source| ==> target[offset + k] == source[k]
    ensures forall k :: 0 <= k < target.Length && !(offset <= k < offset + |source|) ==> target[k] == old(target[k])
  {
    var i := 0;
    while i < |source|
      invariant 0 <= i <= |source|
      invariant forall k :: 0 <= k < i ==> target[offset + k] == source[k]
      invariant forall k :: 0 <= k < target.Length && !(offset <= k < offset + i) ==> target[k] == old(target[k])
    {
      target[offset + i] := source[i];
      i := i + 1;
    }
  }

  /** The container as encryptFile fills it, piece by piece. */
  method PackContainer(p: Platform, file: Bytes, key: Bytes, iv: Bytes) returns (container: array<byte>)
    requires |iv| == 12 && |key| == 32
    ensures fresh(container) && container[..] == EncryptFile(p, file, key, iv)
  {
    var cipher := p.encrypt(key, iv, p.compress(file));
    var size := LittleEndian(|file| % 0x1_0000_0000);
    var header := new byte[HEADER];
    Set(header, iv, 0);
    Set(header, key, 12);
    Set(header, size, 44);
    assert header[..] == iv + key + size;
    container := new byte[HEADER + |cipher|];
    Set(container, header[..], 0);
    Set(container, cipher, HEADER);
  }

  lemma {:induction false} TotalSnoc(chunks: seq<Bytes>, chunk: Bytes)
    ensures Total(chunks + [chunk]) == Total(chunks) + |chunk|
  {
    if chunks == [] {
      assert [chunk][1..] == [];
    } else {
      TotalSnoc(chunks[1..], chunk);
      assert (chunks + [chunk])[1..] == chunks[1..] + [chunk];
    }
  }

  class FileReceivers {
    var receivers: Receivers

    constructor ()
      ensures receivers == map[]
    {
      receivers := map[];
    }

    method OnFileStart(peer: PeerId, id: Bytes, declared: Option<nat>)
      modifies this
      ensures receivers == OnArrival(old(receivers), Start(peer, id, declared))
    {
      receivers := receivers[id := Receiver(peer, [], declared)];
    }

    /** A binary frame: its first 36 bytes name the transfer. */
    method OnFileChunk(peer: PeerId, frame: Bytes)
      modifies this
      ensures receivers == OnArrival(old(receivers), Binary(peer, frame))
    {
      var id := Cut(frame, 0, ID_LENGTH);
      if id !in receivers { return; }
      var r := receivers[id];
      if r.peer != peer { return; }
      receivers := receivers[id := r.(chunks := r.chunks + [Cut(frame, ID_LENGTH, ID_LENGTH + |frame|)])];
    }

    method TotalOf(chunks: seq<Bytes>) returns (total: nat)
      ensures total == |Concat(chunks)|
    {
      total := 0;
      var i := 0;
      while i < |chunks|
        invariant 0 <= i <= |chunks|
        invariant total == Total(chunks[..i])
      {
        TotalSnoc(chunks[..i], chunks[i]);
        assert chunks[..i + 1] == chunks[..i] + [chunks[i]];
        total := total + |chunks[i]|;
        i := i + 1;
      }
      assert chunks[..i] == chunks;
      TotalIsLength(chunks);
    }

    /** Checks the size, hands the joined chunks to decryption, forgets the transfer. */
    method OnFileEnd(peer: PeerId, id: Bytes) returns (outcome: Outcome)
      modifies this
      ensures outcome == Assembled(old(receivers), id)
      ensures receivers == OnArrival(old(receivers), End(peer, id))
    {
      if id !in receivers {
        assert receivers - {id} == receivers;
        return Unknown;
      }
      var r := receivers[id];
      var total := TotalOf(r.chunks);
      TotalIsLength(r.chunks);
      if SizeAccepted(total, r.declared) { outcome := Container(Concat(r.chunks)); } else { outcome := WrongSize; }
      receivers := receivers - {id};
    }
  }
}
