/** The canonical byte encoding of a log, and the 64-bit FNV-1a digest of it. */
module CanonicalHashes {
  import opened Common
  import opened EventLogs
  import opened MemoryHistories

  // ---- FNV-1a ----

  const TWO_64: nat := 0x1_0000_0000_0000_0000
  const OFFSET_BASIS: Id64 := 14695981039346656037
  const PRIME: nat := 1099511628211

  /** Exclusive or, bit by bit; `a` and `b` may have more bits than `bits` and only the low ones count. */
  function Xor(a: nat, b: nat, bits: nat): nat {
    if bits == 0 then 0 else (if a % 2 == b % 2 then 0 else 1) + 2 * Xor(a / 2, b / 2, bits - 1)
  }

  /** The word that `Step` multiplies. */
  function Mixed(hash: Id64, byte: Byte): nat {
    hash / 256 * 256 + Xor(hash % 256, byte, 8)
  }

  function Step(hash: Id64, byte: Byte): Id64 {
    Mixed(hash, byte) * PRIME % TWO_64
  }

  function Fnv(hash: Id64, stream: seq<Byte>): Id64 {
    if stream == [] then hash else Step(Fnv(hash, stream[..|stream| - 1]), stream[|stream| - 1])
  }

  function Power(bits: nat): nat {
    if bits == 0 then 1 else 2 * Power(bits - 1)
  }

  lemma {:induction false} XorRange(a: nat, b: nat, bits: nat)
    ensures Xor(a, b, bits) < Power(bits) && Xor(a, b, bits) == Xor(b, a, bits)
  {
    if bits == 0 {
    } else {
      XorRange(a / 2, b / 2, bits - 1);
    }
  }

  /** An operand can be told from the other one and the result. */
  lemma {:induction false} XorCancels(a: nat, b: nat, c: nat, bits: nat)
    requires b < Power(bits) && c < Power(bits) && Xor(a, b, bits) == Xor(a, c, bits)
    ensures b == c
  {
    if bits == 0 {
    } else {
      var x, y := Xor(a / 2, b / 2, bits - 1), Xor(a / 2, c / 2, bits - 1);
      var i, j := if a % 2 == b % 2 then 0 else 1, if a % 2 == c % 2 then 0 else 1;
      assert i + 2 * x == j + 2 * y;
      assert x == y && b % 2 == c % 2;
      XorCancels(a / 2, b / 2, c / 2, bits - 1);
    }
  }

  /** Multiplying by an odd constant loses nothing: it has an inverse modulo the word size. */
  lemma MultiplyCancels(x: Id64, y: Id64)
    requires x * PRIME % TWO_64 == y * PRIME % TWO_64
    ensures x == y
  {
    var inverse, wraps := 14886173955864302971, 887285111055;
    assert PRIME * inverse == 1 + wraps * TWO_64;
    var q := x * PRIME / TWO_64 - y * PRIME / TWO_64;
    assert (x - y) * PRIME == q * TWO_64;
    assert x - y == TWO_64 * (q * inverse - wraps * (x - y));
  }

  lemma MixedCancels(g: Id64, h: Id64, a: Byte, b: Byte)
    ensures Mixed(g, a) < TWO_64
    ensures Mixed(g, a) == Mixed(h, b) ==> g / 256 == h / 256 && Xor(g % 256, a, 8) == Xor(h % 256, b, 8)
  {
    hide Xor;
    XorByte(g, a);
    XorByte(h, b);
    SameDigits(g / 256, Xor(g % 256, a, 8), h / 256, Xor(h % 256, b, 8));
  }

  lemma XorByte(hash: Id64, byte: Byte)
    ensures Xor(hash % 256, byte, 8) < 256
  {
    hide Xor;
    assert Power(8) == 256;
    XorRange(hash % 256, byte, 8);
  }

  lemma SameDigits(a: nat, x: nat, b: nat, y: nat)
    requires x < 256 && y < 256
    ensures a * 256 + x == b * 256 + y ==> a == b && x == y
  {
  }

  /** One step is a bijection of the hash for each byte, and of the byte for each hash. */
  lemma StepCancels(g: Id64, h: Id64, a: Byte, b: Byte)
    requires g == h || a == b
    requires Step(g, a) == Step(h, b)
    ensures g == h && a == b
  {
    MixedCancels(g, h, a, b);
    MixedCancels(h, g, b, a);
    MultiplyCancels(Mixed(g, a), Mixed(h, b));
    assert Power(8) == 256;
    if g == h {
      XorCancels(g % 256, a, b, 8);
    } else {
      XorRange(g % 256, a, 8);
      XorRange(h % 256, a, 8);
      XorCancels(a, g % 256, h % 256, 8);
    }
  }

  /** Hashing the same bytes from different hashes keeps them different. */
  lemma {:induction false} FnvCancels(g: Id64, h: Id64, stream: seq<Byte>)
    requires Fnv(g, stream) == Fnv(h, stream)
    ensures g == h
  {
    if stream == [] {
    } else {
      var front := stream[..|stream| - 1];
      StepCancels(Fnv(g, front), Fnv(h, front), stream[|stream| - 1], stream[|stream| - 1]);
      FnvCancels(g, h, front);
    }
  }

  /** Two streams of one length that differ in exactly one byte have different digests, wherever they start. */
  lemma {:induction false} OneByteShows(hash: Id64, these: seq<Byte>, those: seq<Byte>, k: nat)
    requires |these| == |those| && k < |these| && these[k] != those[k]
    requires forall i :: 0 <= i < |these| && i != k ==> these[i] == those[i]
    ensures Fnv(hash, these) != Fnv(hash, those)
  {
    var n := |these| - 1;
    var g, h := Fnv(hash, these[..n]), Fnv(hash, those[..n]);
    if k == n {
      assert these[..n] == those[..n];
    } else {
      OneByteShows(hash, these[..n], those[..n], k);
    }
    if Step(g, these[n]) == Step(h, those[n]) {
      StepCancels(g, h, these[n], those[n]);
    }
  }

  lemma FnvMore(hash: Id64, stream: seq<Byte>, byte: Byte)
    ensures Fnv(hash, stream + [byte]) == Step(Fnv(hash, stream), byte)
  {
    assert (stream + [byte])[..|stream|] == stream;
  }

  lemma FnvNone(hash: Id64)
    ensures Fnv(hash, []) == hash
  {
  }

  /** One step of a computation, from the low byte after the exclusive or. */
  lemma StepAt(hash: Id64, byte: Byte, low: nat, next: Id64)
    requires Xor(hash % 256, byte, 8) == low && (hash / 256 * 256 + low) * PRIME % TWO_64 == next
    ensures Step(hash, byte) == next
  {
    hide Xor;
  }

  /** Published test vectors of the 64-bit FNV-1a function: the empty text and "a". */
  lemma FnvVectors()
    ensures Fnv(OFFSET_BASIS, []) == 0xcbf29ce484222325
    ensures Fnv(OFFSET_BASIS, [97]) == 0xaf63dc4c8601ec8c
  {
    hide Fnv, Step, Xor;
    FnvNone(OFFSET_BASIS);
    LowByte();
    StepAt(0xcbf29ce484222325, 97, 68, 0xaf63dc4c8601ec8c);
    FnvMore(OFFSET_BASIS, [], 97);
    assert [] + [97] == [97];
  }

  lemma LowByte()
    ensures Xor(37, 97, 8) == 68
  {
    assert Xor(2, 6, 4) == 4;
    assert Xor(9, 24, 6) == 17;
  }

  // ---- What each value puts on the stream ----

  /** The low `width` bytes, least significant first. */
  function LittleEndian(value: nat, width: nat): (r: seq<Byte>)
    ensures |r| == width
  {
    if width == 0 then [] else [value % 256] + LittleEndian(value / 256, width - 1)
  }

  function Ascii(text: string): (r: seq<Byte>)
    ensures |r| == |text|
  {
    seq(|text|, i requires 0 <= i < |text| => text[i] as int % 256)
  }

  function Sized(mark: Byte, bytes: seq<Byte>): seq<Byte> {
    [mark] + LittleEndian(|bytes|, 8) + bytes
  }

  function TagBytes(tag: string): seq<Byte> {
    Sized(0xF0, Ascii(tag))
  }

  function BoolBytes(value: bool): seq<Byte> {
    [0x01, if value then 1 else 0]
  }

  function IntegralBytes(value: nat, width: Byte): seq<Byte> {
    [0x02, width] + LittleEndian(value, width)
  }

  function StringBytes(text: seq<Byte>): seq<Byte> {
    Sized(0x04, text)
  }

  /** A strong identifier of `width` bytes. */
  function StrongIdBytes(id: nat, width: Byte): seq<Byte> {
    [0x05] + LittleEndian(id, width)
  }

  function IdBytes(id: Id64): seq<Byte> {
    StrongIdBytes(id, 8)
  }

  function TwosComplement(value: Timestamp): Id64 {
    if value < 0 then value + TWO_64 else value
  }

  function TimestampBytes(time: Timestamp): seq<Byte> {
    [0x06] + IntegralBytes(TwosComplement(time), 8)
  }

  function OptionalBytes<T>(value: Option<T>, encode: T -> seq<Byte>): seq<Byte> {
    [0x07] + BoolBytes(value.Some?) + if value.Some? then encode(value.value) else []
  }

  function KindOrdinal(kind: EventKind): Byte {
    match kind
    case EntityCreated => 0
    case StateAppended => 1
    case EdgeCreated => 2
    case WorldlineForked => 3
    case MemoryReinterpreted => 4
    case ModelInferenceRecorded => 5
    case SnapshotCompacted => 6
    case Tombstone => 7
  }

  function SourceOrdinal(kind: ProvenanceKind): Byte {
    match kind
    case Observed => 0
    case SelfReported => 1
    case Imported => 2
    case Inferred => 3
    case Simulated => 4
  }

  function Concat(fields: seq<seq<Byte>>): seq<Byte> {
    if fields == [] then [] else Concat(fields[..|fields| - 1]) + fields[|fields| - 1]
  }

  function ProvenanceFields(p: Provenance): seq<seq<Byte>> {
    [TagBytes("memorial.provenance.v1"), IntegralBytes(SourceOrdinal(p.kind), 4), StringBytes(p.source),
     OptionalBytes(p.modelRun, IdBytes)]
  }

  /** Everything but the checksum. */
  function EventFields<P>(e: Event<P>, encode: P -> seq<Byte>): seq<seq<Byte>> {
    [TagBytes("memorial.graph_event.v1"), IdBytes(e.sequence), IntegralBytes(KindOrdinal(e.kind), 1),
     TimestampBytes(e.validTime), TimestampBytes(e.recordedTime), IdBytes(e.worldline), encode(e.payload),
     OptionalBytes(e.previous, IdBytes), Concat(ProvenanceFields(e.source))]
  }

  function RevisionFields<M, V>(r: MemoryRevision<M, V>, name: M -> seq<Byte>, encode: V -> seq<Byte>)
    : seq<seq<Byte>>
  {
    [TagBytes("memorial.memory_revision.v1"), name(r.memory), IdBytes(r.perspective),
     TimestampBytes(r.valid.from), TimestampBytes(r.valid.to), encode(r.value)]
  }

  function EventsBytes<P>(events: seq<Event<P>>, encode: P -> seq<Byte>): seq<Byte> {
    if events == [] then []
    else EventsBytes(events[..|events| - 1], encode) + Concat(EventFields(events[|events| - 1], encode))
  }

  function LogHeader(size: nat): (r: seq<Byte>)
    ensures |r| == 40
  {
    TagBytes("memorial.event_log.v1") + IntegralBytes(size, 8)
  }

  function LogBytes<P>(events: seq<Event<P>>, encode: P -> seq<Byte>): seq<Byte> {
    LogHeader(|events|) + EventsBytes(events, encode)
  }

  // ---- Unique decodability ----

  /** One is a prefix of the other: what a decoder facing both cannot tell apart yet. */
  predicate Comparable(s: seq<Byte>, t: seq<Byte>) {
    s <= t || t <= s
  }

  /** Injective, and no encoding a proper prefix of another. */
  ghost predicate Code<T(!new)>(encode: T -> seq<Byte>) {
    forall x, y :: Comparable(encode(x), encode(y)) ==> x == y
  }

  lemma {:induction false} LittleEndianTells(x: nat, y: nat, width: nat)
    requires x < Power(8 * width) && y < Power(8 * width) && LittleEndian(x, width) == LittleEndian(y, width)
    ensures x == y
  {
    if width == 0 {
    } else {
      var n := 8 * (width - 1);
      assert Power(n + 8) == 256 * Power(n) by {
        PowerOfByte(n);
      }
      assert LittleEndian(x, width)[0] == LittleEndian(y, width)[0];
      assert LittleEndian(x, width)[1..] == LittleEndian(y, width)[1..];
      LittleEndianTells(x / 256, y / 256, width - 1);
    }
  }

  lemma PowerOfByte(n: nat)
    ensures Power(n + 8) == 256 * Power(n)
  {
    assert Power(n + 8) == 2 * Power(n + 7) == 4 * Power(n + 6) == 8 * Power(n + 5) == 16 * Power(n + 4);
    assert Power(n + 4) == 2 * Power(n + 3) == 4 * Power(n + 2) == 8 * Power(n + 1) == 16 * Power(n);
  }

  lemma WordPower()
    ensures Power(8 * 8) == TWO_64
  {
    PowerOfByte(0);
    PowerOfByte(8);
    PowerOfByte(16);
    PowerOfByte(24);
    PowerOfByte(32);
    PowerOfByte(40);
    PowerOfByte(48);
    PowerOfByte(56);
  }

  lemma WordTells(x: Id64, y: Id64)
    requires LittleEndian(x, 8) == LittleEndian(y, 8)
    ensures x == y
  {
    WordPower();
    LittleEndianTells(x, y, 8);
  }

  lemma StrongIdTells(x: nat, y: nat, width: Byte)
    requires x < Power(8 * width) && y < Power(8 * width)
    requires Comparable(StrongIdBytes(x, width), StrongIdBytes(y, width))
    ensures x == y
  {
    assert StrongIdBytes(x, width)[1..] == LittleEndian(x, width);
    assert StrongIdBytes(y, width)[1..] == LittleEndian(y, width);
    LittleEndianTells(x, y, width);
  }

  lemma IdTells(x: Id64, y: Id64)
    requires Comparable(IdBytes(x), IdBytes(y))
    ensures x == y
  {
    WordPower();
    StrongIdTells(x, y, 8);
  }

  lemma IdCode()
    ensures Code(IdBytes)
  {
    forall x: Id64, y: Id64 | Comparable(IdBytes(x), IdBytes(y))
      ensures x == y
    {
      IdTells(x, y);
    }
  }

  lemma IntegralTells(x: nat, y: nat, width: Byte)
    requires x < Power(8 * width) && y < Power(8 * width)
    requires Comparable(IntegralBytes(x, width), IntegralBytes(y, width))
    ensures x == y
  {
    assert IntegralBytes(x, width)[2..] == LittleEndian(x, width);
    assert IntegralBytes(y, width)[2..] == LittleEndian(y, width);
    LittleEndianTells(x, y, width);
  }

  lemma TimestampTells(x: Timestamp, y: Timestamp)
    requires Comparable(TimestampBytes(x), TimestampBytes(y))
    ensures x == y
  {
    var a, b := TwosComplement(x), TwosComplement(y);
    assert TimestampBytes(x)[1..] == IntegralBytes(a, 8) && TimestampBytes(y)[1..] == IntegralBytes(b, 8);
    WordPower();
    IntegralTells(a, b, 8);
  }

  lemma OptionalTells<T(!new)>(x: Option<T>, y: Option<T>, encode: T -> seq<Byte>)
    requires Code(encode) && Comparable(OptionalBytes(x, encode), OptionalBytes(y, encode))
    ensures x == y
  {
    var a, b := OptionalBytes(x, encode), OptionalBytes(y, encode);
    assert a[2] == (if x.Some? then 1 else 0) && b[2] == (if y.Some? then 1 else 0);
    if x.Some? {
      assert a[3..] == encode(x.value) && b[3..] == encode(y.value);
    }
  }

  lemma StringTells(x: seq<Byte>, y: seq<Byte>)
    requires |x| <= INVALID_64 && |y| <= INVALID_64 && Comparable(StringBytes(x), StringBytes(y))
    ensures x == y
  {
    assert StringBytes(x)[1..9] == LittleEndian(|x|, 8) && StringBytes(y)[1..9] == LittleEndian(|y|, 8);
    WordTells(|x|, |y|);
    assert StringBytes(x)[9..] == x && StringBytes(y)[9..] == y;
  }

  /** If no field can be mistaken for another, neither can a record of them. */
  lemma {:induction false} FieldsTell(fs: seq<seq<Byte>>, gs: seq<seq<Byte>>)
    requires |fs| == |gs| && Comparable(Concat(fs), Concat(gs))
    requires forall i :: 0 <= i < |fs| && Comparable(fs[i], gs[i]) ==> fs[i] == gs[i]
    ensures fs == gs
  {
    if fs == [] {
    } else {
      var n := |fs| - 1;
      var a, b := Concat(fs[..n]), Concat(gs[..n]);
      assert Comparable(a, b) by {
        PrefixesCompare(a, fs[n], b, gs[n]);
      }
      FieldsTell(fs[..n], gs[..n]);
      assert Comparable(fs[n], gs[n]) by {
        RestsCompare(a, fs[n], gs[n]);
      }
      assert fs == fs[..n] + [fs[n]] && gs == gs[..n] + [gs[n]];
    }
  }

  lemma PrefixesCompare(a: seq<Byte>, r: seq<Byte>, b: seq<Byte>, s: seq<Byte>)
    requires Comparable(a + r, b + s)
    ensures Comparable(a, b)
  {
    assert forall i :: 0 <= i < |a| ==> (a + r)[i] == a[i];
    assert forall i :: 0 <= i < |b| ==> (b + s)[i] == b[i];
  }

  lemma RestsCompare(a: seq<Byte>, r: seq<Byte>, s: seq<Byte>)
    requires Comparable(a + r, a + s)
    ensures Comparable(r, s)
  {
    assert (a + r)[|a|..] == r && (a + s)[|a|..] == s;
    if a + r <= a + s {
      assert r == (a + s)[..|a + r|][|a|..];
    } else {
      assert s == (a + r)[..|a + s|][|a|..];
    }
  }

  lemma SourceTells(k: ProvenanceKind, l: ProvenanceKind)
    requires Comparable(IntegralBytes(SourceOrdinal(k), 4), IntegralBytes(SourceOrdinal(l), 4))
    ensures k == l
  {
    assert IntegralBytes(SourceOrdinal(k), 4)[2] == SourceOrdinal(k);
    assert IntegralBytes(SourceOrdinal(l), 4)[2] == SourceOrdinal(l);
  }

  lemma KindTells(k: EventKind, l: EventKind)
    requires Comparable(IntegralBytes(KindOrdinal(k), 1), IntegralBytes(KindOrdinal(l), 1))
    ensures k == l
  {
    assert IntegralBytes(KindOrdinal(k), 1)[2] == KindOrdinal(k);
    assert IntegralBytes(KindOrdinal(l), 1)[2] == KindOrdinal(l);
  }

  lemma ProvenanceTells(p: Provenance, q: Provenance)
    requires Comparable(Concat(ProvenanceFields(p)), Concat(ProvenanceFields(q)))
    ensures p == q
  {
    var fs, gs := ProvenanceFields(p), ProvenanceFields(q);
    if Comparable(fs[1], gs[1]) {
      SourceTells(p.kind, q.kind);
    }
    if Comparable(fs[2], gs[2]) {
      StringTells(p.source, q.source);
    }
    if Comparable(fs[3], gs[3]) {
      IdCode();
      OptionalTells(p.modelRun, q.modelRun, IdBytes);
    }
    FieldsTell(fs, gs);
  }

  /** The same event as far as the encoding goes: its checksum is not hashed. */
  predicate SameEvent<P(==)>(d: Event<P>, e: Event<P>) {
    && d.sequence == e.sequence && d.kind == e.kind && d.validTime == e.validTime && d.recordedTime == e.recordedTime
    && d.worldline == e.worldline && d.payload == e.payload && d.previous == e.previous && d.source == e.source
  }

  lemma EventTells<P(!new)>(d: Event<P>, e: Event<P>, encode: P -> seq<Byte>)
    requires Code(encode) && Comparable(Concat(EventFields(d, encode)), Concat(EventFields(e, encode)))
    ensures SameEvent(d, e)
  {
    hide Concat, TagBytes, IdBytes, IntegralBytes, TimestampBytes, OptionalBytes, ProvenanceFields;
    var fs, gs := EventFields(d, encode), EventFields(e, encode);
    forall i | 0 <= i < 9 && Comparable(fs[i], gs[i])
      ensures fs[i] == gs[i] && (i == 1 ==> d.sequence == e.sequence) && (i == 2 ==> d.kind == e.kind)
      ensures (i == 3 ==> d.validTime == e.validTime) && (i == 4 ==> d.recordedTime == e.recordedTime)
      ensures (i == 5 ==> d.worldline == e.worldline) && (i == 6 ==> d.payload == e.payload)
      ensures (i == 7 ==> d.previous == e.previous) && (i == 8 ==> d.source == e.source)
    {
      match i
      case 1 => IdTells(d.sequence, e.sequence);
      case 2 => KindTells(d.kind, e.kind);
      case 3 => TimestampTells(d.validTime, e.validTime);
      case 4 => TimestampTells(d.recordedTime, e.recordedTime);
      case 5 => IdTells(d.worldline, e.worldline);
      case 7 =>
        IdCode();
        OptionalTells(d.previous, e.previous, IdBytes);
      case 8 => ProvenanceTells(d.source, e.source);
      case _ =>
    }
    FieldsTell(fs, gs);
    assert Comparable(fs[1], gs[1]) && Comparable(fs[2], gs[2]) && Comparable(fs[3], gs[3]) && Comparable(fs[4], gs[4]);
    assert Comparable(fs[5], gs[5]) && Comparable(fs[6], gs[6]) && Comparable(fs[7], gs[7]) && Comparable(fs[8], gs[8]);
  }

  /** A revision of a value with such an encoding has such an encoding, whatever the width of its memory identifier. */
  lemma RevisionCode<M(!new), V(!new)>(name: M -> seq<Byte>, encode: V -> seq<Byte>)
    requires Code(name) && Code(encode)
    ensures Code((r: MemoryRevision<M, V>) => Concat(RevisionFields(r, name, encode)))
  {
    forall x: MemoryRevision<M, V>, y: MemoryRevision<M, V>
      | Comparable(Concat(RevisionFields(x, name, encode)), Concat(RevisionFields(y, name, encode)))
      ensures x == y
    {
      RevisionTells(x, y, name, encode);
    }
  }

  lemma RevisionTells<M(!new), V(!new)>(x: MemoryRevision<M, V>, y: MemoryRevision<M, V>,
                                        name: M -> seq<Byte>, encode: V -> seq<Byte>)
    requires Code(name) && Code(encode)
    requires Comparable(Concat(RevisionFields(x, name, encode)), Concat(RevisionFields(y, name, encode)))
    ensures x == y
  {
    hide Concat, TagBytes, IdBytes, TimestampBytes;
    var fs, gs := RevisionFields(x, name, encode), RevisionFields(y, name, encode);
    forall i | 0 <= i < 6 && Comparable(fs[i], gs[i])
      ensures fs[i] == gs[i] && (i == 1 ==> x.memory == y.memory) && (i == 2 ==> x.perspective == y.perspective)
      ensures (i == 3 ==> x.valid.from == y.valid.from) && (i == 4 ==> x.valid.to == y.valid.to) &&
        (i == 5 ==> x.value == y.value)
    {
      match i
      case 2 => IdTells(x.perspective, y.perspective);
      case 3 => TimestampTells(x.valid.from, y.valid.from);
      case 4 => TimestampTells(x.valid.to, y.valid.to);
      case _ =>
    }
    FieldsTell(fs, gs);
    assert Comparable(fs[1], gs[1]) && Comparable(fs[2], gs[2]) && Comparable(fs[3], gs[3]) &&
           Comparable(fs[4], gs[4]) && Comparable(fs[5], gs[5]);
  }

  lemma {:induction false} EventsTell<P(!new)>(these: seq<Event<P>>, those: seq<Event<P>>, encode: P -> seq<Byte>)
    requires Code(encode) && |these| == |those| && Comparable(EventsBytes(these, encode), EventsBytes(those, encode))
    ensures forall i :: 0 <= i < |these| ==> SameEvent(these[i], those[i])
  {
    hide Concat, EventFields;
    if these == [] {
    } else {
      var n := |these| - 1;
      var a, b := EventsBytes(these[..n], encode), EventsBytes(those[..n], encode);
      var d, e := Concat(EventFields(these[n], encode)), Concat(EventFields(those[n], encode));
      PrefixesCompare(a, d, b, e);
      EventsTell(these[..n], those[..n], encode);
      SameEvents(these[..n], those[..n], encode);
      RestsCompare(a, d, e);
      EventTells(these[n], those[n], encode);
    }
  }

  /** The encoding of a list of events says nothing more than the events do. */
  lemma {:induction false} SameEvents<P(!new)>(these: seq<Event<P>>, those: seq<Event<P>>, encode: P -> seq<Byte>)
    requires |these| == |those| && forall i :: 0 <= i < |these| ==> SameEvent(these[i], those[i])
    ensures EventsBytes(these, encode) == EventsBytes(those, encode)
  {
    hide Concat;
    if these == [] {
    } else {
      SameEvents(these[..|these| - 1], those[..|those| - 1], encode);
    }
  }

  /**
    * The encoding of a log is uniquely decodable: logs say the same in every hashed field exactly
    * when one encoding starts with the other.
    */
  lemma LogTells<P(!new)>(these: seq<Event<P>>, those: seq<Event<P>>, encode: P -> seq<Byte>)
    requires Code(encode) && |these| <= INVALID_64 && |those| <= INVALID_64
    ensures Comparable(LogBytes(these, encode), LogBytes(those, encode)) <==>
      |these| == |those| && forall i :: 0 <= i < |these| ==> SameEvent(these[i], those[i])
  {
    hide EventsBytes;
    var a, b := LogHeader(|these|), LogHeader(|those|);
    var r, s := EventsBytes(these, encode), EventsBytes(those, encode);
    if Comparable(LogBytes(these, encode), LogBytes(those, encode)) {
      PrefixesCompare(a, r, b, s);
      HeaderTells(|these|, |those|);
      RestsCompare(a, r, s);
      EventsTell(these, those, encode);
    } else if |these| == |those| && forall i :: 0 <= i < |these| ==> SameEvent(these[i], those[i]) {
      SameEvents(these, those, encode);
    }
  }

  lemma HeaderTells(m: Id64, n: Id64)
    requires Comparable(LogHeader(m), LogHeader(n))
    ensures m == n
  {
    var tag := TagBytes("memorial.event_log.v1");
    RestsCompare(tag, IntegralBytes(m, 8), IntegralBytes(n, 8));
    WordPower();
    IntegralTells(m, n, 8);
  }

  /** Logs checked by one checksum function are equal outright. */
  lemma ValidLogTells<P(!new)>(these: seq<Event<P>>, those: seq<Event<P>>, checksumFor: ChecksumOf<P>,
                        encode: P -> seq<Byte>)
    requires Code(encode) && ValidLog(these, checksumFor) && ValidLog(those, checksumFor)
    ensures LogBytes(these, encode) == LogBytes(those, encode) ==> these == those
  {
    if LogBytes(these, encode) == LogBytes(those, encode) {
      LogTells(these, those, encode);
      forall i | 0 <= i < |these|
        ensures these[i] == those[i]
      {
        assert ValidEvent(these[i], i, checksumFor) && ValidEvent(those[i], i, checksumFor) &&
               SameEvent(these[i], those[i]);
      }
    }
  }

  // ---- The hasher ----

  class CanonicalHasher {
    var value: Id64
    ghost var stream: seq<Byte>

    ghost predicate Valid()
      reads this
    {
      value == Fnv(OFFSET_BASIS, stream)
    }

    constructor ()
      ensures Valid() && stream == []
    {
      value := OFFSET_BASIS;
      stream := [];
    }

    method AppendByte(byte: Byte)
      requires Valid()
      modifies this
      ensures Valid() && stream == old(stream) + [byte]
    {
      value := Step(value, byte);
      assert (stream + [byte])[..|stream|] == stream;
      stream := stream + [byte];
    }

    method AppendBytes(bytes: seq<Byte>)
      requires Valid()
      modifies this
      ensures Valid() && stream == old(stream) + bytes
    {
      for i := 0 to |bytes|
        invariant Valid() && stream == old(stream) + bytes[..i]
      {
        AppendByte(bytes[i]);
      }
    }

    method AppendUnsigned(unsigned: nat, width: Byte)
      requires Valid()
      modifies this
      ensures Valid() && stream == old(stream) + LittleEndian(unsigned, width)
    {
      var remaining := unsigned;
      ghost var done := [];
      for i := 0 to width
        invariant Valid() && stream == old(stream) + done
        invariant LittleEndian(unsigned, width) == done + LittleEndian(remaining, width - i)
      {
        AppendByte(remaining % 256);
        done := done + [remaining % 256];
        remaining := remaining / 256;
      }
    }

    method AppendTag(tag: string)
      requires Valid()
      modifies this
      ensures Valid() && stream == old(stream) + TagBytes(tag)
    {
      hide Fnv, Ascii;
      AppendByte(0xF0);
      AppendUnsigned(|tag|, 8);
      AppendBytes(Ascii(tag));
    }
  }

  method AppendBool(hasher: CanonicalHasher, value: bool)
    requires hasher.Valid()
    modifies hasher
    ensures hasher.Valid() && hasher.stream == old(hasher.stream) + BoolBytes(value)
  {
    hide Fnv;
    hasher.AppendByte(0x01);
    hasher.AppendByte(if value then 1 else 0);
  }

  method AppendIntegral(hasher: CanonicalHasher, value: nat, width: Byte)
    requires hasher.Valid()
    modifies hasher
    ensures hasher.Valid() && hasher.stream == old(hasher.stream) + IntegralBytes(value, width)
  {
    hide Fnv;
    hasher.AppendByte(0x02);
    hasher.AppendByte(width);
    hasher.AppendUnsigned(value, width);
  }

  method AppendString(hasher: CanonicalHasher, text: seq<Byte>)
    requires hasher.Valid()
    modifies hasher
    ensures hasher.Valid() && hasher.stream == old(hasher.stream) + StringBytes(text)
  {
    hide Fnv;
    hasher.AppendByte(0x04);
    hasher.AppendUnsigned(|text|, 8);
    hasher.AppendBytes(text);
  }

  method AppendId(hasher: CanonicalHasher, id: Id64)
    requires hasher.Valid()
    modifies hasher
    ensures hasher.Valid() && hasher.stream == old(hasher.stream) + IdBytes(id)
  {
    hide Fnv;
    hasher.AppendByte(0x05);
    hasher.AppendUnsigned(id, 8);
  }

  method AppendTimestamp(hasher: CanonicalHasher, time: Timestamp)
    requires hasher.Valid()
    modifies hasher
    ensures hasher.Valid() && hasher.stream == old(hasher.stream) + TimestampBytes(time)
  {
    hide Fnv, IntegralBytes;
    hasher.AppendByte(0x06);
    AppendIntegral(hasher, TwosComplement(time), 8);
  }

  method AppendOptional(hasher: CanonicalHasher, id: Option<Id64>)
    requires hasher.Valid()
    modifies hasher
    ensures hasher.Valid() && hasher.stream == old(hasher.stream) + OptionalBytes(id, IdBytes)
  {
    hide Fnv, BoolBytes, IdBytes;
    hasher.AppendByte(0x07);
    AppendBool(hasher, id.Some?);
    if id.Some? {
      AppendId(hasher, id.value);
    }
  }

  lemma NothingDone(before: seq<Byte>, fields: seq<seq<Byte>>)
    ensures before + Concat(fields[..0]) == before
  {
  }

  /** One more field is on the stream. */
  lemma FieldDone(before: seq<Byte>, fields: seq<seq<Byte>>, k: nat)
    requires k < |fields|
    ensures before + Concat(fields[..k]) + fields[k] == before + Concat(fields[..k + 1])
  {
    assert fields[..k + 1][..k] == fields[..k];
  }

  method AppendProvenance(hasher: CanonicalHasher, p: Provenance)
    requires hasher.Valid()
    modifies hasher
    ensures hasher.Valid() && hasher.stream == old(hasher.stream) + Concat(ProvenanceFields(p))
  {
    hide Fnv, TagBytes, IntegralBytes, StringBytes, OptionalBytes;
    ghost var before, fields := hasher.stream, ProvenanceFields(p);
    hasher.AppendTag("memorial.provenance.v1");
    FieldDone(before, fields, 0);
    AppendIntegral(hasher, SourceOrdinal(p.kind), 4);
    FieldDone(before, fields, 1);
    AppendString(hasher, p.source);
    FieldDone(before, fields, 2);
    AppendOptional(hasher, p.modelRun);
    FieldDone(before, fields, 3);
    assert fields[..4] == fields;
  }

  method AppendEvent<P>(hasher: CanonicalHasher, e: Event<P>, encode: P -> seq<Byte>)
    requires hasher.Valid()
    modifies hasher
    ensures hasher.Valid() && hasher.stream == old(hasher.stream) + Concat(EventFields(e, encode))
  {
    ghost var before, fields := hasher.stream, EventFields(e, encode);
    hide Fnv, Concat, TagBytes, IdBytes, IntegralBytes, TimestampBytes, OptionalBytes, ProvenanceFields;
    NothingDone(before, fields);
    hasher.AppendTag("memorial.graph_event.v1");
    FieldDone(before, fields, 0);
    AppendId(hasher, e.sequence);
    FieldDone(before, fields, 1);
    AppendIntegral(hasher, KindOrdinal(e.kind), 1);
    FieldDone(before, fields, 2);
    AppendTimestamp(hasher, e.validTime);
    FieldDone(before, fields, 3);
    AppendTimestamp(hasher, e.recordedTime);
    FieldDone(before, fields, 4);
    AppendId(hasher, e.worldline);
    FieldDone(before, fields, 5);
    hasher.AppendBytes(encode(e.payload));
    FieldDone(before, fields, 6);
    AppendOptional(hasher, e.previous);
    FieldDone(before, fields, 7);
    AppendProvenance(hasher, e.source);
    FieldDone(before, fields, 8);
    assert fields[..9] == fields;
  }

  /** The digest of a log is the FNV-1a hash of its encoding. */
  method CanonicalHashOfLog<P>(log: EventLog<P>, encode: P -> seq<Byte>) returns (digest: Id64)
    ensures digest == Fnv(OFFSET_BASIS, LogBytes(log.events, encode))
  {
    hide Fnv, TagBytes, IntegralBytes, EventFields;
    var hasher := new CanonicalHasher();
    hasher.AppendTag("memorial.event_log.v1");
    AppendIntegral(hasher, |log.events|, 8);
    for i := 0 to |log.events|
      invariant hasher.Valid() && hasher.stream == LogHeader(|log.events|) + EventsBytes(log.events[..i], encode)
    {
      AppendEvent(hasher, log.events[i], encode);
      assert log.events[..i + 1][..i] == log.events[..i];
    }
    assert log.events[..|log.events|] == log.events;
    return hasher.value;
  }

  // ---- The encodings byte by byte ----

  function ValueOf(bytes: seq<Byte>): nat {
    if bytes == [] then 0 else bytes[0] + 256 * ValueOf(bytes[1..])
  }

  /** Read back least significant first, the bytes give the integer modulo the word size. */
  lemma {:induction false} LittleEndianReads(value: nat, width: nat)
    ensures value < Power(8 * width) ==> ValueOf(LittleEndian(value, width)) == value
  {
    if width == 0 {
    } else {
      PowerOfByte(8 * (width - 1));
      LittleEndianReads(value / 256, width - 1);
      assert LittleEndian(value, width)[1..] == LittleEndian(value / 256, width - 1);
    }
  }

  /** Negative times wrap around the word. */
  lemma TwosComplementWraps(time: Timestamp)
    ensures (TwosComplement(time) - time) % TWO_64 == 0
  {
  }

  /** The enumerators in the order of their declaration. */
  const EVENT_KINDS: seq<EventKind> :=
    [EntityCreated, StateAppended, EdgeCreated, WorldlineForked, MemoryReinterpreted, ModelInferenceRecorded,
     SnapshotCompacted, Tombstone]

  const PROVENANCE_KINDS: seq<ProvenanceKind> := [Observed, SelfReported, Imported, Inferred, Simulated]

  lemma OrdinalsFollowDeclaration(kind: EventKind, source: ProvenanceKind)
    ensures KindOrdinal(kind) < |EVENT_KINDS| && EVENT_KINDS[KindOrdinal(kind)] == kind
    ensures SourceOrdinal(source) < |PROVENANCE_KINDS| && PROVENANCE_KINDS[SourceOrdinal(source)] == source
  {
  }

  /** Every kind of value begins with its own mark. */
  lemma EncodingExamples()
    ensures BoolBytes(true) == [1, 1] && BoolBytes(false) == [1, 0]
    ensures IntegralBytes(5, 1) == [2, 1, 5] && IntegralBytes(258, 2) == [2, 2, 2, 1]
    ensures StrongIdBytes(258, 2) == [5, 2, 1] && OptionalBytes<Id64>(None, IdBytes) == [7, 1, 0]
  {
  }

  lemma WordExamples()
    ensures LittleEndian(2, 8) == [2, 0, 0, 0, 0, 0, 0, 0]
    ensures LittleEndian(0xFFFF_FFFF_FFFF_FFFE, 8) == [254, 255, 255, 255, 255, 255, 255, 255]
  {
  }

  lemma LongExamples()
    ensures StringBytes([97, 98]) == [4, 2, 0, 0, 0, 0, 0, 0, 0, 97, 98]
    ensures TagBytes("ab") == [240, 2, 0, 0, 0, 0, 0, 0, 0, 97, 98]
    ensures TimestampBytes(-2) == [6, 2, 8, 254, 255, 255, 255, 255, 255, 255, 255]
    ensures OptionalBytes<Id64>(Some(2), IdBytes) == [7, 1, 1, 5, 2, 0, 0, 0, 0, 0, 0, 0]
  {
    hide LittleEndian;
    WordExamples();
    assert Ascii("ab") == [97, 98];
  }

  /** One event, field by field: when it was valid comes before when it was recorded. */
  lemma EventExample(checksum: Id64)
    ensures
      var source := Provenance(Imported, [97], None);
      var e := Event(1, StateAppended, 10, 20, 3, 42, Some(0), source, checksum);
      EventFields(e, (payload: int) => [payload % 256]) ==
        [TagBytes("memorial.graph_event.v1"),
         [5, 1, 0, 0, 0, 0, 0, 0, 0],
         [2, 1, 1],
         [6, 2, 8, 10, 0, 0, 0, 0, 0, 0, 0],
         [6, 2, 8, 20, 0, 0, 0, 0, 0, 0, 0],
         [5, 3, 0, 0, 0, 0, 0, 0, 0],
         [42],
         [7, 1, 1, 5, 0, 0, 0, 0, 0, 0, 0, 0],
         TagBytes("memorial.provenance.v1") + [2, 4, 2, 0, 0, 0] + [4, 1, 0, 0, 0, 0, 0, 0, 0, 97] + [7, 1, 0]]
  {
    hide TagBytes, Concat, LittleEndian, ProvenanceFields;
    SmallWord(0);
    SmallWord(1);
    SmallWord(3);
    SmallWord(10);
    SmallWord(20);
    ProvenanceExample();
    assert IdBytes(1) == [5, 1, 0, 0, 0, 0, 0, 0, 0] && IdBytes(3) == [5, 3, 0, 0, 0, 0, 0, 0, 0];
    assert TimestampBytes(10) == [6, 2, 8, 10, 0, 0, 0, 0, 0, 0, 0];
    assert TimestampBytes(20) == [6, 2, 8, 20, 0, 0, 0, 0, 0, 0, 0];
    assert OptionalBytes<Id64>(Some(0), IdBytes) == [7, 1, 1, 5, 0, 0, 0, 0, 0, 0, 0, 0];
    assert IntegralBytes(KindOrdinal(StateAppended), 1) == [2, 1, 1];
  }

  lemma SmallWord(byte: Byte)
    ensures LittleEndian(byte, 8) == [byte, 0, 0, 0, 0, 0, 0, 0] && LittleEndian(byte, 4) == [byte, 0, 0, 0]
    ensures LittleEndian(byte, 1) == [byte]
  {
    assert LittleEndian(0, 3) == [0, 0, 0];
    assert LittleEndian(0, 7) == [0, 0, 0, 0, 0, 0, 0];
    assert byte / 256 == 0 && byte % 256 == byte;
  }

  lemma ProvenanceExample()
    ensures Concat(ProvenanceFields(Provenance(Imported, [97], None))) ==
      TagBytes("memorial.provenance.v1") + [2, 4, 2, 0, 0, 0] + [4, 1, 0, 0, 0, 0, 0, 0, 0, 97] + [7, 1, 0]
  {
    hide TagBytes, LittleEndian;
    SmallWord(1);
    SmallWord(2);
    var f := ProvenanceFields(Provenance(Imported, [97], None));
    assert f[1] == [2, 4, 2, 0, 0, 0] && f[2] == [4, 1, 0, 0, 0, 0, 0, 0, 0, 97] && f[3] == [7, 1, 0];
    FourFields(f);
  }

  lemma FourFields(f: seq<seq<Byte>>)
    requires |f| == 4
    ensures Concat(f) == f[0] + f[1] + f[2] + f[3]
  {
    hide Concat;
    FirstField(f);
    ConcatMore(f, 1);
    ConcatMore(f, 2);
    ConcatMore(f, 3);
    assert f[..4] == f;
  }

  lemma FirstField(f: seq<seq<Byte>>)
    requires f != []
    ensures Concat(f[..1]) == f[0]
  {
    assert f[..1][..0] == [];
  }

  lemma ConcatMore(f: seq<seq<Byte>>, k: nat)
    requires k < |f|
    ensures Concat(f[..k + 1]) == Concat(f[..k]) + f[k]
  {
    assert f[..k + 1][..k] == f[..k];
  }
}
