/** The protocol buffer wire format, described without the encoder and the decoder: a message is a sequence of records, a
    tag and a wire type each with a payload of the form that the wire type says. What nanopb writes has this form, and a
    reader steps over any record by its wire type alone. */
module WireFormat {
  import opened Wrappers
  import opened SeqFacts
  import opened Varint
  import V = Varint
  import opened Message
  import opened RoundTrip

  datatype Record = Record(tag: nat, wire: nat, payload: seq<Byte>)

  /** Bytes with the top bit set, and one without. */
  predicate IsVarint(b: seq<Byte>) {
    b != [] && b[|b| - 1] < 128 && forall i :: 0 <= i < |b| - 1 ==> b[i] >= 128
  }

  /** A length and that many bytes. */
  predicate IsPrefixed(b: seq<Byte>, n: nat) { 0 < n <= |b| && IsVarint(b[..n]) && V.Value(b[..n]) == |b| - n }

  /** The payload of each wire type: 0 a varint, 1 eight bytes, 2 bytes with their length, 5 four bytes. */
  ghost predicate IsPayload(wire: nat, b: seq<Byte>) {
    || (wire == 0 && IsVarint(b))
    || (wire == 1 && |b| == 8)
    || (wire == 2 && exists n :: IsPrefixed(b, n))
    || (wire == 5 && |b| == 4)
  }

  /** The number of the field times eight plus the wire type, as a varint, and the payload. */
  function Spell(r: Record): seq<Byte> { Encode(8 * r.tag + r.wire) + r.payload }

  function SpellAll(rs: seq<Record>): seq<Byte> { if rs == [] then [] else Spell(rs[0]) + SpellAll(rs[1..]) }

  // ---- What is written has this form ----

  lemma {:induction false} VarintForm(v: nat)
    ensures IsVarint(Encode(v)) && V.Value(Encode(v)) == v
    decreases v
  {
    EncodeMeans(v, []);
    NothingAround(Encode(v));
    if v >= 128 {
      VarintForm(v / 128);
      OneMoreByte(v % 128 + 128, Encode(v / 128));
    }
  }

  lemma {:induction false} OneMoreByte(b: Byte, t: seq<Byte>)
    requires b >= 128 && IsVarint(t)
    ensures IsVarint([b] + t)
  {
    var e := [b] + t;
    forall i | 0 <= i < |e| - 1 ensures e[i] >= 128 { if i > 0 { assert e[i] == t[i - 1]; } }
    assert e[|e| - 1] == t[|t| - 1];
  }

  lemma {:induction false} PrefixedForm(c: seq<Byte>)
    ensures IsPayload(2, Encode(|c|) + c)
  {
    var b, n := Encode(|c|) + c, |Encode(|c|)|;
    VarintForm(|c|);
    Suffix(Encode(|c|), c);
    assert IsPrefixed(b, n);
  }

  lemma {:induction false} LittleEndianLength(n: int, size: nat)
    ensures |LittleEndian(n, size)| == size
    decreases size
  {
    if size > 0 { LittleEndianLength(n / 256, size - 1); }
  }

  /** What is written for a value is a payload of the wire type of its kind. */
  lemma {:induction false} KindForm(kind: Kind, v: Value)
    requires EncKind(kind, v).Some?
    ensures IsPayload(WireType(kind), EncKind(kind, v).value)
  {
    match v
    case Num(n) =>
      LittleEndianLength(n, 4);
      LittleEndianLength(n, 8);
      if !kind.Fixed32? && !kind.Fixed64? { NumberForm(kind, n); }
    case Data(b) => PrefixedForm(b);
    case Msg(slots) => if kind.Sub? { PrefixedForm(EncMsg(kind.fields, slots).value); }
  }

  lemma {:induction false} NumberForm(kind: Kind, n: int)
    requires EncNum(kind, n).Some? && !kind.Fixed32? && !kind.Fixed64?
    ensures IsVarint(EncNum(kind, n).value)
  {
    VarintForm(if n != 0 then 1 else 0);
    VarintForm(Unsigned64(n));
    VarintForm(ZigZag(Signed64(Unsigned64(n))));
  }

  /** The number whose bytes these are, the lowest first. */
  function Four(b: seq<Byte>): int
    requires |b| == 4
  {
    (b[0] as int) + 0x100 * (b[1] as int) + 0x1_0000 * (b[2] as int) + 0x100_0000 * (b[3] as int)
  }

  function Eight(b: seq<Byte>): int
    requires |b| == 8
  {
    Four(b[..4]) + 0x1_0000_0000 * Four(b[4..])
  }

  lemma {:induction false} FourBytes(b: seq<Byte>, rest: seq<Byte>)
    requires |b| == 4
    ensures FromLittleEndian(b + rest) == Four(b) + 0x1_0000_0000 * FromLittleEndian(rest)
  {
    var s := b + rest;
    assert s[1..] == b[1..] + rest && s[1..][1..] == b[2..] + rest && s[1..][1..][1..] == b[3..] + rest;
    assert s[1..][1..][1..][1..] == rest;
    assert FromLittleEndian(s) == s[0] + 256 * FromLittleEndian(s[1..]);
    assert FromLittleEndian(s[1..]) == s[1] + 256 * FromLittleEndian(s[1..][1..]);
    assert FromLittleEndian(s[1..][1..]) == s[2] + 256 * FromLittleEndian(s[1..][1..][1..]);
    assert FromLittleEndian(s[1..][1..][1..]) == s[3] + 256 * FromLittleEndian(rest);
  }

  lemma {:induction false} Fixed32OnTheWire(n: int)
    requires 0 <= n < 0x1_0000_0000
    ensures |LittleEndian(n, 4)| == 4 && Four(LittleEndian(n, 4)) == n
  {
    var b := LittleEndian(n, 4);
    Widths();
    LittleEndianTrips(n, 4);
    NothingAround(b);
    FourBytes(b, []);
  }

  lemma {:induction false} Fixed64OnTheWire(n: int)
    requires 0 <= n < 0x1_0000_0000_0000_0000
    ensures |LittleEndian(n, 8)| == 8 && Eight(LittleEndian(n, 8)) == n
  {
    Widths();
    LittleEndianTrips(n, 8);
    EightBytes(LittleEndian(n, 8));
  }

  lemma {:induction false} EightBytes(b: seq<Byte>)
    requires |b| == 8
    ensures FromLittleEndian(b) == Eight(b)
  {
    assert b == b[..4] + b[4..];
    NothingAround(b[4..]);
    FourBytes(b[..4], b[4..]);
    FourBytes(b[4..], []);
  }

  lemma {:induction false} Pattern(n: I64)
    ensures Unsigned64(n) == (if n < 0 then n + 0x1_0000_0000_0000_0000 else n) && Signed64(Unsigned64(n)) == n
  {
  }

  lemma {:induction false} IntOnTheWire(n: I64)
    ensures V.Value(Encode(Unsigned64(n))) == if n < 0 then n + 0x1_0000_0000_0000_0000 else n
  {
    Pattern(n);
    VarintForm(Unsigned64(n));
  }

  lemma {:induction false} SIntOnTheWire(n: I64)
    ensures V.Value(Encode(ZigZag(Signed64(Unsigned64(n))))) == if n < 0 then -2 * n - 1 else 2 * n
  {
    Pattern(n);
    VarintForm(ZigZag(n));
    ZigZagMeans(n);
  }

  /** The number that the bytes written for a value stand for. */
  predicate OnTheWire(kind: Kind, n: int, e: seq<Byte>) {
    match kind
    case Bool => V.Value(e) == n
    case Int(_) => V.Value(e) == if n < 0 then n + 0x1_0000_0000_0000_0000 else n
    case UInt(_) => V.Value(e) == n
    case SInt(_) => V.Value(e) == if n < 0 then -2 * n - 1 else 2 * n
    case Fixed32 => |e| == 4 && Four(e) == n
    case Fixed64 => |e| == 8 && Eight(e) == n
    case _ => true
  }

  lemma {:induction false} SignedOnTheWire(kind: Kind, n: int)
    requires (kind.Int? || kind.SInt?) && EncNum(kind, n).Some? && HasKind(kind, Num(n))
    ensures OnTheWire(kind, n, EncNum(kind, n).value)
  {
    NarrowRange(n, kind.size);
    if kind.Int? { IntOnTheWire(n); } else { SIntOnTheWire(n); }
  }

  lemma {:induction false} UnsignedRange(n: int, size: nat)
    requires NarrowUnsigned(n, size) == n
    ensures 0 <= n < 0x1_0000_0000_0000_0000 && Unsigned64(n) == n
  {
  }

  lemma {:induction false} UIntOnTheWire(kind: Kind, n: int)
    requires kind.UInt? && EncNum(kind, n).Some? && NarrowUnsigned(n, kind.size) == n
    ensures OnTheWire(kind, n, EncNum(kind, n).value)
  {
    UnsignedRange(n, kind.size);
    VarintForm(Unsigned64(n));
  }

  lemma {:induction false} BoolOnTheWire(n: int)
    requires n == 0 || n == 1
    ensures OnTheWire(Bool, n, EncNum(Bool, n).value)
  {
    VarintForm(n);
  }

  lemma {:induction false} BytesOnTheWire(kind: Kind, n: int)
    requires (kind.Fixed32? || kind.Fixed64?) && HasKind(kind, Num(n))
    ensures OnTheWire(kind, n, EncNum(kind, n).value)
  {
    if kind.Fixed32? { Fixed32OnTheWire(n); } else { Fixed64OnTheWire(n); }
  }

  /** The numbers that stand for a value on the wire: 0 or 1; two's complement in 64 bits; the number itself; the zigzag
      code; and the bytes of a number, the lowest first. */
  lemma {:induction false} NumberOnTheWire(kind: Kind, n: int)
    requires EncNum(kind, n).Some? && HasKind(kind, Num(n))
    ensures OnTheWire(kind, n, EncNum(kind, n).value)
  {
    if kind.Int? || kind.SInt? {
      SignedOnTheWire(kind, n);
    } else if kind.Bool? {
      BoolOnTheWire(n);
    } else if kind.UInt? {
      UIntOnTheWire(kind, n);
    } else if kind.Fixed32? || kind.Fixed64? {
      BytesOnTheWire(kind, n);
    }
  }

  // ---- Fields and messages are records ----

  /** Records of one field: all with its number, the wire type of its kind or that of a packed array. */
  ghost predicate OfField(f: Field, rs: seq<Record>) {
    forall r :: r in rs ==>
      && r.tag == f.tag && IsPayload(r.wire, r.payload)
      && r.wire == (if f.rule.Repeated? && Packable(f.kind) then 2 else WireType(f.kind))
  }

  lemma {:induction false} SpellOne(r: Record)
    ensures SpellAll([r]) == Spell(r)
  {
    assert [r][1..] == [];
    NothingAround(Spell(r));
  }

  lemma {:induction false} SpellConcat(a: seq<Record>, b: seq<Record>)
    ensures SpellAll(a + b) == SpellAll(a) + SpellAll(b)
    decreases |a|
  {
    if a == [] {
      NothingAround(b);
      NothingAround(SpellAll(b));
    } else {
      SpellConcat(a[1..], b);
      assert (a + b)[1..] == a[1..] + b;
      Associates(Spell(a[0]), SpellAll(a[1..]), SpellAll(b));
    }
  }

  /** A single value is one record. */
  lemma {:induction false} TaggedRecord(f: Field, v: Value) returns (r: Record)
    requires EncTagged(f, v).Some?
    ensures r.tag == f.tag && r.wire == WireType(f.kind) && IsPayload(r.wire, r.payload) && EncTagged(f, v).value == Spell(r)
  {
    KindForm(f.kind, v);
    r := Record(f.tag, WireType(f.kind), EncKind(f.kind, v).value);
  }

  lemma {:induction false} ItemRecords(f: Field, items: seq<Value>) returns (rs: seq<Record>)
    requires f.rule.Repeated? && !Packable(f.kind) && EncAll(Tagger(f), items).Some?
    ensures OfField(f, rs) && |rs| == |items| && EncAll(Tagger(f), items).value == SpellAll(rs)
    decreases |items|
  {
    rs := [];
    if items != [] {
      var r := TaggedRecord(f, items[0]);
      var more := ItemRecords(f, items[1..]);
      rs := [r] + more;
      assert rs[1..] == more;
    }
  }

  lemma {:induction false} SingleRecord(f: Field, v: Value) returns (rs: seq<Record>)
    requires !f.rule.Repeated? && EncTagged(f, v).Some?
    ensures rs != [] && OfField(f, rs) && EncTagged(f, v).value == SpellAll(rs)
  {
    var r := TaggedRecord(f, v);
    rs := [r];
    SpellOne(r);
  }

  lemma {:induction false} PackedRecord(f: Field, c: seq<Byte>) returns (rs: seq<Record>)
    requires f.rule.Repeated? && Packable(f.kind)
    ensures rs != [] && OfField(f, rs) && Header(f.tag, 2) + (Encode(|c|) + c) == SpellAll(rs)
  {
    PrefixedForm(c);
    var r := Record(f.tag, 2, Encode(|c|) + c);
    rs := [r];
    SpellOne(r);
  }

  lemma {:induction false} ArrayRecords(f: Field, items: seq<Value>) returns (rs: seq<Record>)
    requires f.rule.Repeated? && items != [] && EncField(f, Many(items)).Some?
    ensures rs != [] && OfField(f, rs) && EncField(f, Many(items)).value == SpellAll(rs)
  {
    if Packable(f.kind) {
      rs := PackedRecord(f, EncPacked(f.kind, items).value);
    } else {
      assert EncField(f, Many(items)) == EncAll(Tagger(f), items);
      rs := ItemRecords(f, items);
    }
  }

  /** What is written for a field is a sequence of records of that field; none if it is absent. */
  lemma {:induction false} FieldRecords(f: Field, slot: Slot) returns (rs: seq<Record>)
    requires EncField(f, slot).Some?
    ensures OfField(f, rs) && EncField(f, slot).value == SpellAll(rs) && (rs != [] <==> Occurs(f, slot))
  {
    rs := [];
    match f.rule
    case Required => rs := SingleRecord(f, slot.v);
    case Optional => if slot.has { rs := SingleRecord(f, slot.v); }
    case Repeated(_) => if slot.items != [] { rs := ArrayRecords(f, slot.items); }
    case Oneof(_) => if slot.choice.Some? && slot.choice.value.0 == f.tag { rs := SingleRecord(f, slot.choice.value.1); }
  }

  /** Records, each of them of some field from number k on, those of earlier fields before those of later ones. */
  ghost predicate OfFields(fs: seq<Field>, k: nat, parts: seq<seq<Record>>) {
    k <= |fs| && |parts| == |fs| - k && forall i :: 0 <= i < |parts| ==> OfField(fs[k + i], parts[i])
  }

  function Flat(parts: seq<seq<Record>>): seq<Record> { if parts == [] then [] else parts[0] + Flat(parts[1..]) }

  lemma {:induction false} FieldsRecords(fs: seq<Field>, slots: seq<Slot>, k: nat) returns (parts: seq<seq<Record>>)
    requires k <= |fs| && EncFields(fs, Encoder(fs), slots, k).Some?
    ensures OfFields(fs, k, parts) && EncFields(fs, Encoder(fs), slots, k).value == SpellAll(Flat(parts))
    decreases |fs| - k
  {
    parts := [];
    if k < |fs| {
      EncFieldsStep(fs, Encoder(fs), slots, k);
      var rs := FieldRecords(fs[k], slots[SlotAt(fs, k)]);
      var more := FieldsRecords(fs, slots, k + 1);
      parts := [rs] + more;
      PartsCons(fs, k, rs, more);
    }
  }

  lemma {:induction false} PartsCons(fs: seq<Field>, k: nat, rs: seq<Record>, more: seq<seq<Record>>)
    requires k < |fs| && OfField(fs[k], rs) && OfFields(fs, k + 1, more)
    ensures OfFields(fs, k, [rs] + more) && SpellAll(Flat([rs] + more)) == SpellAll(rs) + SpellAll(Flat(more))
  {
    var parts := [rs] + more;
    assert parts[1..] == more;
    SpellConcat(rs, Flat(more));
    forall i | 0 <= i < |parts| ensures OfField(fs[k + i], parts[i]) {
      if i > 0 { assert parts[i] == more[i - 1] && OfField(fs[k + 1 + (i - 1)], more[i - 1]); }
    }
  }

  /** Every message that is written is a sequence of records, those of each field in the order of the descriptor. */
  lemma {:induction false} MessageRecords(fs: seq<Field>, slots: seq<Slot>) returns (parts: seq<seq<Record>>)
    requires EncMsg(fs, slots).Some?
    ensures OfFields(fs, 0, parts) && EncMsg(fs, slots).value == SpellAll(Flat(parts))
  {
    parts := FieldsRecords(fs, slots, 0);
  }

  // ---- Stepping over a record ----

  /** A payload is stepped over by its wire type alone, whatever follows. */
  lemma {:induction false} VarintSkipped(b: seq<Byte>, rest: seq<Byte>)
    requires IsVarint(b)
    ensures Span(b + rest) == |b|
    decreases |b|
  {
    if b[0] >= 128 {
      assert (b + rest)[1..] == b[1..] + rest;
      VarintSkipped(b[1..], rest);
    }
  }

  lemma {:induction false} PayloadSkipped(wire: nat, b: seq<Byte>, rest: seq<Byte>)
    requires IsPayload(wire, b) && wire != 2
    ensures Skip(wire, b + rest) == Some(rest)
  {
    Suffix(b, rest);
    if wire == 0 { VarintSkipped(b, rest); }
  }

  lemma {:induction false} PrefixedSkipped(c: seq<Byte>, rest: seq<Byte>)
    requires |c| < LIMIT
    ensures Skip(2, Encode(|c|) + c + rest) == if |c| < 0x1_0000_0000 then Some(rest) else None
  {
    SubstreamTrips(c, rest);
  }

  /** The length written for a value can be read back. */
  predicate Readable(kind: Kind, v: Value) {
    match v
    case Num(_) => true
    case Data(b) => |b| < 0x1_0000_0000
    case Msg(slots) => kind.Sub? ==> ShortLength(READABLE, EncMsg(kind.fields, slots))
  }

  /** A value of any kind is stepped over by the wire type of the kind, exactly if its length is below 2^32. */
  lemma {:induction false} KindSkipped(kind: Kind, v: Value, rest: seq<Byte>)
    requires EncKind(kind, v).Some? && |EncKind(kind, v).value| < LIMIT
    ensures Skip(WireType(kind), EncKind(kind, v).value + rest) == if Readable(kind, v) then Some(rest) else None
  {
    KindForm(kind, v);
    match v
    case Num(n) => PayloadSkipped(WireType(kind), EncKind(kind, v).value, rest);
    case Data(b) => PrefixedSkipped(b, rest);
    case Msg(slots) => PrefixedSkipped(EncMsg(kind.fields, slots).value, rest);
  }
}
