/** Decoding what was encoded gives the message back. */
module RoundTrip {
  import opened Wrappers
  import opened Varint
  import opened Message

  // ---- Well-formed descriptors and values ----

  /** Field numbers as the language allows them, 1 to 2^29 - 1, all different, at every depth. */
  predicate WellFormed(fs: seq<Field>)
    decreases fs
  {
    && (forall j, k :: 0 <= j < k < |fs| ==> fs[j].tag != fs[k].tag)
    && forall k :: 0 <= k < |fs| ==> WellFormedField(fs[k])
  }

  predicate WellFormedField(f: Field)
    decreases f
  {
    0 < f.tag < 0x2000_0000 && (f.kind.Sub? ==> WellFormed(f.kind.fields))
  }

  /** What the memory of a field of a kind can hold; a string that fills its array has no terminator. */
  predicate HasKind(kind: Kind, v: Value)
    decreases kind, 0
  {
    match kind
    case Bool => v == Num(0) || v == Num(1)
    case Int(size) => v.Num? && Narrow(v.n, size) == v.n
    case UInt(size) => v.Num? && NarrowUnsigned(v.n, size) == v.n
    case SInt(size) => v.Num? && Narrow(v.n, size) == v.n
    case Fixed32 => v.Num? && 0 <= v.n < 0x1_0000_0000
    case Fixed64 => v.Num? && 0 <= v.n < 0x1_0000_0000_0000_0000
    case Blob(_) => v.Data?
    case Text(size) => v.Data? && |v.bytes| <= size && 0 !in v.bytes
    case Sub(fs) => v.Msg? && Fits(fs, v.slots)
  }

  predicate HasRule(f: Field, slot: Slot)
    decreases f, 1
  {
    match f.rule
    case Required => slot.One? && HasKind(f.kind, slot.v)
    case Optional => slot.Maybe? && (slot.has ==> HasKind(f.kind, slot.v))
    case Repeated(_) => slot.Many? && forall i :: 0 <= i < |slot.items| ==> HasKind(f.kind, slot.items[i])
    case Oneof(_) =>
      slot.Union? && (slot.choice.Some? && slot.choice.value.0 == f.tag ==> HasKind(f.kind, slot.choice.value.1))
  }

  /** A struct laid out as the descriptor says. */
  predicate Fits(fs: seq<Field>, slots: seq<Slot>)
    decreases fs, 1
  {
    |slots| == SlotCount(fs) && forall k :: 0 <= k < |fs| ==> HasRuleAt(fs, k, slots)
  }

  predicate HasRuleAt(fs: seq<Field>, k: nat, slots: seq<Slot>)
    requires k < |fs|
    decreases fs, 0
  {
    SlotAt(fs, k) < |slots| && HasRule(fs[k], slots[SlotAt(fs, k)])
  }

  // ---- Lengths ----

  /** What is asked of the strings, bytes, packed arrays and submessages in a message: a bound on their lengths, and
      perhaps that strings leave room for a terminator. */
  datatype Bound = Bound(length: nat, terminated: bool)

  /** Lengths are written with 64 bits and read back with 32, and strings are read with a terminator. */
  const READABLE: Bound := Bound(0x1_0000_0000, true)

  /** No object has as many bytes as this. */
  const LIMIT: nat := 0x8000_0000_0000_0000

  /** Strings have a terminator. */
  const TERMINATED: Bound := Bound(LIMIT, true)

  predicate ShortLength(bound: Bound, e: Option<seq<Byte>>) { e.Some? ==> |e.value| < bound.length }

  /** A value keeps to a bound at every depth. */
  predicate Short(bound: Bound, kind: Kind, v: Value)
    decreases kind, 0
  {
    match v
    case Num(_) => true
    case Data(b) => |b| < bound.length && (bound.terminated && kind.Text? ==> |b| < kind.size)
    case Msg(slots) =>
      kind.Sub? ==> ShortLength(bound, EncMsg(kind.fields, slots)) && ShortMsg(bound, kind.fields, slots)
  }

  predicate AllShort(bound: Bound, kind: Kind, items: seq<Value>)
    decreases kind, 1
  {
    forall i :: 0 <= i < |items| ==> Short(bound, kind, items[i])
  }

  predicate ShortField(bound: Bound, f: Field, slot: Slot)
    decreases f, 2
  {
    match slot
    case One(v) => f.rule.Required? ==> Short(bound, f.kind, v)
    case Maybe(has, v) => f.rule.Optional? && has ==> Short(bound, f.kind, v)
    case Many(items) =>
      f.rule.Repeated? ==>
        if Packable(f.kind) then ShortLength(bound, EncPacked(f.kind, items)) else AllShort(bound, f.kind, items)
    case Union(choice) =>
      f.rule.Oneof? && choice.Some? && choice.value.0 == f.tag ==> Short(bound, f.kind, choice.value.1)
  }

  predicate ShortMsg(bound: Bound, fs: seq<Field>, slots: seq<Slot>)
    decreases fs, 1
  {
    forall k :: 0 <= k < |fs| ==> ShortAt(bound, fs, k, slots)
  }

  predicate ShortAt(bound: Bound, fs: seq<Field>, k: nat, slots: seq<Slot>)
    requires k < |fs|
    decreases fs, 0
  {
    SlotAt(fs, k) < |slots| ==> ShortField(bound, fs[k], slots[SlotAt(fs, k)])
  }

  // ---- What comes back ----

  function Restored(kind: Kind, v: Value): Value
    decreases kind, 0
  {
    if kind.Sub? && v.Msg? then Msg(After(kind.fields, v.slots, |kind.fields|)) else v
  }

  function RestoredAll(kind: Kind, items: seq<Value>): seq<Value>
    decreases kind, 1, |items|
  {
    if items == [] then [] else [Restored(kind, items[0])] + RestoredAll(kind, items[1..])
  }

  /** A slot after the encoding of one field has been read. */
  function Merge(f: Field, cur: Slot, slot: Slot): Slot
    decreases f, 2
  {
    match f.rule
    case Required => if slot.One? then One(Restored(f.kind, slot.v)) else cur
    case Optional => if slot.Maybe? && slot.has then Maybe(true, Restored(f.kind, slot.v)) else cur
    case Repeated(_) => if slot.Many? then Many(RestoredAll(f.kind, slot.items)) else cur
    case Oneof(_) =>
      if slot.Union? && slot.choice.Some? && slot.choice.value.0 == f.tag
      then Union(Some((f.tag, Restored(f.kind, slot.choice.value.1)))) else cur
  }

  /** The struct after the encodings of the first n fields have been read. */
  function After(fs: seq<Field>, slots: seq<Slot>, n: nat): seq<Slot>
    requires n <= |fs|
    decreases fs, n
  {
    if n == 0 then Defaults(fs, |fs|)
    else
      var before, at := After(fs, slots, n - 1), SlotAt(fs, n - 1);
      if at < |before| && at < |slots| then before[at := Merge(fs[n - 1], before[at], slots[at])] else before
  }

  // ---- Numbers ----

  lemma {:induction false} LittleEndianTrips(n: nat, size: nat)
    requires n < Shl(1, 8 * size)
    ensures |LittleEndian(n, size)| == size && FromLittleEndian(LittleEndian(n, size)) == n
    decreases size
  {
    if size > 0 {
      ByteDown(n, size);
      LittleEndianTrips(n / 256, size - 1);
      assert LittleEndian(n, size)[1..] == LittleEndian(n / 256, size - 1);
    }
  }

  lemma {:induction false} ByteDown(n: nat, size: nat)
    requires size > 0 && n < Shl(1, 8 * size)
    ensures n / 256 < Shl(1, 8 * (size - 1))
  {
    var p := 8 * size - 8;
    ShlSeven(1, p);
    assert Shl(1, p + 8) == 2 * Shl(1, p + 7);
  }

  lemma {:induction false} Widths()
    ensures Shl(1, 8 * 4) == 0x1_0000_0000 && Shl(1, 8 * 8) == 0x1_0000_0000_0000_0000
  {
    ShlIsPlace(1, 4);
    ShlIsPlace(1, 9);
    assert Shl(1, 29) == 2 * Shl(1, 28) && Shl(1, 30) == 2 * Shl(1, 29);
    assert Shl(1, 31) == 2 * Shl(1, 30) && Shl(1, 32) == 2 * Shl(1, 31);
    assert Shl(1, 64) == 2 * Shl(1, 63);
  }

  lemma {:induction false} NarrowPattern(n: int)
    ensures -0x8000_0000 <= n < 0x8000_0000 ==> Narrow(Unsigned64(n), 4) == n
    ensures -0x8000_0000_0000_0000 <= n < 0x8000_0000_0000_0000 ==> Narrow(Unsigned64(n), 8) == n
  {
    var u: int := Unsigned64(n);
    if -0x8000_0000_0000_0000 <= n < 0x8000_0000_0000_0000 {
      var q := if n < 0 then 1 else 0;
      assert u == n + 0x1_0000_0000_0000_0000 * q;
      assert u + 0x8000_0000 == (n + 0x8000_0000) + 0x1_0000_0000 * (0x1_0000_0000 * q);
    }
  }

  lemma {:induction false} NarrowRange(n: int, size: nat)
    requires KnownSize(size) && Narrow(n, size) == n
    ensures -0x8000_0000_0000_0000 <= n < 0x8000_0000_0000_0000 && (size != 8 ==> -0x8000_0000 <= n < 0x8000_0000)
  {
  }

  lemma {:induction false} ClampInt(size: nat, n: int)
    requires KnownSize(size) && Narrow(n, size) == n
    ensures Clamp(Int(size), Unsigned64(n)) == Some(n)
  {
    NarrowRange(n, size);
    NarrowPattern(n);
  }

  lemma {:induction false} ClampUInt(size: nat, n: int)
    requires KnownSize(size) && NarrowUnsigned(n, size) == n
    ensures Clamp(UInt(size), Unsigned64(n)) == Some(n)
  {
  }

  lemma {:induction false} ClampSInt(size: nat, n: int)
    requires KnownSize(size) && Narrow(n, size) == n
    ensures Clamp(SInt(size), ZigZag(Signed64(Unsigned64(n)))) == Some(n)
  {
    assert Signed64(Unsigned64(n)) == n;
    ZigZagInverse(n, 0);
  }

  lemma {:induction false} Suffix(a: seq<Byte>, b: seq<Byte>)
    ensures (a + b)[|a|..] == b && (a + b)[..|a|] == a
  {
  }

  lemma {:induction false} FixedTrips(n: nat, size: nat, rest: seq<Byte>)
    requires n < Shl(1, 8 * size)
    ensures var s := LittleEndian(n, size) + rest;
      |s| >= size && FromLittleEndian(s[..size]) == n && s[size..] == rest
  {
    LittleEndianTrips(n, size);
    Suffix(LittleEndian(n, size), rest);
  }

  /** A 64-bit varint field. */
  lemma {:induction false} VarintTrips(kind: Kind, u: U64, n: int, rest: seq<Byte>)
    requires (kind.Int? || kind.UInt? || kind.SInt?) && Clamp(kind, u) == Some(n)
    ensures DecNum(kind, Encode(u) + rest) == Some((Num(n), rest))
  {
    Inverse64(u, rest);
    Suffix(Encode(u), rest);
  }

  lemma {:induction false} BoolTrips(n: int, rest: seq<Byte>)
    requires n == 0 || n == 1
    ensures DecNum(Bool, Encode(n) + rest) == Some((Num(n), rest))
  {
    Inverse32(n, rest);
    Suffix(Encode(n), rest);
  }

  /** Every number comes back, whatever follows, and takes at least a byte. */
  lemma {:induction false} NumTrips(kind: Kind, v: Value, rest: seq<Byte>)
    requires Packable(kind) && HasKind(kind, v) && EncNumber(kind, v).Some?
    ensures EncNumber(kind, v).value != []
    ensures DecNum(kind, EncNumber(kind, v).value + rest) == Some((v, rest))
  {
    match kind
    case Bool => BoolTrips(v.n, rest);
    case Int(size) => ClampInt(size, v.n); VarintTrips(kind, Unsigned64(v.n), v.n, rest);
    case UInt(size) => ClampUInt(size, v.n); VarintTrips(kind, Unsigned64(v.n), v.n, rest);
    case SInt(size) => ClampSInt(size, v.n); VarintTrips(kind, ZigZag(Signed64(Unsigned64(v.n))), v.n, rest);
    case Fixed32 => Widths(); FixedTrips(v.n, 4, rest);
    case Fixed64 => Widths(); FixedTrips(v.n, 8, rest);
  }

  // ---- Strings, bytes and substreams ----

  lemma {:induction false} SubstreamTrips(b: seq<Byte>, rest: seq<Byte>)
    requires |b| < LIMIT
    ensures Substream(Encode(|b|) + b + rest) == if |b| < 0x1_0000_0000 then Some((b, rest)) else None
  {
    var head := Encode(|b|);
    assert head + b + rest == head + (b + rest);
    if |b| < 0x1_0000_0000 {
      Inverse32(|b|, b + rest);
      Suffix(head, b + rest);
      assert (head + (b + rest))[|head|..|head| + |b|] == b;
      assert (head + (b + rest))[|head| + |b|..] == rest;
    } else {
      RejectsLong(|b|, b + rest);
    }
  }

  lemma {:induction false} CStringWhole(kind: Kind, b: seq<Byte>)
    requires kind.Text? ==> 0 !in b
    ensures kind.Text? ==> CString(b) == b
    decreases |b|
  {
    if kind.Text? && b != [] {
      assert b[0] in b;
      CStringWhole(kind, b[1..]);
    }
  }

  lemma {:induction false} DataTrips(kind: Kind, v: Value, rest: seq<Byte>)
    requires (kind.Blob? || kind.Text?) && HasKind(kind, v) && EncKind(kind, v).Some? && |v.bytes| < LIMIT
    ensures DecData(kind, EncKind(kind, v).value + rest) == if Short(READABLE, kind, v) then Some((v, rest)) else None
  {
    var b, head := v.bytes, Encode(|v.bytes|);
    assert head + b + rest == head + (b + rest);
    if |b| < 0x1_0000_0000 {
      Inverse32(|b|, b + rest);
      assert (head + (b + rest))[|head|..|head| + |b|] == b;
      assert (head + (b + rest))[|head| + |b|..] == rest;
      CStringWhole(kind, b);
    } else {
      RejectsLong(|b|, b + rest);
    }
  }

  // ---- Packed arrays ----

  /** An item comes back, whatever follows, and takes at least a byte. */
  predicate TripsAt(enc: Value -> Option<seq<Byte>>, dec: seq<Byte> -> Parsed<Value>, v: Value, rest: seq<Byte>) {
    enc(v).Some? ==> enc(v).value != [] && dec(enc(v).value + rest) == Some((v, rest))
  }

  lemma {:induction false} AllTrip(
    enc: Value -> Option<seq<Byte>>, dec: seq<Byte> -> Parsed<Value>, items: seq<Value>, done: seq<Value>, max: nat)
    requires |done| + |items| <= max && EncAll(enc, items).Some?
    requires forall i, rest :: 0 <= i < |items| ==> TripsAt(enc, dec, items[i], rest)
    ensures DecAll(dec, EncAll(enc, items).value, done, max) == Some(done + items)
    decreases |items|
  {
    if items == [] {
      assert done + items == done;
    } else {
      var v, more := items[0], items[1..];
      assert TripsAt(enc, dec, v, EncAll(enc, more).value);
      forall i, rest | 0 <= i < |more| ensures TripsAt(enc, dec, more[i], rest) {
        assert TripsAt(enc, dec, items[i + 1], rest);
      }
      AllTrip(enc, dec, more, done + [v], max);
      assert done + [v] + more == done + items;
    }
  }

  lemma {:induction false} PackedTrips(kind: Kind, items: seq<Value>, done: seq<Value>, max: nat)
    requires Packable(kind) && |done| + |items| <= max && EncPacked(kind, items).Some?
    requires forall i :: 0 <= i < |items| ==> HasKind(kind, items[i])
    ensures DecPacked(kind, EncPacked(kind, items).value, done, max) == Some(done + items)
  {
    var enc, dec := (v: Value) => EncNumber(kind, v), (t: seq<Byte>) => DecNum(kind, t);
    forall i, rest | 0 <= i < |items| ensures TripsAt(enc, dec, items[i], rest) {
      if enc(items[i]).Some? { NumTrips(kind, items[i], rest); }
    }
    AllTrip(enc, dec, items, done, max);
  }

  lemma {:induction false} RestoredNumbers(kind: Kind, items: seq<Value>)
    requires Packable(kind)
    ensures RestoredAll(kind, items) == items
    decreases |items|
  {
    if items != [] { RestoredNumbers(kind, items[1..]); }
  }

  // ---- The loop over the fields ----

  lemma {:induction false} FindTag(fs: seq<Field>, k: nat, from: nat)
    requires WellFormed(fs) && from <= k < |fs|
    ensures Find(fs, fs[k].tag, from) == Some(k)
    decreases k - from
  {
    if from < k { FindTag(fs, k, from + 1); }
  }

  type Run = (seq<Byte>, seq<Slot>, set<nat>) -> Parsed<seq<Slot>>

  /** A tag leads to its field. */
  predicate TaggedAt(run: Run, fs: seq<Field>, k: nat, wire: nat, s: seq<Byte>, slots: seq<Slot>, seen: set<nat>) {
    k < |fs| && wire < 8 && SlotAt(fs, k) < |slots| ==>
      run(Header(fs[k].tag, wire) + s, slots, seen) ==
      Onward(run, DecField(fs[k], wire, s, slots[SlotAt(fs, k)]), slots, SlotAt(fs, k), seen + {k})
  }

  function Onward(run: Run, d: Parsed<Slot>, slots: seq<Slot>, at: nat, seen: set<nat>): Parsed<seq<Slot>>
    requires at < |slots|
  {
    if d.None? then None else run(d.value.1, slots[at := d.value.0], seen)
  }

  predicate EndsAt(run: Run, fs: seq<Field>, slots: seq<Slot>, seen: set<nat>) {
    run([], slots, seen) == Finish(fs, [], slots, seen)
  }

  ghost predicate Reads(run: Run, fs: seq<Field>) {
    && (forall k, wire, s, slots, seen :: TaggedAt(run, fs, k, wire, s, slots, seen))
    && (forall slots, seen :: EndsAt(run, fs, slots, seen))
  }

  function Runner(fs: seq<Field>): Run {
    (s: seq<Byte>, slots: seq<Slot>, seen: set<nat>) => DecFields(fs, Decoder(fs), s, slots, seen)
  }

  lemma {:induction false} HeaderReads(tag: nat, wire: nat, s: seq<Byte>)
    requires 0 < tag < 0x2000_0000 && wire < 8
    ensures var d := Decode32(Header(tag, wire) + s);
      d.Got? && d.value > 0 && d.value / 8 == tag && d.value % 8 == wire && (Header(tag, wire) + s)[d.used..] == s
  {
    Inverse32(8 * tag + wire, s);
    Suffix(Header(tag, wire), s);
  }

  lemma {:induction false} DecTagged(
    fs: seq<Field>, dec: FieldDecoder, k: nat, wire: nat, s: seq<Byte>, slots: seq<Slot>, seen: set<nat>)
    requires WellFormed(fs) && Shrinks(dec) && k < |fs| && wire < 8 && SlotAt(fs, k) < |slots|
    ensures DecFields(fs, dec, Header(fs[k].tag, wire) + s, slots, seen) ==
      var d := dec(k, wire, s, slots[SlotAt(fs, k)]);
      if d.None? then None
      else
        assert ShrinksAt(dec, k, wire, s, slots[SlotAt(fs, k)]);
        DecFields(fs, dec, d.value.1, slots[SlotAt(fs, k) := d.value.0], seen + {k})
  {
    assert WellFormedField(fs[k]);
    HeaderReads(fs[k].tag, wire, s);
    FindTag(fs, k, 0);
  }

  lemma {:induction false} RunnerReads(fs: seq<Field>)
    requires WellFormed(fs)
    ensures Reads(Runner(fs), fs)
  {
    var run := Runner(fs);
    forall k: nat, wire: nat, s: seq<Byte>, slots: seq<Slot>, seen: set<nat>
      ensures TaggedAt(run, fs, k, wire, s, slots, seen)
    {
      if k < |fs| && wire < 8 && SlotAt(fs, k) < |slots| { DecTagged(fs, Decoder(fs), k, wire, s, slots, seen); }
    }
  }

  // ---- One field ----

  /** A value of this kind comes back, whatever follows. */
  predicate KindAt(kind: Kind, v: Value, rest: seq<Byte>, cur: Value, anew: bool) {
    && HasKind(kind, v) && EncKind(kind, v).Some? && |EncKind(kind, v).value| < LIMIT
    && (kind.Sub? && !anew ==> cur == Msg(Defaults(kind.fields, |kind.fields|)))
    ==> DecKind(kind, EncKind(kind, v).value + rest, cur, anew)
        == if Short(READABLE, kind, v) then Some((Restored(kind, v), rest)) else None
  }

  ghost predicate KindTrips(kind: Kind) { forall v, rest, cur, anew :: KindAt(kind, v, rest, cur, anew) }

  /** A slot as the fields before leave it. */
  predicate Ready(f: Field, cur: Slot) {
    match f.rule
    case Required => cur == One(Default(f))
    case Optional => cur == Maybe(false, Default(f))
    case Repeated(_) => cur == Many([])
    case Oneof(_) => cur.Union? && (cur.choice.Some? ==> cur.choice.value.0 != f.tag)
  }

  function Wrap(f: Field, v: Value): Slot {
    match f.rule
    case Required => One(v)
    case Optional => Maybe(true, v)
    case Repeated(_) => Many([v])
    case Oneof(_) => Union(Some((f.tag, v)))
  }

  predicate Encodes(kind: Kind, v: Value) {
    HasKind(kind, v) && EncKind(kind, v).Some? && |EncKind(kind, v).value| < LIMIT
  }

  lemma {:induction false} ReadSingle(f: Field, wire: nat, v: Value, rest: seq<Byte>, cur: Slot)
    requires KindTrips(f.kind) && !f.rule.Repeated? && Ready(f, cur) && Encodes(f.kind, v)
    ensures DecField(f, wire, EncKind(f.kind, v).value + rest, cur)
         == if Short(READABLE, f.kind, v) then Some((Wrap(f, Restored(f.kind, v)), rest)) else None
  {
    if f.rule.Oneof? {
      assert KindAt(f.kind, v, rest, UnionBase(f, cur), false);
    } else {
      assert KindAt(f.kind, v, rest, Current(cur), false);
    }
  }

  lemma {:induction false} ReadItem(f: Field, wire: nat, v: Value, rest: seq<Byte>, done: seq<Value>)
    requires KindTrips(f.kind) && f.rule.Repeated? && !Packable(f.kind) && |done| < f.rule.max && Encodes(f.kind, v)
    ensures DecField(f, wire, EncKind(f.kind, v).value + rest, Many(done))
         == if Short(READABLE, f.kind, v) then Some((Many(done + [Restored(f.kind, v)]), rest)) else None
  {
    assert KindAt(f.kind, v, rest, Num(0), true);
  }

  lemma {:induction false} ReadPacked(f: Field, items: seq<Value>, rest: seq<Byte>)
    requires f.rule.Repeated? && Packable(f.kind) && |items| <= f.rule.max && EncPacked(f.kind, items).Some?
    requires |EncPacked(f.kind, items).value| < LIMIT
    requires forall i :: 0 <= i < |items| ==> HasKind(f.kind, items[i])
    ensures DecField(f, 2, Delimited(EncPacked(f.kind, items)).value + rest, Many([]))
         == if ShortLength(READABLE, EncPacked(f.kind, items)) then Some((Many(items), rest)) else None
  {
    var b := EncPacked(f.kind, items).value;
    SubstreamTrips(b, rest);
    PackedTrips(f.kind, items, [], f.rule.max);
    assert [] + items == items;
  }

  lemma {:induction false} TaggedSplit(f: Field, v: Value, rest: seq<Byte>)
    requires EncTagged(f, v).Some?
    ensures EncKind(f.kind, v).Some? && |EncKind(f.kind, v).value| <= |EncTagged(f, v).value|
    ensures EncTagged(f, v).value + rest == Header(f.tag, WireType(f.kind)) + (EncKind(f.kind, v).value + rest)
  {
    var h, e := Header(f.tag, WireType(f.kind)), EncKind(f.kind, v).value;
    assert (h + e) + rest == h + (e + rest);
  }

  /** A field that is not repeated. */
  lemma {:induction false} SingleTrips(
    run: Run, fs: seq<Field>, k: nat, v: Value, rest: seq<Byte>, slots: seq<Slot>, seen: set<nat>)
    requires Reads(run, fs) && k < |fs| && SlotAt(fs, k) < |slots| && KindTrips(fs[k].kind) && !fs[k].rule.Repeated?
    requires EncTagged(fs[k], v).Some? && |EncTagged(fs[k], v).value| < LIMIT && HasKind(fs[k].kind, v)
    requires Ready(fs[k], slots[SlotAt(fs, k)])
    ensures run(EncTagged(fs[k], v).value + rest, slots, seen)
         == if Short(READABLE, fs[k].kind, v)
            then run(rest, slots[SlotAt(fs, k) := Wrap(fs[k], Restored(fs[k].kind, v))], seen + {k}) else None
  {
    var f, wire := fs[k], WireType(fs[k].kind);
    TaggedSplit(f, v, rest);
    assert TaggedAt(run, fs, k, wire, EncKind(f.kind, v).value + rest, slots, seen);
    ReadSingle(f, wire, v, rest, slots[SlotAt(fs, k)]);
  }

  lemma {:induction false} ItemTrips(
    run: Run, fs: seq<Field>, k: nat, v: Value, rest: seq<Byte>, slots: seq<Slot>, done: seq<Value>, seen: set<nat>)
    requires Reads(run, fs) && k < |fs| && SlotAt(fs, k) < |slots| && KindTrips(fs[k].kind)
    requires fs[k].rule.Repeated? && !Packable(fs[k].kind) && |done| < fs[k].rule.max
    requires EncTagged(fs[k], v).Some? && |EncTagged(fs[k], v).value| < LIMIT && HasKind(fs[k].kind, v)
    requires slots[SlotAt(fs, k)] == Many(done)
    ensures run(EncTagged(fs[k], v).value + rest, slots, seen)
         == if Short(READABLE, fs[k].kind, v)
            then run(rest, slots[SlotAt(fs, k) := Many(done + [Restored(fs[k].kind, v)])], seen + {k}) else None
  {
    var f, wire := fs[k], WireType(fs[k].kind);
    TaggedSplit(f, v, rest);
    assert TaggedAt(run, fs, k, wire, EncKind(f.kind, v).value + rest, slots, seen);
    ReadItem(f, wire, v, rest, done);
  }

  lemma {:induction false} AllShortCons(bound: Bound, kind: Kind, v: Value, more: seq<Value>)
    ensures AllShort(bound, kind, [v] + more) == (Short(bound, kind, v) && AllShort(bound, kind, more))
  {
    var all := [v] + more;
    assert all[0] == v && forall i :: 0 <= i < |more| ==> all[i + 1] == more[i];
    if Short(bound, kind, v) && AllShort(bound, kind, more) {
      forall i | 0 <= i < |all| ensures Short(bound, kind, all[i]) {
        if i > 0 { assert all[i] == more[i - 1]; }
      }
    }
  }

  lemma {:induction false} RestoredCons(kind: Kind, done: seq<Value>, v: Value, more: seq<Value>)
    ensures done + RestoredAll(kind, [v] + more) == done + [Restored(kind, v)] + RestoredAll(kind, more)
  {
    assert ([v] + more)[1..] == more;
    assert done + ([Restored(kind, v)] + RestoredAll(kind, more)) == done + [Restored(kind, v)] + RestoredAll(kind, more);
  }

  lemma {:induction false} EncAllCons(enc: Value -> Option<seq<Byte>>, v: Value, more: seq<Value>, rest: seq<Byte>)
    requires EncAll(enc, [v] + more).Some?
    ensures enc(v).Some? && EncAll(enc, more).Some?
    ensures EncAll(enc, [v] + more).value + rest == enc(v).value + (EncAll(enc, more).value + rest)
    ensures |EncAll(enc, [v] + more).value| == |enc(v).value| + |EncAll(enc, more).value|
  {
    assert ([v] + more)[1..] == more;
    assert (enc(v).value + EncAll(enc, more).value) + rest == enc(v).value + (EncAll(enc, more).value + rest);
  }

  function Tagger(f: Field): Value -> Option<seq<Byte>> { v => EncTagged(f, v) }

  lemma {:induction false} ItemsTrip(
    run: Run, fs: seq<Field>, k: nat, items: seq<Value>, rest: seq<Byte>, slots: seq<Slot>, done: seq<Value>, seen: set<nat>)
    requires Reads(run, fs) && k < |fs| && SlotAt(fs, k) < |slots| && KindTrips(fs[k].kind)
    requires fs[k].rule.Repeated? && !Packable(fs[k].kind) && |done| + |items| <= fs[k].rule.max
    requires var e := EncAll(Tagger(fs[k]), items); e.Some? && |e.value| < LIMIT
    requires forall i :: 0 <= i < |items| ==> HasKind(fs[k].kind, items[i])
    requires slots[SlotAt(fs, k)] == Many(done)
    ensures run(EncAll(Tagger(fs[k]), items).value + rest, slots, seen)
         == if AllShort(READABLE, fs[k].kind, items)
            then run(rest, slots[SlotAt(fs, k) := Many(done + RestoredAll(fs[k].kind, items))],
                     if items == [] then seen else seen + {k})
            else None
    decreases |items|
  {
    var f, at, enc := fs[k], SlotAt(fs, k), Tagger(fs[k]);
    if items == [] {
      assert EncAll(enc, items).value + rest == rest && done + RestoredAll(f.kind, items) == done;
      assert slots[at := Many(done)] == slots;
    } else {
      var v, more := items[0], items[1..];
      assert items == [v] + more;
      EncAllCons(enc, v, more, rest);
      AllShortCons(READABLE, f.kind, v, more);
      var next := done + [Restored(f.kind, v)];
      ItemTrips(run, fs, k, v, EncAll(enc, more).value + rest, slots, done, seen);
      ItemsTrip(run, fs, k, more, rest, slots[at := Many(next)], next, seen + {k});
      RestoredCons(f.kind, done, v, more);
      assert slots[at := Many(next)][at := Many(next + RestoredAll(f.kind, more))]
          == slots[at := Many(next + RestoredAll(f.kind, more))];
      assert seen + {k} + {k} == seen + {k};
    }
  }

  lemma {:induction false} PackedFieldTrips(
    run: Run, fs: seq<Field>, k: nat, items: seq<Value>, rest: seq<Byte>, slots: seq<Slot>, seen: set<nat>)
    requires Reads(run, fs) && k < |fs| && SlotAt(fs, k) < |slots|
    requires fs[k].rule.Repeated? && Packable(fs[k].kind) && |items| <= fs[k].rule.max
    requires EncPacked(fs[k].kind, items).Some? && |EncPacked(fs[k].kind, items).value| < LIMIT
    requires forall i :: 0 <= i < |items| ==> HasKind(fs[k].kind, items[i])
    requires slots[SlotAt(fs, k)] == Many([])
    ensures run(Header(fs[k].tag, 2) + Delimited(EncPacked(fs[k].kind, items)).value + rest, slots, seen)
         == if ShortLength(READABLE, EncPacked(fs[k].kind, items))
            then run(rest, slots[SlotAt(fs, k) := Many(items)], seen + {k}) else None
  {
    var h, b := Header(fs[k].tag, 2), Delimited(EncPacked(fs[k].kind, items)).value;
    assert h + b + rest == h + (b + rest);
    assert TaggedAt(run, fs, k, 2, b + rest, slots, seen);
    ReadPacked(fs[k], items, rest);
  }

  /** Does the field occur in the encoding? */
  predicate Occurs(f: Field, slot: Slot) {
    match f.rule
    case Required => true
    case Optional => slot.Maybe? && slot.has
    case Repeated(_) => slot.Many? && slot.items != []
    case Oneof(_) => slot.Union? && slot.choice.Some? && slot.choice.value.0 == f.tag
  }

  function Noted(f: Field, slot: Slot, k: nat, seen: set<nat>): set<nat> { if Occurs(f, slot) then seen + {k} else seen }

  /** The encoding of one field is read into its slot. */
  lemma {:induction false} FieldTrips(
    run: Run, fs: seq<Field>, k: nat, slot: Slot, rest: seq<Byte>, slots: seq<Slot>, seen: set<nat>)
    requires Reads(run, fs) && k < |fs| && SlotAt(fs, k) < |slots| && KindTrips(fs[k].kind)
    requires EncField(fs[k], slot).Some? && |EncField(fs[k], slot).value| < LIMIT
    requires HasRule(fs[k], slot) && Ready(fs[k], slots[SlotAt(fs, k)])
    ensures run(EncField(fs[k], slot).value + rest, slots, seen)
         == if ShortField(READABLE, fs[k], slot)
            then run(rest, slots[SlotAt(fs, k) := Merge(fs[k], slots[SlotAt(fs, k)], slot)], Noted(fs[k], slot, k, seen))
            else None
  {
    var f, at := fs[k], SlotAt(fs, k);
    if f.rule.Repeated? {
      RepeatedTrips(run, fs, k, slot.items, rest, slots, seen);
    } else if f.rule.Required? {
      SingleTrips(run, fs, k, slot.v, rest, slots, seen);
    } else if f.rule.Optional? && slot.has {
      SingleTrips(run, fs, k, slot.v, rest, slots, seen);
    } else if f.rule.Oneof? && slot.choice.Some? && slot.choice.value.0 == f.tag {
      SingleTrips(run, fs, k, slot.choice.value.1, rest, slots, seen);
    } else {
      assert [] + rest == rest && slots[at := slots[at]] == slots;
    }
  }

  lemma {:induction false} RepeatedTrips(
    run: Run, fs: seq<Field>, k: nat, items: seq<Value>, rest: seq<Byte>, slots: seq<Slot>, seen: set<nat>)
    requires Reads(run, fs) && k < |fs| && SlotAt(fs, k) < |slots| && KindTrips(fs[k].kind) && fs[k].rule.Repeated?
    requires EncField(fs[k], Many(items)).Some? && |EncField(fs[k], Many(items)).value| < LIMIT
    requires HasRule(fs[k], Many(items)) && slots[SlotAt(fs, k)] == Many([])
    ensures run(EncField(fs[k], Many(items)).value + rest, slots, seen)
         == if ShortField(READABLE, fs[k], Many(items))
            then run(rest, slots[SlotAt(fs, k) := Many(RestoredAll(fs[k].kind, items))],
                     if items == [] then seen else seen + {k})
            else None
  {
    var f, at := fs[k], SlotAt(fs, k);
    if items == [] {
      assert [] + rest == rest && slots[at := Many([])] == slots;
    } else if Packable(f.kind) {
      RestoredNumbers(f.kind, items);
      PackedFieldTrips(run, fs, k, items, rest, slots, seen);
    } else {
      assert EncField(f, Many(items)) == EncAll(Tagger(f), items);
      ItemsTrip(run, fs, k, items, rest, slots, [], seen);
      assert [] + RestoredAll(f.kind, items) == RestoredAll(f.kind, items);
    }
  }

  // ---- All fields ----

  lemma {:induction false} DefaultsAt(fs: seq<Field>, n: nat, k: nat)
    requires k < n <= |fs|
    ensures |Defaults(fs, n)| == SlotAt(fs, n - 1) + 1 && SlotAt(fs, k) < |Defaults(fs, n)|
    ensures Defaults(fs, n)[SlotAt(fs, k)] == InitSlot(fs[k])
    decreases n
  {
    if n > 1 {
      DefaultsAt(fs, n - 1, if k < n - 1 then k else n - 2);
    }
  }

  lemma {:induction false} AfterLength(fs: seq<Field>, slots: seq<Slot>, n: nat)
    requires n <= |fs|
    ensures |After(fs, slots, n)| == SlotCount(fs)
    decreases n
  {
    if n > 0 {
      AfterLength(fs, slots, n - 1);
    } else if fs != [] {
      DefaultsAt(fs, |fs|, 0);
    }
  }

  /** What the first n fields leave in the slot of a later field. */
  lemma {:induction false} AfterReady(fs: seq<Field>, slots: seq<Slot>, n: nat, k: nat)
    requires WellFormed(fs) && n <= k < |fs|
    ensures |After(fs, slots, n)| == SlotCount(fs) && SlotAt(fs, k) < SlotCount(fs)
    ensures Ready(fs[k], After(fs, slots, n)[SlotAt(fs, k)])
    decreases n
  {
    AfterLength(fs, slots, n);
    SlotOrder(fs, k, k);
    if n == 0 {
      DefaultsAt(fs, |fs|, k);
    } else {
      AfterReady(fs, slots, n - 1, k);
      SlotOrder(fs, n - 1, k);
    }
  }

  lemma {:induction false} EncFieldsStep(fs: seq<Field>, enc: FieldEncoder, slots: seq<Slot>, k: nat)
    requires k < |fs| && EncFields(fs, enc, slots, k).Some?
    ensures SlotAt(fs, k) < |slots| && enc(k, slots[SlotAt(fs, k)]).Some? && EncFields(fs, enc, slots, k + 1).Some?
    ensures EncFields(fs, enc, slots, k).value
         == enc(k, slots[SlotAt(fs, k)]).value + EncFields(fs, enc, slots, k + 1).value
  {
  }

  ghost predicate FieldsTripAll(fs: seq<Field>) { forall i :: 0 <= i < |fs| ==> KindTrips(fs[i].kind) }

  lemma {:induction false} FitsAt(fs: seq<Field>, slots: seq<Slot>, k: nat)
    requires Fits(fs, slots) && k < |fs|
    ensures SlotAt(fs, k) < |slots| && HasRule(fs[k], slots[SlotAt(fs, k)])
  {
    assert HasRuleAt(fs, k, slots);
  }

  lemma {:induction false} AfterStep(fs: seq<Field>, slots: seq<Slot>, k: nat)
    requires k < |fs| && SlotAt(fs, k) < |After(fs, slots, k)| && SlotAt(fs, k) < |slots|
    ensures var cur, at := After(fs, slots, k), SlotAt(fs, k);
      After(fs, slots, k + 1) == cur[at := Merge(fs[k], cur[at], slots[at])]
  {
  }

  /** Field k. */
  lemma {:induction false} StepTrips(run: Run, fs: seq<Field>, slots: seq<Slot>, k: nat, rest: seq<Byte>, seen: set<nat>)
    requires Reads(run, fs) && WellFormed(fs) && k < |fs| && KindTrips(fs[k].kind) && Fits(fs, slots)
    requires SlotAt(fs, k) < |slots|
    requires var e := EncField(fs[k], slots[SlotAt(fs, k)]); e.Some? && |e.value| < LIMIT
    ensures run(EncField(fs[k], slots[SlotAt(fs, k)]).value + rest, After(fs, slots, k), seen)
         == if ShortField(READABLE, fs[k], slots[SlotAt(fs, k)])
            then run(rest, After(fs, slots, k + 1), Noted(fs[k], slots[SlotAt(fs, k)], k, seen)) else None
  {
    FitsAt(fs, slots, k);
    AfterReady(fs, slots, k, k);
    AfterStep(fs, slots, k);
    FieldTrips(run, fs, k, slots[SlotAt(fs, k)], rest, After(fs, slots, k), seen);
  }

  /** What is left to read, and the struct, before field k; whether it occurs and whether it is short. */
  type Course = nat -> (seq<Byte>, seq<Slot>, bool, bool)

  predicate StepAt(run: Run, course: Course, k: nat, seen: set<nat>) {
    run(course(k).0, course(k).1, seen) ==
    if course(k).3 then run(course(k + 1).0, course(k + 1).1, if course(k).2 then seen + {k} else seen) else None
  }

  /** The required fields before k have been seen. */
  predicate SeenBefore(fs: seq<Field>, k: nat, seen: set<nat>) {
    forall j :: 0 <= j < k && j < |fs| && fs[j].rule.Required? ==> j in seen
  }

  predicate ShortFrom(course: Course, k: nat, n: nat) { forall i :: k <= i < n ==> course(i).3 }

  lemma {:induction false} RunCourse(run: Run, fs: seq<Field>, course: Course, k: nat, seen: set<nat>)
    requires k <= |fs| && SeenBefore(fs, k, seen) && course(|fs|).0 == [] && Reads(run, fs)
    requires forall i, seen :: 0 <= i < |fs| ==> StepAt(run, course, i, seen)
    requires forall i :: 0 <= i < |fs| && fs[i].rule.Required? ==> course(i).2
    ensures run(course(k).0, course(k).1, seen)
         == if ShortFrom(course, k, |fs|) then Some((course(|fs|).1, [])) else None
    decreases |fs| - k
  {
    if k == |fs| {
      assert EndsAt(run, fs, course(k).1, seen);
    } else {
      assert StepAt(run, course, k, seen);
      RunCourse(run, fs, course, k + 1, if course(k).2 then seen + {k} else seen);
    }
  }

  lemma {:induction false} EncFieldsSuffix(fs: seq<Field>, enc: FieldEncoder, slots: seq<Slot>, k: nat)
    requires k <= |fs| && EncFields(fs, enc, slots, 0).Some?
    ensures EncFields(fs, enc, slots, k).Some?
    ensures |EncFields(fs, enc, slots, k).value| <= |EncFields(fs, enc, slots, 0).value|
    decreases k
  {
    if k > 0 {
      EncFieldsSuffix(fs, enc, slots, k - 1);
      EncFieldsStep(fs, enc, slots, k - 1);
    }
  }

  lemma {:induction false} CourseStep(run: Run, fs: seq<Field>, slots: seq<Slot>, k: nat, seen: set<nat>)
    requires Reads(run, fs) && WellFormed(fs) && FieldsTripAll(fs) && Fits(fs, slots) && k < |fs|
    requires EncMsg(fs, slots).Some? && |EncMsg(fs, slots).value| < LIMIT
    ensures StepAt(run, CourseOf(fs, slots), k, seen)
  {
    var enc := Encoder(fs);
    EncFieldsSuffix(fs, enc, slots, k);
    EncFieldsStep(fs, enc, slots, k);
    StepTrips(run, fs, slots, k, EncFields(fs, enc, slots, k + 1).value, seen);
  }

  ghost function CourseOf(fs: seq<Field>, slots: seq<Slot>): Course {
    (k: nat) =>
      var rest := EncFields(fs, Encoder(fs), slots, k);
      (if rest.Some? then rest.value else [],
       if k <= |fs| then After(fs, slots, k) else [],
       k < |fs| && SlotAt(fs, k) < |slots| && Occurs(fs[k], slots[SlotAt(fs, k)]),
       k < |fs| && ShortAt(READABLE, fs, k, slots))
  }

  lemma {:induction false} ShortCourse(fs: seq<Field>, slots: seq<Slot>)
    ensures ShortFrom(CourseOf(fs, slots), 0, |fs|) == ShortMsg(READABLE, fs, slots)
  {
    var course := CourseOf(fs, slots);
    forall k | 0 <= k < |fs| ensures course(k).3 == ShortAt(READABLE, fs, k, slots) {}
  }

  lemma {:induction false} MsgTrips(fs: seq<Field>, slots: seq<Slot>)
    requires WellFormed(fs) && FieldsTripAll(fs) && Fits(fs, slots)
    requires EncMsg(fs, slots).Some? && |EncMsg(fs, slots).value| < LIMIT
    ensures Decode(fs, EncMsg(fs, slots).value)
         == if ShortMsg(READABLE, fs, slots) then Some((After(fs, slots, |fs|), [])) else None
  {
    RunnerReads(fs);
    var run, course := Runner(fs), CourseOf(fs, slots);
    forall k, seen | 0 <= k < |fs| ensures StepAt(run, course, k, seen) {
      CourseStep(run, fs, slots, k, seen);
    }
    forall k | 0 <= k < |fs| && fs[k].rule.Required? ensures course(k).2 { FitsAt(fs, slots, k); }
    RunCourse(run, fs, course, 0, {});
    ShortCourse(fs, slots);
  }

  lemma {:induction false} SubTrips(fs: seq<Field>, v: Value, rest: seq<Byte>, cur: Value, anew: bool)
    requires WellFormed(fs) && FieldsTripAll(fs)
    ensures KindAt(Sub(fs), v, rest, cur, anew)
  {
    if Encodes(Sub(fs), v) && (!anew ==> cur == Msg(Defaults(fs, |fs|))) {
      var b := EncMsg(fs, v.slots).value;
      SubstreamTrips(b, rest);
      MsgTrips(fs, v.slots);
    }
  }

  /** Every kind of value comes back. */
  lemma {:induction false} AllKindsTrip(f: Field)
    requires f.kind.Sub? ==> WellFormed(f.kind.fields)
    ensures KindTrips(f.kind)
    decreases f
  {
    forall v: Value, rest: seq<Byte>, cur: Value, anew: bool ensures KindAt(f.kind, v, rest, cur, anew) {
      if f.kind.Sub? {
        var fs := f.kind.fields;
        forall i | 0 <= i < |fs| ensures KindTrips(fs[i].kind) {
          assert WellFormedField(fs[i]);
          AllKindsTrip(fs[i]);
        }
        SubTrips(fs, v, rest, cur, anew);
      } else if Encodes(f.kind, v) {
        if Packable(f.kind) { NumTrips(f.kind, v, rest); } else { DataTrips(f.kind, v, rest); }
      }
    }
  }

  // ---- What comes back is the same message ----

  /** Is the field the choice of its union? */
  predicate Chosen(f: Field, slot: Slot) { slot.Union? && slot.choice.Some? && slot.choice.value.0 == f.tag }

  /** The same value; in a submessage, the same presence flags, counts, choices and present values, at every depth. */
  predicate SameKind(kind: Kind, a: Value, b: Value)
    decreases kind, 0
  {
    if kind.Sub? then a.Msg? && b.Msg? && SameMsg(kind.fields, a.slots, b.slots) else a == b
  }

  predicate SameSlot(f: Field, a: Slot, b: Slot)
    decreases f, 1
  {
    match f.rule
    case Required => a.One? && b.One? && SameKind(f.kind, a.v, b.v)
    case Optional =>
      && a.Maybe? && b.Maybe? && a.has == b.has
      && (if a.has then SameKind(f.kind, a.v, b.v) else b.v == Default(f))
    case Repeated(_) =>
      && a.Many? && b.Many? && |a.items| == |b.items|
      && forall i :: 0 <= i < |a.items| ==> SameKind(f.kind, a.items[i], b.items[i])
    case Oneof(_) =>
      && a.Union? && b.Union? && Chosen(f, a) == Chosen(f, b)
      && (Chosen(f, a) ==> SameKind(f.kind, a.choice.value.1, b.choice.value.1))
  }

  predicate SameMsg(fs: seq<Field>, a: seq<Slot>, b: seq<Slot>)
    decreases fs, 0
  {
    && |a| == SlotCount(fs) && |b| == SlotCount(fs)
    && forall k :: 0 <= k < |fs| ==> SlotAt(fs, k) < |a| && SameSlot(fs[k], a[SlotAt(fs, k)], b[SlotAt(fs, k)])
  }

  /** What a field leaves in its slot. */
  predicate Left(f: Field, slot: Slot, cur: Slot) {
    match f.rule
    case Required => slot.One? && cur == One(Restored(f.kind, slot.v))
    case Optional =>
      slot.Maybe? && cur == if slot.has then Maybe(true, Restored(f.kind, slot.v)) else Maybe(false, Default(f))
    case Repeated(_) => slot.Many? && cur == Many(RestoredAll(f.kind, slot.items))
    case Oneof(_) =>
      && slot.Union? && cur.Union? && Chosen(f, slot) == Chosen(f, cur)
      && (Chosen(f, slot) ==> cur.choice.value.1 == Restored(f.kind, slot.choice.value.1))
  }

  lemma {:induction false} MergeLeaves(f: Field, cur: Slot, slot: Slot)
    requires HasRule(f, slot) && Ready(f, cur)
    ensures Left(f, slot, Merge(f, cur, slot))
  {
  }

  /** Another member of the union leaves the slot as it is, if it is not the choice. */
  lemma {:induction false} OtherKeeps(f: Field, g: Field, cur: Slot, slot: Slot)
    requires f.rule.Oneof? && g.rule.Oneof? && f.tag != g.tag && HasRule(g, slot) && Left(f, slot, cur)
    ensures Left(f, slot, Merge(g, cur, slot))
  {
  }

  /** A later field keeps what field k left. */
  lemma {:induction false} LaterKeeps(fs: seq<Field>, slots: seq<Slot>, cur: seq<Slot>, k: nat, i: nat)
    requires WellFormed(fs) && k < i < |fs| && SlotAt(fs, k) < |cur| && SlotAt(fs, i) < |cur| && |cur| == |slots|
    requires HasRule(fs[i], slots[SlotAt(fs, i)]) && Left(fs[k], slots[SlotAt(fs, k)], cur[SlotAt(fs, k)])
    ensures var next := cur[SlotAt(fs, i) := Merge(fs[i], cur[SlotAt(fs, i)], slots[SlotAt(fs, i)])];
      Left(fs[k], slots[SlotAt(fs, k)], next[SlotAt(fs, k)])
  {
    SlotOrder(fs, k, i);
    if SlotAt(fs, i) == SlotAt(fs, k) {
      OtherKeeps(fs[k], fs[i], cur[SlotAt(fs, k)], slots[SlotAt(fs, k)]);
    }
  }

  predicate MergesAt(fs: seq<Field>, slots: seq<Slot>, after: nat -> seq<Slot>, i: nat) {
    i < |fs| ==>
      && |after(i)| == |slots| && SlotAt(fs, i) < |slots| && HasRule(fs[i], slots[SlotAt(fs, i)])
      && after(i + 1) == after(i)[SlotAt(fs, i) := Merge(fs[i], after(i)[SlotAt(fs, i)], slots[SlotAt(fs, i)])]
  }

  lemma {:induction false} LeftAlong(fs: seq<Field>, slots: seq<Slot>, after: nat -> seq<Slot>, k: nat, n: nat)
    requires WellFormed(fs) && k < n <= |fs| && forall i :: MergesAt(fs, slots, after, i)
    requires SlotAt(fs, k) < |slots| && |after(k)| == |slots| && Ready(fs[k], after(k)[SlotAt(fs, k)])
    ensures |after(n)| == |slots| && Left(fs[k], slots[SlotAt(fs, k)], after(n)[SlotAt(fs, k)])
    decreases n
  {
    assert MergesAt(fs, slots, after, n - 1);
    if n == k + 1 {
      MergeLeaves(fs[k], after(k)[SlotAt(fs, k)], slots[SlotAt(fs, k)]);
    } else {
      LeftAlong(fs, slots, after, k, n - 1);
      LaterKeeps(fs, slots, after(n - 1), k, n - 1);
    }
  }

  ghost function AfterOf(fs: seq<Field>, slots: seq<Slot>): nat -> seq<Slot> {
    (n: nat) => if n <= |fs| then After(fs, slots, n) else []
  }

  lemma {:induction false} AfterMerges(fs: seq<Field>, slots: seq<Slot>, i: nat)
    requires Fits(fs, slots)
    ensures MergesAt(fs, slots, AfterOf(fs, slots), i)
  {
    if i < |fs| {
      FitsAt(fs, slots, i);
      AfterMergesAt(fs, slots, AfterOf(fs, slots), i);
    }
  }

  lemma {:induction false} AfterMergesAt(fs: seq<Field>, slots: seq<Slot>, after: nat -> seq<Slot>, i: nat)
    requires i < |fs| && |slots| == SlotCount(fs) && SlotAt(fs, i) < |slots| && HasRule(fs[i], slots[SlotAt(fs, i)])
    requires after(i) == After(fs, slots, i) && after(i + 1) == After(fs, slots, i + 1)
    ensures MergesAt(fs, slots, after, i)
  {
    AfterLength(fs, slots, i);
    AfterStep(fs, slots, i);
  }

  lemma {:induction false} AfterLeaves(fs: seq<Field>, slots: seq<Slot>, k: nat)
    requires WellFormed(fs) && Fits(fs, slots) && k < |fs|
    ensures |After(fs, slots, |fs|)| == |slots| && SlotAt(fs, k) < |slots|
    ensures Left(fs[k], slots[SlotAt(fs, k)], After(fs, slots, |fs|)[SlotAt(fs, k)])
  {
    var after := AfterOf(fs, slots);
    FitsAt(fs, slots, k);
    AfterReady(fs, slots, k, k);
    forall i: nat ensures MergesAt(fs, slots, after, i) { AfterMerges(fs, slots, i); }
    LeftAlong(fs, slots, after, k, |fs|);
  }

  lemma {:induction false} RestoredAllAt(kind: Kind, items: seq<Value>)
    ensures |RestoredAll(kind, items)| == |items|
    ensures forall i :: 0 <= i < |items| ==> RestoredAll(kind, items)[i] == Restored(kind, items[i])
    decreases |items|
  {
    if items != [] { RestoredAllAt(kind, items[1..]); }
  }

  ghost predicate SameAt(kind: Kind, v: Value) { HasKind(kind, v) ==> SameKind(kind, v, Restored(kind, v)) }

  lemma {:induction false} LeftIsSame(f: Field, slot: Slot, cur: Slot)
    requires HasRule(f, slot) && Left(f, slot, cur) && forall v :: SameAt(f.kind, v)
    ensures SameSlot(f, slot, cur)
  {
    match f.rule
    case Required => assert SameAt(f.kind, slot.v);
    case Optional => assert SameAt(f.kind, slot.v);
    case Repeated(_) =>
      RestoredAllAt(f.kind, slot.items);
      forall i | 0 <= i < |slot.items| ensures SameKind(f.kind, slot.items[i], cur.items[i]) {
        assert SameAt(f.kind, slot.items[i]);
      }
    case Oneof(_) =>
      if Chosen(f, slot) { assert SameAt(f.kind, slot.choice.value.1); }
  }

  lemma {:induction false} AfterIsSame(fs: seq<Field>, slots: seq<Slot>)
    requires WellFormed(fs) && Fits(fs, slots) && forall i, v :: 0 <= i < |fs| ==> SameAt(fs[i].kind, v)
    ensures SameMsg(fs, slots, After(fs, slots, |fs|))
  {
    AfterLength(fs, slots, |fs|);
    forall k | 0 <= k < |fs|
      ensures SlotAt(fs, k) < |slots| && SameSlot(fs[k], slots[SlotAt(fs, k)], After(fs, slots, |fs|)[SlotAt(fs, k)])
    {
      FitsAt(fs, slots, k);
      AfterLeaves(fs, slots, k);
      LeftIsSame(fs[k], slots[SlotAt(fs, k)], After(fs, slots, |fs|)[SlotAt(fs, k)]);
    }
  }

  lemma {:induction false} RestoredIsSame(f: Field, v: Value)
    requires f.kind.Sub? ==> WellFormed(f.kind.fields)
    ensures SameAt(f.kind, v)
    decreases f
  {
    if f.kind.Sub? && HasKind(f.kind, v) {
      var fs := f.kind.fields;
      forall i, w | 0 <= i < |fs| ensures SameAt(fs[i].kind, w) {
        assert WellFormedField(fs[i]);
        RestoredIsSame(fs[i], w);
      }
      AfterIsSame(fs, v.slots);
    }
  }

  /** For every well-formed descriptor and every struct that fits it, if the message can be encoded: the decoder accepts
      the encoding exactly when every length in it is below 2^32 and every string has a terminator, and then it consumes
      it all and gives the same message back. */
  lemma {:induction false} MessageRoundTrip(fs: seq<Field>, slots: seq<Slot>)
    requires WellFormed(fs) && Fits(fs, slots)
    requires EncMsg(fs, slots).Some? && |EncMsg(fs, slots).value| < LIMIT
    ensures var d := Decode(fs, EncMsg(fs, slots).value);
      && (d.Some? <==> ShortMsg(READABLE, fs, slots))
      && (d.Some? ==> d.value.1 == [] && SameMsg(fs, slots, d.value.0))
  {
    forall i, v | 0 <= i < |fs| ensures SameAt(fs[i].kind, v) {
      assert WellFormedField(fs[i]);
      RestoredIsSame(fs[i], v);
    }
    AfterIsSame(fs, slots);
    forall i | 0 <= i < |fs| ensures KindTrips(fs[i].kind) {
      assert WellFormedField(fs[i]);
      AllKindsTrip(fs[i]);
    }
    MsgTrips(fs, slots);
  }

  // ---- A message of less than 2^32 bytes has no longer length in it ----

  predicate SmallAt(kind: Kind, v: Value) {
    && Short(TERMINATED, kind, v) && EncKind(kind, v).Some? && |EncKind(kind, v).value| < 0x1_0000_0000
    ==> Short(READABLE, kind, v)
  }

  lemma {:induction false} SmallItems(f: Field, items: seq<Value>)
    requires AllShort(TERMINATED, f.kind, items) && forall v :: SmallAt(f.kind, v)
    requires var e := EncAll(Tagger(f), items); e.Some? && |e.value| < 0x1_0000_0000
    ensures AllShort(READABLE, f.kind, items)
    decreases |items|
  {
    if items != [] {
      var v, more := items[0], items[1..];
      assert items == [v] + more;
      EncAllCons(Tagger(f), v, more, []);
      TaggedSplit(f, v, []);
      assert SmallAt(f.kind, v);
      AllShortCons(TERMINATED, f.kind, v, more);
      SmallItems(f, more);
      AllShortCons(READABLE, f.kind, v, more);
    }
  }

  lemma {:induction false} SmallField(f: Field, slot: Slot)
    requires ShortField(TERMINATED, f, slot) && forall v :: SmallAt(f.kind, v)
    requires EncField(f, slot).Some? && |EncField(f, slot).value| < 0x1_0000_0000
    ensures ShortField(READABLE, f, slot)
  {
    match slot
    case One(v) =>
      if f.rule.Required? { TaggedSplit(f, v, []); assert SmallAt(f.kind, v); }
    case Maybe(has, v) =>
      if f.rule.Optional? && has { TaggedSplit(f, v, []); assert SmallAt(f.kind, v); }
    case Many(items) =>
      if f.rule.Repeated? && items != [] && !Packable(f.kind) {
        assert EncField(f, slot) == EncAll(Tagger(f), items);
        SmallItems(f, items);
      }
    case Union(choice) =>
      if Chosen(f, slot) {
        TaggedSplit(f, choice.value.1, []);
        assert SmallAt(f.kind, choice.value.1);
      }
  }

  lemma {:induction false} SmallFields(fs: seq<Field>, slots: seq<Slot>)
    requires ShortMsg(TERMINATED, fs, slots) && forall i, v :: 0 <= i < |fs| ==> SmallAt(fs[i].kind, v)
    requires EncMsg(fs, slots).Some? && |EncMsg(fs, slots).value| < 0x1_0000_0000
    ensures ShortMsg(READABLE, fs, slots)
  {
    forall k | 0 <= k < |fs| ensures ShortAt(READABLE, fs, k, slots) {
      assert ShortAt(TERMINATED, fs, k, slots);
      EncFieldsSuffix(fs, Encoder(fs), slots, k);
      EncFieldsStep(fs, Encoder(fs), slots, k);
      SmallField(fs[k], slots[SlotAt(fs, k)]);
    }
  }

  lemma {:induction false} SmallKind(f: Field, v: Value)
    ensures SmallAt(f.kind, v)
    decreases f
  {
    if f.kind.Sub? && v.Msg? && Short(TERMINATED, f.kind, v) && EncKind(f.kind, v).Some?
       && |EncKind(f.kind, v).value| < 0x1_0000_0000 {
      var fs := f.kind.fields;
      forall i, w | 0 <= i < |fs| ensures SmallAt(fs[i].kind, w) { SmallKind(fs[i], w); }
      SmallFields(fs, v.slots);
    }
  }

  /** It is enough that strings have terminators and that the whole encoding is below 2^32 bytes. */
  lemma {:induction false} SmallMessage(fs: seq<Field>, slots: seq<Slot>)
    requires EncMsg(fs, slots).Some? && |EncMsg(fs, slots).value| < 0x1_0000_0000 && ShortMsg(TERMINATED, fs, slots)
    ensures ShortMsg(READABLE, fs, slots)
  {
    forall i, w | 0 <= i < |fs| ensures SmallAt(fs[i].kind, w) { SmallKind(fs[i], w); }
    SmallFields(fs, slots);
  }

  // ---- A message that encodes and does not decode ----

  /** Two bytes fields of a capacity. */
  function Pair(cap: nat): seq<Field> {
    [Field(1, Required, Blob(cap), Data([])), Field(2, Required, Blob(cap), Data([]))]
  }

  /** A message with one such submessage. */
  function Outer(cap: nat): seq<Field> { [Field(1, Required, Sub(Pair(cap)), Num(0))] }

  function PairOf(a: seq<Byte>, b: seq<Byte>): seq<Slot> { [One(Data(a)), One(Data(b))] }

  function OuterOf(a: seq<Byte>, b: seq<Byte>): seq<Slot> { [One(Msg(PairOf(a, b)))] }

  lemma {:induction false} PairFits(cap: nat, a: seq<Byte>, b: seq<Byte>)
    ensures WellFormed(Pair(cap)) && Fits(Pair(cap), PairOf(a, b))
  {
    var fs, slots := Pair(cap), PairOf(a, b);
    assert SlotAt(fs, 0) == 0 && SlotAt(fs, 1) == 1 && SlotCount(fs) == 2;
    forall k | 0 <= k < |fs| ensures WellFormedField(fs[k]) && HasRuleAt(fs, k, slots) {}
  }

  lemma {:induction false} OuterFits(cap: nat, a: seq<Byte>, b: seq<Byte>)
    ensures WellFormed(Outer(cap)) && Fits(Outer(cap), OuterOf(a, b))
  {
    var fs, slots := Outer(cap), OuterOf(a, b);
    PairFits(cap, a, b);
    assert HasKind(fs[0].kind, slots[0].v);
    assert HasRule(fs[0], slots[0]);
    assert SlotAt(fs, 0) == 0 && SlotCount(fs) == 1;
    forall k | 0 <= k < |fs| ensures WellFormedField(fs[k]) && HasRuleAt(fs, k, slots) {}
  }

  lemma {:induction false} BlobLength(f: Field, a: seq<Byte>)
    requires 0 < f.tag < 16 && f.kind.Blob? && |a| <= f.kind.cap && |a| < 0x1_0000_0000 && f.rule == Required
    ensures var e := EncField(f, One(Data(a))); e.Some? && |a| < |e.value| <= |a| + 6
  {
    assert EncKind(f.kind, Data(a)) == Delimited(Some(a));
    assert EncField(f, One(Data(a))) == EncTagged(f, Data(a));
    EncodeLengths(|a|);
  }

  lemma {:induction false} TwoFields(fs: seq<Field>, slots: seq<Slot>)
    requires |fs| == 2 && |slots| == 2 && !fs[0].rule.Oneof?
    ensures EncMsg(fs, slots) == Bind(EncField(fs[0], slots[0]), EncField(fs[1], slots[1]))
  {
    var enc := Encoder(fs);
    assert SlotAt(fs, 0) == 0 && SlotAt(fs, 1) == 1;
    assert EncFields(fs, enc, slots, 2) == Some([]);
    var e := EncField(fs[1], slots[1]);
    if e.Some? { assert e.value + [] == e.value; }
    assert EncFields(fs, enc, slots, 1) == Bind(e, Some([]));
  }

  lemma {:induction false} OneField(fs: seq<Field>, slots: seq<Slot>)
    requires |fs| == 1 && |slots| == 1
    ensures EncMsg(fs, slots) == EncField(fs[0], slots[0])
  {
    var enc := Encoder(fs);
    assert EncFields(fs, enc, slots, 1) == Some([]);
    var e := EncField(fs[0], slots[0]);
    if e.Some? { assert e.value + [] == e.value; }
  }

  lemma {:induction false} PairLength(cap: nat, a: seq<Byte>, b: seq<Byte>)
    requires |a| <= cap && |b| <= cap && cap < 0x1_0000_0000
    ensures var e := EncMsg(Pair(cap), PairOf(a, b));
      e.Some? && |a| + |b| < |e.value| <= |a| + |b| + 12
  {
    var fs, slots := Pair(cap), PairOf(a, b);
    BlobLength(fs[0], a);
    BlobLength(fs[1], b);
    TwoFields(fs, slots);
  }

  lemma {:induction false} OuterLength(cap: nat, a: seq<Byte>, b: seq<Byte>)
    requires |a| <= cap && |b| <= cap && cap < 0x1_0000_0000
    ensures EncMsg(Outer(cap), OuterOf(a, b)).Some? && |EncMsg(Outer(cap), OuterOf(a, b)).value| < LIMIT
  {
    var fs, slots := Outer(cap), OuterOf(a, b);
    PairLength(cap, a, b);
    OneField(fs, slots);
    assert EncKind(fs[0].kind, slots[0].v) == Delimited(EncMsg(Pair(cap), PairOf(a, b)));
    assert EncField(fs[0], slots[0]) == EncTagged(fs[0], slots[0].v);
    EncodeLengths(|EncMsg(Pair(cap), PairOf(a, b)).value|);
    EncodeLengths(8 * 1 + 2);
  }

  /** A message with one string in an array of a size. */
  function Line(size: nat): seq<Field> { [Field(1, Required, Text(size), Data([]))] }

  function LineOf(b: seq<Byte>): seq<Slot> { [One(Data(b))] }

  lemma {:induction false} LineFits(b: seq<Byte>)
    requires 0 < |b| < 0x1_0000_0000 && 0 !in b
    ensures WellFormed(Line(|b|)) && Fits(Line(|b|), LineOf(b)) && !ShortMsg(READABLE, Line(|b|), LineOf(b))
  {
    var fs, slots := Line(|b|), LineOf(b);
    assert HasKind(fs[0].kind, slots[0].v) && HasRule(fs[0], slots[0]);
    assert SlotAt(fs, 0) == 0 && SlotCount(fs) == 1;
    forall k | 0 <= k < |fs| ensures WellFormedField(fs[k]) && HasRuleAt(fs, k, slots) {}
    assert !Short(READABLE, fs[0].kind, slots[0].v);
    assert !ShortAt(READABLE, fs, 0, slots);
  }

  /** A string that fills its array leaves no room for a terminator: the message encodes and does not decode. */
  lemma {:induction false} FullString(b: seq<Byte>)
    requires 0 < |b| < 0x1_0000_0000 && 0 !in b
    ensures WellFormed(Line(|b|)) && Fits(Line(|b|), LineOf(b)) && EncMsg(Line(|b|), LineOf(b)).Some?
    ensures Decode(Line(|b|), EncMsg(Line(|b|), LineOf(b)).value).None?
  {
    var fs, slots := Line(|b|), LineOf(b);
    LineFits(b);
    OneField(fs, slots);
    assert EncKind(fs[0].kind, slots[0].v) == Delimited(Some(b));
    assert EncField(fs[0], slots[0]) == EncTagged(fs[0], slots[0].v);
    EncodeLengths(|b|);
    EncodeLengths(8 * 1 + 2);
    MessageRoundTrip(fs, slots);
  }

  /** Two bytes fields, each within the capacity that a 32-bit size allows, but together 2^32 bytes or more, inside a
      submessage: the message encodes and does not decode. */
  lemma {:induction false} LongSubmessage(cap: nat, a: seq<Byte>, b: seq<Byte>)
    requires |a| <= cap && |b| <= cap && cap < 0x1_0000_0000 && |a| + |b| >= 0x1_0000_0000
    ensures WellFormed(Outer(cap)) && Fits(Outer(cap), OuterOf(a, b)) && !ShortMsg(READABLE, Outer(cap), OuterOf(a, b))
    ensures EncMsg(Outer(cap), OuterOf(a, b)).Some? && |EncMsg(Outer(cap), OuterOf(a, b)).value| < LIMIT
    ensures Decode(Outer(cap), EncMsg(Outer(cap), OuterOf(a, b)).value).None?
  {
    var fs, slots := Outer(cap), OuterOf(a, b);
    OuterFits(cap, a, b);
    PairLength(cap, a, b);
    OuterLength(cap, a, b);
    assert !Short(READABLE, fs[0].kind, slots[0].v);
    assert !ShortAt(READABLE, fs, 0, slots);
    MessageRoundTrip(fs, slots);
  }

  /** One such message. */
  lemma {:induction false} LongSubmessageExists()
    ensures var z := seq(0x8000_0000, _ => 0 as Byte);
      var e := EncMsg(Outer(0x8000_0000), OuterOf(z, z));
      e.Some? && Decode(Outer(0x8000_0000), e.value).None?
  {
    var z := seq(0x8000_0000, _ => 0 as Byte);
    LongSubmessage(0x8000_0000, z, z);
  }
}
