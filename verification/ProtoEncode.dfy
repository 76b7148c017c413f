/** nanopb's output streams and the encoder over them. */
module ProtoEncode {
  import opened Wrappers
  import opened Varint
  import opened Message
  import opened RoundTrip
  import opened Layout
  import FieldIter

  /** How a call ends; `Changed` is the error "submsg size changed". */
  datatype Status = Done | Full | Changed | Invalid

  /** `pb_ostream_t`: a stream without a callback only counts. */
  class OStream {
    const sizing: bool
    const max: nat
    var written: nat
    /** All bytes the callback has been given, the stream's and those of the streams it is a part of. */
    var out: seq<Byte>

    constructor (sizing: bool, max: nat, out: seq<Byte>)
      ensures this.sizing == sizing && this.max == max && written == 0 && this.out == out
    {
      this.sizing, this.max, this.written, this.out := sizing, max, 0, out;
    }

    ghost predicate Valid()
      reads this
    {
      !sizing ==> written <= max
    }

    /** The result of writing e, from the state before: done exactly when it is not an error and fits. */
    ghost predicate Wrote(before: nat, outBefore: seq<Byte>, e: Option<seq<Byte>>, r: Status)
      reads this
    {
      && Valid() && r != Changed
      && (r.Done? <==> e.Some? && (sizing || before + |e.value| <= max))
      && (r.Done? ==> written == before + |e.value| && out == if sizing then outBefore else outBefore + e.value)
    }

    /** `pb_write` */
    method Write(buf: seq<Byte>) returns (r: Status)
      requires Valid()
      modifies this
      ensures Wrote(old(written), old(out), Some(buf), r)
    {
      if |buf| > 0 && !sizing {
        if written + |buf| > max {
          return Full;
        }
        out := out + buf;
      }
      written := written + |buf|;
      r := Done;
    }

    /** `pb_write` with no buffer, as the sizing streams use it. */
    method Count(size: nat)
      requires sizing
      modifies this
      ensures written == old(written) + size && out == old(out)
    {
      written := written + size;
    }

    /** `pb_encode_varint` */
    method EncodeVarint(value: U64) returns (r: Status)
      requires Valid()
      modifies this
      ensures Wrote(old(written), old(out), Some(Encode(value)), r)
    {
      var buffer := Varint.EncodeVarint(value);
      r := Write(buffer);
    }

    /** `pb_encode_tag` */
    method EncodeTag(wire: nat, tag: nat) returns (r: Status)
      requires Valid() && wire < 8 && tag < 0x1_0000_0000
      modifies this
      ensures Wrote(old(written), old(out), Some(Header(tag, wire)), r)
    {
      r := EncodeVarint(8 * tag + wire);
    }

    /** `pb_encode_string` */
    method EncodeString(buffer: seq<Byte>) returns (r: Status)
      requires Valid() && |buffer| < 0x1_0000_0000_0000_0000
      modifies this
      ensures Wrote(old(written), old(out), Delimited(Some(buffer)), r)
    {
      r := EncodeVarint(|buffer|);
      if r.Done? {
        r := Write(buffer);
      }
    }

    /** `pb_encode_fixed32`, `pb_encode_fixed64` */
    method EncodeFixed(n: int, size: nat) returns (r: Status)
      requires Valid()
      modifies this
      ensures Wrote(old(written), old(out), Some(LittleEndian(n, size)), r)
    {
      var bytes: seq<Byte>, v := [], n;
      for i := 0 to size
        invariant LittleEndian(n, size) == bytes + LittleEndian(v, size - i)
      {
        bytes, v := bytes + [v % 256], v / 256;
      }
      r := Write(bytes);
    }
  }

  /** Every length fits `size_t`. */
  const SIZE_64: Bound := Bound(0x1_0000_0000_0000_0000, false)

  // ---- Numbers, strings and bytes ----

  /** `pb_enc_bool`, `pb_enc_varint`, `pb_enc_uvarint`, `pb_enc_svarint`, `pb_enc_fixed32`, `pb_enc_fixed64` */
  method EncodeNumber(stream: OStream, kind: Kind, v: Value) returns (r: Status)
    requires stream.Valid() && Packable(kind) && HasKind(kind, v)
    modifies stream
    ensures stream.Wrote(old(stream.written), old(stream.out), EncNumber(kind, v), r)
  {
    match kind
    case Bool => r := stream.EncodeVarint(if v.n != 0 then 1 else 0);
    case Int(size) =>
      if !KnownSize(size) { return Invalid; }
      r := stream.EncodeVarint(Unsigned64(v.n));
    case UInt(size) =>
      if !KnownSize(size) { return Invalid; }
      r := stream.EncodeVarint(Unsigned64(v.n));
    case SInt(size) =>
      if !KnownSize(size) { return Invalid; }
      r := stream.EncodeVarint(ZigZag(Signed64(Unsigned64(v.n))));
    case Fixed32 => r := stream.EncodeFixed(v.n, 4);
    case Fixed64 => r := stream.EncodeFixed(v.n, 8);
  }

  /** `pb_enc_bytes`, `pb_enc_string` */
  method EncodeData(stream: OStream, kind: Kind, v: Value) returns (r: Status)
    requires stream.Valid() && (kind.Blob? || kind.Text?) && HasKind(kind, v) && |v.bytes| < SIZE_64.length
    modifies stream
    ensures stream.Wrote(old(stream.written), old(stream.out), EncKind(kind, v), r)
  {
    if kind.Blob? {
      if |v.bytes| > kind.cap {
        return Invalid;
      }
      r := stream.EncodeString(v.bytes);
    } else {
      // The array of the field, up to its terminator if there is one.
      var memory := if |v.bytes| < kind.size then v.bytes + [0] else v.bytes;
      assert forall i :: 0 <= i < |v.bytes| ==> v.bytes[i] in v.bytes;
      var size := Strnlen(memory, kind.size, |v.bytes|);
      assert memory[..size] == v.bytes;
      r := stream.EncodeString(memory[..size]);
    }
  }

  /** The number of characters before the terminator, or all of them. */
  method Strnlen(memory: seq<Byte>, max: nat, ghost end: nat) returns (size: nat)
    requires end <= max && end <= |memory| && (end < max ==> end < |memory| && memory[end] == 0)
    requires forall i :: 0 <= i < end ==> memory[i] != 0
    ensures size == end
  {
    size := 0;
    while size < max && memory[size] != 0
      invariant size <= end
    {
      size := size + 1;
    }
  }

  // ---- Arrays ----

  lemma {:induction false} EncAllNext(enc: Value -> Option<seq<Byte>>, items: seq<Value>, i: nat)
    requires i < |items|
    ensures EncAll(enc, items[i..]) == Bind(enc(items[i]), EncAll(enc, items[i + 1..]))
  {
    assert items[i..][1..] == items[i + 1..];
  }

  lemma {:induction false} BindAssoc(a: seq<Byte>, b: Option<seq<Byte>>, c: Option<seq<Byte>>)
    ensures Bind(Some(a), Bind(b, c)) == Bind(Bind(Some(a), b), c)
  {
    if b.Some? && c.Some? { assert a + (b.value + c.value) == (a + b.value) + c.value; }
  }

  lemma {:induction false} BindNothing(e: Option<seq<Byte>>)
    ensures Bind(Some([]), e) == e
  {
    if e.Some? { assert [] + e.value == e.value; }
  }

  /** One more piece after those already written. */
  lemma {:induction false} WroteMore(out: seq<Byte>, done: seq<Byte>, e: seq<Byte>)
    ensures out + done + e == out + (done + e)
  {
  }

  /** The items of a packed array, on a stream of either sort. */
  method EncodeItems(stream: OStream, kind: Kind, items: seq<Value>) returns (r: Status)
    requires stream.Valid() && Packable(kind) && forall i :: 0 <= i < |items| ==> HasKind(kind, items[i])
    modifies stream
    ensures stream.Wrote(old(stream.written), old(stream.out), EncPacked(kind, items), r)
  {
    r := EncodeAll(stream, kind, items, v => EncNumber(kind, v));
  }

  method EncodeAll(stream: OStream, kind: Kind, items: seq<Value>, ghost enc: Value -> Option<seq<Byte>>) returns (r: Status)
    requires stream.Valid() && Packable(kind) && forall v :: enc(v) == EncNumber(kind, v)
    requires forall i :: 0 <= i < |items| ==> HasKind(kind, items[i])
    modifies stream
    ensures stream.Wrote(old(stream.written), old(stream.out), EncAll(enc, items), r)
  {
    ghost var done: seq<Byte> := [];
    assert items[0..] == items;
    BindNothing(EncAll(enc, items));
    assert stream.out + done == stream.out;
    for i := 0 to |items|
      invariant EncAll(enc, items) == Bind(Some(done), EncAll(enc, items[i..]))
      invariant stream.Wrote(old(stream.written), old(stream.out), Some(done), Done)
    {
      EncAllNext(enc, items, i);
      BindAssoc(done, enc(items[i]), EncAll(enc, items[i + 1..]));
      r := EncodeNumber(stream, kind, items[i]);
      if !r.Done? {
        return;
      }
      WroteMore(old(stream.out), done, enc(items[i]).value);
      done := done + enc(items[i]).value;
    }
    assert items[|items|..] == [];
    r := Done;
  }

  lemma {:induction false} FixedItem(kind: Kind, v: Value)
    requires (kind.Fixed32? || kind.Fixed64?) && HasKind(kind, v)
    ensures EncNumber(kind, v).Some? && |EncNumber(kind, v).value| == if kind.Fixed32? then 4 else 8
  {
    Widths();
    LittleEndianTrips(v.n, if kind.Fixed32? then 4 else 8);
  }

  lemma {:induction false} FixedSize(kind: Kind, enc: Value -> Option<seq<Byte>>, items: seq<Value>)
    requires (kind.Fixed32? || kind.Fixed64?) && forall i :: 0 <= i < |items| ==> HasKind(kind, items[i])
    requires forall v :: enc(v) == EncNumber(kind, v)
    ensures EncAll(enc, items).Some? && |EncAll(enc, items).value| == (if kind.Fixed32? then 4 else 8) * |items|
    decreases |items|
  {
    if items != [] {
      FixedItem(kind, items[0]);
      FixedSize(kind, enc, items[1..]);
    }
  }

  /** The size of a packed array: computed for fixed-size numbers, counted for the others. */
  method PackedSize(kind: Kind, items: seq<Value>) returns (size: Option<nat>)
    requires Packable(kind) && forall i :: 0 <= i < |items| ==> HasKind(kind, items[i])
    ensures size == match EncPacked(kind, items) case None => None case Some(e) => Some(|e|)
  {
    if kind.Fixed32? {
      FixedSize(kind, v => EncNumber(kind, v), items);
      size := Some(4 * |items|);
    } else if kind.Fixed64? {
      FixedSize(kind, v => EncNumber(kind, v), items);
      size := Some(8 * |items|);
    } else {
      var counter := new OStream(true, 0, []);
      var r := EncodeItems(counter, kind, items);
      size := if r.Done? then Some(counter.written) else None;
    }
  }

  /** `encode_array` for a packed array. */
  method EncodePackedArray(stream: OStream, f: Field, items: seq<Value>) returns (r: Status)
    requires stream.Valid() && WellFormedField(f) && Packable(f.kind)
    requires ShortLength(SIZE_64, EncPacked(f.kind, items)) && forall i :: 0 <= i < |items| ==> HasKind(f.kind, items[i])
    modifies stream
    ensures stream.Wrote(old(stream.written), old(stream.out),
                         Bind(Some(Header(f.tag, 2)), Delimited(EncPacked(f.kind, items))), r)
  {
    r := stream.EncodeTag(2, f.tag);
    if r.Done? {
      r := EncodeCounted(stream, f.kind, items);
      if r.Done? {
        WroteMore(old(stream.out), Header(f.tag, 2), Delimited(EncPacked(f.kind, items)).value);
      }
    }
  }

  /** The size of a packed array, and its items. */
  method EncodeCounted(stream: OStream, kind: Kind, items: seq<Value>) returns (r: Status)
    requires stream.Valid() && Packable(kind)
    requires ShortLength(SIZE_64, EncPacked(kind, items)) && forall i :: 0 <= i < |items| ==> HasKind(kind, items[i])
    modifies stream
    ensures stream.Wrote(old(stream.written), old(stream.out), Delimited(EncPacked(kind, items)), r)
  {
    var size := PackedSize(kind, items);
    if size.None? {
      return Invalid;
    }
    r := stream.EncodeVarint(size.value);
    if !r.Done? {
      return;
    }
    if stream.sizing {
      stream.Count(size.value);
      return Done;
    }
    r := EncodeItems(stream, kind, items);
    WroteMore(old(stream.out), Encode(size.value), EncPacked(kind, items).value);
  }

  // ---- Messages ----

  /** The encoder of a kind. */
  method EncodeValue(stream: OStream, kind: Kind, v: Value) returns (r: Status)
    requires stream.Valid() && HasKind(kind, v) && Short(SIZE_64, kind, v) && (kind.Sub? ==> WellFormed(kind.fields))
    modifies stream
    ensures stream.Wrote(old(stream.written), old(stream.out), EncKind(kind, v), r)
    decreases kind, 0
  {
    if kind.Sub? {
      r := EncodeSubmessage(stream, kind.fields, v.slots);
    } else if Packable(kind) {
      r := EncodeNumber(stream, kind, v);
    } else {
      r := EncodeData(stream, kind, v);
    }
  }

  /** `pb_encode_tag_for_field`, and the value. */
  method EncodeTagged(stream: OStream, f: Field, v: Value) returns (r: Status)
    requires stream.Valid() && WellFormedField(f) && HasKind(f.kind, v) && Short(SIZE_64, f.kind, v)
    modifies stream
    ensures stream.Wrote(old(stream.written), old(stream.out), EncTagged(f, v), r)
    decreases f, 1
  {
    ghost var h := Header(f.tag, WireType(f.kind));
    r := stream.EncodeTag(WireType(f.kind), f.tag);
    if r.Done? {
      r := EncodeValue(stream, f.kind, v);
      if r.Done? {
        WroteMore(old(stream.out), h, EncKind(f.kind, v).value);
      }
    }
  }

  /** `encode_array` for an array that is not packed. */
  method EncodeUnpacked(stream: OStream, f: Field, items: seq<Value>, ghost enc: Value -> Option<seq<Byte>>)
    returns (r: Status)
    requires stream.Valid() && WellFormedField(f) && AllShort(SIZE_64, f.kind, items)
    requires enc == Tagger(f) && forall i :: 0 <= i < |items| ==> HasKind(f.kind, items[i])
    modifies stream
    ensures stream.Wrote(old(stream.written), old(stream.out), EncAll(enc, items), r)
    decreases f, 2
  {
    ghost var done: seq<Byte> := [];
    assert items[0..] == items;
    BindNothing(EncAll(enc, items));
    assert stream.out + done == stream.out;
    for i := 0 to |items|
      invariant EncAll(enc, items) == Bind(Some(done), EncAll(enc, items[i..]))
      invariant stream.Wrote(old(stream.written), old(stream.out), Some(done), Done)
    {
      EncAllNext(enc, items, i);
      BindAssoc(done, enc(items[i]), EncAll(enc, items[i + 1..]));
      r := EncodeTagged(stream, f, items[i]);
      if !r.Done? {
        return;
      }
      WroteMore(old(stream.out), done, enc(items[i]).value);
      done := done + enc(items[i]).value;
    }
    assert items[|items|..] == [];
    r := Done;
  }

  /** `encode_basic_field` */
  method EncodeField(stream: OStream, f: Field, slot: Slot) returns (r: Status)
    requires stream.Valid() && WellFormedField(f) && HasRule(f, slot) && ShortField(SIZE_64, f, slot)
    modifies stream
    ensures stream.Wrote(old(stream.written), old(stream.out), EncField(f, slot), r)
    decreases f, 3
  {
    assert stream.out + [] == stream.out;
    match f.rule
    case Required =>
      r := EncodeTagged(stream, f, slot.v);
    case Optional =>
      if !slot.has {
        return Done;
      }
      r := EncodeTagged(stream, f, slot.v);
    case Repeated(max) =>
      if |slot.items| == 0 {
        return Done;
      }
      if |slot.items| > max {
        return Invalid;
      }
      if Packable(f.kind) {
        r := EncodePackedArray(stream, f, slot.items);
      } else {
        r := EncodeUnpacked(stream, f, slot.items, Tagger(f));
      }
    case Oneof(_) =>
      if slot.choice.None? || slot.choice.value.0 != f.tag {
        return Done;
      }
      r := EncodeTagged(stream, f, slot.choice.value.1);
  }

  /** `pb_encode`: the fields in the order of the descriptor. */
  method EncodeMessage(stream: OStream, fs: seq<Field>, slots: seq<Slot>) returns (r: Status)
    requires stream.Valid() && WellFormed(fs) && Fits(fs, slots) && ShortMsg(SIZE_64, fs, slots)
    modifies stream
    ensures stream.Wrote(old(stream.written), old(stream.out), EncMsg(fs, slots), r)
    decreases fs, 2
  {
    var enc := Encoder(fs);
    ghost var rest := (k: nat) => EncFields(fs, enc, slots, k);
    ghost var piece := (k: nat) => Piece(fs, slots, k);
    forall k | 0 <= k < |fs| ensures RestAt(rest, piece, k) && Encodable(fs, slots, k) {
      assert WellFormedField(fs[k]) && ShortAt(SIZE_64, fs, k, slots);
      FitsAt(fs, slots, k);
    }
    r := EncodeFields(stream, fs, slots, rest, piece);
  }

  /** What field k is encoded to. */
  function Piece(fs: seq<Field>, slots: seq<Slot>, k: nat): Option<seq<Byte>> {
    if k < |fs| && SlotAt(fs, k) < |slots| then EncField(fs[k], slots[SlotAt(fs, k)]) else None
  }

  predicate RestAt(rest: nat -> Option<seq<Byte>>, piece: nat -> Option<seq<Byte>>, k: nat) {
    rest(k) == Bind(piece(k), rest(k + 1))
  }

  predicate PieceAt(fs: seq<Field>, slots: seq<Slot>, piece: nat -> Option<seq<Byte>>, k: nat) {
    piece(k) == Piece(fs, slots, k)
  }

  predicate Encodable(fs: seq<Field>, slots: seq<Slot>, k: nat)
    requires k < |fs|
  {
    && WellFormedField(fs[k]) && SlotAt(fs, k) < |slots|
    && HasRule(fs[k], slots[SlotAt(fs, k)]) && ShortField(SIZE_64, fs[k], slots[SlotAt(fs, k)])
  }

  /** One field more, and on to the next. */
  method EncodeNext(stream: OStream, fs: seq<Field>, slots: seq<Slot>, iter: FieldIter.Iter,
                    ghost before: nat, ghost outBefore: seq<Byte>, ghost done: seq<Byte>)
    returns (r: Status, more: bool)
    requires iter.Valid() && iter.fs == Entries(fs) && iter.pos < |fs| && forall k :: 0 <= k < |fs| ==> Encodable(fs, slots, k)
    requires stream.Wrote(before, outBefore, Some(done), Done)
    modifies stream, iter
    ensures stream.Wrote(before, outBefore, Bind(Some(done), Piece(fs, slots, old(iter.pos))), r)
    ensures iter.Valid() && more == (old(iter.pos) + 1 < |fs|) && (more ==> iter.pos == old(iter.pos) + 1)
    decreases fs, 0
  {
    var at, _ := Here(iter, fs);
    assert Encodable(fs, slots, iter.pos);
    r := EncodeField(stream, fs[iter.pos], slots[at]);
    if r.Done? {
      WroteMore(outBefore, done, Piece(fs, slots, iter.pos).value);
    }
    more := iter.Next();
  }

  /** The loop of `pb_encode`; `rest` is what the fields from a given one on are encoded to. */
  method EncodeFields(stream: OStream, fs: seq<Field>, slots: seq<Slot>,
                      ghost rest: nat -> Option<seq<Byte>>, ghost piece: nat -> Option<seq<Byte>>)
    returns (r: Status)
    requires stream.Valid() && forall k :: 0 <= k < |fs| ==> Encodable(fs, slots, k)
    requires rest(|fs|) == Some([]) && forall k :: 0 <= k < |fs| ==> RestAt(rest, piece, k)
    requires forall k :: 0 <= k < |fs| ==> PieceAt(fs, slots, piece, k)
    modifies stream
    ensures stream.Wrote(old(stream.written), old(stream.out), rest(0), r)
    decreases fs, 1
  {
    ghost var done: seq<Byte> := [];
    BindNothing(rest(0));
    assert stream.out + done == stream.out;
    ghost var k := 0;
    var iter := new FieldIter.Iter(Entries(fs));
    var more := iter.Begin();
    while more
      invariant iter.fs == Entries(fs) && iter.Valid() && fresh(iter)
      invariant k <= |fs| && more == (k < |fs|) && (more ==> iter.pos == k)
      invariant rest(0) == Bind(Some(done), rest(k))
      invariant stream.Wrote(old(stream.written), old(stream.out), Some(done), Done)
      decreases |fs| - k
    {
      assert RestAt(rest, piece, k) && PieceAt(fs, slots, piece, k);
      BindAssoc(done, piece(k), rest(k + 1));
      r, more := EncodeNext(stream, fs, slots, iter, old(stream.written), old(stream.out), done);
      if !r.Done? {
        return;
      }
      done := done + piece(k).value;
      k := k + 1;
    }
    r := Done;
  }

  /** `pb_encode_submessage`: the size is counted first, and the writing pass cannot differ from it. */
  method EncodeSubmessage(stream: OStream, fs: seq<Field>, slots: seq<Slot>) returns (r: Status)
    requires stream.Valid() && WellFormed(fs) && Fits(fs, slots)
    requires ShortLength(SIZE_64, EncMsg(fs, slots)) && ShortMsg(SIZE_64, fs, slots)
    modifies stream
    ensures stream.Wrote(old(stream.written), old(stream.out), Delimited(EncMsg(fs, slots)), r)
    decreases fs, 4
  {
    var size := EncodedSize(fs, slots);
    if size.None? {
      return Invalid;
    }
    r := stream.EncodeVarint(size.value);
    if !r.Done? {
      return;
    }
    if stream.sizing {
      stream.Count(size.value);
      return Done;
    }
    if stream.written + size.value > stream.max {
      return Full;
    }
    var sub := new OStream(false, size.value, stream.out);
    r := EncodeMessage(sub, fs, slots);
    stream.written := stream.written + sub.written;
    stream.out := sub.out;
    if sub.written != size.value {
      return Changed;
    }
    WroteMore(old(stream.out), Encode(size.value), EncMsg(fs, slots).value);
  }

  /** `pb_get_encoded_size`: the number of bytes that writing the message takes. */
  method EncodedSize(fs: seq<Field>, slots: seq<Slot>) returns (size: Option<nat>)
    requires WellFormed(fs) && Fits(fs, slots) && ShortMsg(SIZE_64, fs, slots)
    ensures size == match EncMsg(fs, slots) case None => None case Some(e) => Some(|e|)
    decreases fs, 3
  {
    var counter := new OStream(true, 0, []);
    var r := EncodeMessage(counter, fs, slots);
    size := if r.Done? then Some(counter.written) else None;
  }
}
