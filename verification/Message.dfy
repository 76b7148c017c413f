/** Protocol buffer messages as nanopb lays them out: descriptors, struct values, their encoding and the decoder. */
module Message {
  import opened Wrappers
  import opened Varint

  // ---- Descriptors and values ----

  datatype Kind = Bool | Int(size: nat) | UInt(size: nat) | SInt(size: nat) | Fixed32 | Fixed64
                | Blob(cap: nat) | Text(size: nat) | Sub(fields: seq<Field>)

  /** `joined`: a further member of the union the field before belongs to. */
  datatype Rule = Required | Optional | Repeated(max: nat) | Oneof(joined: bool)

  datatype Field = Field(tag: nat, rule: Rule, kind: Kind, init: Value)

  /** A number, the bytes of a string or bytes field, or a submessage struct. */
  datatype Value = Num(n: int) | Data(bytes: seq<Byte>) | Msg(slots: seq<Slot>)

  /** One place in a struct: a value, a value with its presence flag, the counted part of an array, or a union with
      the tag of its choice. */
  datatype Slot = One(v: Value) | Maybe(has: bool, v: Value) | Many(items: seq<Value>) | Union(choice: Option<(nat, Value)>)

  predicate Joins(fs: seq<Field>, k: nat) {
    0 < k < |fs| && fs[k - 1].rule.Oneof? && fs[k].rule == Oneof(true)
  }

  /** The slot of field k; all members of a union have the same. */
  function SlotAt(fs: seq<Field>, k: nat): nat
    requires k < |fs|
  {
    if k == 0 then 0 else SlotAt(fs, k - 1) + if Joins(fs, k) then 0 else 1
  }

  function SlotCount(fs: seq<Field>): nat { if fs == [] then 0 else SlotAt(fs, |fs| - 1) + 1 }

  lemma {:induction false} SlotOrder(fs: seq<Field>, j: nat, k: nat)
    requires j <= k < |fs|
    ensures SlotAt(fs, j) <= SlotAt(fs, k) < SlotCount(fs)
    ensures j < k && !(fs[j].rule.Oneof? && fs[k].rule.Oneof?) ==> SlotAt(fs, j) < SlotAt(fs, k)
    decreases |fs| - j
  {
    if k < |fs| - 1 {
      SlotUp(fs, k, |fs| - 1);
    }
    if j < k {
      SlotUp(fs, j + 1, k);
      SlotUp(fs, j, k - 1);
    }
  }

  lemma {:induction false} SlotUp(fs: seq<Field>, j: nat, k: nat)
    requires j <= k < |fs|
    ensures SlotAt(fs, j) <= SlotAt(fs, k)
    decreases k
  {
    if j < k { SlotUp(fs, j, k - 1); }
  }

  predicate Packable(kind: Kind) { !kind.Blob? && !kind.Text? && !kind.Sub? }

  predicate KnownSize(size: nat) { size == 1 || size == 2 || size == 4 || size == 8 }

  // ---- Defaults ----

  function Default(f: Field): Value
    decreases f, 1
  {
    if f.kind.Sub? then Msg(Defaults(f.kind.fields, |f.kind.fields|)) else f.init
  }

  function InitSlot(f: Field): Slot
    decreases f, 2
  {
    match f.rule
    case Required => One(Default(f))
    case Optional => Maybe(false, Default(f))
    case Repeated(_) => Many([])
    case Oneof(_) => Union(None)
  }

  /** The slots of the first n fields as `pb_message_set_to_defaults` leaves them. */
  function Defaults(fs: seq<Field>, n: nat): seq<Slot>
    requires n <= |fs|
    decreases fs, n
  {
    if n == 0 then []
    else if Joins(fs, n - 1) then Defaults(fs, n - 1)
    else Defaults(fs, n - 1) + [InitSlot(fs[n - 1])]
  }

  // ---- Encoding ----

  function Bind(a: Option<seq<Byte>>, b: Option<seq<Byte>>): Option<seq<Byte>> {
    if a.Some? && b.Some? then Some(a.value + b.value) else None
  }

  /** A length and that many bytes. */
  function Delimited(a: Option<seq<Byte>>): Option<seq<Byte>> {
    if a.Some? then Some(Encode(|a.value|) + a.value) else None
  }

  function LittleEndian(n: int, size: nat): seq<Byte>
    decreases size
  {
    if size == 0 then [] else [n % 256] + LittleEndian(n / 256, size - 1)
  }

  function WireType(kind: Kind): nat {
    match kind
    case Fixed64 => 1
    case Fixed32 => 5
    case Blob(_) => 2
    case Text(_) => 2
    case Sub(_) => 2
    case _ => 0
  }

  function Header(tag: nat, wire: nat): seq<Byte> { Encode(8 * tag + wire) }

  /** What the encoder of a kind writes; none if it reports an error. */
  function EncKind(kind: Kind, v: Value): Option<seq<Byte>>
    decreases kind, 0
  {
    match v
    case Num(n) => EncNum(kind, n)
    case Data(b) =>
      if kind.Text? || (kind.Blob? && |b| <= kind.cap) then Delimited(Some(b)) else None
    case Msg(slots) =>
      if kind.Sub? then Delimited(EncMsg(kind.fields, slots)) else None
  }

  function EncNum(kind: Kind, n: int): Option<seq<Byte>> {
    match kind
    case Bool => Some(Encode(if n != 0 then 1 else 0))
    case Int(size) => if KnownSize(size) then Some(Encode(Unsigned64(n))) else None
    case UInt(size) => if KnownSize(size) then Some(Encode(Unsigned64(n))) else None
    case SInt(size) =>
      if KnownSize(size) then Some(Encode(ZigZag(Signed64(Unsigned64(n))))) else None
    case Fixed32 => Some(LittleEndian(n, 4))
    case Fixed64 => Some(LittleEndian(n, 8))
    case _ => None
  }

  function EncNumber(kind: Kind, v: Value): Option<seq<Byte>> { if v.Num? then EncNum(kind, v.n) else None }

  /** The encodings of all items, one after the other. */
  function EncAll(enc: Value -> Option<seq<Byte>>, items: seq<Value>): Option<seq<Byte>> {
    if items == [] then Some([]) else Bind(enc(items[0]), EncAll(enc, items[1..]))
  }

  function EncPacked(kind: Kind, items: seq<Value>): Option<seq<Byte>> { EncAll(v => EncNumber(kind, v), items) }

  function EncTagged(f: Field, v: Value): Option<seq<Byte>>
    decreases f, 1
  {
    Bind(Some(Header(f.tag, WireType(f.kind))), EncKind(f.kind, v))
  }

  function EncField(f: Field, slot: Slot): Option<seq<Byte>>
    decreases f, 3
  {
    match (f.rule, slot)
    case (Required, One(v)) => EncTagged(f, v)
    case (Optional, Maybe(has, v)) => if has then EncTagged(f, v) else Some([])
    case (Repeated(max), Many(items)) =>
      if items == [] then Some([])
      else if |items| > max then None
      else if Packable(f.kind) then Bind(Some(Header(f.tag, 2)), Delimited(EncPacked(f.kind, items)))
      else EncAll(v => EncTagged(f, v), items)
    case (Oneof(_), Union(choice)) =>
      if choice.Some? && choice.value.0 == f.tag then EncTagged(f, choice.value.1) else Some([])
    case _ => None
  }

  type FieldEncoder = (nat, Slot) -> Option<seq<Byte>>

  /** The fields from k on. */
  function EncFields(fs: seq<Field>, enc: FieldEncoder, slots: seq<Slot>, k: nat): Option<seq<Byte>>
    decreases |fs| - k
  {
    if k >= |fs| then Some([])
    else if SlotAt(fs, k) >= |slots| then None
    else Bind(enc(k, slots[SlotAt(fs, k)]), EncFields(fs, enc, slots, k + 1))
  }

  function Encoder(fs: seq<Field>): FieldEncoder
    decreases fs, 0
  {
    (k: nat, slot: Slot) => if k < |fs| then EncField(fs[k], slot) else None
  }

  /** What `pb_encode` writes; none if it reports an error other than a full stream. */
  function EncMsg(fs: seq<Field>, slots: seq<Slot>): Option<seq<Byte>>
    decreases fs, 1
  {
    EncFields(fs, Encoder(fs), slots, 0)
  }

  // ---- Decoding ----

  type Parsed<T> = Option<(T, seq<Byte>)>

  /** The contents of a substream and what follows it. */
  function Substream(s: seq<Byte>): (r: Parsed<seq<Byte>>)
    ensures r.Some? ==> |r.value.0| + |r.value.1| < |s|
  {
    match Decode32(s)
    case Bad => None
    case Got(n, used) => if |s| - used < n then None else Some((s[used..used + n], s[used + n..]))
  }

  /** The low 8 * size bits as a signed number. */
  function Narrow(n: int, size: nat): int {
    if size == 1 then (n + 0x80) % 0x100 - 0x80
    else if size == 2 then (n + 0x8000) % 0x1_0000 - 0x8000
    else if size == 4 then (n + 0x8000_0000) % 0x1_0000_0000 - 0x8000_0000
    else (n + 0x8000_0000_0000_0000) % 0x1_0000_0000_0000_0000 - 0x8000_0000_0000_0000
  }

  function NarrowUnsigned(n: int, size: nat): nat {
    if size == 1 then n % 0x100
    else if size == 2 then n % 0x1_0000
    else if size == 4 then n % 0x1_0000_0000
    else n % 0x1_0000_0000_0000_0000
  }

  /** Casting to the size of the field, if that keeps the number. */
  function Clamp(kind: Kind, value: U64): Option<int> {
    match kind
    case Int(size) =>
      var n := Narrow(value, if size == 8 then 8 else 4);
      if KnownSize(size) && Narrow(n, size) == n then Some(n) else None
    case UInt(size) => if KnownSize(size) && NarrowUnsigned(value, size) == value then Some(value) else None
    case SInt(size) =>
      var n := UnZigZag(value);
      if KnownSize(size) && Narrow(n, size) == n then Some(n) else None
    case _ => None
  }

  function FromLittleEndian(b: seq<Byte>): nat { if b == [] then 0 else b[0] + 256 * FromLittleEndian(b[1..]) }

  /** The part of a string before its first NUL. */
  function CString(b: seq<Byte>): (c: seq<Byte>)
    ensures |c| <= |b|
  {
    if b == [] || b[0] == 0 then [] else [b[0]] + CString(b[1..])
  }

  function DecNum(kind: Kind, s: seq<Byte>): (r: Parsed<Value>)
    requires Packable(kind)
    ensures r.Some? ==> |r.value.1| < |s|
  {
    if kind.Bool? then
      var d := Decode32(s);
      if d.Bad? then None else Some((Num(if d.value != 0 then 1 else 0), s[d.used..]))
    else if kind.Fixed32? then (if |s| < 4 then None else Some((Num(FromLittleEndian(s[..4])), s[4..])))
    else if kind.Fixed64? then (if |s| < 8 then None else Some((Num(FromLittleEndian(s[..8])), s[8..])))
    else
      var d := Decode64(s);
      if d.Bad? then None
      else
        var n := Clamp(kind, d.value);
        if n.None? then None else Some((Num(n.value), s[d.used..]))
  }

  function DecData(kind: Kind, s: seq<Byte>): (r: Parsed<Value>)
    requires kind.Blob? || kind.Text?
    ensures r.Some? ==> |r.value.1| < |s|
  {
    match Decode32(s)
    case Bad => None
    case Got(n, used) =>
      if kind.Blob? && n > kind.cap then None
      else if kind.Text? && n + 1 > kind.size then None
      else if |s| - used < n then None
      else
        var b := s[used..used + n];
        Some((Data(if kind.Text? then CString(b) else b), s[used + n..]))
  }

  /** The decoder of a kind. A submessage is read on top of `cur`, or anew on top of its defaults. */
  function DecKind(kind: Kind, s: seq<Byte>, cur: Value, anew: bool): (r: Parsed<Value>)
    ensures r.Some? ==> |r.value.1| < |s|
    decreases kind, 0
  {
    match kind
    case Sub(fs) =>
      var sub := Substream(s);
      if sub.None? then None
      else
        var base := if anew then Defaults(fs, |fs|) else if cur.Msg? then cur.slots else [];
        var m := DecMsg(fs, sub.value.0, base);
        if m.None? then None else Some((Msg(m.value.0), sub.value.1))
    case _ => if Packable(kind) then DecNum(kind, s) else DecData(kind, s)
  }

  /** The items of a packed array, appended to those already there. */
  function DecAll(dec: seq<Byte> -> Parsed<Value>, s: seq<Byte>, items: seq<Value>, max: nat): Option<seq<Value>>
    decreases max - |items|
  {
    if s == [] then Some(items)
    else if |items| >= max then None
    else
      var d := dec(s);
      if d.None? then None else DecAll(dec, d.value.1, items + [d.value.0], max)
  }

  function DecPacked(kind: Kind, s: seq<Byte>, items: seq<Value>, max: nat): Option<seq<Value>>
    requires Packable(kind)
  {
    DecAll(t => DecNum(kind, t), s, items, max)
  }

  function Current(slot: Slot): Value {
    match slot
    case One(v) => v
    case Maybe(_, v) => v
    case _ => Num(0)
  }

  /** What a oneof submessage is read on top of. */
  function UnionBase(f: Field, slot: Slot): Value
    decreases f, 2
  {
    if slot.Union? && slot.choice.Some? && slot.choice.value.0 == f.tag then slot.choice.value.1 else Default(f)
  }

  function DecField(f: Field, wire: nat, s: seq<Byte>, slot: Slot): (r: Parsed<Slot>)
    ensures r.Some? ==> |r.value.1| < |s|
    decreases f, 3
  {
    match f.rule
    case Required =>
      var d := DecKind(f.kind, s, Current(slot), false);
      if d.None? then None else Some((One(d.value.0), d.value.1))
    case Optional =>
      var d := DecKind(f.kind, s, Current(slot), false);
      if d.None? then None else Some((Maybe(true, d.value.0), d.value.1))
    case Repeated(max) =>
      var items := if slot.Many? then slot.items else [];
      if wire == 2 && Packable(f.kind) then
        var sub := Substream(s);
        if sub.None? then None
        else
          var all := DecPacked(f.kind, sub.value.0, items, max);
          if all.None? then None else Some((Many(all.value), sub.value.1))
      else if |items| >= max then None
      else
        var d := DecKind(f.kind, s, Num(0), true);
        if d.None? then None else Some((Many(items + [d.value.0]), d.value.1))
    case Oneof(_) =>
      var d := DecKind(f.kind, s, UnionBase(f, slot), false);
      if d.None? then None else Some((Union(Some((f.tag, d.value.0))), d.value.1))
  }

  /** The first field with a tag, from k on. */
  function Find(fs: seq<Field>, tag: nat, k: nat): (r: Option<nat>)
    ensures r.Some? ==> k <= r.value < |fs| && fs[r.value].tag == tag
    decreases |fs| - k
  {
    if k >= |fs| then None else if fs[k].tag == tag then Some(k) else Find(fs, tag, k + 1)
  }

  /** The bytes after a field that is skipped. */
  function Skip(wire: nat, s: seq<Byte>): (r: Option<seq<Byte>>)
    ensures r.Some? ==> |r.value| < |s|
  {
    if wire == 0 then (if Span(s) == 0 then None else Some(s[Span(s)..]))
    else if wire == 1 then (if |s| < 8 then None else Some(s[8..]))
    else if wire == 2 then (var sub := Substream(s); if sub.None? then None else Some(sub.value.1))
    else if wire == 5 then (if |s| < 4 then None else Some(s[4..]))
    else None
  }

  function RequiredBefore(fs: seq<Field>, k: nat): nat
    requires k <= |fs|
  {
    if k == 0 then 0 else RequiredBefore(fs, k - 1) + if fs[k - 1].rule.Required? then 1 else 0
  }

  /** Each of the first 64 required fields has been seen. */
  predicate Complete(fs: seq<Field>, seen: set<nat>) {
    forall k: nat :: k < |fs| && fs[k].rule.Required? && RequiredBefore(fs, k) < 64 ==> k in seen
  }

  function Finish(fs: seq<Field>, s: seq<Byte>, slots: seq<Slot>, seen: set<nat>): Parsed<seq<Slot>> {
    if Complete(fs, seen) then Some((slots, s)) else None
  }

  type FieldDecoder = (nat, nat, seq<Byte>, Slot) -> Parsed<Slot>

  predicate ShrinksAt(dec: FieldDecoder, k: nat, wire: nat, s: seq<Byte>, slot: Slot) {
    dec(k, wire, s, slot).Some? ==> |dec(k, wire, s, slot).value.1| < |s|
  }

  ghost predicate Shrinks(dec: FieldDecoder) { forall k, wire, s, slot :: ShrinksAt(dec, k, wire, s, slot) }

  /** Read fields on top of a struct until the stream ends or a zero tag ends the message. */
  function DecFields(fs: seq<Field>, dec: FieldDecoder, s: seq<Byte>, slots: seq<Slot>, seen: set<nat>)
    : (r: Parsed<seq<Slot>>)
    requires Shrinks(dec)
    ensures r.Some? ==> |r.value.1| <= |s|
    decreases |s|
  {
    if s == [] then Finish(fs, s, slots, seen)
    else
      match Decode32(s)
      case Bad => None
      case Got(t, used) =>
        if t == 0 then Finish(fs, s[used..], slots, seen)
        else
          var tag, wire, rest := t / 8, t % 8, s[used..];
          var k := Find(fs, tag, 0);
          if k.Some? && SlotAt(fs, k.value) < |slots| then
            var at := SlotAt(fs, k.value);
            var d := dec(k.value, wire, rest, slots[at]);
            assert ShrinksAt(dec, k.value, wire, rest, slots[at]);
            if d.None? then None else DecFields(fs, dec, d.value.1, slots[at := d.value.0], seen + {k.value})
          else if fs == [] && tag == 0 then
            // The terminator of a descriptor without fields passes for a bool field with tag 0.
            var d := Decode32(rest);
            if d.Bad? then None else DecFields(fs, dec, rest[d.used..], slots, seen)
          else
            var after := Skip(wire, rest);
            if after.None? then None else DecFields(fs, dec, after.value, slots, seen)
  }

  function Decoder(fs: seq<Field>): (dec: FieldDecoder)
    ensures Shrinks(dec)
    decreases fs, 0
  {
    (k: nat, wire: nat, s: seq<Byte>, slot: Slot) => if k < |fs| then DecField(fs[k], wire, s, slot) else None
  }

  /** `pb_decode_noinit` */
  function DecMsg(fs: seq<Field>, s: seq<Byte>, slots: seq<Slot>): (r: Parsed<seq<Slot>>)
    ensures r.Some? ==> |r.value.1| <= |s|
    decreases fs, 1
  {
    DecFields(fs, Decoder(fs), s, slots, {})
  }

  /** `pb_decode` */
  function Decode(fs: seq<Field>, s: seq<Byte>): Parsed<seq<Slot>> { DecMsg(fs, s, Defaults(fs, |fs|)) }
}
