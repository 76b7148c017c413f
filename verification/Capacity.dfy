/** What the decoder leaves in a struct, whatever bytes it is given: nothing goes past the end of its array, every number
    fits its field, and what is not in the message has its declared default. */
module Capacity {
  import opened Wrappers
  import opened SeqFacts
  import opened Varint
  import opened Message
  import opened RoundTrip

  // ---- Declared defaults ----

  /** The declared default; in a submessage, that of each of its fields, at every depth. */
  predicate InitialValue(kind: Kind, init: Value, v: Value)
    decreases kind, 0
  {
    if kind.Sub? then v.Msg? && Initial(kind.fields, v.slots) else v == init
  }

  predicate InitialSlot(f: Field, slot: Slot)
    decreases f, 1
  {
    match f.rule
    case Required => slot.One? && InitialValue(f.kind, f.init, slot.v)
    case Optional => slot.Maybe? && !slot.has && InitialValue(f.kind, f.init, slot.v)
    case Repeated(_) => slot == Many([])
    case Oneof(_) => slot == Union(None)
  }

  predicate Initial(fs: seq<Field>, slots: seq<Slot>)
    decreases fs, 1
  {
    |slots| == SlotCount(fs) && forall k :: 0 <= k < |fs| ==> InitialAt(fs, k, slots)
  }

  predicate InitialAt(fs: seq<Field>, k: nat, slots: seq<Slot>)
    requires k < |fs|
    decreases fs, 0
  {
    SlotAt(fs, k) < |slots| && InitialSlot(fs[k], slots[SlotAt(fs, k)])
  }

  lemma {:induction false} DefaultIsInitial(f: Field)
    ensures InitialSlot(f, InitSlot(f)) && InitialValue(f.kind, f.init, Default(f))
    decreases f
  {
    if f.kind.Sub? {
      var fs := f.kind.fields;
      forall k | 0 <= k < |fs| ensures InitialSlot(fs[k], InitSlot(fs[k])) { DefaultIsInitial(fs[k]); }
      SlotsInitial(fs);
    }
  }

  lemma {:induction false} SlotsInitial(fs: seq<Field>)
    requires forall k :: 0 <= k < |fs| ==> InitialSlot(fs[k], InitSlot(fs[k]))
    ensures Initial(fs, Defaults(fs, |fs|))
  {
    if fs != [] { DefaultsAt(fs, |fs|, |fs| - 1); }
    forall k | 0 <= k < |fs| ensures InitialAt(fs, k, Defaults(fs, |fs|)) { DefaultsAt(fs, |fs|, k); }
  }

  /** A struct set to its defaults has every declared default in its place. */
  lemma {:induction false} DefaultsAreInitial(fs: seq<Field>)
    ensures Initial(fs, Defaults(fs, |fs|))
  {
    forall k | 0 <= k < |fs| ensures InitialSlot(fs[k], InitSlot(fs[k])) { DefaultIsInitial(fs[k]); }
    SlotsInitial(fs);
  }

  lemma {:induction false} FirstRequired(fs: seq<Field>, k: nat) returns (i: nat)
    requires k < |fs| && fs[k].rule.Required?
    ensures i <= k && fs[i].rule.Required? && RequiredBefore(fs, i) == 0
    decreases k
  {
    if j :| 0 <= j < k && fs[j].rule.Required? {
      i := FirstRequired(fs, j);
    } else {
      i := k;
      NoneBefore(fs, k);
    }
  }

  lemma {:induction false} NoneBefore(fs: seq<Field>, k: nat)
    requires k <= |fs| && forall j :: 0 <= j < k ==> !fs[j].rule.Required?
    ensures RequiredBefore(fs, k) == 0
    decreases k
  {
    if k > 0 { NoneBefore(fs, k - 1); }
  }

  /** The empty message is accepted exactly if no field is required, and then every optional field is absent with its
      declared default, every array is empty and no union has a choice, at every depth. */
  lemma {:induction false} EmptyMessage(fs: seq<Field>)
    ensures Decode(fs, []).Some? <==> forall k :: 0 <= k < |fs| ==> !fs[k].rule.Required?
    ensures Decode(fs, []).Some? ==> Decode(fs, []).value.1 == [] && Initial(fs, Decode(fs, []).value.0)
  {
    DefaultsAreInitial(fs);
    assert Decode(fs, []) == Finish(fs, [], Defaults(fs, |fs|), {});
    if k :| 0 <= k < |fs| && fs[k].rule.Required? {
      var i := FirstRequired(fs, k);
      assert !Complete(fs, {});
    }
  }

  // ---- Numbers, strings and bytes as they are read ----

  /** A number of so many bits, with or without a sign. */
  predicate InRange(n: int, size: nat, signed: bool) {
    match size
    case 1 => if signed then -0x80 <= n < 0x80 else 0 <= n < 0x100
    case 2 => if signed then -0x8000 <= n < 0x8000 else 0 <= n < 0x1_0000
    case 4 => if signed then -0x8000_0000 <= n < 0x8000_0000 else 0 <= n < 0x1_0000_0000
    case 8 => if signed then -0x8000_0000_0000_0000 <= n < 0x8000_0000_0000_0000 else 0 <= n < 0x1_0000_0000_0000_0000
    case _ => false
  }

  /** What the memory of a field of a kind may hold after decoding. */
  predicate WithinValue(kind: Kind, v: Value)
    decreases kind, 0
  {
    match kind
    case Bool => v == Num(0) || v == Num(1)
    case Int(size) => v.Num? && InRange(v.n, size, true)
    case UInt(size) => v.Num? && InRange(v.n, size, false)
    case SInt(size) => v.Num? && InRange(v.n, size, true)
    case Fixed32 => v.Num? && InRange(v.n, 4, false)
    case Fixed64 => v.Num? && InRange(v.n, 8, false)
    case Blob(cap) => v.Data? && |v.bytes| <= cap
    case Text(size) => v.Data? && |v.bytes| < size && 0 !in v.bytes
    case Sub(fs) => v.Msg? && Within(fs, v.slots)
  }

  predicate WithinSlot(f: Field, slot: Slot)
    decreases f, 1
  {
    match f.rule
    case Required => slot.One? && WithinValue(f.kind, slot.v)
    case Optional => slot.Maybe? && WithinValue(f.kind, slot.v)
    case Repeated(max) => slot.Many? && |slot.items| <= max && forall i :: 0 <= i < |slot.items| ==> WithinValue(f.kind, slot.items[i])
    case Oneof(_) => slot.Union? && (Chosen(f, slot) ==> WithinValue(f.kind, slot.choice.value.1))
  }

  predicate Within(fs: seq<Field>, slots: seq<Slot>)
    decreases fs, 1
  {
    |slots| == SlotCount(fs) && forall k :: 0 <= k < |fs| ==> WithinAt(fs, k, slots)
  }

  predicate WithinAt(fs: seq<Field>, k: nat, slots: seq<Slot>)
    requires k < |fs|
    decreases fs, 0
  {
    SlotAt(fs, k) < |slots| && WithinSlot(fs[k], slots[SlotAt(fs, k)])
  }

  lemma {:induction false} NarrowByte(n: int)
    ensures InRange(Narrow(n, 1), 1, true) && (Narrow(n, 1) == n <==> InRange(n, 1, true))
    ensures InRange(NarrowUnsigned(n, 1), 1, false) && (NarrowUnsigned(n, 1) == n <==> InRange(n, 1, false))
  {
  }

  lemma {:induction false} NarrowShort(n: int)
    ensures InRange(Narrow(n, 2), 2, true) && (Narrow(n, 2) == n <==> InRange(n, 2, true))
    ensures InRange(NarrowUnsigned(n, 2), 2, false) && (NarrowUnsigned(n, 2) == n <==> InRange(n, 2, false))
  {
  }

  lemma {:induction false} NarrowWord(n: int)
    ensures InRange(Narrow(n, 4), 4, true) && (Narrow(n, 4) == n <==> InRange(n, 4, true))
    ensures InRange(NarrowUnsigned(n, 4), 4, false) && (NarrowUnsigned(n, 4) == n <==> InRange(n, 4, false))
  {
  }

  lemma {:induction false} NarrowLong(n: int)
    ensures InRange(Narrow(n, 8), 8, true) && (Narrow(n, 8) == n <==> InRange(n, 8, true))
    ensures InRange(NarrowUnsigned(n, 8), 8, false) && (NarrowUnsigned(n, 8) == n <==> InRange(n, 8, false))
  {
  }

  /** Casting gives a number of that size, and the same number exactly if it is one. */
  lemma {:induction false} NarrowMeans(n: int, size: nat)
    requires KnownSize(size)
    ensures InRange(Narrow(n, size), size, true) && InRange(NarrowUnsigned(n, size), size, false)
    ensures Narrow(n, size) == n <==> InRange(n, size, true)
    ensures NarrowUnsigned(n, size) == n <==> InRange(n, size, false)
  {
    NarrowByte(n);
    NarrowShort(n);
    NarrowWord(n);
    NarrowLong(n);
  }

  /** A number that is read fits its field. */
  lemma {:induction false} NumWithin(kind: Kind, s: seq<Byte>)
    requires Packable(kind) && DecNum(kind, s).Some?
    ensures WithinValue(kind, DecNum(kind, s).value.0)
  {
    match kind
    case Bool =>
    case Int(size) => NarrowMeans(Narrow(Decode64(s).value, if size == 8 then 8 else 4), size);
    case UInt(size) => NarrowMeans(Decode64(s).value, size);
    case SInt(size) => NarrowMeans(UnZigZag(Decode64(s).value), size);
    case Fixed32 => FromLittleEndianRange(s[..4]);
    case Fixed64 => FromLittleEndianRange(s[..8]);
  }

  lemma {:induction false} FromLittleEndianRange(b: seq<Byte>)
    requires |b| == 4 || |b| == 8
    ensures FromLittleEndian(b) < if |b| == 4 then 0x1_0000_0000 else 0x1_0000_0000_0000_0000
  {
    Widths();
    LittleEndianBound(b);
  }

  lemma {:induction false} LittleEndianBound(b: seq<Byte>)
    ensures FromLittleEndian(b) < Shl(1, 8 * |b|)
    decreases |b|
  {
    if b != [] {
      LittleEndianBound(b[1..]);
      var p := 8 * |b| - 8;
      ShlSeven(1, p);
      assert Shl(1, p + 8) == 2 * Shl(1, p + 7);
    }
  }

  lemma {:induction false} CStringClean(b: seq<Byte>)
    ensures 0 !in CString(b) && CString(b) <= b
    decreases |b|
  {
    if b != [] && b[0] != 0 { CStringClean(b[1..]); }
  }

  lemma {:induction false} DataWithin(kind: Kind, s: seq<Byte>)
    requires (kind.Blob? || kind.Text?) && DecData(kind, s).Some?
    ensures WithinValue(kind, DecData(kind, s).value.0)
  {
    var d := Decode32(s);
    CStringClean(s[d.used..d.used + d.value]);
  }

  lemma {:induction false} AllWithin(dec: seq<Byte> -> Parsed<Value>, kind: Kind, s: seq<Byte>, items: seq<Value>, max: nat)
    requires |items| <= max && (forall i :: 0 <= i < |items| ==> WithinValue(kind, items[i]))
    requires forall t :: dec(t).Some? ==> WithinValue(kind, dec(t).value.0)
    ensures var r := DecAll(dec, s, items, max);
      r.Some? ==> |r.value| <= max && forall i :: 0 <= i < |r.value| ==> WithinValue(kind, r.value[i])
    decreases max - |items|
  {
    if s != [] && |items| < max && dec(s).Some? { AllWithin(dec, kind, dec(s).value.1, items + [dec(s).value.0], max); }
  }

  lemma {:induction false} PackedWithin(kind: Kind, s: seq<Byte>, items: seq<Value>, max: nat)
    requires Packable(kind) && |items| <= max && (forall i :: 0 <= i < |items| ==> WithinValue(kind, items[i]))
    ensures var r := DecPacked(kind, s, items, max);
      r.Some? ==> |r.value| <= max && forall i :: 0 <= i < |r.value| ==> WithinValue(kind, r.value[i])
  {
    var dec := (t: seq<Byte>) => DecNum(kind, t);
    forall t | dec(t).Some? ensures WithinValue(kind, dec(t).value.0) { NumWithin(kind, t); }
    AllWithin(dec, kind, s, items, max);
  }

  // ---- Fields ----

  /** The declared defaults fit, at every depth. */
  predicate GoodInit(f: Field)
    decreases f
  {
    if f.kind.Sub? then forall k :: 0 <= k < |f.kind.fields| ==> GoodInit(f.kind.fields[k])
    else (f.rule.Required? || f.rule.Optional? ==> WithinValue(f.kind, f.init))
  }

  ghost predicate GoodInits(fs: seq<Field>) { forall k :: 0 <= k < |fs| ==> GoodInit(fs[k]) }

  lemma {:induction false} DefaultWithin(f: Field)
    requires GoodInit(f)
    ensures WithinSlot(f, InitSlot(f)) && (f.kind.Sub? ==> WithinValue(f.kind, Default(f)))
    decreases f
  {
    if f.kind.Sub? {
      var fs := f.kind.fields;
      forall k | 0 <= k < |fs| ensures WithinSlot(fs[k], InitSlot(fs[k])) {
        assert GoodInit(fs[k]);
        DefaultWithin(fs[k]);
      }
      SlotsWithin(fs);
    }
  }

  lemma {:induction false} SlotsWithin(fs: seq<Field>)
    requires forall k :: 0 <= k < |fs| ==> WithinSlot(fs[k], InitSlot(fs[k]))
    ensures Within(fs, Defaults(fs, |fs|))
  {
    if fs != [] { DefaultsAt(fs, |fs|, |fs| - 1); }
    forall k | 0 <= k < |fs| ensures WithinAt(fs, k, Defaults(fs, |fs|)) { DefaultsAt(fs, |fs|, k); }
  }

  lemma {:induction false} DefaultsWithin(fs: seq<Field>)
    requires GoodInits(fs)
    ensures Within(fs, Defaults(fs, |fs|))
  {
    forall k | 0 <= k < |fs| ensures WithinSlot(fs[k], InitSlot(fs[k])) {
      assert GoodInit(fs[k]);
      DefaultWithin(fs[k]);
    }
    SlotsWithin(fs);
  }

  /** A value of this kind is read so that it fits, whatever the bytes are. */
  predicate KindKeepsAt(kind: Kind, s: seq<Byte>, cur: Value, anew: bool) {
    (kind.Sub? && !anew ==> WithinValue(kind, cur)) && DecKind(kind, s, cur, anew).Some?
    ==> WithinValue(kind, DecKind(kind, s, cur, anew).value.0)
  }

  ghost predicate KindKeeps(kind: Kind) { forall s, cur, anew :: KindKeepsAt(kind, s, cur, anew) }

  lemma {:induction false} FieldKeeps(f: Field, wire: nat, s: seq<Byte>, slot: Slot)
    requires KindKeeps(f.kind) && WithinSlot(f, slot) && DecField(f, wire, s, slot).Some?
    requires f.rule.Oneof? && f.kind.Sub? ==> WithinValue(f.kind, Default(f))
    ensures WithinSlot(f, DecField(f, wire, s, slot).value.0)
    ensures f.rule.Oneof? ==> Chosen(f, DecField(f, wire, s, slot).value.0)
  {
    match f.rule
    case Required => assert KindKeepsAt(f.kind, s, Current(slot), false);
    case Optional => assert KindKeepsAt(f.kind, s, Current(slot), false);
    case Repeated(max) =>
      if wire == 2 && Packable(f.kind) {
        PackedWithin(f.kind, Substream(s).value.0, slot.items, max);
      } else {
        assert KindKeepsAt(f.kind, s, Num(0), true);
      }
    case Oneof(_) => assert KindKeepsAt(f.kind, s, UnionBase(f, slot), false);
  }

  /** Reading field k keeps all slots within bounds. */
  lemma {:induction false} SlotsKeep(fs: seq<Field>, k: nat, slots: seq<Slot>, slot: Slot)
    requires WellFormed(fs) && Within(fs, slots) && k < |fs| && SlotAt(fs, k) < |slots| && WithinSlot(fs[k], slot)
    requires fs[k].rule.Oneof? ==> Chosen(fs[k], slot)
    ensures Within(fs, slots[SlotAt(fs, k) := slot])
  {
    var now := slots[SlotAt(fs, k) := slot];
    forall i | 0 <= i < |fs| ensures WithinAt(fs, i, now) {
      assert WithinAt(fs, i, slots);
      if i != k {
        SlotOrder(fs, if i < k then i else k, if i < k then k else i);
        assert fs[i].tag != fs[k].tag;
      }
      assert WithinSlot(fs[i], now[SlotAt(fs, i)]);
    }
    assert Within(fs, now);
  }

  predicate DecKeepsAt(fs: seq<Field>, dec: FieldDecoder, k: nat, wire: nat, s: seq<Byte>, slot: Slot) {
    k < |fs| && WithinSlot(fs[k], slot) && dec(k, wire, s, slot).Some? ==>
      WithinSlot(fs[k], dec(k, wire, s, slot).value.0) && (fs[k].rule.Oneof? ==> Chosen(fs[k], dec(k, wire, s, slot).value.0))
  }

  ghost predicate DecKeeps(fs: seq<Field>, dec: FieldDecoder) {
    forall k, wire, s, slot :: DecKeepsAt(fs, dec, k, wire, s, slot)
  }

  lemma {:induction false} FieldsKeep(fs: seq<Field>, dec: FieldDecoder, s: seq<Byte>, slots: seq<Slot>, seen: set<nat>)
    requires WellFormed(fs) && Shrinks(dec) && DecKeeps(fs, dec) && Within(fs, slots)
    ensures var r := DecFields(fs, dec, s, slots, seen); r.Some? ==> Within(fs, r.value.0)
    decreases |s|
  {
    if s != [] && Decode32(s).Got? && Decode32(s).value != 0 {
      var d := Decode32(s);
      var tag, wire, rest := d.value / 8, d.value % 8, s[d.used..];
      var k := Find(fs, tag, 0);
      if k.Some? {
        var at := SlotAt(fs, k.value);
        assert WithinAt(fs, k.value, slots);
        var r := dec(k.value, wire, rest, slots[at]);
        assert ShrinksAt(dec, k.value, wire, rest, slots[at]) && DecKeepsAt(fs, dec, k.value, wire, rest, slots[at]);
        if r.Some? {
          SlotsKeep(fs, k.value, slots, r.value.0);
          FieldsKeep(fs, dec, r.value.1, slots[at := r.value.0], seen + {k.value});
        }
      } else if fs == [] && tag == 0 {
        var b := Decode32(rest);
        if b.Got? { FieldsKeep(fs, dec, rest[b.used..], slots, seen); }
      } else {
        var after := Skip(wire, rest);
        if after.Some? { FieldsKeep(fs, dec, after.value, slots, seen); }
      }
    }
  }

  lemma {:induction false} MsgKeeps(fs: seq<Field>, s: seq<Byte>, slots: seq<Slot>)
    requires WellFormed(fs) && GoodInits(fs) && Within(fs, slots) && forall i :: 0 <= i < |fs| ==> KindKeeps(fs[i].kind)
    ensures DecMsg(fs, s, slots).Some? ==> Within(fs, DecMsg(fs, s, slots).value.0)
  {
    var dec := Decoder(fs);
    forall k: nat, wire: nat, t: seq<Byte>, slot: Slot ensures DecKeepsAt(fs, dec, k, wire, t, slot) {
      if k < |fs| && WithinSlot(fs[k], slot) && dec(k, wire, t, slot).Some? {
        assert GoodInit(fs[k]);
        if fs[k].kind.Sub? { DefaultsWithin(fs[k].kind.fields); }
        FieldKeeps(fs[k], wire, t, slot);
      }
    }
    FieldsKeep(fs, dec, s, slots, {});
  }

  lemma {:induction false} AllKindsKeep(f: Field)
    requires GoodInit(f) && (f.kind.Sub? ==> WellFormed(f.kind.fields))
    ensures KindKeeps(f.kind)
    decreases f
  {
    forall s: seq<Byte>, cur: Value, anew: bool ensures KindKeepsAt(f.kind, s, cur, anew) {
      if f.kind.Sub? {
        SubKeeps(f, s, cur, anew);
      } else if DecKind(f.kind, s, cur, anew).Some? {
        if Packable(f.kind) { NumWithin(f.kind, s); } else { DataWithin(f.kind, s); }
      }
    }
  }

  lemma {:induction false} SubKeeps(f: Field, s: seq<Byte>, cur: Value, anew: bool)
    requires GoodInit(f) && f.kind.Sub? && WellFormed(f.kind.fields)
    ensures KindKeepsAt(f.kind, s, cur, anew)
    decreases f, 0
  {
    var fs := f.kind.fields;
    forall i | 0 <= i < |fs| ensures KindKeeps(fs[i].kind) {
      assert WellFormedField(fs[i]) && GoodInit(fs[i]);
      AllKindsKeep(fs[i]);
    }
    if Substream(s).Some? && (!anew ==> WithinValue(f.kind, cur)) {
      DefaultsWithin(fs);
      MsgKeeps(fs, Substream(s).value.0, if anew then Defaults(fs, |fs|) else cur.slots);
    }
  }

  /** Whatever bytes are decoded on top of whatever struct, nothing goes past the end of an array, every number fits its
      field, every string has room for its terminator, at every depth. */
  lemma {:induction false} DecodedWithin(fs: seq<Field>, s: seq<Byte>, slots: seq<Slot>)
    requires WellFormed(fs) && GoodInits(fs) && Within(fs, slots)
    ensures DecMsg(fs, s, slots).Some? ==> Within(fs, DecMsg(fs, s, slots).value.0)
    ensures Decode(fs, s).Some? ==> Within(fs, Decode(fs, s).value.0)
  {
    forall i | 0 <= i < |fs| ensures KindKeeps(fs[i].kind) {
      assert WellFormedField(fs[i]) && GoodInit(fs[i]);
      AllKindsKeep(fs[i]);
    }
    DefaultsWithin(fs);
    MsgKeeps(fs, s, slots);
    MsgKeeps(fs, s, Defaults(fs, |fs|));
  }

  // ---- Which numbers are read ----

  /** A varint field reads the number of its size that has the same low 32 bits, or 64 for a field of that size, and is
      refused if there is none; an unsigned one takes the very number, and a zigzag one the number with that code. */
  lemma {:induction false} ClampMeans(kind: Kind, value: U64, n: int)
    ensures Clamp(kind, value) == Some(n) <==>
      match kind
      case Int(size) =>
        InRange(n, size, true) && (if size == 8 then (value - n) % 0x1_0000_0000_0000_0000 == 0 else (value - n) % 0x1_0000_0000 == 0)
      case UInt(size) => InRange(n, size, false) && n == value
      case SInt(size) => InRange(n, size, true) && value == if n < 0 then -2 * n - 1 else 2 * n
      case _ => false
  {
    match kind
    case Int(size) => if KnownSize(size) { ClampIntMeans(size, value, n); }
    case UInt(size) => if KnownSize(size) { NarrowMeans(value, size); }
    case SInt(size) => if KnownSize(size) { ClampSIntMeans(size, value, n); }
    case _ =>
  }

  lemma {:induction false} SameLow32(value: int, n: int)
    ensures Narrow(value, 4) == n <==> -0x8000_0000 <= n < 0x8000_0000 && (value - n) % 0x1_0000_0000 == 0
  {
    var m := value + 0x8000_0000;
    var q, r := m / 0x1_0000_0000, m % 0x1_0000_0000;
    assert value == 0x1_0000_0000 * q + (r - 0x8000_0000);
    assert value - n == 0x1_0000_0000 * q + (r - 0x8000_0000 - n);
  }

  lemma {:induction false} SameLow64(value: int, n: int)
    ensures Narrow(value, 8) == n <==>
      -0x8000_0000_0000_0000 <= n < 0x8000_0000_0000_0000 && (value - n) % 0x1_0000_0000_0000_0000 == 0
  {
    var m := value + 0x8000_0000_0000_0000;
    var q, r := m / 0x1_0000_0000_0000_0000, m % 0x1_0000_0000_0000_0000;
    assert value - n == 0x1_0000_0000_0000_0000 * q + (r - 0x8000_0000_0000_0000 - n);
  }

  lemma {:induction false} ClampIntMeans(size: nat, value: U64, n: int)
    requires KnownSize(size)
    ensures Clamp(Int(size), value) == Some(n) <==>
      InRange(n, size, true) && (if size == 8 then (value - n) % 0x1_0000_0000_0000_0000 == 0 else (value - n) % 0x1_0000_0000 == 0)
  {
    SameLow32(value, n);
    SameLow64(value, n);
    NarrowMeans(Narrow(value, if size == 8 then 8 else 4), size);
  }

  lemma {:induction false} ClampSIntMeans(size: nat, value: U64, n: int)
    requires KnownSize(size)
    ensures Clamp(SInt(size), value) == Some(n) <==> InRange(n, size, true) && value == if n < 0 then -2 * n - 1 else 2 * n
  {
    var u := UnZigZag(value);
    NarrowMeans(u, size);
    ZigZagInverse(u, value);
    ZigZagMeans(u);
  }

  // ---- Which messages can be written ----

  /** Numbers of a known size, bytes within their capacity, and submessages that can be written. */
  predicate EncodableValue(kind: Kind, v: Value)
    decreases kind, 0
  {
    match v
    case Num(_) => Packable(kind) && (kind.Int? || kind.UInt? || kind.SInt? ==> kind.size in {1, 2, 4, 8})
    case Data(b) => kind.Text? || (kind.Blob? && |b| <= kind.cap)
    case Msg(slots) => kind.Sub? && Encodable(kind.fields, slots)
  }

  predicate EncodableSlot(f: Field, slot: Slot)
    decreases f, 1
  {
    match f.rule
    case Required => slot.One? && EncodableValue(f.kind, slot.v)
    case Optional => slot.Maybe? && (slot.has ==> EncodableValue(f.kind, slot.v))
    case Repeated(max) =>
      slot.Many? && |slot.items| <= max && forall i :: 0 <= i < |slot.items| ==> EncodableValue(f.kind, slot.items[i])
    case Oneof(_) => slot.Union? && (Chosen(f, slot) ==> EncodableValue(f.kind, slot.choice.value.1))
  }

  predicate Encodable(fs: seq<Field>, slots: seq<Slot>)
    decreases fs, 1
  {
    forall k :: 0 <= k < |fs| ==> EncodableAt(fs, k, slots)
  }

  predicate EncodableAt(fs: seq<Field>, k: nat, slots: seq<Slot>)
    requires k < |fs|
    decreases fs, 0
  {
    SlotAt(fs, k) < |slots| && EncodableSlot(fs[k], slots[SlotAt(fs, k)])
  }

  predicate KindEncodesAt(kind: Kind, v: Value) { EncKind(kind, v).Some? <==> EncodableValue(kind, v) }

  lemma {:induction false} AllEncode(enc: Value -> Option<seq<Byte>>, items: seq<Value>)
    ensures EncAll(enc, items).Some? <==> forall i :: 0 <= i < |items| ==> enc(items[i]).Some?
    decreases |items|
  {
    if items != [] {
      AllEncode(enc, items[1..]);
      assert forall i :: 0 <= i < |items| - 1 ==> items[1..][i] == items[i + 1];
      if forall i :: 0 <= i < |items[1..]| ==> enc(items[1..][i]).Some? {
        forall i | 0 < i < |items| ensures enc(items[i]).Some? { assert items[1..][i - 1] == items[i]; }
      }
    }
  }

  lemma {:induction false} FieldEncodes(f: Field, slot: Slot)
    requires forall v :: KindEncodesAt(f.kind, v)
    ensures EncField(f, slot).Some? <==> EncodableSlot(f, slot)
  {
    match f.rule
    case Required => if slot.One? { assert KindEncodesAt(f.kind, slot.v); }
    case Optional => if slot.Maybe? { assert KindEncodesAt(f.kind, slot.v); }
    case Repeated(_) => if slot.Many? { ItemsEncode(f, slot.items); }
    case Oneof(_) => if Chosen(f, slot) { assert KindEncodesAt(f.kind, slot.choice.value.1); }
  }

  lemma {:induction false} ItemsEncode(f: Field, items: seq<Value>)
    requires f.rule.Repeated? && forall v :: KindEncodesAt(f.kind, v)
    ensures EncField(f, Many(items)).Some? <==> EncodableSlot(f, Many(items))
  {
    forall v ensures Tagger(f)(v).Some? <==> EncodableValue(f.kind, v) { assert KindEncodesAt(f.kind, v); }
    AllEncode(Tagger(f), items);
    if Packable(f.kind) {
      var enc := (v: Value) => EncNumber(f.kind, v);
      forall v ensures enc(v).Some? <==> EncodableValue(f.kind, v) { assert KindEncodesAt(f.kind, v); }
      AllEncode(enc, items);
    } else if items != [] && |items| <= f.rule.max {
      assert EncField(f, Many(items)) == EncAll(Tagger(f), items);
    }
  }

  lemma {:induction false} FieldsEncode(fs: seq<Field>, slots: seq<Slot>, k: nat)
    requires k <= |fs| && forall i, v :: 0 <= i < |fs| ==> KindEncodesAt(fs[i].kind, v)
    ensures EncFields(fs, Encoder(fs), slots, k).Some? <==> forall i :: k <= i < |fs| ==> EncodableAt(fs, i, slots)
    decreases |fs| - k
  {
    if k < |fs| {
      FieldsEncode(fs, slots, k + 1);
      FieldEncodesAt(fs, slots, k);
      if forall i :: k + 1 <= i < |fs| ==> EncodableAt(fs, i, slots) {
        assert EncodableAt(fs, k, slots) ==> forall i :: k <= i < |fs| ==> i == k || EncodableAt(fs, i, slots);
      }
    }
  }

  lemma {:induction false} FieldEncodesAt(fs: seq<Field>, slots: seq<Slot>, k: nat)
    requires k < |fs| && forall i, v :: 0 <= i < |fs| ==> KindEncodesAt(fs[i].kind, v)
    ensures EncodableAt(fs, k, slots) <==> SlotAt(fs, k) < |slots| && Encoder(fs)(k, slots[SlotAt(fs, k)]).Some?
  {
    if SlotAt(fs, k) < |slots| { FieldEncodes(fs[k], slots[SlotAt(fs, k)]); }
  }

  lemma {:induction false} MsgEncodes(fs: seq<Field>, slots: seq<Slot>)
    requires forall i, v :: 0 <= i < |fs| ==> KindEncodesAt(fs[i].kind, v)
    ensures EncMsg(fs, slots).Some? <==> Encodable(fs, slots)
  {
    FieldsEncode(fs, slots, 0);
    assert EncMsg(fs, slots) == EncFields(fs, Encoder(fs), slots, 0);
    if Encodable(fs, slots) {
      forall i | 0 <= i < |fs| ensures EncodableAt(fs, i, slots) {}
    }
    if EncMsg(fs, slots).Some? {
      assert forall i :: 0 <= i < |fs| ==> EncodableAt(fs, i, slots);
      assert Encodable(fs, slots);
    }
  }

  lemma {:induction false} KindEncodes(f: Field, v: Value)
    ensures KindEncodesAt(f.kind, v)
    decreases f
  {
    if f.kind.Sub? && v.Msg? {
      var fs := f.kind.fields;
      forall i, w | 0 <= i < |fs| ensures KindEncodesAt(fs[i].kind, w) { KindEncodes(fs[i], w); }
      MsgEncodes(fs, v.slots);
    }
  }

  /** A message can be written exactly if no array holds more than its maximum, no bytes field more than its capacity, and
      every integer has a size of 1, 2, 4 or 8 bytes, at every depth. */
  lemma {:induction false} EncodesExactly(fs: seq<Field>, slots: seq<Slot>)
    ensures EncMsg(fs, slots).Some? <==> Encodable(fs, slots)
  {
    forall i, v | 0 <= i < |fs| ensures KindEncodesAt(fs[i].kind, v) { KindEncodes(fs[i], v); }
    MsgEncodes(fs, slots);
  }
}
