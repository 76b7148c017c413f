/** A message in parts: what has been read does not depend on what follows; messages put one after the other are merged;
    of a field that comes twice the last one counts; and a submessage that comes in two parts is read as one, except that
    a union that had another choice, and a new item of an array, start afresh. */
module Merging {
  import opened Wrappers
  import opened SeqFacts
  import opened V = Varint
  import opened Message
  import opened RoundTrip

  // ---- What has been read does not depend on what follows ----

  lemma {:induction false} SpanStays(s: seq<Byte>, x: seq<Byte>)
    requires Span(s) > 0
    ensures Span(s + x) == Span(s) && V.Value(s + x) == V.Value(s)
    decreases |s|
  {
    if s[0] >= 128 {
      assert (s + x)[1..] == s[1..] + x;
      SpanStays(s[1..], x);
    }
  }

  lemma {:induction false} TailStays(put: Put, s: seq<Byte>, x: seq<Byte>, result: U32, bitpos: nat, used: nat)
    requires Tail32(put, s, result, bitpos, used).Got?
    ensures Tail32(put, s + x, result, bitpos, used) == Tail32(put, s, result, bitpos, used)
    decreases |s|
  {
    assert (s + x)[0] == s[0] && (s + x)[1..] == s[1..] + x;
    if s[0] >= 128 {
      TailStays(put, s[1..], x, if bitpos >= 32 then result else put(result, s[0] % 128, bitpos), (bitpos + 7) % 256, used + 1);
    }
  }

  lemma {:induction false} Decode32Stays(s: seq<Byte>, x: seq<Byte>)
    requires Decode32(s).Got?
    ensures Decode32(s + x) == Decode32(s)
  {
    assert (s + x)[0] == s[0] && (s + x)[1..] == s[1..] + x;
    if s[0] >= 128 { TailStays(Put32, s[1..], x, s[0] % 128, 7, 1); }
  }

  lemma {:induction false} Decode64Stays(s: seq<Byte>, x: seq<Byte>)
    requires Decode64(s).Got?
    ensures Decode64(s + x) == Decode64(s)
  {
    SpanStays(s, x);
  }

  /** The same was read, and the same and more is left. */
  predicate Stays<T(==)>(a: Parsed<T>, b: Parsed<T>, x: seq<Byte>) {
    a.Some? ==> b == Some((a.value.0, a.value.1 + x))
  }

  lemma {:induction false} CutStays(s: seq<Byte>, x: seq<Byte>, i: nat, j: nat)
    requires i <= j <= |s|
    ensures (s + x)[i..j] == s[i..j] && (s + x)[j..] == s[j..] + x
  {
  }

  lemma {:induction false} SubstreamStays(s: seq<Byte>, x: seq<Byte>)
    ensures Stays(Substream(s), Substream(s + x), x)
  {
    if Substream(s).Some? {
      var d := Decode32(s);
      Decode32Stays(s, x);
      CutStays(s, x, d.used, d.used + d.value);
    }
  }

  lemma {:induction false} NumStays(kind: Kind, s: seq<Byte>, x: seq<Byte>)
    requires Packable(kind)
    ensures Stays(DecNum(kind, s), DecNum(kind, s + x), x)
  {
    if DecNum(kind, s).Some? {
      if kind.Bool? {
        Decode32Stays(s, x);
        CutStays(s, x, 0, Decode32(s).used);
      } else if kind.Fixed32? {
        CutStays(s, x, 0, 4);
      } else if kind.Fixed64? {
        CutStays(s, x, 0, 8);
      } else {
        Decode64Stays(s, x);
        CutStays(s, x, 0, Decode64(s).used);
      }
    }
  }

  lemma {:induction false} DataStays(kind: Kind, s: seq<Byte>, x: seq<Byte>)
    requires kind.Blob? || kind.Text?
    ensures Stays(DecData(kind, s), DecData(kind, s + x), x)
  {
    if DecData(kind, s).Some? {
      var d := Decode32(s);
      Decode32Stays(s, x);
      CutStays(s, x, d.used, d.used + d.value);
    }
  }

  lemma {:induction false} KindStays(kind: Kind, s: seq<Byte>, x: seq<Byte>, cur: Value, anew: bool)
    ensures Stays(DecKind(kind, s, cur, anew), DecKind(kind, s + x, cur, anew), x)
  {
    if kind.Sub? { SubstreamStays(s, x); } else if Packable(kind) { NumStays(kind, s, x); } else { DataStays(kind, s, x); }
  }

  lemma {:induction false} FieldStays(f: Field, wire: nat, s: seq<Byte>, x: seq<Byte>, slot: Slot)
    ensures Stays(DecField(f, wire, s, slot), DecField(f, wire, s + x, slot), x)
  {
    SubstreamStays(s, x);
    match f.rule
    case Required => KindStays(f.kind, s, x, Current(slot), false);
    case Optional => KindStays(f.kind, s, x, Current(slot), false);
    case Repeated(_) => KindStays(f.kind, s, x, Num(0), true);
    case Oneof(_) => KindStays(f.kind, s, x, UnionBase(f, slot), false);
  }

  lemma {:induction false} SkipStays(wire: nat, s: seq<Byte>, x: seq<Byte>)
    requires Skip(wire, s).Some?
    ensures Skip(wire, s + x) == Some(Skip(wire, s).value + x)
  {
    if wire == 0 { SpanStays(s, x); CutStays(s, x, 0, Span(s)); }
    else if wire == 1 { CutStays(s, x, 0, 8); }
    else if wire == 2 { SubstreamStays(s, x); }
    else { CutStays(s, x, 0, 4); }
  }

  // ---- One message after the other ----

  /** The slots and the fields seen after reading all of s, if it can be read and no zero tag ends it. */
  function ReadOut(fs: seq<Field>, dec: FieldDecoder, s: seq<Byte>, slots: seq<Slot>, seen: set<nat>)
    : Option<(seq<Slot>, set<nat>)>
    requires Shrinks(dec)
    decreases |s|
  {
    if s == [] then Some((slots, seen))
    else
      match Decode32(s)
      case Bad => None
      case Got(t, used) =>
        if t == 0 then None
        else
          var tag, wire, rest := t / 8, t % 8, s[used..];
          var k := Find(fs, tag, 0);
          if k.Some? && SlotAt(fs, k.value) < |slots| then
            var at := SlotAt(fs, k.value);
            var d := dec(k.value, wire, rest, slots[at]);
            assert ShrinksAt(dec, k.value, wire, rest, slots[at]);
            if d.None? then None else ReadOut(fs, dec, d.value.1, slots[at := d.value.0], seen + {k.value})
          else if fs == [] && tag == 0 then
            var d := Decode32(rest);
            if d.Bad? then None else ReadOut(fs, dec, rest[d.used..], slots, seen)
          else
            var after := Skip(wire, rest);
            if after.None? then None else ReadOut(fs, dec, after.value, slots, seen)
  }

  predicate StaysAt(dec: FieldDecoder, k: nat, wire: nat, s: seq<Byte>, x: seq<Byte>, slot: Slot) {
    Stays(dec(k, wire, s, slot), dec(k, wire, s + x, slot), x)
  }

  /** What follows is read on top of what has been read. */
  lemma {:induction false} ThenOn(
    fs: seq<Field>, dec: FieldDecoder, s: seq<Byte>, x: seq<Byte>, slots: seq<Slot>, seen: set<nat>)
    requires Shrinks(dec) && (forall k, wire, t, slot :: StaysAt(dec, k, wire, t, x, slot))
    requires ReadOut(fs, dec, s, slots, seen).Some?
    ensures var r := ReadOut(fs, dec, s, slots, seen).value; DecFields(fs, dec, s + x, slots, seen) == DecFields(fs, dec, x, r.0, r.1)
    decreases |s|
  {
    if s == [] {
      NothingAround(x);
    } else {
      var d := Decode32(s);
      Decode32Stays(s, x);
      CutStays(s, x, 0, d.used);
      var tag, wire, rest := d.value / 8, d.value % 8, s[d.used..];
      var k := Find(fs, tag, 0);
      if k.Some? && SlotAt(fs, k.value) < |slots| {
        var at := SlotAt(fs, k.value);
        var r := dec(k.value, wire, rest, slots[at]);
        assert ShrinksAt(dec, k.value, wire, rest, slots[at]) && StaysAt(dec, k.value, wire, rest, x, slots[at]);
        ThenOn(fs, dec, r.value.1, x, slots[at := r.value.0], seen + {k.value});
      } else if fs == [] && tag == 0 {
        var b := Decode32(rest);
        Decode32Stays(rest, x);
        CutStays(rest, x, 0, b.used);
        ThenOn(fs, dec, rest[b.used..], x, slots, seen);
      } else {
        SkipStays(wire, rest, x);
        ThenOn(fs, dec, Skip(wire, rest).value, x, slots, seen);
      }
    }
  }

  lemma {:induction false} DecoderStays(fs: seq<Field>, x: seq<Byte>)
    ensures forall k, wire, t, slot :: StaysAt(Decoder(fs), k, wire, t, x, slot)
  {
    forall k: nat, wire: nat, t: seq<Byte>, slot: Slot ensures StaysAt(Decoder(fs), k, wire, t, x, slot) {
      if k < |fs| { FieldStays(fs[k], wire, t, x, slot); }
    }
  }

  /** Reading one message after the other is reading the second on top of what the first has left. */
  lemma {:induction false} MessagesMerge(fs: seq<Field>, a: seq<Byte>, b: seq<Byte>, slots: seq<Slot>)
    requires ReadOut(fs, Decoder(fs), a, slots, {}).Some?
    ensures var r := ReadOut(fs, Decoder(fs), a, slots, {}).value;
      && DecMsg(fs, a, slots) == Finish(fs, [], r.0, r.1)
      && DecMsg(fs, a + b, slots) == DecFields(fs, Decoder(fs), b, r.0, r.1)
  {
    DecoderStays(fs, b);
    ThenOn(fs, Decoder(fs), a, b, slots, {});
    DecoderStays(fs, []);
    ThenOn(fs, Decoder(fs), a, [], slots, {});
    NothingAround(a);
  }

  /** Having seen more required fields does no harm. */
  lemma {:induction false} SeenHelps(
    fs: seq<Field>, dec: FieldDecoder, s: seq<Byte>, slots: seq<Slot>, seen: set<nat>, more: set<nat>)
    requires Shrinks(dec) && seen <= more && DecFields(fs, dec, s, slots, seen).Some?
    ensures DecFields(fs, dec, s, slots, more) == DecFields(fs, dec, s, slots, seen)
    decreases |s|
  {
    if s != [] && Decode32(s).value != 0 {
      var d := Decode32(s);
      var tag, wire, rest := d.value / 8, d.value % 8, s[d.used..];
      var k := Find(fs, tag, 0);
      if k.Some? && SlotAt(fs, k.value) < |slots| {
        var at := SlotAt(fs, k.value);
        var r := dec(k.value, wire, rest, slots[at]);
        assert ShrinksAt(dec, k.value, wire, rest, slots[at]);
        SeenHelps(fs, dec, r.value.1, slots[at := r.value.0], seen + {k.value}, more + {k.value});
      } else if fs == [] && tag == 0 {
        SeenHelps(fs, dec, rest[Decode32(rest).used..], slots, seen, more);
      } else {
        SeenHelps(fs, dec, Skip(wire, rest).value, slots, seen, more);
      }
    }
  }

  lemma {:induction false} TwoOnTop(fs: seq<Field>, a: seq<Byte>, b: seq<Byte>, slots: seq<Slot>)
    requires ReadOut(fs, Decoder(fs), a, slots, {}).Some? && DecMsg(fs, a, slots).Some?
    requires DecMsg(fs, b, DecMsg(fs, a, slots).value.0).Some?
    ensures DecMsg(fs, a + b, slots) == DecMsg(fs, b, DecMsg(fs, a, slots).value.0)
  {
    MessagesMerge(fs, a, b, slots);
    var r := ReadOut(fs, Decoder(fs), a, slots, {}).value;
    SeenHelps(fs, Decoder(fs), b, r.0, {}, r.1);
  }

  // ---- Submessages ----

  /** What a submessage that is no array item is read on top of. */
  function BaseOf(f: Field, slot: Slot): seq<Slot> {
    var v := if f.rule.Oneof? then UnionBase(f, slot) else Current(slot);
    if v.Msg? then v.slots else []
  }

  lemma {:induction false} SubField(f: Field, wire: nat, c: seq<Byte>, rest: seq<Byte>, slot: Slot)
    requires f.kind.Sub? && !f.rule.Repeated? && |c| < 0x1_0000_0000
    ensures var m := DecMsg(f.kind.fields, c, BaseOf(f, slot));
      DecField(f, wire, Encode(|c|) + c + rest, slot) == if m.None? then None else Some((Wrap(f, Msg(m.value.0)), rest))
  {
    SubstreamTrips(c, rest);
  }

  /** A submessage that comes in two parts, each with its own tag, is read as if it had come in one. */
  lemma {:induction false} SubmessageInTwo(f: Field, wire: nat, a: seq<Byte>, b: seq<Byte>, rest: seq<Byte>, slot: Slot)
    requires f.kind.Sub? && !f.rule.Repeated? && |a| + |b| < 0x1_0000_0000
    requires ReadOut(f.kind.fields, Decoder(f.kind.fields), a, BaseOf(f, slot), {}).Some?
    requires DecField(f, wire, Encode(|a|) + a + rest, slot).Some?
    requires DecField(f, wire, Encode(|b|) + b + rest, DecField(f, wire, Encode(|a|) + a + rest, slot).value.0).Some?
    ensures DecField(f, wire, Encode(|a + b|) + (a + b) + rest, slot)
         == DecField(f, wire, Encode(|b|) + b + rest, DecField(f, wire, Encode(|a|) + a + rest, slot).value.0)
  {
    SubField(f, wire, a, rest, slot);
    var first := DecField(f, wire, Encode(|a|) + a + rest, slot).value.0;
    SubField(f, wire, b, rest, first);
    assert BaseOf(f, first) == DecMsg(f.kind.fields, a, BaseOf(f, slot)).value.0;
    TwoOnTop(f.kind.fields, a, b, BaseOf(f, slot));
    SubField(f, wire, a + b, rest, slot);
  }

  /** An item of an array, and the member of a union that had another choice, are read as a message of their own. */
  lemma {:induction false} SubmessageAfresh(f: Field, wire: nat, c: seq<Byte>, rest: seq<Byte>, slot: Slot)
    requires f.kind.Sub? && |c| < 0x1_0000_0000
    requires (f.rule.Repeated? && slot.Many? && |slot.items| < f.rule.max) || (f.rule.Oneof? && !Chosen(f, slot))
    ensures var m := Decode(f.kind.fields, c);
      DecField(f, wire, Encode(|c|) + c + rest, slot)
      == if m.None? then None
         else Some((if f.rule.Repeated? then Many(slot.items + [Msg(m.value.0)]) else Union(Some((f.tag, Msg(m.value.0)))), rest))
  {
    SubstreamTrips(c, rest);
  }

  /** Of a number, string or bytes field that comes twice the last one counts. */
  lemma {:induction false} LastCounts(f: Field, wire: nat, s: seq<Byte>, before: Slot, slot: Slot)
    requires !f.kind.Sub? && !f.rule.Repeated?
    ensures DecField(f, wire, s, before) == DecField(f, wire, s, slot)
  {
  }
}
