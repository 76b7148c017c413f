/** A repeated field of numbers may come packed, unpacked, or in any number of pieces of both sorts; all these forms mean
    the same array. */
module RepeatedForms {
  import opened Wrappers
  import opened SeqFacts
  import opened Varint
  import opened Message
  import opened RoundTrip

  /** One number with its own tag, or some of them packed behind one tag. */
  datatype Piece = Alone(v: Value) | Packed(items: seq<Value>)

  function ItemsOf(p: Piece): seq<Value> { if p.Alone? then [p.v] else p.items }

  function AllItems(pieces: seq<Piece>): seq<Value> {
    if pieces == [] then [] else ItemsOf(pieces[0]) + AllItems(pieces[1..])
  }

  function BytesOf(f: Field, p: Piece): Option<seq<Byte>> {
    match p
    case Alone(v) => EncTagged(f, v)
    case Packed(items) => Bind(Some(Header(f.tag, 2)), Delimited(EncPacked(f.kind, items)))
  }

  function AllBytes(f: Field, pieces: seq<Piece>): Option<seq<Byte>> {
    if pieces == [] then Some([]) else Bind(BytesOf(f, pieces[0]), AllBytes(f, pieces[1..]))
  }

  /** Numbers that the field can hold, in pieces that can be written and whose lengths can be read. */
  predicate GoodPiece(f: Field, p: Piece) {
    && (forall i :: 0 <= i < |ItemsOf(p)| ==> HasKind(f.kind, ItemsOf(p)[i]))
    && BytesOf(f, p).Some? && (p.Packed? ==> ShortLength(READABLE, EncPacked(f.kind, p.items)))
  }

  ghost predicate Good(f: Field, pieces: seq<Piece>) { forall i :: 0 <= i < |pieces| ==> GoodPiece(f, pieces[i]) }

  // ---- One piece ----

  lemma {:induction false} NotDelimited(kind: Kind)
    requires Packable(kind)
    ensures WireType(kind) != 2 && WireType(kind) < 8
  {
  }

  /** A number of its own goes to the end of the array, if there is room. */
  lemma {:induction false} ReadAlone(f: Field, v: Value, rest: seq<Byte>, done: seq<Value>)
    requires f.rule.Repeated? && Packable(f.kind) && HasKind(f.kind, v) && EncKind(f.kind, v).Some?
    ensures DecField(f, WireType(f.kind), EncKind(f.kind, v).value + rest, Many(done))
         == if |done| < f.rule.max then Some((Many(done + [v]), rest)) else None
  {
    NotDelimited(f.kind);
    NumTrips(f.kind, v, rest);
  }

  /** More items than there is room for are refused. */
  lemma {:induction false} TooMany(
    enc: Value -> Option<seq<Byte>>, dec: seq<Byte> -> Parsed<Value>, items: seq<Value>, done: seq<Value>, max: nat)
    requires |done| <= max < |done| + |items| && EncAll(enc, items).Some?
    requires forall i, rest :: 0 <= i < |items| ==> TripsAt(enc, dec, items[i], rest)
    ensures DecAll(dec, EncAll(enc, items).value, done, max) == None
    decreases |items|
  {
    var v, more := items[0], items[1..];
    assert TripsAt(enc, dec, v, EncAll(enc, more).value);
    if |done| < max {
      forall i, rest | 0 <= i < |more| ensures TripsAt(enc, dec, more[i], rest) {
        assert TripsAt(enc, dec, items[i + 1], rest);
      }
      TooMany(enc, dec, more, done + [v], max);
    }
  }

  lemma {:induction false} PackedOrTooMany(kind: Kind, items: seq<Value>, done: seq<Value>, max: nat)
    requires Packable(kind) && |done| <= max && EncPacked(kind, items).Some?
    requires forall i :: 0 <= i < |items| ==> HasKind(kind, items[i])
    ensures DecPacked(kind, EncPacked(kind, items).value, done, max)
         == if |done| + |items| <= max then Some(done + items) else None
  {
    if |done| + |items| <= max {
      PackedTrips(kind, items, done, max);
    } else {
      var enc, dec := (v: Value) => EncNumber(kind, v), (t: seq<Byte>) => DecNum(kind, t);
      forall i, rest | 0 <= i < |items| ensures TripsAt(enc, dec, items[i], rest) {
        if enc(items[i]).Some? { NumTrips(kind, items[i], rest); }
      }
      TooMany(enc, dec, items, done, max);
    }
  }

  lemma {:induction false} ReadSome(f: Field, items: seq<Value>, rest: seq<Byte>, done: seq<Value>)
    requires f.rule.Repeated? && Packable(f.kind) && |done| <= f.rule.max && EncPacked(f.kind, items).Some?
    requires ShortLength(READABLE, EncPacked(f.kind, items))
    requires forall i :: 0 <= i < |items| ==> HasKind(f.kind, items[i])
    ensures DecField(f, 2, Delimited(EncPacked(f.kind, items)).value + rest, Many(done))
         == if |done| + |items| <= f.rule.max then Some((Many(done + items), rest)) else None
  {
    SubstreamTrips(EncPacked(f.kind, items).value, rest);
    PackedOrTooMany(f.kind, items, done, f.rule.max);
  }

  lemma {:induction false} PieceReads(
    run: Run, fs: seq<Field>, k: nat, p: Piece, rest: seq<Byte>, slots: seq<Slot>, done: seq<Value>, seen: set<nat>)
    requires RoundTrip.Reads(run, fs) && k < |fs| && SlotAt(fs, k) < |slots| && fs[k].rule.Repeated? && Packable(fs[k].kind)
    requires GoodPiece(fs[k], p) && slots[SlotAt(fs, k)] == Many(done) && |done| <= fs[k].rule.max
    ensures run(BytesOf(fs[k], p).value + rest, slots, seen)
         == if |done| + |ItemsOf(p)| <= fs[k].rule.max
            then run(rest, slots[SlotAt(fs, k) := Many(done + ItemsOf(p))], seen + {k}) else None
  {
    var f := fs[k];
    match p
    case Alone(v) =>
      assert ItemsOf(p)[0] == v && HasKind(f.kind, ItemsOf(p)[0]);
      TaggedSplit(f, v, rest);
      NotDelimited(f.kind);
      ReadAlone(f, v, rest, done);
      assert TaggedAt(run, fs, k, WireType(f.kind), EncKind(f.kind, v).value + rest, slots, seen);
    case Packed(items) =>
      var d := Delimited(EncPacked(f.kind, items)).value;
      forall i | 0 <= i < |items| ensures HasKind(f.kind, items[i]) {
        assert ItemsOf(p)[i] == items[i] && HasKind(f.kind, ItemsOf(p)[i]);
      }
      Associates(Header(f.tag, 2), d, rest);
      ReadSome(f, items, rest, done);
      assert TaggedAt(run, fs, k, 2, d + rest, slots, seen);
  }

  // ---- All pieces ----

  lemma {:induction false} AllBytesCons(f: Field, pieces: seq<Piece>, rest: seq<Byte>)
    requires pieces != [] && AllBytes(f, pieces).Some?
    ensures BytesOf(f, pieces[0]).Some? && AllBytes(f, pieces[1..]).Some?
    ensures AllBytes(f, pieces).value + rest == BytesOf(f, pieces[0]).value + (AllBytes(f, pieces[1..]).value + rest)
  {
    Associates(BytesOf(f, pieces[0]).value, AllBytes(f, pieces[1..]).value, rest);
  }

  lemma {:induction false} GoodBytes(f: Field, pieces: seq<Piece>)
    requires Good(f, pieces)
    ensures AllBytes(f, pieces).Some?
    decreases |pieces|
  {
    if pieces != [] {
      assert GoodPiece(f, pieces[0]);
      forall i | 0 <= i < |pieces| - 1 ensures GoodPiece(f, pieces[1..][i]) { assert GoodPiece(f, pieces[i + 1]); }
      GoodBytes(f, pieces[1..]);
    }
  }

  /** The items of all pieces, in order, go to the end of the array; more of them than there is room for are refused. */
  lemma {:induction false} PiecesRead(
    run: Run, fs: seq<Field>, k: nat, pieces: seq<Piece>, rest: seq<Byte>, slots: seq<Slot>, done: seq<Value>, seen: set<nat>)
    requires RoundTrip.Reads(run, fs) && k < |fs| && SlotAt(fs, k) < |slots| && fs[k].rule.Repeated? && Packable(fs[k].kind)
    requires Good(fs[k], pieces) && slots[SlotAt(fs, k)] == Many(done) && |done| <= fs[k].rule.max
    ensures AllBytes(fs[k], pieces).Some?
    ensures run(AllBytes(fs[k], pieces).value + rest, slots, seen)
         == if |done| + |AllItems(pieces)| <= fs[k].rule.max
            then run(rest, slots[SlotAt(fs, k) := Many(done + AllItems(pieces))], if pieces == [] then seen else seen + {k})
            else None
    decreases |pieces|
  {
    var f, at := fs[k], SlotAt(fs, k);
    GoodBytes(f, pieces);
    if pieces == [] {
      NothingAround(rest);
      NothingAround(done);
      assert slots[at := Many(done)] == slots;
    } else {
      var p, more := pieces[0], pieces[1..];
      assert GoodPiece(f, p);
      forall i | 0 <= i < |more| ensures GoodPiece(f, more[i]) { assert GoodPiece(f, pieces[i + 1]); }
      AllBytesCons(f, pieces, rest);
      PieceReads(run, fs, k, p, AllBytes(f, more).value + rest, slots, done, seen);
      Associates(done, ItemsOf(p), AllItems(more));
      if |done| + |ItemsOf(p)| <= f.rule.max {
        var next := slots[at := Many(done + ItemsOf(p))];
        PiecesRead(run, fs, k, more, rest, next, done + ItemsOf(p), seen + {k});
        assert next[at := Many(done + AllItems(pieces))] == slots[at := Many(done + AllItems(pieces))];
        assert seen + {k} + {k} == seen + {k};
      }
    }
  }

  /** Decoding from any point of a message on: in whatever pieces the numbers of a repeated field come, packed or not, they
      are read as the array of all of them, in order, after those already there; and refused if the array is too small. */
  lemma {:induction false} AnyFormIsRead(
    fs: seq<Field>, k: nat, pieces: seq<Piece>, rest: seq<Byte>, slots: seq<Slot>, done: seq<Value>, seen: set<nat>)
    requires WellFormed(fs) && k < |fs| && SlotAt(fs, k) < |slots| && fs[k].rule.Repeated? && Packable(fs[k].kind)
    requires Good(fs[k], pieces) && slots[SlotAt(fs, k)] == Many(done) && |done| <= fs[k].rule.max && pieces != []
    ensures AllBytes(fs[k], pieces).Some?
    ensures DecFields(fs, Decoder(fs), AllBytes(fs[k], pieces).value + rest, slots, seen)
         == if |done| + |AllItems(pieces)| <= fs[k].rule.max
            then DecFields(fs, Decoder(fs), rest, slots[SlotAt(fs, k) := Many(done + AllItems(pieces))], seen + {k})
            else None
  {
    RunnerReads(fs);
    PiecesRead(Runner(fs), fs, k, pieces, rest, slots, done, seen);
  }

  /** Each number with a tag of its own. */
  function Unpacked(items: seq<Value>): (pieces: seq<Piece>)
    ensures |pieces| == |items|
  {
    seq(|items|, i requires 0 <= i < |items| => Alone(items[i]))
  }

  lemma {:induction false} UnpackedItems(f: Field, items: seq<Value>)
    ensures AllItems(Unpacked(items)) == items && AllBytes(f, Unpacked(items)) == EncAll(Tagger(f), items)
    decreases |items|
  {
    if items != [] {
      assert Unpacked(items)[1..] == Unpacked(items[1..]);
      UnpackedItems(f, items[1..]);
      FirstAndRest(items);
    }
  }

  /** A message of one repeated field of numbers, in the unpacked form. */
  lemma {:induction false} UnpackedDecodes(f: Field, items: seq<Value>)
    requires WellFormedField(f) && f.rule.Repeated? && Packable(f.kind) && EncAll(Tagger(f), items).Some?
    requires forall i :: 0 <= i < |items| ==> HasKind(f.kind, items[i])
    ensures Decode([f], EncAll(Tagger(f), items).value) == if |items| <= f.rule.max then Some(([Many(items)], [])) else None
  {
    UnpackedItems(f, items);
    UnpackedGood(f, items);
    AloneDecodes([f], f, Unpacked(items));
  }

  /** A message of nothing but the pieces of one repeated field. */
  lemma {:induction false} AloneDecodes(fs: seq<Field>, f: Field, pieces: seq<Piece>)
    requires fs == [f] && WellFormedField(f) && f.rule.Repeated? && Packable(f.kind) && Good(f, pieces)
    ensures AllBytes(f, pieces).Some?
    ensures Decode(fs, AllBytes(f, pieces).value)
         == if |AllItems(pieces)| <= f.rule.max then Some(([Many(AllItems(pieces))], [])) else None
  {
    var slots, items, run := [Many([])], AllItems(pieces), Runner(fs);
    RunnerReads(fs);
    PiecesRead(run, fs, 0, pieces, [], slots, [], {});
    NothingAround(items);
    NothingAround(AllBytes(f, pieces).value);
    assert slots[0 := Many(items)] == [Many(items)];
    assert Defaults(fs, 1) == slots by { assert Defaults(fs, 0) + [InitSlot(f)] == slots; }
    var seen: set<nat> := if pieces == [] then {} else {} + {0};
    assert EndsAt(run, fs, [Many(items)], seen);
  }

  lemma {:induction false} UnpackedGood(f: Field, items: seq<Value>)
    requires EncAll(Tagger(f), items).Some? && forall i :: 0 <= i < |items| ==> HasKind(f.kind, items[i])
    ensures Good(f, Unpacked(items))
  {
    forall i | 0 <= i < |items| ensures GoodPiece(f, Unpacked(items)[i]) {
      ItemEncodes(f, items, i);
      assert ItemsOf(Alone(items[i])) == [items[i]];
    }
  }

  lemma {:induction false} ItemEncodes(f: Field, items: seq<Value>, i: nat)
    requires EncAll(Tagger(f), items).Some? && i < |items|
    ensures EncTagged(f, items[i]).Some?
    decreases i
  {
    if i > 0 { ItemEncodes(f, items[1..], i - 1); }
  }
}
