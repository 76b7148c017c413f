/** nanopb's input streams and the decoder over them. */
module ProtoDecode {
  import opened Wrappers
  import opened Varint
  import opened Message
  import opened RoundTrip
  import opened Layout
  import FieldIter

  /** `pb_istream_t` over a buffer. */
  class IStream {
    const data: seq<Byte>
    var pos: nat
    var left: nat

    constructor (data: seq<Byte>, pos: nat, left: nat)
      requires pos + left <= |data|
      ensures this.data == data && this.pos == pos && this.left == left && Valid()
    {
      this.data, this.pos, this.left := data, pos, left;
    }

    ghost predicate Valid()
      reads this
    {
      pos + left <= |data|
    }

    /** What is still to be read. */
    function Rest(): (s: seq<Byte>)
      requires Valid()
      reads this
      ensures |s| == left
    {
      data[pos..pos + left]
    }

    /** Nothing but the position changes, and the end stays where it is. */
    ghost predicate At(end: nat, rest: seq<Byte>)
      reads this
    {
      Valid() && pos + left == end && Rest() == rest
    }

    method Skip(count: nat)
      requires Valid() && count <= left
      modifies this
      ensures At(old(pos + left), old(Rest())[count..])
    {
      pos, left := pos + count, left - count;
    }

    /** `pb_read` */
    method Read(count: nat) returns (buf: Option<seq<Byte>>)
      requires Valid()
      modifies this
      ensures Valid() && pos + left == old(pos + left)
      ensures buf == if count <= old(left) then Some(old(Rest())[..count]) else None
      ensures buf.Some? ==> At(old(pos + left), old(Rest())[count..])
    {
      if left < count {
        return None;
      }
      buf := Some(data[pos..pos + count]);
      assert buf.value == Rest()[..count];
      Skip(count);
    }

    /** `pb_decode_varint32` */
    method ReadVarint32() returns (r: Read)
      requires Valid()
      modifies this
      ensures Valid() && pos + left == old(pos + left) && r == Decode32(old(Rest()))
      ensures r.Got? ==> At(old(pos + left), old(Rest())[r.used..])
    {
      r := Varint.DecodeVarint32(Rest());
      if r.Got? { Skip(r.used); }
    }

    /** `pb_decode_varint` */
    method ReadVarint() returns (r: Read)
      requires Valid()
      modifies this
      ensures Valid() && pos + left == old(pos + left) && r == Decode64(old(Rest()))
      ensures r.Got? ==> At(old(pos + left), old(Rest())[r.used..])
    {
      r := Varint.DecodeVarint(Rest());
      if r.Got? { Skip(r.used); }
    }

    /** `pb_make_string_substream`: until the substream is closed, only what follows it counts as left. */
    method OpenSubstream() returns (sub: IStream?, ghost inside: seq<Byte>, ghost after: seq<Byte>)
      requires Valid()
      modifies this
      ensures Substream(old(Rest())) == if sub == null then None else Some((inside, after))
      ensures sub == null ==> Valid() && pos + left == old(pos + left)
      ensures sub != null ==> fresh(sub) && sub.data == data && sub.Valid() && sub.Rest() == inside
      ensures sub != null ==> sub.pos + sub.left + left == old(pos + left)
      ensures sub != null ==> data[sub.pos + sub.left..old(pos + left)] == after
    {
      var size := ReadVarint32();
      inside, after := [], [];
      if size.Bad? || left < size.value {
        return null, inside, after;
      }
      inside, after := Rest()[..size.value], Rest()[size.value..];
      SliceTwice(old(Rest()), size.used, size.value);
      sub := new IStream(data, pos, size.value);
      left := left - size.value;
    }

    /** `pb_close_string_substream` */
    method CloseSubstream(sub: IStream, ghost end: nat)
      requires sub != this && sub.data == data && sub.pos + sub.left + left == end <= |data|
      modifies this, sub
      ensures At(end, data[old(sub.pos + sub.left)..end])
    {
      sub.pos, sub.left := sub.pos + sub.left, 0;
      pos := sub.pos;
    }
  }

  lemma {:induction false} SliceTwice(s: seq<Byte>, used: nat, n: nat)
    requires used + n <= |s|
    ensures s[used..][..n] == s[used..used + n] && s[used..][n..] == s[used + n..]
  {
  }

  // ---- Numbers, strings and bytes ----

  method ReadNumber(stream: IStream, kind: Kind) returns (r: Option<Value>)
    requires stream.Valid() && Packable(kind)
    modifies stream
    ensures stream.Valid() && stream.pos + stream.left == old(stream.pos + stream.left)
    ensures r.Some? == DecNum(kind, old(stream.Rest())).Some?
    ensures r.Some? ==> DecNum(kind, old(stream.Rest())).value == (r.value, stream.Rest())
  {
    if kind.Bool? {
      var v := stream.ReadVarint32();
      r := if v.Bad? then None else Some(Num(if v.value != 0 then 1 else 0));
    } else if kind.Fixed32? {
      var b := stream.Read(4);
      r := if b.None? then None else Some(Num(FromLittleEndian(b.value)));
    } else if kind.Fixed64? {
      var b := stream.Read(8);
      r := if b.None? then None else Some(Num(FromLittleEndian(b.value)));
    } else {
      var v := stream.ReadVarint();
      if v.Bad? {
        return None;
      }
      var n := Clamp(kind, v.value);
      r := if n.None? then None else Some(Num(n.value));
    }
  }

  /** `pb_dec_bytes`, `pb_dec_string` */
  method ReadData(stream: IStream, kind: Kind) returns (r: Option<Value>)
    requires stream.Valid() && (kind.Blob? || kind.Text?)
    modifies stream
    ensures stream.Valid() && stream.pos + stream.left == old(stream.pos + stream.left)
    ensures r.Some? == DecData(kind, old(stream.Rest())).Some?
    ensures r.Some? ==> DecData(kind, old(stream.Rest())).value == (r.value, stream.Rest())
  {
    ghost var s := stream.Rest();
    var size := stream.ReadVarint32();
    if size.Bad? || (kind.Blob? && size.value > kind.cap) || (kind.Text? && size.value + 1 > kind.size) {
      return None;
    }
    var b := stream.Read(size.value);
    if b.None? {
      return None;
    }
    SliceTwice(s, size.used, size.value);
    r := Some(Data(if kind.Text? then CString(b.value) else b.value));
  }

  /** The loop over a packed array: while there are bytes and there is room. */
  method ReadPacked(sub: IStream, kind: Kind, items: seq<Value>, max: nat) returns (r: Option<seq<Value>>)
    requires sub.Valid() && Packable(kind)
    modifies sub
    ensures sub.Valid() && sub.pos + sub.left == old(sub.pos + sub.left)
    ensures r == DecPacked(kind, old(sub.Rest()), items, max)
  {
    var all := items;
    while sub.left > 0 && |all| < max
      invariant sub.Valid() && sub.pos + sub.left == old(sub.pos + sub.left)
      invariant DecPacked(kind, old(sub.Rest()), items, max) == DecPacked(kind, sub.Rest(), all, max)
      decreases sub.left
    {
      ghost var s := sub.Rest();
      var v := ReadNumber(sub, kind);
      if v.None? {
        return None;
      }
      all := all + [v.value];
    }
    r := if sub.left != 0 then None else Some(all);
  }

  /** `pb_skip_field` */
  method SkipField(stream: IStream, wire: nat) returns (ok: bool)
    requires stream.Valid()
    modifies stream
    ensures stream.Valid() && stream.pos + stream.left == old(stream.pos + stream.left)
    ensures ok == Skip(wire, old(stream.Rest())).Some?
    ensures ok ==> stream.Rest() == Skip(wire, old(stream.Rest())).value
  {
    if wire == 0 {
      ok := SkipVarint(stream);
    } else if wire == 1 {
      var b := stream.Read(8);
      ok := b.Some?;
    } else if wire == 2 {
      ghost var s, end := stream.Rest(), stream.pos + stream.left;
      var size := stream.ReadVarint32();
      if size.Bad? {
        return false;
      }
      var b := stream.Read(size.value);
      ok := b.Some?;
      if ok { SliceTwice(s, size.used, size.value); }
    } else if wire == 5 {
      var b := stream.Read(4);
      ok := b.Some?;
    } else {
      ok := false;
    }
  }

  /** `pb_skip_varint`, of any length. */
  method SkipVarint(stream: IStream) returns (ok: bool)
    requires stream.Valid()
    modifies stream
    ensures stream.Valid() && stream.pos + stream.left == old(stream.pos + stream.left)
    ensures ok == (Span(old(stream.Rest())) > 0)
    ensures ok ==> stream.Rest() == old(stream.Rest())[Span(old(stream.Rest()))..]
  {
    ghost var s, n := stream.Rest(), 0;
    assert s[0..] == s;
    while true
      invariant stream.Valid() && stream.pos + stream.left == old(stream.pos + stream.left)
      invariant 0 <= n <= |s| && stream.Rest() == s[n..]
      invariant Span(s) == if Span(s[n..]) == 0 then 0 else n + Span(s[n..])
      decreases stream.left
    {
      var b := stream.Read(1);
      if b.None? {
        return false;
      }
      assert s[n..][1..] == s[n + 1..];
      n := n + 1;
      if b.value[0] < 128 {
        return true;
      }
    }
  }

  // ---- Layout of the struct being filled ----

  /** A struct has all its slots, and so have the submessages in it. */
  predicate Laid(fs: seq<Field>, slots: seq<Slot>)
    decreases fs, 1
  {
    |slots| == SlotCount(fs) && forall k :: 0 <= k < |fs| ==> LaidAt(fs, k, slots)
  }

  predicate LaidAt(fs: seq<Field>, k: nat, slots: seq<Slot>)
    requires k < |fs|
    decreases fs, 0
  {
    SlotAt(fs, k) < |slots| && LaidSlot(fs[k], slots[SlotAt(fs, k)])
  }

  predicate LaidSlot(f: Field, slot: Slot)
    decreases f, 1
  {
    match f.rule
    case Required => slot.One? && LaidValue(f.kind, slot.v)
    case Optional => slot.Maybe? && LaidValue(f.kind, slot.v)
    case Repeated(_) => slot.Many?
    case Oneof(_) =>
      slot.Union? && (slot.choice.Some? && slot.choice.value.0 == f.tag ==> LaidValue(f.kind, slot.choice.value.1))
  }

  predicate LaidValue(kind: Kind, v: Value)
    decreases kind, 0
  {
    kind.Sub? ==> v.Msg? && Laid(kind.fields, v.slots)
  }

  lemma {:induction false} DefaultLaid(f: Field)
    ensures LaidSlot(f, InitSlot(f)) && LaidValue(f.kind, Default(f))
    decreases f
  {
    if f.kind.Sub? {
      var fs := f.kind.fields;
      forall k | 0 <= k < |fs| ensures LaidSlot(fs[k], InitSlot(fs[k])) { DefaultLaid(fs[k]); }
      DefaultsLaid(fs);
    }
  }

  lemma {:induction false} DefaultsLaid(fs: seq<Field>)
    requires forall k :: 0 <= k < |fs| ==> LaidSlot(fs[k], InitSlot(fs[k]))
    ensures Laid(fs, Defaults(fs, |fs|))
  {
    forall k | 0 <= k < |fs| ensures LaidAt(fs, k, Defaults(fs, |fs|)) { DefaultsAt(fs, |fs|, k); }
    if fs != [] { DefaultsAt(fs, |fs|, 0); }
  }

  lemma {:induction false} AllDefaultsLaid(fs: seq<Field>)
    ensures Laid(fs, Defaults(fs, |fs|))
  {
    forall k | 0 <= k < |fs| ensures LaidSlot(fs[k], InitSlot(fs[k])) { DefaultLaid(fs[k]); }
    DefaultsLaid(fs);
  }

  /** A field written to its slot. */
  lemma {:induction false} LaidUpdate(fs: seq<Field>, slots: seq<Slot>, k: nat, slot: Slot)
    requires WellFormed(fs) && Laid(fs, slots) && k < |fs| && LaidSlot(fs[k], slot)
    requires fs[k].rule.Oneof? ==> slot.choice.Some? && slot.choice.value.0 == fs[k].tag
    ensures SlotAt(fs, k) < |slots| && Laid(fs, slots[SlotAt(fs, k) := slot])
  {
    SlotOrder(fs, k, k);
    var now := slots[SlotAt(fs, k) := slot];
    forall j | 0 <= j < |fs| ensures LaidAt(fs, j, now) {
      assert LaidAt(fs, j, slots);
      if j < k { SlotOrder(fs, j, k); } else { SlotOrder(fs, k, j); }
    }
    assert |now| == SlotCount(fs);
    assert Laid(fs, now);
  }

  // ---- The required fields ----

  /** The bitmap says which required fields are in the set. */
  ghost predicate Tracks(fs: seq<Field>, words: seq<nat>, seen: set<nat>) {
    && FieldIter.Bitmap(words, RequiredBefore(fs, |fs|))
    && forall k :: 0 <= k < |fs| ==> TracksAt(fs, words, seen, k)
  }

  predicate TracksAt(fs: seq<Field>, words: seq<nat>, seen: set<nat>, k: nat)
    requires k < |fs| && |words| == 2
  {
    fs[k].rule.Required? && RequiredBefore(fs, k) < 64 ==> (FieldIter.SeenIn(words, RequiredBefore(fs, k)) <==> k in seen)
  }

  lemma {:induction false} RequiredGrows(fs: seq<Field>, j: nat, k: nat)
    requires j <= k <= |fs|
    ensures RequiredBefore(fs, j) <= RequiredBefore(fs, k)
    ensures j < k && fs[j].rule.Required? ==> RequiredBefore(fs, j) < RequiredBefore(fs, k)
    decreases k
  {
    if j < k { RequiredGrows(fs, j, k - 1); }
  }

  lemma {:induction false} NothingTracked(fs: seq<Field>)
    ensures Tracks(fs, [0, 0], {})
  {
    forall i: nat ensures !FieldIter.Bit(0, i) { FieldIter.ZeroBits(i); }
    forall k | 0 <= k < |fs| ensures TracksAt(fs, [0, 0], {}, k) {}
  }

  lemma {:induction false} TracksMore(fs: seq<Field>, words: seq<nat>, now: seq<nat>, seen: set<nat>, k: nat)
    requires Tracks(fs, words, seen) && k < |fs| && fs[k].rule.Required?
    requires FieldIter.Bitmap(now, RequiredBefore(fs, |fs|))
    requires forall i: nat ::
      FieldIter.SeenIn(now, i) == (FieldIter.SeenIn(words, i) || (i == RequiredBefore(fs, k) && i < 64))
    ensures Tracks(fs, now, seen + {k})
  {
    forall j | 0 <= j < |fs| ensures TracksAt(fs, now, seen + {k}, j) {
      assert TracksAt(fs, words, seen, j);
      if j < k { RequiredGrows(fs, j, k); } else { RequiredGrows(fs, k, j); }
    }
  }

  lemma {:induction false} TracksOther(fs: seq<Field>, words: seq<nat>, seen: set<nat>, k: nat)
    requires Tracks(fs, words, seen) && k < |fs| && !fs[k].rule.Required?
    ensures Tracks(fs, words, seen + {k})
  {
    forall j | 0 <= j < |fs| ensures TracksAt(fs, words, seen + {k}, j) { assert TracksAt(fs, words, seen, j); }
  }

  /** The i-th required field. */
  lemma {:induction false} RequiredNumber(fs: seq<Field>, n: nat, i: nat) returns (k: nat)
    requires n <= |fs| && i < RequiredBefore(fs, n)
    ensures k < n && fs[k].rule.Required? && RequiredBefore(fs, k) == i
    decreases n
  {
    if i < RequiredBefore(fs, n - 1) {
      k := RequiredNumber(fs, n - 1, i);
    } else {
      k := n - 1;
    }
  }

  lemma {:induction false} CompleteBitmap(fs: seq<Field>, words: seq<nat>, seen: set<nat>)
    requires Tracks(fs, words, seen)
    ensures Complete(fs, seen) <==>
      forall i: nat :: i < RequiredBefore(fs, |fs|) && i < FieldIter.MAX_REQUIRED ==> FieldIter.SeenIn(words, i)
  {
    if Complete(fs, seen) {
      forall i: nat | i < RequiredBefore(fs, |fs|) && i < FieldIter.MAX_REQUIRED ensures FieldIter.SeenIn(words, i) {
        var k := RequiredNumber(fs, |fs|, i);
        assert TracksAt(fs, words, seen, k);
      }
    }
    if forall i: nat :: i < RequiredBefore(fs, |fs|) && i < FieldIter.MAX_REQUIRED ==> FieldIter.SeenIn(words, i) {
      forall k: nat | k < |fs| && fs[k].rule.Required? && RequiredBefore(fs, k) < 64 ensures k in seen {
        assert TracksAt(fs, words, seen, k);
        RequiredGrows(fs, k, |fs|);
      }
    }
  }

  // ---- Messages ----

  /** The rest of a message, for one that starts with a tag. */
  function UnfoldTag(run: Run, fs: seq<Field>, tag: nat, wire: nat, s: seq<Byte>, slots: seq<Slot>, seen: set<nat>)
    : Parsed<seq<Slot>>
  {
    var k := Find(fs, tag, 0);
    if k.Some? && SlotAt(fs, k.value) < |slots| then
      var at := SlotAt(fs, k.value);
      Onward(run, DecField(fs[k.value], wire, s, slots[at]), slots, at, seen + {k.value})
    else if fs == [] && tag == 0 then
      var d := Decode32(s);
      if d.Bad? then None else run(s[d.used..], slots, seen)
    else
      var after := Skip(wire, s);
      if after.None? then None else run(after.value, slots, seen)
  }

  /** One turn of the loop over the fields, with `run` for the turns to come. */
  function Unfold(run: Run, fs: seq<Field>, s: seq<Byte>, slots: seq<Slot>, seen: set<nat>): Parsed<seq<Slot>> {
    if s == [] then Finish(fs, s, slots, seen)
    else
      match Decode32(s)
      case Bad => None
      case Got(t, used) =>
        if t == 0 then Finish(fs, s[used..], slots, seen) else UnfoldTag(run, fs, t / 8, t % 8, s[used..], slots, seen)
  }

  predicate UnfoldsAt(run: Run, fs: seq<Field>, s: seq<Byte>, slots: seq<Slot>, seen: set<nat>) {
    run(s, slots, seen) == Unfold(run, fs, s, slots, seen)
  }

  lemma {:induction false} RunnerUnfolds(fs: seq<Field>, s: seq<Byte>, slots: seq<Slot>, seen: set<nat>)
    ensures UnfoldsAt(Runner(fs), fs, s, slots, seen)
  {
  }

  /** The decoder of a kind. */
  method ReadValue(stream: IStream, kind: Kind, cur: Value, anew: bool) returns (r: Option<Value>)
    requires stream.Valid() && (kind.Sub? ==> WellFormed(kind.fields)) && (anew || LaidValue(kind, cur))
    modifies stream
    ensures stream.Valid() && stream.pos + stream.left == old(stream.pos + stream.left)
    ensures r.Some? == DecKind(kind, old(stream.Rest()), cur, anew).Some?
    ensures r.Some? ==> DecKind(kind, old(stream.Rest()), cur, anew).value == (r.value, stream.Rest())
    ensures r.Some? ==> LaidValue(kind, r.value)
    decreases kind, 0
  {
    if kind.Sub? {
      // An array entry starts from the defaults, any other submessage from what is there.
      AllDefaultsLaid(kind.fields);
      DecSubIs(kind.fields, stream.Rest(), cur, anew);
      var m := ReadSubmessage(stream, kind.fields, if anew then Defaults(kind.fields, |kind.fields|) else cur.slots);
      r := if m.None? then None else Some(Msg(m.value));
    } else if Packable(kind) {
      r := ReadNumber(stream, kind);
    } else {
      r := ReadData(stream, kind);
    }
  }

  /** A submessage read on top of a struct. */
  function DecSub(fs: seq<Field>, s: seq<Byte>, base: seq<Slot>): Parsed<seq<Slot>> {
    var sub := Substream(s);
    if sub.None? then None
    else
      var m := DecMsg(fs, sub.value.0, base);
      if m.None? then None else Some((m.value.0, sub.value.1))
  }

  lemma {:induction false} DecSubIs(fs: seq<Field>, s: seq<Byte>, cur: Value, anew: bool)
    requires anew || cur.Msg?
    ensures DecKind(Sub(fs), s, cur, anew) ==
      var d := DecSub(fs, s, if anew then Defaults(fs, |fs|) else cur.slots);
      if d.None? then None else Some((Msg(d.value.0), d.value.1))
  {
  }

  /** `pb_dec_submessage`, with the struct to start from. */
  method ReadSubmessage(stream: IStream, fs: seq<Field>, base: seq<Slot>) returns (r: Option<seq<Slot>>)
    requires stream.Valid() && WellFormed(fs) && Laid(fs, base)
    modifies stream
    ensures stream.Valid() && stream.pos + stream.left == old(stream.pos + stream.left)
    ensures r.Some? == DecSub(fs, old(stream.Rest()), base).Some?
    ensures r.Some? ==> DecSub(fs, old(stream.Rest()), base).value == (r.value, stream.Rest()) && Laid(fs, r.value)
    decreases fs, 5
  {
    ghost var end := stream.pos + stream.left;
    var sub, inside, after := stream.OpenSubstream();
    if sub == null {
      return None;
    }
    r := ReadOnTop(sub, fs, base);
    stream.CloseSubstream(sub, end);
  }

  /** `pb_decode` */
  method ReadMessage(stream: IStream, fs: seq<Field>) returns (r: Option<seq<Slot>>)
    requires stream.Valid() && WellFormed(fs)
    modifies stream
    ensures stream.Valid() && stream.pos + stream.left == old(stream.pos + stream.left)
    ensures r.Some? == Decode(fs, old(stream.Rest())).Some?
    ensures r.Some? ==> Decode(fs, old(stream.Rest())).value == (r.value, stream.Rest()) && Laid(fs, r.value)
    decreases fs, 5
  {
    AllDefaultsLaid(fs);
    r := ReadOnTop(stream, fs, Defaults(fs, |fs|));
  }

  /** `pb_decode_noinit` */
  method ReadOnTop(stream: IStream, fs: seq<Field>, slots: seq<Slot>) returns (r: Option<seq<Slot>>)
    requires stream.Valid() && WellFormed(fs) && Laid(fs, slots)
    modifies stream
    ensures stream.Valid() && stream.pos + stream.left == old(stream.pos + stream.left)
    ensures r.Some? == DecMsg(fs, old(stream.Rest()), slots).Some?
    ensures r.Some? ==> DecMsg(fs, old(stream.Rest()), slots).value == (r.value, stream.Rest()) && Laid(fs, r.value)
    decreases fs, 4
  {
    forall s, cur, seen ensures UnfoldsAt(Runner(fs), fs, s, cur, seen) { RunnerUnfolds(fs, s, cur, seen); }
    r := ReadFields(stream, fs, slots, Runner(fs));
  }

  /** The loop of `pb_decode_noinit`, and its check that the required fields were there. */
  method ReadFields(stream: IStream, fs: seq<Field>, slots: seq<Slot>, ghost run: Run) returns (r: Option<seq<Slot>>)
    requires stream.Valid() && WellFormed(fs) && Laid(fs, slots)
    requires forall s, cur, seen :: UnfoldsAt(run, fs, s, cur, seen)
    modifies stream
    ensures stream.Valid() && stream.pos + stream.left == old(stream.pos + stream.left)
    ensures r.Some? == run(old(stream.Rest()), slots, {}).Some?
    ensures r.Some? ==> run(old(stream.Rest()), slots, {}).value == (r.value, stream.Rest()) && Laid(fs, r.value)
    decreases fs, 3
  {
    ghost var goal, seen: set<nat> := run(stream.Rest(), slots, {}), {};
    var words := new nat[2](_ => 0);
    assert words[..] == [0, 0];
    NothingTracked(fs);
    var iter := new FieldIter.Iter(Entries(fs));
    var cur, ended := slots, false;
    while stream.left > 0 && !ended
      invariant stream.Valid() && stream.pos + stream.left == old(stream.pos + stream.left)
      invariant iter.Valid() && iter.fs == Entries(fs) && fresh(iter) && fresh(words) && words.Length == 2
      invariant Laid(fs, cur) && Tracks(fs, words[..], seen)
      invariant goal == if ended then Finish(fs, stream.Rest(), cur, seen) else run(stream.Rest(), cur, seen)
      decreases stream.left, !ended
    {
      assert UnfoldsAt(run, fs, stream.Rest(), cur, seen);
      var t := stream.ReadVarint32();
      if t.Bad? {
        return None;
      }
      if t.value == 0 {
        ended := true;
      } else {
        var ok;
        ok, cur, seen := ReadTagged(stream, fs, iter, t.value / 8, t.value % 8, cur, words, run, seen);
        if !ok {
          return None;
        }
      }
    }
    assert UnfoldsAt(run, fs, stream.Rest(), cur, seen);
    CompleteBitmap(fs, words[..], seen);
    EntryRequired(fs, |fs|);
    var count := iter.CountRequired();
    var all := FieldIter.AllSeen(words[..], count);
    r := if all then Some(cur) else None;
  }

  /** What follows a tag: a field of the message, or something to skip. */
  method ReadTagged(stream: IStream, fs: seq<Field>, iter: FieldIter.Iter, tag: nat, wire: nat, slots: seq<Slot>,
                    words: array<nat>, ghost run: Run, ghost seen: set<nat>)
    returns (ok: bool, now: seq<Slot>, ghost seenNow: set<nat>)
    requires stream.Valid() && iter.Valid() && iter.fs == Entries(fs) && WellFormed(fs)
    requires Laid(fs, slots) && words.Length == 2 && Tracks(fs, words[..], seen)
    modifies stream, iter, words
    ensures stream.Valid() && stream.pos + stream.left == old(stream.pos + stream.left)
    ensures ok ==> stream.left <= old(stream.left)
    ensures iter.Valid() && Laid(fs, now) && Tracks(fs, words[..], seenNow)
    ensures UnfoldTag(run, fs, tag, wire, old(stream.Rest()), slots, seen)
         == if ok then run(stream.Rest(), now, seenNow) else None
    decreases fs, 2
  {
    now, seenNow := slots, seen;
    var found := iter.Find(tag);
    if found && |fs| > 0 {
      SlotOrder(fs, iter.pos, iter.pos);
      ok, now, seenNow := ReadInto(stream, fs, iter, wire, slots, words, run, seen);
      FindTag(fs, iter.pos, 0);
    } else if found {
      // The terminator answers to tag 0 and passes for a bool; nothing keeps the value.
      var d := stream.ReadVarint32();
      ok := d.Got?;
    } else {
      NotFound(fs, tag);
      ok := SkipField(stream, wire);
    }
  }

  lemma {:induction false} NotFound(fs: seq<Field>, tag: nat)
    requires fs != [] ==> forall k :: !FieldIter.Matches(Entries(fs), k, tag)
    ensures Find(fs, tag, 0).None?
  {
    var k := Find(fs, tag, 0);
    if k.Some? { assert FieldIter.Matches(Entries(fs), k.value, tag); }
  }

  /** A field of the message, at the iterator's position. */
  method ReadInto(stream: IStream, fs: seq<Field>, iter: FieldIter.Iter, wire: nat, slots: seq<Slot>,
                  words: array<nat>, ghost run: Run, ghost seen: set<nat>)
    returns (ok: bool, now: seq<Slot>, ghost seenNow: set<nat>)
    requires stream.Valid() && iter.Valid() && iter.fs == Entries(fs) && WellFormed(fs) && iter.pos < |fs|
    requires Laid(fs, slots) && words.Length == 2 && Tracks(fs, words[..], seen) && SlotAt(fs, iter.pos) < |slots|
    modifies stream, words
    ensures stream.Valid() && stream.pos + stream.left == old(stream.pos + stream.left)
    ensures ok ==> stream.left <= old(stream.left)
    ensures Laid(fs, now) && Tracks(fs, words[..], seenNow)
    ensures var at := SlotAt(fs, iter.pos);
      Onward(run, DecField(fs[iter.pos], wire, old(stream.Rest()), slots[at]), slots, at, seen + {iter.pos})
      == if ok then run(stream.Rest(), now, seenNow) else None
    decreases fs, 1
  {
    var at, index := Here(iter, fs);
    seenNow := seen + {iter.pos};
    NoteField(fs, iter.pos, index, words, seen);
    ok, now := ReadAt(stream, fs, iter.pos, at, wire, slots);
  }

  /** A field read into its slot. */
  method ReadAt(stream: IStream, fs: seq<Field>, k: nat, at: nat, wire: nat, slots: seq<Slot>)
    returns (ok: bool, now: seq<Slot>)
    requires stream.Valid() && WellFormed(fs) && Laid(fs, slots) && k < |fs| && at == SlotAt(fs, k) < |slots|
    modifies stream
    ensures stream.Valid() && stream.pos + stream.left == old(stream.pos + stream.left)
    ensures Laid(fs, now) && ok == DecField(fs[k], wire, old(stream.Rest()), slots[at]).Some?
    ensures ok ==> stream.left <= old(stream.left)
    ensures ok ==> now == slots[at := DecField(fs[k], wire, old(stream.Rest()), slots[at]).value.0]
    ensures ok ==> stream.Rest() == DecField(fs[k], wire, old(stream.Rest()), slots[at]).value.1
    decreases fs, 0
  {
    assert WellFormedField(fs[k]) && LaidAt(fs, k, slots);
    var slot := ReadField(stream, fs[k], wire, slots[at]);
    ok, now := slot.Some?, slots;
    if ok {
      LaidUpdate(fs, slots, k, slot.value);
      now := slots[at := slot.value];
    }
  }

  method NoteField(fs: seq<Field>, k: nat, index: nat, words: array<nat>, ghost seen: set<nat>)
    requires k < |fs| && index == RequiredBefore(fs, k) && words.Length == 2 && Tracks(fs, words[..], seen)
    modifies words
    ensures Tracks(fs, words[..], seen + {k})
  {
    if fs[k].rule.Required? {
      ghost var before := words[..];
      RequiredGrows(fs, k, |fs|);
      FieldIter.Mark(words, index, RequiredBefore(fs, |fs|));
      TracksMore(fs, before, words[..], seen, k);
    } else {
      TracksOther(fs, words[..], seen, k);
    }
  }

  /** `decode_static_field` */
  method ReadField(stream: IStream, f: Field, wire: nat, slot: Slot) returns (r: Option<Slot>)
    requires stream.Valid() && WellFormedField(f) && LaidSlot(f, slot)
    modifies stream
    ensures stream.Valid() && stream.pos + stream.left == old(stream.pos + stream.left)
    ensures r.Some? == DecField(f, wire, old(stream.Rest()), slot).Some?
    ensures r.Some? ==> DecField(f, wire, old(stream.Rest()), slot).value == (r.value, stream.Rest())
    ensures r.Some? ==> LaidSlot(f, r.value)
    ensures r.Some? && f.rule.Oneof? ==> r.value.choice.Some? && r.value.choice.value.0 == f.tag
    decreases f, 2
  {
    match f.rule
    case Required =>
      var v := ReadValue(stream, f.kind, slot.v, false);
      r := if v.None? then None else Some(One(v.value));
    case Optional =>
      var v := ReadValue(stream, f.kind, slot.v, false);
      r := if v.None? then None else Some(Maybe(true, v.value));
    case Repeated(max) =>
      r := ReadRepeated(stream, f, wire, slot.items);
    case Oneof(_) =>
      var cur := UnionBase(f, slot);
      DefaultLaid(f);
      var v := ReadValue(stream, f.kind, cur, false);
      r := if v.None? then None else Some(Union(Some((f.tag, v.value))));
  }

  method ReadRepeated(stream: IStream, f: Field, wire: nat, items: seq<Value>) returns (r: Option<Slot>)
    requires stream.Valid() && WellFormedField(f) && f.rule.Repeated?
    modifies stream
    ensures stream.Valid() && stream.pos + stream.left == old(stream.pos + stream.left)
    ensures r.Some? == DecField(f, wire, old(stream.Rest()), Many(items)).Some?
    ensures r.Some? ==> DecField(f, wire, old(stream.Rest()), Many(items)).value == (r.value, stream.Rest())
    ensures r.Some? ==> r.value.Many?
    decreases f, 1
  {
    if wire == 2 && Packable(f.kind) {
      var all := ReadPackedArray(stream, f.kind, items, f.rule.max);
      r := if all.None? then None else Some(Many(all.value));
    } else {
      if |items| >= f.rule.max {
        return None;
      }
      var v := ReadValue(stream, f.kind, Num(0), true);
      r := if v.None? then None else Some(Many(items + [v.value]));
    }
  }

  method ReadPackedArray(stream: IStream, kind: Kind, items: seq<Value>, max: nat) returns (r: Option<seq<Value>>)
    requires stream.Valid() && Packable(kind)
    modifies stream
    ensures stream.Valid() && stream.pos + stream.left == old(stream.pos + stream.left)
    ensures var sub := Substream(old(stream.Rest()));
      && r == (if sub.None? then None else DecPacked(kind, sub.value.0, items, max))
      && (r.Some? ==> stream.Rest() == sub.value.1)
  {
    ghost var end := stream.pos + stream.left;
    var sub, inside, after := stream.OpenSubstream();
    if sub == null {
      return None;
    }
    r := ReadPacked(sub, kind, items, max);
    stream.CloseSubstream(sub, end);
  }
}
