/** A reader whose descriptor is not the writer's: it knows some of the fields that were written, perhaps others too, and
    they may come in any order. It steps over what it does not know, reads what it does, and notices the required fields
    that are missing. */
module Readers {
  import opened Wrappers
  import opened SeqFacts
  import opened Varint
  import opened Message
  import opened RoundTrip
  import opened WireFormat

  // ---- Stepping over fields that the reader does not know ----

  /** A tag of no field leads past its payload. */
  predicate SkipsAt(run: Run, fs: seq<Field>, tag: nat, wire: nat, s: seq<Byte>, slots: seq<Slot>, seen: set<nat>) {
    0 < tag < 0x2000_0000 && wire < 8 && Find(fs, tag, 0).None? ==>
      run(Header(tag, wire) + s, slots, seen) ==
        var after := Skip(wire, s);
        if after.None? then None else run(after.value, slots, seen)
  }

  ghost predicate Skips(run: Run, fs: seq<Field>) {
    forall tag, wire, s, slots, seen :: SkipsAt(run, fs, tag, wire, s, slots, seen)
  }

  lemma {:induction false} DecSkipped(
    fs: seq<Field>, dec: FieldDecoder, tag: nat, wire: nat, s: seq<Byte>, slots: seq<Slot>, seen: set<nat>)
    requires Shrinks(dec) && 0 < tag < 0x2000_0000 && wire < 8 && Find(fs, tag, 0).None?
    ensures DecFields(fs, dec, Header(tag, wire) + s, slots, seen) ==
      var after := Skip(wire, s);
      if after.None? then None else DecFields(fs, dec, after.value, slots, seen)
  {
    HeaderReads(tag, wire, s);
  }

  lemma {:induction false} RunnerSkips(fs: seq<Field>)
    ensures Skips(Runner(fs), fs)
  {
    forall tag: nat, wire: nat, s: seq<Byte>, slots: seq<Slot>, seen: set<nat>
      ensures SkipsAt(Runner(fs), fs, tag, wire, s, slots, seen)
    {
      if 0 < tag < 0x2000_0000 && wire < 8 && Find(fs, tag, 0).None? {
        DecSkipped(fs, Decoder(fs), tag, wire, s, slots, seen);
      }
    }
  }

  lemma {:induction false} WireBelow8(kind: Kind)
    ensures WireType(kind) < 8
  {
  }

  lemma {:induction false} ShortIsReadable(kind: Kind, v: Value)
    requires Short(READABLE, kind, v)
    ensures Readable(kind, v)
  {
  }

  lemma {:induction false} TaggedSkipped(
    run: Run, fs: seq<Field>, f: Field, v: Value, rest: seq<Byte>, slots: seq<Slot>, seen: set<nat>)
    requires Skips(run, fs) && WellFormedField(f) && Find(fs, f.tag, 0).None?
    requires EncTagged(f, v).Some? && |EncTagged(f, v).value| < LIMIT && Short(READABLE, f.kind, v)
    ensures run(EncTagged(f, v).value + rest, slots, seen) == run(rest, slots, seen)
  {
    TaggedSplit(f, v, rest);
    WireBelow8(f.kind);
    ShortIsReadable(f.kind, v);
    KindSkipped(f.kind, v, rest);
    assert SkipsAt(run, fs, f.tag, WireType(f.kind), EncKind(f.kind, v).value + rest, slots, seen);
  }

  lemma {:induction false} ItemsSkipped(
    run: Run, fs: seq<Field>, f: Field, items: seq<Value>, rest: seq<Byte>, slots: seq<Slot>, seen: set<nat>)
    requires Skips(run, fs) && WellFormedField(f) && Find(fs, f.tag, 0).None?
    requires var e := EncAll(Tagger(f), items); e.Some? && |e.value| < LIMIT
    requires AllShort(READABLE, f.kind, items)
    ensures run(EncAll(Tagger(f), items).value + rest, slots, seen) == run(rest, slots, seen)
    decreases |items|
  {
    if items == [] {
      NothingAround(rest);
    } else {
      var v, more := items[0], items[1..];
      FirstAndRest(items);
      EncAllCons(Tagger(f), v, more, rest);
      AllShortCons(READABLE, f.kind, v, more);
      TaggedSkipped(run, fs, f, v, EncAll(Tagger(f), more).value + rest, slots, seen);
      ItemsSkipped(run, fs, f, more, rest, slots, seen);
    }
  }

  lemma {:induction false} PackedSkipped(
    run: Run, fs: seq<Field>, f: Field, c: seq<Byte>, rest: seq<Byte>, slots: seq<Slot>, seen: set<nat>)
    requires Skips(run, fs) && WellFormedField(f) && Find(fs, f.tag, 0).None? && |c| < 0x1_0000_0000
    ensures run(Header(f.tag, 2) + (Encode(|c|) + c) + rest, slots, seen) == run(rest, slots, seen)
  {
    Associates(Header(f.tag, 2), Encode(|c|) + c, rest);
    PrefixedSkipped(c, rest);
    assert SkipsAt(run, fs, f.tag, 2, Encode(|c|) + c + rest, slots, seen);
  }

  /** What is written for a field that the reader does not know changes nothing for it. */
  lemma {:induction false} FieldSkipped(
    run: Run, fs: seq<Field>, f: Field, slot: Slot, rest: seq<Byte>, slots: seq<Slot>, seen: set<nat>)
    requires Skips(run, fs) && WellFormedField(f) && Find(fs, f.tag, 0).None?
    requires EncField(f, slot).Some? && |EncField(f, slot).value| < LIMIT && ShortField(READABLE, f, slot)
    ensures run(EncField(f, slot).value + rest, slots, seen) == run(rest, slots, seen)
  {
    NothingAround(rest);
    match f.rule
    case Required => TaggedSkipped(run, fs, f, slot.v, rest, slots, seen);
    case Optional => if slot.has { TaggedSkipped(run, fs, f, slot.v, rest, slots, seen); }
    case Repeated(_) =>
      if slot.items != [] && Packable(f.kind) {
        PackedSkipped(run, fs, f, EncPacked(f.kind, slot.items).value, rest, slots, seen);
      } else if slot.items != [] {
        assert EncField(f, slot) == EncAll(Tagger(f), slot.items);
        ItemsSkipped(run, fs, f, slot.items, rest, slots, seen);
      }
    case Oneof(_) =>
      if slot.choice.Some? && slot.choice.value.0 == f.tag {
        TaggedSkipped(run, fs, f, slot.choice.value.1, rest, slots, seen);
      }
  }

  // ---- What was written ----

  /** A field as a writer has it, and what it holds there. */
  datatype Sent = Sent(f: Field, slot: Slot)

  function BytesOf(x: Sent): seq<Byte> {
    var e := EncField(x.f, x.slot);
    if e.Some? then e.value else []
  }

  function Bytes(sent: seq<Sent>): seq<Byte> { if sent == [] then [] else BytesOf(sent[0]) + Bytes(sent[1..]) }

  /** It can be written, and read again by a reader that knows the field. */
  predicate Writable(x: Sent) {
    && WellFormedField(x.f) && HasRule(x.f, x.slot) && EncField(x.f, x.slot).Some?
    && |EncField(x.f, x.slot).value| < LIMIT && ShortField(READABLE, x.f, x.slot)
  }

  /** Different fields, each written once, in any order. */
  ghost predicate Writing(sent: seq<Sent>) {
    && (forall j :: 0 <= j < |sent| ==> Writable(sent[j]))
    && forall i, j :: 0 <= i < j < |sent| ==> sent[i].f.tag != sent[j].f.tag
  }

  /** Writer and reader mean the same by a field number that both of them know. */
  ghost predicate Agree(gs: seq<Field>, sent: seq<Sent>) {
    forall k, j :: 0 <= k < |gs| && 0 <= j < |sent| && gs[k].tag == sent[j].f.tag ==> gs[k] == sent[j].f
  }

  /** Of the members of a union of the reader, at most one was written. */
  ghost predicate OneChoice(gs: seq<Field>, sent: seq<Sent>) {
    forall k, m, i, j ::
      (0 <= k < |gs| && 0 <= m < |gs| && k != m && SlotAt(gs, k) == SlotAt(gs, m)
       && 0 <= i < |sent| && 0 <= j < |sent| && sent[i].f == gs[k] && sent[j].f == gs[m])
      ==> !(Occurs(sent[i].f, sent[i].slot) && Occurs(sent[j].f, sent[j].slot))
  }

  /** What the first n of them hold for a field number. */
  function SentFor(sent: seq<Sent>, n: nat, tag: nat): Option<Slot>
    requires n <= |sent|
  {
    if n == 0 then None
    else if sent[n - 1].f.tag == tag then Some(sent[n - 1].slot)
    else SentFor(sent, n - 1, tag)
  }

  lemma {:induction false} SentForMeans(sent: seq<Sent>, n: nat, tag: nat)
    requires n <= |sent|
    ensures SentFor(sent, n, tag).Some? ==> exists j :: 0 <= j < n && sent[j].f.tag == tag && SentFor(sent, n, tag) == Some(sent[j].slot)
    ensures SentFor(sent, n, tag).None? ==> forall j :: 0 <= j < n ==> sent[j].f.tag != tag
    decreases n
  {
    if n > 0 && sent[n - 1].f.tag != tag { SentForMeans(sent, n - 1, tag); }
  }

  // ---- What the reader makes of it ----

  /** The slot of a field of the reader, given what was written for it, if anything. */
  predicate Stage(f: Field, sent: Option<Slot>, cur: Slot) { if sent.Some? then Left(f, sent.value, cur) else Ready(f, cur) }

  ghost predicate StageAt(gs: seq<Field>, sent: seq<Sent>, n: nat, cur: seq<Slot>, k: nat)
    requires k < |gs| && n <= |sent|
  {
    SlotAt(gs, k) < |cur| && Stage(gs[k], SentFor(sent, n, gs[k].tag), cur[SlotAt(gs, k)])
  }

  /** The slots and the fields seen after the first n fields. Quantified only so that the details stay out of sight until
      `ProgressAt` is named. */
  ghost predicate Progress(gs: seq<Field>, sent: seq<Sent>, n: nat, s: (seq<Slot>, set<nat>)) {
    n <= |sent| && |s.0| == SlotCount(gs) && forall z: int :: ProgressAt(gs, sent, n, s, z)
  }

  ghost predicate ProgressAt(gs: seq<Field>, sent: seq<Sent>, n: nat, s: (seq<Slot>, set<nat>), z: int) {
    && n <= |sent| && |s.0| == SlotCount(gs)
    && (forall k :: 0 <= k < |gs| ==> StageAt(gs, sent, n, s.0, k))
    && SeenSent(gs, sent, n, s.1)
  }

  lemma {:induction false} IsProgress(gs: seq<Field>, sent: seq<Sent>, n: nat, s: (seq<Slot>, set<nat>))
    requires ProgressAt(gs, sent, n, s, 0)
    ensures Progress(gs, sent, n, s)
  {
    forall z: int ensures ProgressAt(gs, sent, n, s, z) { assert ProgressAt(gs, sent, n, s, 0); }
  }

  lemma {:induction false} ProgressMeans(gs: seq<Field>, sent: seq<Sent>, n: nat, s: (seq<Slot>, set<nat>))
    requires Progress(gs, sent, n, s)
    ensures ProgressAt(gs, sent, n, s, 0)
  {
  }

  lemma {:induction false} AtStart(gs: seq<Field>, sent: seq<Sent>)
    ensures Progress(gs, sent, 0, (Defaults(gs, |gs|), {}))
  {
    forall k | 0 <= k < |gs| ensures StageAt(gs, sent, 0, Defaults(gs, |gs|), k) { DefaultsAt(gs, |gs|, k); }
    if gs != [] { DefaultsAt(gs, |gs|, |gs| - 1); }
    IsProgress(gs, sent, 0, (Defaults(gs, |gs|), {}));
  }

  lemma {:induction false} FindMeans(gs: seq<Field>, tag: nat, k: nat)
    ensures Find(gs, tag, k).None? ==> forall i :: k <= i < |gs| ==> gs[i].tag != tag
    decreases |gs| - k
  {
    if k < |gs| && gs[k].tag != tag { FindMeans(gs, tag, k + 1); }
  }

  /** A field that is known is read into its slot, and the slots of the others stay as they should be. */
  lemma {:induction false} StageKept(
    gs: seq<Field>, sent: seq<Sent>, n: nat, cur: seq<Slot>, k: nat, i: nat)
    requires WellFormed(gs) && Writing(sent) && Agree(gs, sent) && OneChoice(gs, sent) && n < |sent|
    requires k < |gs| && i < |gs| && gs[k] == sent[n].f && SlotAt(gs, k) < |cur|
    requires StageAt(gs, sent, n, cur, k) && StageAt(gs, sent, n, cur, i)
    ensures StageAt(gs, sent, n + 1, cur[SlotAt(gs, k) := Merge(gs[k], cur[SlotAt(gs, k)], sent[n].slot)], i)
  {
    SentForMeans(sent, n, gs[k].tag);
    SentForMeans(sent, n, gs[i].tag);
    assert Writable(sent[n]);
    if i == k {
      MergeLeaves(gs[k], cur[SlotAt(gs, k)], sent[n].slot);
    } else {
      SlotOrder(gs, if i < k then i else k, if i < k then k else i);
      if SlotAt(gs, i) == SlotAt(gs, k) { SharedKept(gs, sent, n, cur[SlotAt(gs, k)], k, i); }
    }
  }

  /** Another member of the same union. */
  lemma {:induction false} SharedKept(gs: seq<Field>, sent: seq<Sent>, n: nat, cur: Slot, k: nat, i: nat)
    requires WellFormed(gs) && Writing(sent) && Agree(gs, sent) && OneChoice(gs, sent) && n < |sent|
    requires k < |gs| && i < |gs| && i != k && gs[k] == sent[n].f && SlotAt(gs, i) == SlotAt(gs, k)
    requires gs[i].rule.Oneof? && gs[k].rule.Oneof? && gs[i].tag != gs[k].tag
    requires Stage(gs[i], SentFor(sent, n, gs[i].tag), cur)
    ensures Stage(gs[i], SentFor(sent, n, gs[i].tag), Merge(gs[k], cur, sent[n].slot))
  {
    SentForMeans(sent, n, gs[i].tag);
    assert Writable(sent[n]);
    if SentFor(sent, n, gs[i].tag).Some? {
      var j :| 0 <= j < n && sent[j].f.tag == gs[i].tag && SentFor(sent, n, gs[i].tag) == Some(sent[j].slot);
      assert Writable(sent[j]) && sent[j].f == gs[i];
      assert !(Occurs(sent[j].f, sent[j].slot) && Occurs(sent[n].f, sent[n].slot));
    }
  }

  /** The slots and the fields seen after the first n fields. */
  ghost function State(gs: seq<Field>, sent: seq<Sent>, n: nat): (seq<Slot>, set<nat>)
    requires n <= |sent|
  {
    if n == 0 then (Defaults(gs, |gs|), {}) else Next(gs, sent[n - 1], State(gs, sent, n - 1))
  }

  ghost function Next(gs: seq<Field>, x: Sent, s: (seq<Slot>, set<nat>)): (seq<Slot>, set<nat>) {
    var k := Find(gs, x.f.tag, 0);
    if k.Some? && SlotAt(gs, k.value) < |s.0| then
      var at := SlotAt(gs, k.value);
      (s.0[at := Merge(gs[k.value], s.0[at], x.slot)], Noted(gs[k.value], x.slot, k.value, s.1))
    else s
  }

  /** Quantified only so that the details stay out of sight until `DeliveryAt` is named. */
  ghost predicate Delivery(gs: seq<Field>, sent: seq<Sent>) { forall z: int :: DeliveryAt(gs, sent, z) }

  ghost predicate DeliveryAt(gs: seq<Field>, sent: seq<Sent>, z: int) {
    WellFormed(gs) && Writing(sent) && Agree(gs, sent) && OneChoice(gs, sent)
  }

  lemma {:induction false} IsDelivery(gs: seq<Field>, sent: seq<Sent>)
    requires WellFormed(gs) && Writing(sent) && Agree(gs, sent) && OneChoice(gs, sent)
    ensures Delivery(gs, sent)
  {
    forall z: int ensures DeliveryAt(gs, sent, z) {}
  }

  lemma {:induction false} DeliveryMeans(gs: seq<Field>, sent: seq<Sent>)
    requires Delivery(gs, sent)
    ensures WellFormed(gs) && Writing(sent) && Agree(gs, sent) && OneChoice(gs, sent)
  {
    assert DeliveryAt(gs, sent, 0);
  }

  lemma {:induction false} KnownKept(gs: seq<Field>, sent: seq<Sent>, n: nat, m: nat, s: (seq<Slot>, set<nat>), k: nat)
    requires Delivery(gs, sent) && n < |sent| && m == n + 1 && Progress(gs, sent, n, s)
    requires Find(gs, sent[n].f.tag, 0) == Some(k)
    ensures SlotAt(gs, k) < |s.0|
    ensures Progress(gs, sent, m, (s.0[SlotAt(gs, k) := Merge(gs[k], s.0[SlotAt(gs, k)], sent[n].slot)],
                                   Noted(gs[k], sent[n].slot, k, s.1)))
  {
    DeliveryMeans(gs, sent);
    ProgressMeans(gs, sent, n, s);
    assert StageAt(gs, sent, n, s.0, k);
    var next := s.0[SlotAt(gs, k) := Merge(gs[k], s.0[SlotAt(gs, k)], sent[n].slot)];
    StagesKept(gs, sent, n, m, s.0, k, next);
    SeenKept(gs, sent, n, m, s.1, k);
    IsProgress(gs, sent, m, (next, Noted(gs[k], sent[n].slot, k, s.1)));
  }

  /** The required fields seen are those that were sent. */
  ghost predicate SeenSent(gs: seq<Field>, sent: seq<Sent>, n: nat, seen: set<nat>)
    requires n <= |sent|
  {
    forall k :: 0 <= k < |gs| && gs[k].rule.Required? ==> (k in seen <==> SentFor(sent, n, gs[k].tag).Some?)
  }

  lemma {:induction false} SeenKept(gs: seq<Field>, sent: seq<Sent>, n: nat, m: nat, seen: set<nat>, k: nat)
    requires WellFormed(gs) && n < |sent| && m == n + 1 && k < |gs| && gs[k].tag == sent[n].f.tag && SeenSent(gs, sent, n, seen)
    ensures SeenSent(gs, sent, m, Noted(gs[k], sent[n].slot, k, seen))
  {
    var now := Noted(gs[k], sent[n].slot, k, seen);
    forall i | 0 <= i < |gs| && gs[i].rule.Required? ensures i in now <==> SentFor(sent, m, gs[i].tag).Some? {
      assert i in seen <==> SentFor(sent, n, gs[i].tag).Some?;
      if i != k { assert gs[if i < k then i else k].tag != gs[if i < k then k else i].tag; }
    }
  }

  lemma {:induction false} StagesKept(
    gs: seq<Field>, sent: seq<Sent>, n: nat, m: nat, cur: seq<Slot>, k: nat, next: seq<Slot>)
    requires WellFormed(gs) && Writing(sent) && Agree(gs, sent) && OneChoice(gs, sent) && n < |sent| && m == n + 1
    requires k < |gs| && gs[k] == sent[n].f && (forall i :: 0 <= i < |gs| ==> StageAt(gs, sent, n, cur, i))
    requires SlotAt(gs, k) < |cur| && next == cur[SlotAt(gs, k) := Merge(gs[k], cur[SlotAt(gs, k)], sent[n].slot)]
    ensures forall i :: 0 <= i < |gs| ==> StageAt(gs, sent, m, next, i)
  {
    assert StageAt(gs, sent, n, cur, k);
    forall i | 0 <= i < |gs| ensures StageAt(gs, sent, m, next, i) {
      assert StageAt(gs, sent, n, cur, i);
      StageKept(gs, sent, n, cur, k, i);
    }
  }

  lemma {:induction false} UnknownKept(gs: seq<Field>, sent: seq<Sent>, n: nat, m: nat, s: (seq<Slot>, set<nat>))
    requires n < |sent| && m == n + 1 && Progress(gs, sent, n, s) && Find(gs, sent[n].f.tag, 0).None?
    ensures Progress(gs, sent, m, s)
  {
    ProgressMeans(gs, sent, n, s);
    FindMeans(gs, sent[n].f.tag, 0);
    forall i | 0 <= i < |gs| ensures StageAt(gs, sent, m, s.0, i) { assert StageAt(gs, sent, n, s.0, i); }
    IsProgress(gs, sent, m, s);
  }

  lemma {:induction false} NextKept(gs: seq<Field>, sent: seq<Sent>, n: nat, m: nat, s: (seq<Slot>, set<nat>))
    requires Delivery(gs, sent) && n < |sent| && m == n + 1 && Progress(gs, sent, n, s)
    ensures Progress(gs, sent, m, Next(gs, sent[n], s))
  {
    var k := Find(gs, sent[n].f.tag, 0);
    if k.Some? { KnownKept(gs, sent, n, m, s, k.value); } else { UnknownKept(gs, sent, n, m, s); }
  }

  lemma {:induction false} Progresses(gs: seq<Field>, sent: seq<Sent>, n: nat)
    requires Delivery(gs, sent) && n <= |sent|
    ensures Progress(gs, sent, n, State(gs, sent, n))
    decreases n
  {
    if n == 0 {
      AtStart(gs, sent);
    } else {
      Progresses(gs, sent, n - 1);
      NextKept(gs, sent, n - 1, n, State(gs, sent, n - 1));
    }
  }

  /** One field written is read, or stepped over, whatever follows. */
  lemma {:induction false} Takes(run: Run, gs: seq<Field>, sent: seq<Sent>, n: nat, s: (seq<Slot>, set<nat>), rest: seq<Byte>)
    requires Delivery(gs, sent) && n < |sent| && RoundTrip.Reads(run, gs) && Skips(run, gs) && FieldsTripAll(gs)
    requires Progress(gs, sent, n, s)
    ensures var t := Next(gs, sent[n], s); run(BytesOf(sent[n]) + rest, s.0, s.1) == run(rest, t.0, t.1)
  {
    DeliveryMeans(gs, sent);
    ProgressMeans(gs, sent, n, s);
    var k := Find(gs, sent[n].f.tag, 0);
    assert Writable(sent[n]);
    if k.Some? {
      assert gs[k.value] == sent[n].f && StageAt(gs, sent, n, s.0, k.value);
      SentForMeans(sent, n, sent[n].f.tag);
      FieldTrips(run, gs, k.value, sent[n].slot, rest, s.0, s.1);
    } else {
      FieldSkipped(run, gs, sent[n].f, sent[n].slot, rest, s.0, s.1);
    }
  }

  lemma {:induction false} TakesAll(run: Run, gs: seq<Field>, sent: seq<Sent>, n: nat, rest: seq<Byte>)
    requires Delivery(gs, sent) && n <= |sent| && RoundTrip.Reads(run, gs) && Skips(run, gs) && FieldsTripAll(gs)
    ensures var s, t := State(gs, sent, n), State(gs, sent, |sent|);
      run(Bytes(sent[n..]) + rest, s.0, s.1) == run(rest, t.0, t.1)
    decreases |sent| - n
  {
    if n == |sent| {
      NothingAround(rest);
    } else {
      assert sent[n..][0] == sent[n] && sent[n..][1..] == sent[n + 1..];
      Associates(BytesOf(sent[n]), Bytes(sent[n + 1..]), rest);
      Progresses(gs, sent, n);
      Takes(run, gs, sent, n, State(gs, sent, n), Bytes(sent[n + 1..]) + rest);
      TakesAll(run, gs, sent, n + 1, rest);
    }
  }

  lemma {:induction false} AllTrips(gs: seq<Field>)
    requires WellFormed(gs)
    ensures FieldsTripAll(gs)
  {
    forall i | 0 <= i < |gs| ensures KindTrips(gs[i].kind) {
      assert WellFormedField(gs[i]);
      AllKindsTrip(gs[i]);
    }
  }

  lemma {:induction false} Decoded(gs: seq<Field>, sent: seq<Sent>)
    requires Delivery(gs, sent)
    ensures var s := State(gs, sent, |sent|);
      Decode(gs, Bytes(sent)) == Finish(gs, [], s.0, s.1) && Progress(gs, sent, |sent|, s)
  {
    DeliveryMeans(gs, sent);
    RunnerReads(gs);
    RunnerSkips(gs);
    AllTrips(gs);
    Progresses(gs, sent, |sent|);
    TakesAll(Runner(gs), gs, sent, 0, []);
    assert sent[0..] == sent;
    NothingAround(Bytes(sent));
    var s := State(gs, sent, |sent|);
    assert EndsAt(Runner(gs), gs, s.0, s.1);
  }

  /** What the reader has for a field: what was sent, or else what the field is before anything is read. */
  predicate Received(f: Field, sent: Option<Slot>, cur: Slot) {
    if sent.Some? then SameSlot(f, sent.value, cur) else Ready(f, cur)
  }

  /** Of what a writer sends, whatever its own descriptor and order, a reader gets every field that it knows as it was
      sent, at every depth, and has all others as they were. It succeeds exactly if none of its first 64 required fields
      is missing. */
  lemma {:induction false} ReaderGets(gs: seq<Field>, sent: seq<Sent>)
    requires Delivery(gs, sent)
    ensures var d := Decode(gs, Bytes(sent));
      && (d.Some? <==> forall k: nat :: k < |gs| && gs[k].rule.Required? && RequiredBefore(gs, k) < 64 ==>
                         exists j :: 0 <= j < |sent| && sent[j].f.tag == gs[k].tag)
      && (d.Some? ==>
            && d.value.1 == [] && |d.value.0| == SlotCount(gs)
            && forall k :: 0 <= k < |gs| ==>
                 SlotAt(gs, k) < |d.value.0| && Received(gs[k], SentFor(sent, |sent|, gs[k].tag), d.value.0[SlotAt(gs, k)]))
  {
    DeliveryMeans(gs, sent);
    Decoded(gs, sent);
    ProgressMeans(gs, sent, |sent|, State(gs, sent, |sent|));
    var (cur, seen) := State(gs, sent, |sent|);
    forall k | 0 <= k < |gs|
      ensures SlotAt(gs, k) < |cur| && Received(gs[k], SentFor(sent, |sent|, gs[k].tag), cur[SlotAt(gs, k)])
    {
      assert StageAt(gs, sent, |sent|, cur, k);
      Receives(gs, sent, k, cur[SlotAt(gs, k)]);
    }
    forall k: nat | k < |gs| && gs[k].rule.Required?
      ensures k in seen <==> exists j :: 0 <= j < |sent| && sent[j].f.tag == gs[k].tag
    {
      SentForMeans(sent, |sent|, gs[k].tag);
    }
  }

  lemma {:induction false} Receives(gs: seq<Field>, sent: seq<Sent>, k: nat, cur: Slot)
    requires Delivery(gs, sent) && k < |gs| && Stage(gs[k], SentFor(sent, |sent|, gs[k].tag), cur)
    ensures Received(gs[k], SentFor(sent, |sent|, gs[k].tag), cur)
  {
    DeliveryMeans(gs, sent);
    SentForMeans(sent, |sent|, gs[k].tag);
    if SentFor(sent, |sent|, gs[k].tag).Some? {
      var j :| 0 <= j < |sent| && sent[j].f.tag == gs[k].tag && SentFor(sent, |sent|, gs[k].tag) == Some(sent[j].slot);
      assert Writable(sent[j]) && WellFormedField(gs[k]);
      forall v ensures SameAt(gs[k].kind, v) { RestoredIsSame(gs[k], v); }
      LeftIsSame(gs[k], sent[j].slot, cur);
    }
  }

  // ---- Messages written with a descriptor ----

  /** The fields of a struct, in the order of the descriptor, from field k on. */
  function AllOf(fs: seq<Field>, slots: seq<Slot>, k: nat): (sent: seq<Sent>)
    decreases |fs| - k
    ensures k <= |fs| && (forall i :: 0 <= i < |fs| ==> SlotAt(fs, i) < |slots|) ==>
      |sent| == |fs| - k && forall i :: 0 <= i < |sent| ==> sent[i] == Sent(fs[k + i], slots[SlotAt(fs, k + i)])
  {
    if k >= |fs| || SlotAt(fs, k) >= |slots| then []
    else [Sent(fs[k], slots[SlotAt(fs, k)])] + AllOf(fs, slots, k + 1)
  }

  lemma {:induction false} BytesOfAll(fs: seq<Field>, slots: seq<Slot>, k: nat)
    requires k <= |fs| && EncFields(fs, Encoder(fs), slots, k).Some?
    ensures Bytes(AllOf(fs, slots, k)) == EncFields(fs, Encoder(fs), slots, k).value
    decreases |fs| - k
  {
    if k < |fs| {
      EncFieldsStep(fs, Encoder(fs), slots, k);
      BytesOfAll(fs, slots, k + 1);
      var x, more := Sent(fs[k], slots[SlotAt(fs, k)]), AllOf(fs, slots, k + 1);
      assert AllOf(fs, slots, k) == [x] + more && ([x] + more)[1..] == more;
    }
  }

  lemma {:induction false} AllWritable(fs: seq<Field>, slots: seq<Slot>)
    requires WellFormed(fs) && Fits(fs, slots) && ShortMsg(READABLE, fs, slots)
    requires EncMsg(fs, slots).Some? && |EncMsg(fs, slots).value| < LIMIT
    ensures Writing(AllOf(fs, slots, 0)) && |AllOf(fs, slots, 0)| == |fs|
    ensures forall k :: 0 <= k < |fs| ==>
      SlotAt(fs, k) < |slots| && AllOf(fs, slots, 0)[k] == Sent(fs[k], slots[SlotAt(fs, k)])
  {
    forall k | 0 <= k < |fs| ensures SlotAt(fs, k) < |slots| { FitsAt(fs, slots, k); }
    var sent := AllOf(fs, slots, 0);
    forall k | 0 <= k < |fs| ensures Writable(sent[k]) {
      FitsAt(fs, slots, k);
      EncFieldsSuffix(fs, Encoder(fs), slots, k);
      EncFieldsStep(fs, Encoder(fs), slots, k);
      assert ShortAt(READABLE, fs, k, slots) && WellFormedField(fs[k]);
    }
  }

  /** Leaving a field that the reader does not know out of what is written makes no difference to the reader. */
  lemma {:induction false} UnknownIsAbsent(gs: seq<Field>, a: seq<Sent>, x: Sent, b: seq<Sent>)
    requires Delivery(gs, a + [x] + b) && Find(gs, x.f.tag, 0).None?
    ensures Decode(gs, Bytes(a + [x] + b)) == Decode(gs, Bytes(a + b))
  {
    var all, few := a + [x] + b, a + b;
    FewerDelivery(gs, a, x, b);
    Decoded(gs, all);
    Decoded(gs, few);
    SameState(gs, a, x, b);
  }

  lemma {:induction false} SameState(gs: seq<Field>, a: seq<Sent>, x: Sent, b: seq<Sent>)
    requires Find(gs, x.f.tag, 0).None?
    ensures State(gs, a + [x] + b, |a + [x] + b|) == State(gs, a + b, |a + b|)
  {
    var all, few := a + [x] + b, a + b;
    assert all[..|a|] == a && few[..|a|] == a;
    StateOfPrefix(gs, all, few, |a|);
    assert all[|a|] == x && State(gs, all, |a| + 1) == Next(gs, x, State(gs, all, |a|));
    assert all[|a| + 1..][..|b|] == b && few[|a|..][..|b|] == b;
    StateOfSuffix(gs, all, |a| + 1, few, |a|, |b|);
  }

  lemma {:induction false} FewerDelivery(gs: seq<Field>, a: seq<Sent>, x: Sent, b: seq<Sent>)
    requires Delivery(gs, a + [x] + b)
    ensures Delivery(gs, a + b)
  {
    var all, few := a + [x] + b, a + b;
    DeliveryMeans(gs, all);
    var at := (i: nat) => if i < |a| then i else i + 1;
    forall i | 0 <= i < |few| ensures few[i] == all[at(i)] {}
    FewerWriting(all, few, at);
    FewerAgree(gs, all, few, at);
    IsDelivery(gs, few);
  }

  ghost predicate Among(all: seq<Sent>, few: seq<Sent>, at: nat -> nat) {
    && (forall i :: 0 <= i < |few| ==> at(i) < |all| && few[i] == all[at(i)])
    && forall i, j :: 0 <= i < j < |few| ==> at(i) < at(j)
  }

  lemma {:induction false} FewerWriting(all: seq<Sent>, few: seq<Sent>, at: nat -> nat)
    requires Writing(all) && Among(all, few, at)
    ensures Writing(few)
  {
  }

  lemma {:induction false} FewerAgree(gs: seq<Field>, all: seq<Sent>, few: seq<Sent>, at: nat -> nat)
    requires Agree(gs, all) && OneChoice(gs, all) && Among(all, few, at)
    ensures Agree(gs, few) && OneChoice(gs, few)
  {
  }

  lemma {:induction false} StateOfPrefix(gs: seq<Field>, s: seq<Sent>, t: seq<Sent>, n: nat)
    requires n <= |s| && n <= |t| && s[..n] == t[..n]
    ensures State(gs, s, n) == State(gs, t, n)
    decreases n
  {
    if n > 0 {
      assert s[n - 1] == s[..n][n - 1] && t[n - 1] == t[..n][n - 1];
      assert s[..n - 1] == s[..n][..n - 1] && t[..n - 1] == t[..n][..n - 1];
      StateOfPrefix(gs, s, t, n - 1);
    }
  }

  lemma {:induction false} StateOfSuffix(gs: seq<Field>, s: seq<Sent>, i: nat, t: seq<Sent>, j: nat, n: nat)
    requires i + n <= |s| && j + n <= |t| && State(gs, s, i) == State(gs, t, j) && s[i..][..n] == t[j..][..n]
    ensures State(gs, s, i + n) == State(gs, t, j + n)
    decreases n
  {
    if n > 0 {
      assert s[i..][..n - 1] == s[i..][..n][..n - 1] && t[j..][..n - 1] == t[j..][..n][..n - 1];
      StateOfSuffix(gs, s, i, t, j, n - 1);
      assert s[i + n - 1] == s[i..][..n][n - 1] && t[j + n - 1] == t[j..][..n][n - 1];
    }
  }

  /** A reader whose descriptor consists of some fields of the writer's, with the same unions. */
  ghost predicate Narrower(gs: seq<Field>, fs: seq<Field>) {
    && (forall g :: g in gs ==> g in fs)
    && forall k, m, i, j ::
         (0 <= k < |gs| && 0 <= m < |gs| && SlotAt(gs, k) == SlotAt(gs, m) && 0 <= i < |fs| && 0 <= j < |fs|
          && gs[k] == fs[i] && gs[m] == fs[j])
         ==> SlotAt(fs, i) == SlotAt(fs, j)
  }

  lemma {:induction false} NarrowerAgrees(fs: seq<Field>, sent: seq<Sent>, gs: seq<Field>)
    requires WellFormed(fs) && Narrower(gs, fs) && |sent| == |fs| && forall i :: 0 <= i < |fs| ==> sent[i].f == fs[i]
    ensures Agree(gs, sent)
  {
    forall k, j | 0 <= k < |gs| && 0 <= j < |sent| && gs[k].tag == sent[j].f.tag ensures gs[k] == sent[j].f {
      assert gs[k] in fs;
      var i :| 0 <= i < |fs| && fs[i] == gs[k];
      assert fs[i].tag == fs[j].tag;
    }
  }

  /** Two members of a union that share its slot are not both its choice. */
  lemma {:induction false} NotBoth(f: Field, g: Field, slot: Slot)
    requires f.rule.Oneof? && g.rule.Oneof? && f.tag != g.tag
    ensures !(Occurs(f, slot) && Occurs(g, slot))
  {
  }

  lemma {:induction false} NarrowerChooses(fs: seq<Field>, slots: seq<Slot>, sent: seq<Sent>, gs: seq<Field>)
    requires WellFormed(gs) && Narrower(gs, fs) && |sent| == |fs|
    requires forall i :: 0 <= i < |fs| ==> SlotAt(fs, i) < |slots| && sent[i].f == fs[i] && sent[i].slot == slots[SlotAt(fs, i)]
    ensures OneChoice(gs, sent)
  {
    forall k, m, i, j
      | 0 <= k < |gs| && 0 <= m < |gs| && k != m && SlotAt(gs, k) == SlotAt(gs, m)
        && 0 <= i < |sent| && 0 <= j < |sent| && sent[i].f == gs[k] && sent[j].f == gs[m]
      ensures !(Occurs(sent[i].f, sent[i].slot) && Occurs(sent[j].f, sent[j].slot))
    {
      SharedIsUnion(gs, k, m);
      assert fs[i] == gs[k] && fs[j] == gs[m];
      NotBoth(gs[k], gs[m], slots[SlotAt(fs, i)]);
    }
  }

  lemma {:induction false} SharedIsUnion(gs: seq<Field>, k: nat, m: nat)
    requires WellFormed(gs) && k < |gs| && m < |gs| && k != m && SlotAt(gs, k) == SlotAt(gs, m)
    ensures gs[k].rule.Oneof? && gs[m].rule.Oneof? && gs[k].tag != gs[m].tag
  {
    SlotOrder(gs, if k < m then k else m, if k < m then m else k);
  }

  lemma {:induction false} NarrowerDelivery(fs: seq<Field>, slots: seq<Slot>, gs: seq<Field>)
    requires WellFormed(fs) && WellFormed(gs) && Narrower(gs, fs) && Fits(fs, slots) && ShortMsg(READABLE, fs, slots)
    requires EncMsg(fs, slots).Some? && |EncMsg(fs, slots).value| < LIMIT
    ensures Delivery(gs, AllOf(fs, slots, 0))
  {
    var sent := AllOf(fs, slots, 0);
    AllWritable(fs, slots);
    NarrowerAgrees(fs, sent, gs);
    NarrowerChooses(fs, slots, sent, gs);
    IsDelivery(gs, sent);
  }

  lemma {:induction false} SentIn(sent: seq<Sent>, i: nat)
    requires Writing(sent) && i < |sent|
    ensures SentFor(sent, |sent|, sent[i].f.tag) == Some(sent[i].slot)
  {
    SentForMeans(sent, |sent|, sent[i].f.tag);
  }

  lemma {:induction false} NarrowerSucceeds(fs: seq<Field>, slots: seq<Slot>, gs: seq<Field>)
    requires WellFormed(fs) && WellFormed(gs) && Narrower(gs, fs) && Fits(fs, slots) && ShortMsg(READABLE, fs, slots)
    requires EncMsg(fs, slots).Some? && |EncMsg(fs, slots).value| < LIMIT
    ensures var d := Decode(gs, EncMsg(fs, slots).value); d.Some? && d.value.1 == [] && |d.value.0| == SlotCount(gs)
  {
    var sent := AllOf(fs, slots, 0);
    NarrowerDelivery(fs, slots, gs);
    AllWritable(fs, slots);
    BytesOfAll(fs, slots, 0);
    ReaderGets(gs, sent);
    forall k: nat | k < |gs| ensures exists j :: 0 <= j < |sent| && sent[j].f.tag == gs[k].tag {
      assert gs[k] in fs;
      var i :| 0 <= i < |fs| && fs[i] == gs[k];
      assert sent[i].f.tag == gs[k].tag;
    }
  }

  lemma {:induction false} NarrowerGetsField(fs: seq<Field>, slots: seq<Slot>, gs: seq<Field>, k: nat, i: nat)
    requires WellFormed(fs) && WellFormed(gs) && Narrower(gs, fs) && Fits(fs, slots) && ShortMsg(READABLE, fs, slots)
    requires EncMsg(fs, slots).Some? && |EncMsg(fs, slots).value| < LIMIT
    requires k < |gs| && i < |fs| && gs[k] == fs[i] && Decode(gs, EncMsg(fs, slots).value).Some?
    ensures var t := Decode(gs, EncMsg(fs, slots).value).value.0;
      SlotAt(gs, k) < |t| && SlotAt(fs, i) < |slots| && SameSlot(gs[k], slots[SlotAt(fs, i)], t[SlotAt(gs, k)])
  {
    var sent := AllOf(fs, slots, 0);
    NarrowerDelivery(fs, slots, gs);
    AllWritable(fs, slots);
    BytesOfAll(fs, slots, 0);
    SentIn(sent, i);
    ReaderGets(gs, sent);
  }

  /** A reader that lacks some fields of a message gets the others as they were written, at every depth. */
  lemma {:induction false} NarrowerReaderGets(fs: seq<Field>, slots: seq<Slot>, gs: seq<Field>)
    requires WellFormed(fs) && WellFormed(gs) && Narrower(gs, fs) && Fits(fs, slots) && ShortMsg(READABLE, fs, slots)
    requires EncMsg(fs, slots).Some? && |EncMsg(fs, slots).value| < LIMIT
    ensures var d := Decode(gs, EncMsg(fs, slots).value);
      && d.Some? && d.value.1 == [] && |d.value.0| == SlotCount(gs)
      && forall k, i :: 0 <= k < |gs| && 0 <= i < |fs| && gs[k] == fs[i] ==>
           && SlotAt(gs, k) < |d.value.0| && SlotAt(fs, i) < |slots|
           && SameSlot(gs[k], slots[SlotAt(fs, i)], d.value.0[SlotAt(gs, k)])
  {
    NarrowerSucceeds(fs, slots, gs);
    var t := Decode(gs, EncMsg(fs, slots).value).value.0;
    forall k, i | 0 <= k < |gs| && 0 <= i < |fs| && gs[k] == fs[i]
      ensures SlotAt(gs, k) < |t| && SlotAt(fs, i) < |slots| && SameSlot(gs[k], slots[SlotAt(fs, i)], t[SlotAt(gs, k)])
    {
      NarrowerGetsField(fs, slots, gs, k, i);
    }
  }
}
