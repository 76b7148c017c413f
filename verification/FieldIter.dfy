/** The walk over the entries of a message descriptor (nanopb), and the bitmap of required fields. */
module FieldIter {
  import opened Varint

  datatype Rule = Required | Optional | Repeated | Oneof
  datatype Alloc = Static | Callback | Pointer

  /** One entry of a descriptor. `joined` stands for the marker offset of a further member of a union. */
  datatype Info = Info(tag: nat, rule: Rule, alloc: Alloc, extension: bool, joined: bool,
                       dataOffset: nat, sizeOffset: int, dataSize: nat, arraySize: nat)

  const POINTER_SIZE: nat := 8

  /** Is entry k a further member of the union that entry k - 1 belongs to? */
  predicate Joins(fs: seq<Info>, k: nat) {
    0 < k < |fs| && fs[k - 1].rule.Oneof? && fs[k].rule.Oneof? && fs[k].joined
  }

  /** The room an entry takes in the struct. */
  function Width(f: Info): nat {
    if f.alloc.Static? && f.rule.Repeated? then f.dataSize * f.arraySize
    else if f.alloc.Pointer? then POINTER_SIZE
    else f.dataSize
  }

  /** Where the data of entry k lies in the struct. */
  function DataAt(fs: seq<Info>, k: nat): nat
    requires k < |fs|
  {
    if k == 0 then fs[0].dataOffset
    else if Joins(fs, k) then DataAt(fs, k - 1)
    else DataAt(fs, k - 1) + Width(fs[k - 1]) + fs[k].dataOffset
  }

  /** Where its presence flag, count or choice lies. */
  function SizeAt(fs: seq<Info>, k: nat): int
    requires k < |fs|
  {
    if Joins(fs, k) then SizeAt(fs, k - 1) else DataAt(fs, k) + fs[k].sizeOffset
  }

  /** The number of required entries before entry k. */
  function RequiredBefore(fs: seq<Info>, k: nat): nat
    requires k <= |fs|
  {
    if k == 0 then 0 else RequiredBefore(fs, k - 1) + if fs[k - 1].rule.Required? then 1 else 0
  }

  /** Members of one union share their place; any two other entries lie apart, in order. */
  lemma {:induction false} PlacesApart(fs: seq<Info>, j: nat, k: nat)
    requires j < k < |fs|
    ensures DataAt(fs, j) <= DataAt(fs, k)
    ensures (forall i :: j < i <= k ==> Joins(fs, i)) ==> DataAt(fs, j) == DataAt(fs, k) && SizeAt(fs, j) == SizeAt(fs, k)
    ensures !Joins(fs, j + 1) ==> DataAt(fs, j) + Width(fs[j]) <= DataAt(fs, k)
    decreases k
  {
    if j + 1 < k { PlacesApart(fs, j, k - 1); }
  }

  predicate Matches(fs: seq<Info>, k: nat, tag: nat) { k < |fs| && fs[k].tag == tag && !fs[k].extension }

  /** The entry `steps` after `start`, going round. */
  function Around(start: nat, steps: nat, n: nat): nat
    requires start < n && steps <= n
  {
    if start + steps < n then start + steps else start + steps - n
  }

  /** Entry k is the first with the tag, going round from `start`. */
  ghost predicate FirstRound(fs: seq<Info>, start: nat, k: nat, tag: nat)
    requires start < |fs|
  {
    && Matches(fs, k, tag)
    && exists d :: 0 <= d < |fs| && k == Around(start, d, |fs|) && NoneWithin(fs, start, d, tag)
  }

  predicate NoneWithin(fs: seq<Info>, start: nat, d: nat, tag: nat)
    requires start < |fs| && d <= |fs|
  {
    forall j :: 0 <= j < d ==> !Matches(fs, Around(start, j, |fs|), tag)
  }

  /** What position k determines: the required index, the place of the data and that of its flag or count. */
  predicate PlaceAt(fs: seq<Info>, place: nat -> (nat, nat, int), k: nat) {
    k < |fs| ==> place(k) == (RequiredBefore(fs, k), DataAt(fs, k), SizeAt(fs, k))
  }

  class Iter {
    const fs: seq<Info>
    ghost const place: nat -> (nat, nat, int)
    var pos: nat
    var required: nat
    var pData: nat
    var pSize: int

    /** All that the iterator holds follows from its position alone. */
    ghost predicate Valid()
      reads this
    {
      && (forall k :: PlaceAt(fs, place, k))
      && if fs == [] then pos == 0 && required == 0 else pos < |fs| && (required, pData, pSize) == place(pos)
    }

    constructor (fs: seq<Info>)
      ensures this.fs == fs && Valid() && pos == 0
    {
      this.fs := fs;
      this.place := (k: nat) => if k < |fs| then (RequiredBefore(fs, k), DataAt(fs, k), SizeAt(fs, k)) else (0, 0, 0);
      new;
      var _ := Begin();
    }

    /** `pb_field_iter_begin`; the end of the sequence is the terminator. */
    method Begin() returns (more: bool)
      requires forall k :: PlaceAt(fs, place, k)
      modifies this
      ensures Valid() && pos == 0 && more == (fs != [])
    {
      assert PlaceAt(fs, place, 0);
      pos, required := 0, 0;
      pData := if fs == [] then 0 else fs[0].dataOffset;
      pSize := pData + if fs == [] then 0 else fs[0].sizeOffset;
      more := fs != [];
    }

    /** `pb_field_iter_next`. */
    method Next() returns (more: bool)
      requires Valid()
      modifies this
      ensures Valid() && more == (old(pos) + 1 < |fs|)
      ensures pos == if old(pos) + 1 < |fs| then old(pos) + 1 else 0
    {
      if fs == [] {
        return false;
      }
      assert PlaceAt(fs, place, pos) && PlaceAt(fs, place, pos + 1);
      var prev := fs[pos];
      pos := pos + 1;
      if pos == |fs| {
        var _ := Begin();
        return false;
      }
      if prev.rule.Oneof? && fs[pos].rule.Oneof? && fs[pos].joined {
        return true;
      }
      var size := Width(prev);
      if prev.rule.Required? {
        required := required + 1;
      }
      pData := pData + size + fs[pos].dataOffset;
      pSize := pData + fs[pos].sizeOffset;
      more := true;
    }

    /** `pb_field_iter_find`: from wherever it starts, it finds the tag exactly when it is there, and the first entry
        with it going round; otherwise it comes back to where it was. In a descriptor without entries the terminator
        itself answers to tag 0. */
    method Find(tag: nat) returns (found: bool)
      requires Valid()
      modifies this
      ensures Valid()
      ensures fs != [] ==> (found <==> exists k :: Matches(fs, k, tag))
      ensures fs != [] && found ==> FirstRound(fs, old(pos), pos, tag)
      ensures fs == [] ==> found == (tag == 0)
      ensures !found ==> pos == old(pos)
    {
      if fs == [] {
        return tag == 0;
      }
      var start := pos;
      ghost var steps := 0;
      assert Around(start, 0, |fs|) == start;
      while true
        invariant Valid() && 0 <= steps < |fs| && pos == Around(start, steps, |fs|)
        invariant NoneWithin(fs, start, steps, tag)
        decreases |fs| - steps
      {
        if fs[pos].tag == tag && !fs[pos].extension {
          assert FirstRound(fs, start, pos, tag);
          return true;
        }
        var _ := Next();
        steps := steps + 1;
        if pos == start {
          SeenAll(fs, start, tag);
          return false;
        }
      }
    }

    /** The number of required entries, found by walking on to the end. */
    method CountRequired() returns (count: nat)
      requires Valid()
      modifies this
      ensures Valid() && count == RequiredBefore(fs, |fs|)
    {
      assert PlaceAt(fs, place, pos);
      count := required;
      var last := fs != [] && fs[pos].rule.Required?;
      var more := Next();
      while more
        invariant Valid() && (more ==> 0 < pos < |fs|)
        invariant more ==> count == RequiredBefore(fs, pos - 1) && last == fs[pos - 1].rule.Required?
        invariant !more && fs != [] ==> count == RequiredBefore(fs, |fs| - 1) && last == fs[|fs| - 1].rule.Required?
        invariant fs == [] ==> !more && count == 0 && !last
        decreases more, |fs| - pos
      {
        assert PlaceAt(fs, place, pos);
        count := required;
        last := fs[pos].rule.Required?;
        more := Next();
      }
      // A descriptor without entries has the terminator for its last entry, which is not counted.
      if last && fs != [] {
        count := count + 1;
      }
    }
  }

  lemma {:induction false} SeenAll(fs: seq<Info>, start: nat, tag: nat)
    requires start < |fs| && NoneWithin(fs, start, |fs|, tag)
    ensures forall k :: !Matches(fs, k, tag)
  {
    forall k: nat | k < |fs| ensures !Matches(fs, k, tag) {
      var j := if start <= k then k - start else k + |fs| - start;
      assert Around(start, j, |fs|) == k;
    }
  }

  // ---- The bitmap ----

  function Bit(w: nat, i: nat): bool { if i == 0 then w % 2 == 1 else Bit(w / 2, i - 1) }

  lemma {:induction false} ZeroBits(i: nat)
    ensures !Bit(0, i)
    decreases i
  {
    if i > 0 { ZeroBits(i - 1); }
  }

  lemma {:induction false} OrHalves(a: nat, b: nat)
    ensures Or(a, b) / 2 == Or(a / 2, b / 2) && Or(a, b) % 2 == (if a % 2 == 1 || b % 2 == 1 then 1 else 0)
  {
    if a == 0 {
      assert Or(0, b) == b && Or(0, b / 2) == b / 2;
    } else if b == 0 {
      OrZero(a);
      OrZero(a / 2);
    }
  }

  lemma {:induction false} OrZero(a: nat)
    ensures Or(a, 0) == a
  {
  }

  lemma {:induction false} OrBit(a: nat, b: nat, i: nat)
    ensures Bit(Or(a, b), i) == (Bit(a, i) || Bit(b, i))
    decreases i
  {
    OrHalves(a, b);
    if i > 0 { OrBit(a / 2, b / 2, i - 1); }
  }

  lemma {:induction false} ShlHalf(i: nat)
    requires i > 0
    ensures Shl(1, i) / 2 == Shl(1, i - 1) && Shl(1, i) % 2 == 0
  {
    var z := Shl(1, i - 1);
    assert Shl(1, i) == 2 * z;
  }

  lemma {:induction false} OneBit(i: nat, j: nat)
    ensures Bit(Shl(1, i), j) == (i == j)
    decreases j
  {
    if i == 0 {
      if j > 0 { ZeroBits(j - 1); }
    } else {
      ShlHalf(i);
      if j > 0 { OneBit(i - 1, j - 1); }
    }
  }

  /** The first r bits are set. */
  predicate Full(w: nat, r: nat) { forall i: nat :: i < r ==> Bit(w, i) }

  /** No bit but the first r is set. */
  ghost predicate Only(w: nat, r: nat) { forall i: nat :: Bit(w, i) ==> i < r }

  lemma {:induction false} Halves(w: nat, r: nat)
    requires r > 0
    ensures Full(w, r) <==> Bit(w, 0) && Full(w / 2, r - 1)
    ensures Only(w, r) ==> Only(w / 2, r - 1)
  {
    forall i: nat ensures Bit(w, i + 1) == Bit(w / 2, i) {}
    if Bit(w, 0) && Full(w / 2, r - 1) {
      forall i: nat | 0 < i < r ensures Bit(w, i) { assert Bit(w / 2, i - 1); }
    }
  }

  /** The first r bits set and no other: the number 2^r - 1, and no other number. */
  lemma {:induction false} AllOnes(w: nat, r: nat)
    requires Only(w, r)
    ensures w == Shl(1, r) - 1 <==> Full(w, r)
    decreases r
  {
    if r == 0 {
      NoBits(w);
    } else {
      Halves(w, r);
      AllOnes(w / 2, r - 1);
      assert Shl(1, r) == 2 * Shl(1, r - 1);
    }
  }

  lemma {:induction false} NoBits(w: nat)
    requires forall i: nat :: !Bit(w, i)
    ensures w == 0
    decreases w
  {
    assert !Bit(w, 0);
    forall i: nat ensures !Bit(w / 2, i) { assert !Bit(w, i + 1); }
    if w > 0 { NoBits(w / 2); }
  }

  const MAX_REQUIRED: nat := 64

  predicate SeenIn(words: seq<nat>, i: nat)
    requires |words| == 2
  {
    i < MAX_REQUIRED && Bit(words[i / 32], i % 32)
  }

  /** Two words of 32 bits, with nothing set beyond the first `count` bits. */
  ghost predicate Bitmap(words: seq<nat>, count: nat) {
    && |words| == 2 && Only(words[0], 32) && Only(words[1], 32)
    && forall i: nat :: SeenIn(words, i) ==> i < count
  }

  lemma {:induction false} WordBits(words: seq<nat>, j: nat, i: nat)
    requires |words| == 2 && j < 2 && i < 32
    ensures SeenIn(words, 32 * j + i) == Bit(words[j], i)
  {
    assert (32 * j + i) / 32 == j && (32 * j + i) % 32 == i;
  }

  lemma {:induction false} SetBit(w: nat, i: nat)
    requires i < 32 && Only(w, 32)
    ensures Only(Or(w, Shl(1, i)), 32)
    ensures forall j: nat :: Bit(Or(w, Shl(1, i)), j) == (Bit(w, j) || j == i)
  {
    forall j: nat ensures Bit(Or(w, Shl(1, i)), j) == (Bit(w, j) || j == i) {
      OrBit(w, Shl(1, i), j);
      OneBit(i, j);
    }
  }

  /** Marking a required field as seen; those past the 64th leave no trace. */
  method Mark(seen: array<nat>, index: nat, ghost count: nat)
    requires seen.Length == 2 && Bitmap(seen[..], count) && index < count
    modifies seen
    ensures Bitmap(seen[..], count)
    ensures forall i: nat :: SeenIn(seen[..], i) == (SeenIn(old(seen[..]), i) || (i == index && i < MAX_REQUIRED))
  {
    if index < MAX_REQUIRED {
      SetBit(seen[index / 32], index % 32);
      seen[index / 32] := Or(seen[index / 32], Shl(1, index % 32));
      forall i: nat | i < MAX_REQUIRED ensures SeenIn(seen[..], i) == (SeenIn(old(seen[..]), i) || i == index) {
        assert i == 32 * (i / 32) + i % 32 && index == 32 * (index / 32) + index % 32;
      }
    }
  }

  /** The final check of the decoder: it passes exactly when each of the first 64 required fields was seen. */
  method AllSeen(seen: seq<nat>, required: nat) returns (ok: bool)
    requires Bitmap(seen, required)
    ensures ok <==> forall i: nat :: i < required && i < MAX_REQUIRED ==> SeenIn(seen, i)
  {
    var count := if required > MAX_REQUIRED then MAX_REQUIRED else required;
    WordsExact(seen, count);
    for i := 0 to count / 32
      invariant forall j: nat :: j < i ==> seen[j] == Shl(1, 32) - 1
    {
      if seen[i] != Shl(1, 32) - 1 {
        return false;
      }
    }
    if count % 32 != 0 {
      if seen[count / 32] != Shl(1, count % 32) - 1 {
        return false;
      }
    }
    ok := true;
  }

  /** Word by word. */
  lemma {:induction false} WordsExact(seen: seq<nat>, count: nat)
    requires Bitmap(seen, count) && count <= MAX_REQUIRED
    ensures (forall i: nat :: i < count ==> SeenIn(seen, i)) <==>
      && (forall j: nat :: j < count / 32 ==> seen[j] == Shl(1, 32) - 1)
      && (count % 32 != 0 ==> seen[count / 32] == Shl(1, count % 32) - 1)
  {
    var q, r := count / 32, count % 32;
    assert count == 32 * q + r;
    forall j: nat | j < q ensures seen[j] == Shl(1, 32) - 1 <==> Full(seen[j], 32) { AllOnes(seen[j], 32); }
    if r != 0 {
      forall i: nat ensures Bit(seen[q], i) ==> i < r {
        if i < 32 { WordBits(seen, q, i); }
      }
      AllOnes(seen[q], r);
    }
    FullWords(seen, q, r);
  }

  lemma {:induction false} FullWords(seen: seq<nat>, q: nat, r: nat)
    requires |seen| == 2 && r < 32 && 32 * q + r <= MAX_REQUIRED
    ensures (forall i: nat :: i < 32 * q + r ==> SeenIn(seen, i)) <==>
      (forall j: nat :: j < q ==> Full(seen[j], 32)) && (r != 0 ==> Full(seen[q], r))
  {
    if forall i: nat :: i < 32 * q + r ==> SeenIn(seen, i) {
      forall j: nat, i: nat | j < q && i < 32 ensures Bit(seen[j], i) { WordBits(seen, j, i); }
      forall i: nat | i < r ensures Bit(seen[q], i) { WordBits(seen, q, i); }
    }
    if (forall j: nat :: j < q ==> Full(seen[j], 32)) && (r != 0 ==> Full(seen[q], r)) {
      forall i: nat | i < 32 * q + r ensures SeenIn(seen, i) {
        assert Full(seen[i / 32], if i / 32 < q then 32 else r);
      }
    }
  }
}
