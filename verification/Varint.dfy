/** Base 128 varints and zigzag numbers as nanopb writes and reads them. */
module Varint {
  type Byte = b: int | 0 <= b < 256
  type U32 = n: int | 0 <= n < 0x1_0000_0000
  type U64 = n: int | 0 <= n < 0x1_0000_0000_0000_0000
  type I64 = n: int | -0x8000_0000_0000_0000 <= n < 0x8000_0000_0000_0000

  // ---- Bits ----

  /** x << p, without a width. */
  function Shl(x: nat, p: nat): nat { if p == 0 then x else 2 * Shl(x, p - 1) }

  /** a | b */
  function Or(a: nat, b: nat): nat {
    if a == 0 then b else if b == 0 then a
    else 2 * Or(a / 2, b / 2) + (if a % 2 == 1 || b % 2 == 1 then 1 else 0)
  }

  lemma {:induction false} OrEven(a: nat, z: nat)
    ensures Or(a, 2 * z) == 2 * Or(a / 2, z) + a % 2
  {
    assert 2 * z / 2 == z && 2 * z % 2 == 0;
    if a == 1 { assert Or(0, z) == z; }
  }

  lemma {:induction false} OrDisjoint(a: nat, x: nat, p: nat)
    requires a < Shl(1, p)
    ensures Or(a, Shl(x, p)) == a + Shl(x, p)
    decreases p
  {
    if p > 0 {
      OrDisjoint(a / 2, x, p - 1);
      OrEven(a, Shl(x, p - 1));
    }
  }

  lemma {:induction false} ShlSeven(x: nat, p: nat)
    ensures Shl(x, p + 7) == 128 * Shl(x, p)
  {
    assert Shl(x, p + 7) == 2 * Shl(x, p + 6) && Shl(x, p + 5) == 2 * Shl(x, p + 4);
    assert Shl(x, p + 3) == 2 * Shl(x, p + 2) && Shl(x, p + 1) == 2 * Shl(x, p);
  }

  /** The digit x in the place k of a number in base 128. */
  function Place(x: nat, k: nat): nat
    requires k <= 9
  {
    if k <= 4 then
      if k == 0 then x else if k == 1 then 0x80 * x else if k == 2 then 0x4000 * x
      else if k == 3 then 0x20_0000 * x else 0x1000_0000 * x
    else
      if k == 5 then 0x8_0000_0000 * x else if k == 6 then 0x400_0000_0000 * x else if k == 7 then 0x2_0000_0000_0000 * x
      else if k == 8 then 0x100_0000_0000_0000 * x else 0x8000_0000_0000_0000 * x
  }

  lemma {:induction false} ShlIsPlace(x: nat, k: nat)
    requires k <= 9
    ensures Shl(x, 7 * k) == Place(x, k)
    decreases k
  {
    if k > 0 {
      ShlIsPlace(x, k - 1);
      ShlSeven(x, 7 * (k - 1));
    }
  }

  lemma {:induction false} PlaceSplit(x: nat, y: nat, k: nat)
    requires k < 9
    ensures Place(x + 128 * y, k) == Place(x, k) + Place(y, k + 1)
  {
  }

  /** result |= x << bitpos, in 32 bits. */
  function Put32(result: nat, x: nat, bitpos: nat): U32 {
    Or(result, Shl(x, bitpos) % 0x1_0000_0000) % 0x1_0000_0000
  }

  /** result |= x << bitpos, in 64 bits. */
  function Put64(result: nat, x: nat, bitpos: nat): U64 {
    Or(result, Shl(x, bitpos) % 0x1_0000_0000_0000_0000) % 0x1_0000_0000_0000_0000
  }

  lemma {:induction false} OrAdds(v: nat, x: nat, k: nat)
    requires k <= 9 && v < Place(1, k)
    ensures Or(v, Place(x, k)) == v + Place(x, k)
  {
    ShlIsPlace(1, k);
    ShlIsPlace(x, k);
    OrDisjoint(v, x, 7 * k);
  }

  /** What is left of the top digit in 32 bits. */
  function Kept32(x: nat, k: nat): nat { if k == 4 then x % 16 else x }
  function Kept64(x: nat, k: nat): nat { if k == 9 then x % 2 else x }

  lemma {:induction false} NoCarry(v: nat, x: nat, k: nat)
    requires k < 9 && x < 128 && v < Place(1, k)
    ensures v + Place(x, k) < Place(1, k + 1)
    ensures Place(1, k + 1) <= 0x8000_0000_0000_0000 && (k < 4 ==> Place(1, k + 1) <= 0x1_0000_0000)
  {
  }

  lemma {:induction false} TopDigit32(x: nat)
    ensures Place(x, 4) % 0x1_0000_0000 == Place(x % 16, 4) <= 0xf000_0000
  {
    assert Place(x, 4) == Place(x % 16, 4) + 0x1_0000_0000 * (x / 16);
  }

  lemma {:induction false} TopDigit64(x: nat)
    ensures Place(x, 9) % 0x1_0000_0000_0000_0000 == Place(x % 2, 9) <= 0x8000_0000_0000_0000
  {
    assert Place(x, 9) == Place(x % 2, 9) + 0x1_0000_0000_0000_0000 * (x / 2);
  }

  lemma {:induction false} Truncate32(v: nat, x: nat, k: nat)
    requires k <= 4 && x < 128 && v < Place(1, k)
    ensures Place(x, k) % 0x1_0000_0000 == Place(Kept32(x, k), k)
    ensures (v + Place(x, k)) % 0x1_0000_0000 == v + Place(Kept32(x, k), k) < 0x1_0000_0000
  {
    if k == 4 { TopDigit32(x); } else { NoCarry(v, x, k); }
  }

  lemma {:induction false} Truncate64(v: nat, x: nat, k: nat)
    requires k <= 9 && x < 128 && v < Place(1, k)
    ensures Place(x, k) % 0x1_0000_0000_0000_0000 == Place(Kept64(x, k), k)
    ensures (v + Place(x, k)) % 0x1_0000_0000_0000_0000 == v + Place(Kept64(x, k), k) < 0x1_0000_0000_0000_0000
  {
    if k == 9 { TopDigit64(x); } else { NoCarry(v, x, k); }
  }

  /** As long as all that is there lies below the new bits, putting them in is adding them. */
  lemma {:induction false} Put32Adds(v: nat, x: nat, k: nat)
    requires k <= 4 && x < 128 && v < Place(1, k)
    ensures Put32(v, x, 7 * k) == (v + Place(x, k)) % 0x1_0000_0000
  {
    ShlIsPlace(x, k);
    Truncate32(v, x, k);
    OrAdds(v, Kept32(x, k), k);
    PutKeeps(v, x, 7 * k, Place(Kept32(x, k), k));
  }

  lemma {:induction false} PutKeeps(v: nat, x: nat, bitpos: nat, kept: nat)
    requires Shl(x, bitpos) % 0x1_0000_0000 == kept && Or(v, kept) == v + kept < 0x1_0000_0000
    ensures Put32(v, x, bitpos) == v + kept
  {
  }

  lemma {:induction false} Put64Adds(v: nat, x: nat, k: nat)
    requires k <= 9 && x < 128 && v < Place(1, k)
    ensures Put64(v, x, 7 * k) == (v + Place(x, k)) % 0x1_0000_0000_0000_0000
  {
    ShlIsPlace(x, k);
    Truncate64(v, x, k);
    OrAdds(v, Kept64(x, k), k);
  }

  // ---- What a varint means ----

  /** The bytes up to and with the first one whose top bit is clear; 0 if there is none. */
  function Span(s: seq<Byte>): (n: nat)
    ensures n <= |s|
  {
    if s == [] then 0
    else if s[0] < 128 then 1
    else if Span(s[1..]) == 0 then 0 else 1 + Span(s[1..])
  }

  /** The number whose base 128 digits, lowest first, are the low seven bits of the bytes of the varint. */
  function Value(s: seq<Byte>): nat {
    if s == [] then 0 else if s[0] < 128 then s[0] else s[0] % 128 + 128 * Value(s[1..])
  }

  function Encode(v: nat): (s: seq<Byte>)
    ensures s != []
  {
    if v < 128 then [v] else [v % 128 + 128] + Encode(v / 128)
  }

  datatype Read = Got(value: nat, used: nat) | Bad

  /** A varint of at most ten bytes, kept to 64 bits. */
  function Decode64(s: seq<Byte>): (r: Read)
    ensures r.Got? ==> 0 < r.used <= |s| && r.value < 0x1_0000_0000_0000_0000
  {
    if 1 <= Span(s) <= 10 then Got(Value(s) % 0x1_0000_0000_0000_0000, Span(s)) else Bad
  }

  lemma {:induction false} Cons(b: Byte, s: seq<Byte>)
    ensures Span([b] + s) == if b < 128 then 1 else if Span(s) == 0 then 0 else 1 + Span(s)
    ensures Value([b] + s) == if b < 128 then b else b % 128 + 128 * Value(s)
  {
    assert ([b] + s)[1..] == s;
  }

  /** The encoding of a number stands for that number, whatever follows. */
  lemma {:induction false} EncodeMeans(v: nat, rest: seq<Byte>)
    ensures Span(Encode(v) + rest) == |Encode(v)| && Value(Encode(v) + rest) == v
    decreases v
  {
    if v >= 128 {
      EncodeMeans(v / 128, rest);
      EncodeTail(v, rest);
      Cons(v % 128 + 128, Encode(v / 128) + rest);
    }
  }

  lemma {:induction false} EncodeTail(v: nat, rest: seq<Byte>)
    requires v >= 128
    ensures Encode(v) + rest == [v % 128 + 128] + (Encode(v / 128) + rest)
  {
  }

  lemma {:induction false} EncodeLength(v: nat, k: nat)
    requires 0 < k <= 9 && v < Place(1, k)
    ensures |Encode(v)| <= k
    decreases k
  {
    if v >= 128 {
      EncodeLength(v / 128, k - 1);
    }
  }

  /** How long a varint can be: ten bytes for 64 bits, five for 32. */
  lemma {:induction false} EncodeLengths(v: nat)
    ensures v < 0x1_0000_0000_0000_0000 ==> |Encode(v)| <= 10
    ensures v < 0x1_0000_0000 ==> |Encode(v)| <= 5
  {
    if v < 0x1_0000_0000 {
      EncodeLength(v, 5);
    } else if v < 0x1_0000_0000_0000_0000 {
      EncodeLength(v / 128, 9);
    }
  }

  /** The 64-bit decoder undoes the encoder on every 64-bit number, whatever follows. */
  lemma {:induction false} Inverse64(v: U64, rest: seq<Byte>)
    ensures Decode64(Encode(v) + rest) == Got(v, |Encode(v)|)
  {
    EncodeMeans(v, rest);
    EncodeLengths(v);
  }

  // ---- The 32-bit decoder ----

  type Put = (nat, nat, nat) -> U32

  /** Past 32 bits only padding and sign extension may follow. */
  predicate Allowed(b: Byte, result: nat, bitpos: nat) {
    bitpos >= 32 ==> b % 128 == 0 || (result >= 0x8000_0000 && b == if bitpos < 63 then 0xff else 1)
  }

  /** The bytes after the first: the result so far, the position of the next seven bits, kept in eight bits as the code
      does, and the number of bytes read. */
  function Tail32(put: Put, s: seq<Byte>, result: U32, bitpos: nat, used: nat): (r: Read)
    ensures r.Got? ==> used < r.used <= used + |s| && r.value < 0x1_0000_0000
    decreases |s|
  {
    if s == [] || !Allowed(s[0], result, bitpos) then Bad
    else
      var next, pos := (if bitpos >= 32 then result else put(result, s[0] % 128, bitpos)), (bitpos + 7) % 256;
      if s[0] >= 128 then Tail32(put, s[1..], next, pos, used + 1)
      else if pos == 35 && s[0] >= 16 then Bad
      else Got(next, used + 1)
  }

  function DecodeWith(tail: Tail, s: seq<Byte>): Read {
    if s == [] then Bad
    else if s[0] < 128 then Got(s[0], 1)
    else tail(s[1..], s[0] % 128, 7, 1)
  }

  function Decode32(s: seq<Byte>): (r: Read)
    ensures r.Got? ==> 0 < r.used <= |s| && r.value < 0x1_0000_0000
  {
    DecodeWith(Reader(), s)
  }

  /** All that the lemmas below need of `Put32`. */
  predicate PutsAt(put: Put, v: nat, x: nat, k: nat) {
    k <= 4 && x < 128 && v < Place(1, k) ==> put(v, x, 7 * k) == (v + Place(x, k)) % 0x1_0000_0000
  }

  ghost predicate Puts(put: Put) { forall v, x, k :: PutsAt(put, v, x, k) }

  lemma {:induction false} Put32Puts()
    ensures Puts(Put32)
  {
    forall v: nat, x: nat, k: nat ensures PutsAt(Put32, v, x, k) {
      if k <= 4 && x < 128 && v < Place(1, k) { Put32Adds(v, x, k); }
    }
  }

  lemma {:induction false} TailCons(put: Put, b: Byte, s: seq<Byte>, result: U32, bitpos: nat, used: nat)
    requires b >= 128 && Allowed(b, result, bitpos)
    ensures Tail32(put, [b] + s, result, bitpos, used)
         == Tail32(put, s, if bitpos >= 32 then result else put(result, b % 128, bitpos), (bitpos + 7) % 256, used + 1)
  {
    assert ([b] + s)[1..] == s;
  }

  // ---- The two decoders agree ----

  /** The most bytes for which the bit position does not pass 255. */
  const UNWRAPPED: nat := 37

  /** Past 32 bits the result stays, as long as the bit position does not wrap. */
  lemma {:induction false} TailHigh(put: Put, s: seq<Byte>, result: U32, bitpos: nat, used: nat)
    requires 32 <= bitpos == 7 * used
    requires var r := Tail32(put, s, result, bitpos, used); r.Got? && r.used <= UNWRAPPED
    ensures Tail32(put, s, result, bitpos, used) == Got(result, used + Span(s)) && Span(s) > 0
    decreases |s|
  {
    if s[0] >= 128 {
      TailCons(put, s[0], s[1..], result, bitpos, used);
      assert s == [s[0]] + s[1..];
      TailPasses(put, s[1..], result, (bitpos + 7) % 256, used + 1);
      NoWrap(bitpos);
      TailHigh(put, s[1..], result, bitpos + 7, used + 1);
    }
  }

  lemma {:induction false} NoWrap(bitpos: nat)
    ensures bitpos < 249 ==> (bitpos + 7) % 256 == bitpos + 7
  {
  }

  /** What is accepted has bytes left to read. */
  lemma {:induction false} TailPasses(put: Put, s: seq<Byte>, result: U32, bitpos: nat, used: nat)
    requires Tail32(put, s, result, bitpos, used).Got?
    ensures Tail32(put, s, result, bitpos, used).used > used
  {
  }

  lemma {:induction false} NextDigit(v: nat, b: Byte, k: nat, y: nat)
    requires Low(v, k) && k < 4
    ensures Low(Next(v, b, k), k + 1) && Next(v, b, k) + Place(y, k + 1) == v + Place(b % 128 + 128 * y, k)
  {
    PlaceSplit(b % 128, y, k);
  }

  lemma {:induction false} FifthDigit(v: nat, b: Byte, y: nat)
    ensures Next(v, b, 4) == (v + Place(b % 128 + 128 * y, 4)) % 0x1_0000_0000
  {
    assert Place(b % 128 + 128 * y, 4) == Place(b % 128, 4) + 0x1_0000_0000 * (8 * y);
  }

  lemma {:induction false} TailMore(put: Put, b: Byte, s: seq<Byte>, result: U32, k: nat)
    requires Puts(put) && Low(result, k) && b >= 128
    ensures Tail32(put, [b] + s, result, 7 * k, k) == Tail32(put, s, Next(result, b, k), 7 * (k + 1), k + 1)
  {
    assert PutsAt(put, result, b % 128, k);
    TailCons(put, b, s, result, 7 * k, k);
  }

  lemma {:induction false} TailEnd(put: Put, b: Byte, s: seq<Byte>, result: U32, k: nat)
    requires Puts(put) && Low(result, k) && b < 128
    ensures Tail32(put, [b] + s, result, 7 * k, k)
         == if k == 4 && b >= 16 then Bad else Got(Next(result, b, k), k + 1)
  {
    assert PutsAt(put, result, b, k);
  }

  /** A reader of the bytes after the first; the lemmas below need only these facts of it. */
  type Tail = (seq<Byte>, U32, nat, nat) -> Read

  /** The result with one more digit. */
  function Next(result: nat, b: Byte, k: nat): U32
    requires k <= 4
  {
    (result + Place(b % 128, k)) % 0x1_0000_0000
  }

  predicate Low(result: nat, k: nat) { 1 <= k <= 4 && result < Place(1, k) && result < 0x1_0000_0000 }

  predicate MoreAt(tail: Tail, b: Byte, s: seq<Byte>, result: nat, k: nat) {
    Low(result, k) && b >= 128 ==> tail([b] + s, result, 7 * k, k) == tail(s, Next(result, b, k), 7 * (k + 1), k + 1)
  }

  predicate EndAt(tail: Tail, b: Byte, s: seq<Byte>, result: nat, k: nat) {
    Low(result, k) && b < 128 ==>
      tail([b] + s, result, 7 * k, k) == if k == 4 && b >= 16 then Bad else Got(Next(result, b, k), k + 1)
  }

  predicate HighAt(tail: Tail, s: seq<Byte>, result: U32, k: nat) {
    var r := tail(s, result, 7 * k, k);
    5 <= k && r.Got? && r.used <= UNWRAPPED ==> r == Got(result, k + Span(s)) && Span(s) > 0
  }

  predicate NoneAt(tail: Tail, result: U32, k: nat) { tail([], result, 7 * k, k) == Bad }

  ghost predicate Reads(tail: Tail) {
    && (forall b, s, result, k :: MoreAt(tail, b, s, result, k))
    && (forall b, s, result, k :: EndAt(tail, b, s, result, k))
    && (forall s, result, k :: HighAt(tail, s, result, k))
    && (forall result, k :: NoneAt(tail, result, k))
  }

  function Reader(): Tail { (s: seq<Byte>, result: U32, bitpos: nat, used: nat) => Tail32(Put32, s, result, bitpos, used) }

  lemma {:induction false} ReaderReads()
    ensures Reads(Reader())
  {
    var tail := Reader();
    Put32Puts();
    forall b: Byte, s: seq<Byte>, result: nat, k: nat ensures MoreAt(tail, b, s, result, k) {
      if Low(result, k) && b >= 128 { TailMore(Put32, b, s, result, k); }
    }
    forall b: Byte, s: seq<Byte>, result: nat, k: nat ensures EndAt(tail, b, s, result, k) {
      if Low(result, k) && b < 128 { TailEnd(Put32, b, s, result, k); }
    }
    forall s: seq<Byte>, result: U32, k: nat ensures HighAt(tail, s, result, k) {
      var r := tail(s, result, 7 * k, k);
      if 5 <= k && r.Got? && r.used <= UNWRAPPED { TailHigh(Put32, s, result, 7 * k, k); }
    }
  }

  lemma {:induction false} TailLow(tail: Tail, s: seq<Byte>, result: nat, k: nat)
    requires Reads(tail) && Low(result, k)
    requires var r := tail(s, result, 7 * k, k); r.Got? && r.used <= UNWRAPPED
    ensures Span(s) > 0 && tail(s, result, 7 * k, k) == Sum(result, Value(s), k, k + Span(s))
    decreases 5 - k, 1
  {
    assert NoneAt(tail, result, k);
    assert s == [s[0]] + s[1..];
    TailLowCons(tail, s[0], s[1..], result, k);
  }

  /** What has been read so far and a rest of a given value and length. */
  function Sum(result: nat, value: nat, k: nat, used: nat): Read
    requires k <= 4
  {
    Got((result + Place(value, k)) % 0x1_0000_0000, used)
  }

  lemma {:induction false} TailLowLast(tail: Tail, b: Byte, t: seq<Byte>, result: nat, k: nat)
    requires Reads(tail) && Low(result, k) && b < 128 && tail([b] + t, result, 7 * k, k).Got?
    ensures tail([b] + t, result, 7 * k, k) == Sum(result, b, k, k + 1)
  {
    assert EndAt(tail, b, t, result, k);
    assert b % 128 == b;
  }

  lemma {:induction false} TailLowFifth(tail: Tail, b: Byte, t: seq<Byte>, result: nat)
    requires Reads(tail) && Low(result, 4) && b >= 128
    requires var r := tail([b] + t, result, 28, 4); r.Got? && r.used <= UNWRAPPED
    ensures Span(t) > 0 && tail([b] + t, result, 28, 4) == Sum(result, b % 128 + 128 * Value(t), 4, 5 + Span(t))
  {
    assert MoreAt(tail, b, t, result, 4);
    FifthDigit(result, b, Value(t));
    assert HighAt(tail, t, Next(result, b, 4), 5);
  }

  lemma {:induction false} TailLowNext(tail: Tail, b: Byte, t: seq<Byte>, result: nat, k: nat)
    requires Reads(tail) && Low(result, k) && k < 4 && b >= 128
    requires tail(t, Next(result, b, k), 7 * (k + 1), k + 1) == Sum(Next(result, b, k), Value(t), k + 1, k + 1 + Span(t))
    ensures tail([b] + t, result, 7 * k, k) == Sum(result, b % 128 + 128 * Value(t), k, k + 1 + Span(t))
  {
    assert MoreAt(tail, b, t, result, k);
    NextDigit(result, b, k, Value(t));
    SameSum(Next(result, b, k), Value(t), result, b % 128 + 128 * Value(t), k, k + 1 + Span(t));
  }

  lemma {:induction false} SameSum(next: nat, y: nat, result: nat, z: nat, k: nat, used: nat)
    requires k < 4 && next + Place(y, k + 1) == result + Place(z, k)
    ensures Sum(next, y, k + 1, used) == Sum(result, z, k, used)
  {
  }

  lemma {:induction false} TailLowCons(tail: Tail, b: Byte, t: seq<Byte>, result: nat, k: nat)
    requires Reads(tail) && Low(result, k)
    requires var r := tail([b] + t, result, 7 * k, k); r.Got? && r.used <= UNWRAPPED
    ensures Span([b] + t) > 0
    ensures tail([b] + t, result, 7 * k, k) == Sum(result, Value([b] + t), k, k + Span([b] + t))
    decreases 5 - k, 0
  {
    Cons(b, t);
    if b < 128 {
      TailLowLast(tail, b, t, result, k);
    } else if k == 4 {
      TailLowFifth(tail, b, t, result);
    } else {
      assert MoreAt(tail, b, t, result, k);
      NextDigit(result, b, k, Value(t));
      TailLow(tail, t, Next(result, b, k), k + 1);
      TailLowNext(tail, b, t, result, k);
    }
  }

  lemma {:induction false} WholeValue(s: seq<Byte>)
    requires s != [] && s[0] >= 128
    ensures Value(s) == s[0] % 128 + Place(Value(s[1..]), 1)
  {
  }

  lemma {:induction false} ModMod(v: nat)
    ensures v % 0x1_0000_0000_0000_0000 % 0x1_0000_0000 == v % 0x1_0000_0000
  {
  }

  /** Up to 37 bytes, what the 32-bit decoder accepts it reads right: the bytes of the varint, and its value modulo
      2^32. */
  lemma {:induction false} RightUnwrapped(s: seq<Byte>)
    requires Decode32(s).Got? && Decode32(s).used <= UNWRAPPED
    ensures Decode32(s) == Got(Value(s) % 0x1_0000_0000, Span(s))
  {
    if s[0] >= 128 {
      ReaderReads();
      TailLow(Reader(), s[1..], s[0] % 128, 1);
      WholeValue(s);
    }
  }

  /** Whenever the 32-bit decoder accepts a varint of at most ten bytes, the 64-bit one reads the same bytes, and the
      32-bit result is the 64-bit one modulo 2^32. */
  lemma {:induction false} DecodersAgree(s: seq<Byte>)
    requires Decode32(s).Got? && Decode32(s).used <= 10
    ensures Decode64(s).Got? && Decode64(s).used == Decode32(s).used
    ensures Decode32(s).value == Decode64(s).value % 0x1_0000_0000
  {
    RightUnwrapped(s);
    ModMod(Value(s));
  }

  // ---- Longer varints ----

  /** A varint of n bytes, for n from 38 on, whose only bit goes in where the position has wrapped to 3. */
  function Wrapping(n: nat): (s: seq<Byte>)
    requires n > UNWRAPPED
    ensures |s| == n
  {
    Pad(UNWRAPPED) + if n == UNWRAPPED + 1 then [1] else [0x81] + (Pad(n - UNWRAPPED - 2) + [0])
  }

  /** The bit position is kept in eight bits, so the 38th byte lands on bit 3 again: for every length from 38 on there is
      a varint that is accepted with the value 8, where its value is 0 modulo 2^32. */
  lemma {:induction false} BitPositionWraps(n: nat)
    requires n > UNWRAPPED
    ensures Decode32(Wrapping(n)) == Got(8, n) && Value(Wrapping(n)) % 0x1_0000_0000 == 0
  {
    ReaderSkips();
    LandsOnThree();
    WrapsWith(Reader(), n);
    PadValue(UNWRAPPED, if n == UNWRAPPED + 1 then [1] else [0x81] + (Pad(n - UNWRAPPED - 2) + [0]));
  }

  /** Is every varint of n bytes that the decoder accepts read right? */
  ghost predicate RightAt(n: nat) {
    forall s :: Decode32(s).Got? && Decode32(s).used == n ==> Decode32(s).value == Value(s) % 0x1_0000_0000
  }

  /** The 32-bit decoder reads all it accepts of a length right exactly up to 37 bytes. */
  lemma {:induction false} RightExactlyUpTo37(n: nat)
    ensures RightAt(n) <==> n <= 37
  {
    if n <= 37 {
      forall s | Decode32(s).Got? && Decode32(s).used == n ensures Decode32(s).value == Value(s) % 0x1_0000_0000 {
        RightUnwrapped(s);
      }
    } else {
      BitPositionWraps(n);
      assert Decode32(Wrapping(n)).value != Value(Wrapping(n)) % 0x1_0000_0000;
    }
  }

  lemma {:induction false} ReaderSkips()
    ensures forall s, r, p, u :: SkipsAt(Reader(), s, r, p, u)
  {
    forall s: seq<Byte>, r: U32, p: nat, u: nat ensures SkipsAt(Reader(), s, r, p, u) {
      PutNothing(r, p);
      TailCons(Put32, 0x80, s, r, p, u);
    }
  }

  lemma {:induction false} PutNothing(r: U32, p: nat)
    ensures Put32(r, 0, p) == r
  {
    ZeroShl(p);
    assert Or(r, 0) == r;
  }

  /** Bytes at bit 3, and a last byte without bits. */
  ghost predicate Lands(tail: Tail) {
    && tail([1], 0, 3, UNWRAPPED) == Got(8, 38)
    && (forall s :: LandsAt(tail, s))
    && (forall p, u :: StopsAt(tail, p, u))
  }

  predicate LandsAt(tail: Tail, s: seq<Byte>) { tail([0x81] + s, 0, 3, UNWRAPPED) == tail(s, 8, 10, 38) }

  predicate StopsAt(tail: Tail, p: nat, u: nat) { tail([0], 8, p, u) == Got(8, u + 1) }

  lemma {:induction false} PutAtThree()
    ensures Put32(0, 1, 3) == 8
  {
    assert Shl(1, 3) == 8;
  }

  lemma {:induction false} LandsOnThree()
    ensures Lands(Reader())
  {
    PutAtThree();
    LandsWith(Put32);
    LandsOn();
    StopsOn();
  }

  lemma {:induction false} LandsOn()
    ensures forall s :: LandsAt(Reader(), s)
  {
    PutAtThree();
    forall s ensures LandsAt(Reader(), s) { MoreWith(Put32, s); }
  }

  lemma {:induction false} MoreWith(put: Put, s: seq<Byte>)
    requires put(0, 1, 3) == 8
    ensures Tail32(put, [0x81] + s, 0, 3, UNWRAPPED) == Tail32(put, s, 8, 10, 38)
  {
    TailCons(put, 0x81, s, 0, 3, UNWRAPPED);
  }

  lemma {:induction false} StopsOn()
    ensures forall p, u :: StopsAt(Reader(), p, u)
  {
    forall p: nat, u: nat ensures StopsAt(Reader(), p, u) {
      PutNothing(8, p);
      StopsWith(Put32, p, u);
    }
  }

  lemma {:induction false} LandsWith(put: Put)
    requires put(0, 1, 3) == 8
    ensures Tail32(put, [1], 0, 3, UNWRAPPED) == Got(8, 38)
  {
  }

  lemma {:induction false} StopsWith(put: Put, p: nat, u: nat)
    requires put(8, 0, p) == 8
    ensures Tail32(put, [0], 8, p, u) == Got(8, u + 1)
  {
  }

  lemma {:induction false} WrapsWith(tail: Tail, n: nat)
    requires n > UNWRAPPED && Lands(tail) && forall s, r, p, u :: SkipsAt(tail, s, r, p, u)
    ensures DecodeWith(tail, Wrapping(n)) == Got(8, n)
  {
    var m, k := UNWRAPPED, n - UNWRAPPED - 2;
    var rest := if n == m + 1 then [1] else [0x81] + (Pad(k) + [0]);
    PadHead(tail, m, rest);
    Padding(tail, m - 1, 0, 7, 1, rest);
    if n > m + 1 { WrapsOn(tail, k); }
  }

  lemma {:induction false} WrapsOn(tail: Tail, k: nat)
    requires Lands(tail) && forall s, r, p, u :: SkipsAt(tail, s, r, p, u)
    ensures tail([0x81] + (Pad(k) + [0]), 0, 3, UNWRAPPED) == Got(8, k + 39)
  {
    assert LandsAt(tail, Pad(k) + [0]);
    Padding(tail, k, 8, 10, 38, [0]);
    assert StopsAt(tail, (10 + 7 * k) % 256, 38 + k);
  }

  lemma {:induction false} PadHead(tail: Tail, n: nat, rest: seq<Byte>)
    requires n > 0
    ensures DecodeWith(tail, Pad(n) + rest) == tail(Pad(n - 1) + rest, 0, 7, 1)
  {
    assert (Pad(n) + rest)[1..] == Pad(n - 1) + rest;
  }

  lemma {:induction false} PadShifts(k: nat, t: seq<Byte>)
    requires k > 0
    ensures Value(Pad(k) + t) == 128 * Value(Pad(k - 1) + t)
  {
    assert Pad(k) + t == [0x80] + (Pad(k - 1) + t);
    Cons(0x80, Pad(k - 1) + t);
  }

  /** Five bytes of padding push a number past 32 bits. */
  lemma {:induction false} PadValue(k: nat, t: seq<Byte>)
    requires k >= 5
    ensures Value(Pad(k) + t) % 0x1_0000_0000 == 0
  {
    var val := (i: nat) => Value(Pad(i) + t);
    forall i: nat ensures ShiftsAt(val, i) { PadShifts(i + 1, t); }
    PushedPast(val, k);
  }

  predicate ShiftsAt(val: nat -> nat, i: nat) { val(i + 1) == 128 * val(i) }

  lemma {:induction false} PushedPast(val: nat -> nat, k: nat)
    requires k >= 5 && forall i :: ShiftsAt(val, i)
    ensures val(k) % 0x1_0000_0000 == 0
    decreases k
  {
    assert ShiftsAt(val, k - 1);
    if k > 5 {
      PushedPast(val, k - 1);
      StillPast(val(k - 1));
    } else {
      assert ShiftsAt(val, k - 2) && ShiftsAt(val, k - 3) && ShiftsAt(val, k - 4) && ShiftsAt(val, k - 5);
      assert val(k) == 0x1_0000_0000 * (8 * val(k - 5));
    }
  }

  lemma {:induction false} StillPast(v: nat)
    requires v % 0x1_0000_0000 == 0
    ensures 128 * v % 0x1_0000_0000 == 0
  {
    assert 128 * v == 0x1_0000_0000 * (128 * (v / 0x1_0000_0000));
  }

  function Pad(k: nat): (s: seq<Byte>)
    ensures |s| == k
  {
    if k == 0 then [] else [0x80] + Pad(k - 1)
  }

  lemma {:induction false} ZeroShl(p: nat)
    ensures Shl(0, p) == 0
    decreases p
  {
    if p > 0 {
      ZeroShl(p - 1);
    }
  }

  predicate SkipsAt(tail: Tail, s: seq<Byte>, result: U32, bitpos: nat, used: nat) {
    tail([0x80] + s, result, bitpos, used) == tail(s, result, (bitpos + 7) % 256, used + 1)
  }

  lemma {:induction false} Padding(tail: Tail, k: nat, result: U32, bitpos: nat, used: nat, rest: seq<Byte>)
    requires forall s, r, p, u :: SkipsAt(tail, s, r, p, u)
    ensures tail(Pad(k) + rest, result, bitpos % 256, used)
         == tail(rest, result, (bitpos + 7 * k) % 256, used + k)
    decreases k
  {
    if k == 0 {
      assert Pad(k) + rest == rest;
    } else {
      assert Pad(k) + rest == [0x80] + (Pad(k - 1) + rest);
      assert SkipsAt(tail, Pad(k - 1) + rest, result, bitpos % 256, used);
      assert (bitpos % 256 + 7) % 256 == (bitpos + 7) % 256;
      Padding(tail, k - 1, result, bitpos + 7, used + 1, rest);
    }
  }

  // ---- What the 32-bit decoder accepts ----

  lemma {:induction false} DigitFits(v: nat, result: nat, k: nat)
    requires 1 <= k <= 4 && result < Place(1, k) && Place(v, k) < 0x1_0000_0000
    ensures v < 128 ==> result + Place(v, k) < 0x1_0000_0000 && (k == 4 ==> v < 16)
    ensures v >= 128 ==> k < 4 && result + Place(v % 128, k) < Place(1, k + 1) <= 0x1_0000_0000
    ensures v >= 128 ==> Place(v, k) == Place(v % 128, k) + Place(v / 128, k + 1)
  {
  }

  /** One digit of an encoded number. */
  lemma {:induction false} TailDigit(tail: Tail, v: nat, result: nat, k: nat, rest: seq<Byte>)
    requires Reads(tail) && Low(result, k) && v >= 128
    ensures tail(Encode(v) + rest, result, 7 * k, k)
         == tail(Encode(v / 128) + rest, Next(result, v % 128 + 128, k), 7 * (k + 1), k + 1)
  {
    EncodeTail(v, rest);
    assert MoreAt(tail, v % 128 + 128, Encode(v / 128) + rest, result, k);
  }

  /** Its last digit. */
  lemma {:induction false} TailLastDigit(tail: Tail, v: nat, result: nat, k: nat, rest: seq<Byte>)
    requires Reads(tail) && Low(result, k) && v < 128 && (k == 4 ==> v < 16) && result + Place(v, k) < 0x1_0000_0000
    ensures tail([v] + rest, result, 7 * k, k) == Got(result + Place(v, k), k + 1)
  {
    NextExact(v, result, k);
    assert EndAt(tail, v, rest, result, k);
  }

  lemma {:induction false} NextExact(v: nat, result: nat, k: nat)
    requires Low(result, k) && v < 128 && result + Place(v, k) < 0x1_0000_0000
    ensures Next(result, v, k) == result + Place(v, k)
  {
    assert v % 128 == v;
  }

  lemma {:induction false} NextFits(v: nat, result: nat, k: nat)
    requires Low(result, k) && k < 4 && result + Place(v % 128, k) < Place(1, k + 1) <= 0x1_0000_0000
    ensures Next(result, v % 128 + 128, k) == result + Place(v % 128, k) && Low(result + Place(v % 128, k), k + 1)
  {
    assert (v % 128 + 128) % 128 == v % 128;
  }

  lemma {:induction false} TailShort(tail: Tail, v: nat, result: nat, k: nat, rest: seq<Byte>)
    requires Reads(tail) && Low(result, k) && Place(v, k) < 0x1_0000_0000
    ensures tail(Encode(v) + rest, result, 7 * k, k) == Got(result + Place(v, k), k + |Encode(v)|)
    decreases v
  {
    DigitFits(v, result, k);
    if v < 128 {
      TailLastDigit(tail, v, result, k, rest);
    } else {
      TailDigit(tail, v, result, k, rest);
      NextFits(v, result, k);
      TailShort(tail, v / 128, result + Place(v % 128, k), k + 1, rest);
    }
  }

  /** The 32-bit decoder undoes the encoder on every 32-bit number, whatever follows. */
  lemma {:induction false} Inverse32(v: U32, rest: seq<Byte>)
    ensures Decode32(Encode(v) + rest) == Got(v, |Encode(v)|)
  {
    ReaderReads();
    InverseWith(Reader(), v, rest);
  }

  lemma {:induction false} HeadDigit(tail: Tail, v: nat, rest: seq<Byte>)
    requires v >= 128
    ensures DecodeWith(tail, Encode(v) + rest) == tail(Encode(v / 128) + rest, v % 128, 7, 1)
  {
    EncodeTail(v, rest);
    assert (Encode(v) + rest)[1..] == Encode(v / 128) + rest;
  }

  lemma {:induction false} InverseWith(tail: Tail, v: U32, rest: seq<Byte>)
    requires Reads(tail)
    ensures DecodeWith(tail, Encode(v) + rest) == Got(v, |Encode(v)|)
  {
    if v >= 128 {
      HeadDigit(tail, v, rest);
      TailShort(tail, v / 128, v % 128, 1, rest);
    }
  }

  predicate SignAt(tail: Tail, b: Byte, s: seq<Byte>, result: U32, k: nat) {
    5 <= k <= 9 && Allowed(b, result, 7 * k) ==>
      tail([b] + s, result, 7 * k, k) ==
      if b >= 128 then tail(s, result, 7 * (k + 1), k + 1) else Got(result, k + 1)
  }

  predicate DeniesAt(tail: Tail, b: Byte, s: seq<Byte>, result: U32, k: nat) {
    5 <= k <= 9 && !Allowed(b, result, 7 * k) ==> tail([b] + s, result, 7 * k, k) == Bad
  }

  ghost predicate Signs(tail: Tail) {
    && (forall b, s, result, k :: SignAt(tail, b, s, result, k))
    && (forall b, s, result, k :: DeniesAt(tail, b, s, result, k))
  }

  lemma {:induction false} TailSigns(put: Put, b: Byte, s: seq<Byte>, result: U32, k: nat)
    requires 5 <= k <= 9
    ensures Tail32(put, [b] + s, result, 7 * k, k) ==
      if !Allowed(b, result, 7 * k) then Bad
      else if b >= 128 then Tail32(put, s, result, 7 * (k + 1), k + 1) else Got(result, k + 1)
  {
    TailUnfolds(put, b, s, result, 7 * k, k);
  }

  lemma {:induction false} ReaderSigns()
    ensures Signs(Reader())
  {
    forall b: Byte, s: seq<Byte>, result: U32, k: nat
      ensures SignAt(Reader(), b, s, result, k) && DeniesAt(Reader(), b, s, result, k)
    {
      if 5 <= k <= 9 { TailSigns(Put32, b, s, result, k); }
    }
  }

  /** The sign bits of a negative number, from bit 35 on. */
  lemma {:induction false} TailSign(tail: Tail, result: U32, rest: seq<Byte>)
    requires result >= 0x8000_0000 && Signs(tail)
    ensures tail([0xff, 0xff, 0xff, 0xff, 1] + rest, result, 35, 5) == Got(result, 10)
  {
    var s1 := [1] + rest;
    var s2 := [0xff] + s1;
    var s3 := [0xff] + s2;
    var s4 := [0xff] + s3;
    assert [0xff, 0xff, 0xff, 0xff, 1] + rest == [0xff] + s4;
    assert SignAt(tail, 0xff, s4, result, 5);
    assert SignAt(tail, 0xff, s3, result, 6);
    assert SignAt(tail, 0xff, s2, result, 7);
    assert SignAt(tail, 0xff, s1, result, 8);
    assert SignAt(tail, 1, rest, result, 9);
  }

  /** v without its lowest j digits. */
  function Drop(v: nat, j: nat): nat { if j == 0 then v else Drop(v / 128, j - 1) }

  lemma {:induction false} DropZero(j: nat)
    ensures Drop(0, j) == 0
    decreases j
  {
    if j > 0 { DropZero(j - 1); }
  }

  lemma {:induction false} DropSmall(v: nat, j: nat)
    requires j > 0
    ensures v < 128 ==> Drop(v, j) == 0
  {
    DropZero(j - 1);
  }

  /** The first five bytes of a longer number give its low 32 bits. */
  lemma {:induction false} TailFive(tail: Tail, v: nat, result: nat, k: nat, rest: seq<Byte>)
    requires Reads(tail) && Low(result, k) && Drop(v, 5 - k) > 0
    ensures tail(Encode(v) + rest, result, 7 * k, k)
         == tail(Encode(Drop(v, 5 - k)) + rest, (result + Place(v, k)) % 0x1_0000_0000, 35, 5)
    decreases 5 - k
  {
    DropSmall(v, 5 - k);
    var b := v % 128 + 128;
    TailDigit(tail, v, result, k, rest);
    assert b % 128 + 128 * (v / 128) == v;
    if k == 4 {
      FifthDigit(result, b, v / 128);
      assert Drop(v, 1) == Drop(v / 128, 0);
    } else {
      NextDigit(result, b, k, v / 128);
      TailFive(tail, v / 128, Next(result, b, k), k + 1, rest);
    }
  }

  lemma {:induction false} DropFour(w: nat)
    ensures Drop(w, 4) == w / 128 / 128 / 128 / 128
  {
    var x := w / 128;
    var y := x / 128;
    var z := y / 128;
    assert Drop(w, 4) == Drop(x, 3);
    assert Drop(x, 3) == Drop(y, 2);
    assert Drop(y, 2) == Drop(z, 1);
    assert Drop(z, 1) == Drop(z / 128, 0);
  }

  lemma {:induction false} NegativeDigits(v: U64)
    requires v >= 0xffff_ffff_8000_0000
    ensures Drop(v / 128, 4) == 0x1fff_ffff
  {
    var w := v / 128;
    DropFour(w);
    assert 0x1ff_ffff_ff00_0000 <= w <= 0x1ff_ffff_ffff_ffff;
    var x := w / 128;
    assert 0x3_ffff_fffe_0000 <= x <= 0x3_ffff_ffff_ffff;
    var y := x / 128;
    assert 0x7ff_ffff_fc00 <= y <= 0x7ff_ffff_ffff;
    var z := y / 128;
    assert 0xf_ffff_fff8 <= z <= 0xf_ffff_ffff;
  }

  lemma {:induction false} NegativeLow(v: U64)
    requires v >= 0xffff_ffff_8000_0000
    ensures v % 0x1_0000_0000 >= 0x8000_0000
    ensures (v % 128 + Place(v / 128, 1)) % 0x1_0000_0000 == v % 0x1_0000_0000
  {
    assert v % 128 + Place(v / 128, 1) == v;
  }

  lemma {:induction false} SignDigits()
    ensures Encode(0x1fff_ffff) == [0xff, 0xff, 0xff, 0xff, 1]
  {
    assert Encode(0x3fff) == [0xff] + Encode(0x7f);
  }

  /** The 32-bit decoder accepts every negative 32-bit number sign-extended to 64 bits, whatever follows. */
  lemma {:induction false} AcceptsNegative(v: U64, rest: seq<Byte>)
    requires v >= 0xffff_ffff_8000_0000
    ensures Decode32(Encode(v) + rest) == Got(v % 0x1_0000_0000, 10)
  {
    ReaderReads();
    ReaderSigns();
    NegativeWith(Reader(), v, rest);
  }

  lemma {:induction false} NegativeWith(tail: Tail, v: U64, rest: seq<Byte>)
    requires v >= 0xffff_ffff_8000_0000 && Reads(tail) && Signs(tail)
    ensures DecodeWith(tail, Encode(v) + rest) == Got(v % 0x1_0000_0000, 10)
  {
    HeadDigit(tail, v, rest);
    NegativeDigits(v);
    NegativeLow(v);
    TailFive(tail, v / 128, v % 128, 1, rest);
    SignDigits();
    TailSign(tail, v % 0x1_0000_0000, rest);
  }

  // ---- What the 32-bit decoder rejects ----

  /** Bits past the 35th that are not sign bits. */
  lemma {:induction false} TailHighBad(tail: Tail, d: nat, result: U32, k: nat, rest: seq<Byte>)
    requires Signs(tail) && 5 <= k <= 8 && 0 < d < Place(1, 9 - k)
    ensures tail(Encode(d) + rest, result, 7 * k, k) == Bad
    decreases 9 - k
  {
    if d < 128 {
      assert DeniesAt(tail, d, rest, result, k);
    } else {
      var b := d % 128 + 128;
      EncodeTail(d, rest);
      assert SignAt(tail, b, Encode(d / 128) + rest, result, k);
      assert DeniesAt(tail, b, Encode(d / 128) + rest, result, k);
      TailHighBad(tail, d / 128, result, k + 1, rest);
    }
  }

  /** Five bytes with more than 32 bits in them. */
  lemma {:induction false} TailFiveBad(tail: Tail, v: nat, result: nat, k: nat, rest: seq<Byte>)
    requires Reads(tail) && Low(result, k) && Place(v, k) >= 0x1_0000_0000 && Drop(v, 5 - k) == 0
    ensures tail(Encode(v) + rest, result, 7 * k, k) == Bad
    decreases 5 - k
  {
    if k == 4 {
      assert Drop(v, 1) == Drop(v / 128, 0);
      assert EndAt(tail, v, rest, result, k);
    } else {
      var b := v % 128 + 128;
      RestIsLong(v, k);
      TailDigit(tail, v, result, k, rest);
      NextDigit(result, b, k, v / 128);
      TailFiveBad(tail, v / 128, Next(result, b, k), k + 1, rest);
    }
  }

  lemma {:induction false} RestIsLong(v: nat, k: nat)
    requires 1 <= k < 4 && Place(v, k) >= 0x1_0000_0000
    ensures Place(v / 128, k + 1) >= 0x1_0000_0000 && v >= 128
  {
    assert Place(v / 128, k + 1) == Place(128 * (v / 128), k);
  }

  lemma {:induction false} DropBound(w: nat)
    requires w < 0x100_0000_0000_0000
    ensures Drop(w, 4) < 0x1000_0000
  {
    DropFour(w);
  }

  /** The 32-bit decoder rejects every number from 2^32 to 2^63, whatever follows. */
  lemma {:induction false} RejectsLong(v: U64, rest: seq<Byte>)
    requires 0x1_0000_0000 <= v < 0x8000_0000_0000_0000
    ensures Decode32(Encode(v) + rest) == Bad
  {
    ReaderReads();
    ReaderSigns();
    RejectsWith(Reader(), v, rest);
  }

  lemma {:induction false} RejectsWith(tail: Tail, v: U64, rest: seq<Byte>)
    requires 0x1_0000_0000 <= v < 0x8000_0000_0000_0000 && Reads(tail) && Signs(tail)
    ensures DecodeWith(tail, Encode(v) + rest) == Bad
  {
    var w := v / 128;
    HeadDigit(tail, v, rest);
    DropBound(w);
    if Drop(w, 4) == 0 {
      TailFiveBad(tail, w, v % 128, 1, rest);
    } else {
      TailFive(tail, w, v % 128, 1, rest);
      TailHighBad(tail, Drop(w, 4), (v % 128 + Place(w, 1)) % 0x1_0000_0000, 5, rest);
    }
  }

  // ---- Zigzag ----

  /** A 64-bit pattern as a signed number. */
  function Signed64(u: U64): I64 { if u < 0x8000_0000_0000_0000 then u else u - 0x1_0000_0000_0000_0000 }

  /** A signed number as a 64-bit pattern. */
  function Unsigned64(n: int): U64 { n % 0x1_0000_0000_0000_0000 }

  function ZigZag(n: I64): U64 {
    var doubled := 2 * Unsigned64(n) % 0x1_0000_0000_0000_0000;
    if n < 0 then 0xffff_ffff_ffff_ffff - doubled else doubled
  }

  function UnZigZag(u: U64): I64 {
    if u % 2 == 1 then Signed64(0xffff_ffff_ffff_ffff - u / 2) else Signed64(u / 2)
  }

  /** Numbers of small size get small codes. */
  lemma {:induction false} ZigZagMeans(n: I64)
    ensures ZigZag(n) == if n < 0 then -2 * n - 1 else 2 * n
  {
  }

  /** Zigzag is a bijection between the signed and the unsigned 64-bit numbers. */
  lemma {:induction false} ZigZagInverse(n: I64, u: U64)
    ensures UnZigZag(ZigZag(n)) == n && ZigZag(UnZigZag(u)) == u
  {
    ZigZagMeans(n);
    ZigZagMeans(UnZigZag(u));
  }

  // ---- The code ----

  /** All that the loop of the encoder needs of `Encode`. */
  predicate DigitAt(encode: nat -> seq<Byte>, v: nat) {
    && (v < 128 ==> encode(v) == [v])
    && (v >= 128 ==> encode(v) == [v % 128 + 128] + encode(v / 128) && |encode(v / 128)| > 0)
  }

  /** `pb_encode_varint`, up to the write. */
  method EncodeVarint(value: U64) returns (s: seq<Byte>)
    ensures s == Encode(value)
  {
    EncodeLengths(value);
    s := EncodeDigits(value, Encode);
  }

  /** The digits, lowest first: the buffer of ten bytes is never overrun. */
  method EncodeDigits(value: U64, ghost encode: nat -> seq<Byte>) returns (s: seq<Byte>)
    requires |encode(value)| <= 10 && forall v :: DigitAt(encode, v)
    ensures s == encode(value)
  {
    assert DigitAt(encode, value);
    if value <= 0x7F {
      return [value];
    }
    var buffer := new Byte[10](_ => 0);
    var i, v: nat := 0, value;
    assert buffer[..0] + encode(v) == encode(v);
    while v > 0
      invariant 0 <= i <= 10
      invariant v > 0 ==> encode(value) == buffer[..i] + encode(v)
      invariant v == 0 ==> i > 0 && buffer[i - 1] >= 128 && encode(value) == buffer[..i - 1] + [buffer[i - 1] - 128]
    {
      assert DigitAt(encode, v);
      ghost var head, tail := buffer[..i], encode(v / 128);
      assert v >= 128 ==> head + ([v % 128 + 128] + tail) == head + [v % 128 + 128] + tail;
      buffer[i] := v % 128 + 128;
      v := v / 128;
      i := i + 1;
      assert buffer[..i - 1] == head && buffer[..i] == head + [buffer[i - 1]];
    }
    buffer[i - 1] := buffer[i - 1] - 128;
    assert buffer[..i] == buffer[..i - 1] + [buffer[i - 1]];
    s := buffer[..i];
  }

  predicate ConsAt(span: seq<Byte> -> nat, val: seq<Byte> -> nat, b: Byte, s: seq<Byte>) {
    && span([b] + s) == (if b < 128 then 1 else if span(s) == 0 then 0 else 1 + span(s))
    && val([b] + s) == (if b < 128 then b else b % 128 + 128 * val(s))
  }

  /** result |= (b & 0x7F) << bitpos, for the digit in the place k. */
  method AddDigit(result: U64, b: Byte, bitpos: nat, ghost k: nat) returns (next: U64)
    requires k <= 9 && bitpos == 7 * k && result < Place(1, k)
    ensures next == (result + Place(b % 128, k)) % 0x1_0000_0000_0000_0000
  {
    Put64Adds(result, b % 128, k);
    next := Put64(result, b % 128, bitpos);
  }

  /** `pb_decode_varint`. */
  method DecodeVarint(s: seq<Byte>) returns (r: Read)
    ensures r == Decode64(s)
  {
    forall b: Byte, t: seq<Byte> ensures ConsAt(Span, Value, b, t) { Cons(b, t); }
    r := DecodeDigits(s, Span, Value);
  }

  /** After i bytes, with `rest` the value of the digits to come. */
  predicate Midway(whole: nat, rest: nat, i: nat, result: nat) {
    i < 10 ==> result < Place(1, i) && whole == result + Place(rest, i)
  }

  lemma {:induction false} MidwayEnd(whole: nat, b: Byte, i: nat, result: nat)
    requires i <= 9 && b < 128 && Midway(whole, b, i, result)
    ensures (result + Place(b % 128, i)) % 0x1_0000_0000_0000_0000 == whole % 0x1_0000_0000_0000_0000
  {
    assert b % 128 == b;
  }

  lemma {:induction false} MidwayMore(whole: nat, rest: nat, b: Byte, i: nat, result: nat)
    requires i < 9 && Midway(whole, b % 128 + 128 * rest, i, result)
    ensures Midway(whole, rest, i + 1, (result + Place(b % 128, i)) % 0x1_0000_0000_0000_0000)
  {
    PlaceSplit(b % 128, rest, i);
    NoCarry(result, b % 128, i);
    Below(result + Place(b % 128, i));
  }

  lemma Below(n: nat)
    ensures n < 0x8000_0000_0000_0000 ==> n % 0x1_0000_0000_0000_0000 == n
  {
  }

  method DecodeDigits(s: seq<Byte>, ghost span: seq<Byte> -> nat, ghost val: seq<Byte> -> nat) returns (r: Read)
    requires span([]) == 0 && forall b, t :: ConsAt(span, val, b, t)
    ensures r == if 1 <= span(s) <= 10 then Got(val(s) % 0x1_0000_0000_0000_0000, span(s)) else Bad
  {
    var i, bitpos, result: U64 := 0, 0, 0;
    ghost var t := s;
    while true
      invariant 0 <= i <= |s| && i <= 10 && bitpos == 7 * i && t == s[i..]
      invariant Midway(val(s), val(t), i, result)
      invariant span(s) == if span(t) == 0 then 0 else i + span(t)
      decreases |s| - i
    {
      if bitpos >= 64 {
        return Bad;
      }
      if i == |s| {
        return Bad;
      }
      var b := s[i];
      assert t == [b] + s[i + 1..];
      t := s[i + 1..];
      assert ConsAt(span, val, b, t);
      ghost var before := result;
      result := AddDigit(result, b, bitpos, i);
      if b < 128 {
        MidwayEnd(val(s), b, i, before);
      } else if i < 9 {
        MidwayMore(val(s), val(t), b, i, before);
      }
      bitpos := bitpos + 7;
      i := i + 1;
      if b < 128 {
        return Got(result, i);
      }
    }
  }

  /** One turn of the loop of the 32-bit decoder. */
  predicate UnrollsAt(tail: Tail, put: Put, b: Byte, t: seq<Byte>, result: U32, bitpos: nat, used: nat) {
    tail([b] + t, result, bitpos, used) ==
      if !Allowed(b, result, bitpos) then Bad
      else
        var next, pos := (if bitpos >= 32 then result else put(result, b % 128, bitpos)), (bitpos + 7) % 256;
        if b >= 128 then tail(t, next, pos, used + 1) else if pos == 35 && b >= 16 then Bad else Got(next, used + 1)
  }

  predicate EmptyAt(tail: Tail, result: U32, bitpos: nat, used: nat) { tail([], result, bitpos, used) == Bad }

  lemma {:induction false} ReaderUnrolls(b: Byte, t: seq<Byte>, result: U32, bitpos: nat, used: nat)
    ensures UnrollsAt(Reader(), Put32, b, t, result, bitpos, used)
  {
    TailUnfolds(Put32, b, t, result, bitpos, used);
  }

  lemma {:induction false} TailUnfolds(put: Put, b: Byte, t: seq<Byte>, result: U32, bitpos: nat, used: nat)
    ensures Tail32(put, [b] + t, result, bitpos, used) ==
      if !Allowed(b, result, bitpos) then Bad
      else
        var next, pos := (if bitpos >= 32 then result else put(result, b % 128, bitpos)), (bitpos + 7) % 256;
        if b >= 128 then Tail32(put, t, next, pos, used + 1)
        else if pos == 35 && b >= 16 then Bad else Got(next, used + 1)
  {
    assert ([b] + t)[1..] == t;
  }

  /** `pb_decode_varint32_eof`, without the flag for an empty stream. */
  method DecodeVarint32(s: seq<Byte>) returns (r: Read)
    ensures r == Decode32(s)
  {
    if s == [] {
      return Bad;
    }
    if s[0] < 128 {
      return Got(s[0], 1);
    }
    forall b: Byte, t: seq<Byte>, result: U32, bitpos: nat, used: nat
      ensures UnrollsAt(Reader(), Put32, b, t, result, bitpos, used)
    {
      ReaderUnrolls(b, t, result, bitpos, used);
    }
    r := DecodeTail32(s, Put32, Reader());
  }

  /** The bytes after the first. */
  method DecodeTail32(s: seq<Byte>, put: Put, ghost tail: Tail) returns (r: Read)
    requires s != [] && s[0] >= 128
    requires forall b, t, result, bitpos, used :: UnrollsAt(tail, put, b, t, result, bitpos, used)
    requires forall result, bitpos, used :: EmptyAt(tail, result, bitpos, used)
    ensures r == tail(s[1..], s[0] % 128, 7, 1)
  {
    ghost var goal := tail(s[1..], s[0] % 128, 7, 1);
    var bitpos: nat, result: U32, i := 7, s[0] % 128, 1;
    while true
      invariant 1 <= i <= |s| && goal == tail(s[i..], result, bitpos, i)
      decreases |s| - i
    {
      if i == |s| {
        assert s[i..] == [] && EmptyAt(tail, result, bitpos, i);
        return Bad;
      }
      var b := s[i];
      assert s[i..] == [b] + s[i + 1..];
      assert UnrollsAt(tail, put, b, s[i + 1..], result, bitpos, i);
      if bitpos >= 32 {
        var sign := if bitpos < 63 then 0xff else 1;
        if b % 128 != 0 && (result < 0x8000_0000 || b != sign) {
          return Bad;
        }
      } else {
        result := put(result, b % 128, bitpos);
      }
      bitpos := (bitpos + 7) % 256;
      i := i + 1;
      if b < 128 {
        if bitpos == 35 && b / 16 % 8 != 0 {
          return Bad;
        }
        return Got(result, i);
      }
    }
  }
}
