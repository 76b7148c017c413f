/** Punycode as RFC 3492 describes it: bias adaptation (section 6.1) and the decoder (section 6.2), the latter as a
    machine that reads one character at a time. */
module PunycodeSpec {
  import opened Wrappers
  import opened Arithmetic

  const BASE := 36
  const TMIN := 1
  const TMAX := 26
  const SKEW := 38
  const DAMP := 700
  const INITIAL_BIAS := 72
  const INITIAL_N := 128

  /** The digit threshold at position k. */
  function Threshold(k: nat, bias: nat): (t: nat)
    ensures TMIN <= t <= TMAX
  {
    if k <= bias + TMIN then TMIN else if k >= bias + TMAX then TMAX else k - bias
  }

  // Quotients and remainders of two unknowns too are defined by counting, so that proofs can follow them step
  // by step; the lemmas below say that they are the usual ones.

  function Quotient(i: nat, p: nat): nat
    requires p > 0
  {
    if i < p then 0 else 1 + Quotient(i - p, p)
  }

  function Remainder(i: nat, p: nat): (r: nat)
    requires p > 0
    ensures r < p
  {
    if i < p then i else Remainder(i - p, p)
  }

  lemma {:induction false} TimesIsProduct(k: nat, w: nat)
    ensures Times(k, w) == k * w
  {
    if k > 0 {
      TimesIsProduct(k - 1, w);
      assert k * w == (k - 1) * w + w;
    }
  }

  /** Counting k rows of p positions and then r more is undone by quotient and remainder. */
  lemma {:induction false} TimesThenRest(k: nat, p: nat, r: nat)
    requires r < p
    ensures Quotient(Times(k, p) + r, p) == k && Remainder(Times(k, p) + r, p) == r
  {
    if k > 0 { TimesThenRest(k - 1, p, r); }
  }

  lemma {:induction false} QuotientRebuilds(i: nat, p: nat)
    requires p > 0
    ensures i == Times(Quotient(i, p), p) + Remainder(i, p)
  {
    if i >= p { QuotientRebuilds(i - p, p); }
  }

  lemma Gap(x: int, y: int, b: nat)
    requires x < y
    ensures y * b >= x * b + b
  {
    assert y * b == x * b + b + (y - x - 1) * b;
    assert (y - x - 1) * b >= 0;
  }

  lemma UniqueQuotient(q: int, r: nat, a: int, c: nat, b: nat)
    requires q * b + r == a * b + c && r < b && c < b
    ensures q == a && r == c
  {
    if q < a { Gap(q, a, b); } else if a < q { Gap(a, q, b); }
  }

  lemma QuotientIsDivision(i: nat, p: nat)
    requires p > 0
    ensures Quotient(i, p) == i / p && Remainder(i, p) == i % p
  {
    var k, r := Quotient(i, p), Remainder(i, p);
    QuotientRebuilds(i, p);
    TimesIsProduct(k, p);
    UniqueQuotient(i / p, i % p, k, r, p);
  }

  lemma {:induction false} QuotientFits(i: nat, p: nat)
    requires p > 0
    ensures Quotient(i, p) <= i
  {
    if i >= p { QuotientFits(i - p, p); }
  }

  function AdaptLoop(delta: nat, k: nat): nat
    decreases delta
  {
    if delta > ((BASE - TMIN) * TMAX) / 2 then AdaptLoop(delta / (BASE - TMIN), k + BASE)
    else k + Quotient((BASE - TMIN + 1) * delta, delta + SKEW)
  }

  function Adapt(delta: nat, numPoints: nat, first: bool): nat
    requires numPoints > 0
  {
    var d := if first then delta / DAMP else delta / 2;
    AdaptLoop(d + Quotient(d, numPoints), 0)
  }

  function DigitValue(c: char): Option<nat> {
    if 'a' <= c <= 'z' then Some(c as int - 'a' as int)
    else if 'A' <= c <= 'Z' then Some(c as int - 'A' as int)
    else if '0' <= c <= '9' then Some(26 + (c as int - '0' as int))
    else None
  }

  /** The decoder. `i` is the running insertion state, `oldI` its value when the current integer began, `w` and `k`
      the weight and position of the next digit. */
  datatype Decoder =
    | Reading(n: nat, i: nat, bias: nat, output: seq<nat>, oldI: nat, w: nat, k: nat)
    | Failed

  function Insert(s: seq<nat>, at: nat, x: nat): seq<nat>
    requires at <= |s|
  {
    s[..at] + [x] + s[at..]
  }

  /** An integer has been read completely: adapt the bias, and insert a code point. */
  function Complete(d: Decoder, i: nat): Decoder
    requires d.Reading? && i >= d.oldI
  {
    var points := |d.output| + 1;
    var at := Remainder(i, points);
    var n := d.n + Quotient(i, points);
    Reading(n, at + 1, Adapt(i - d.oldI, points, d.oldI == 0), Insert(d.output, at, n), at + 1, 1, BASE)
  }

  function Read(d: Decoder, c: char): Decoder {
    if d.Failed? || DigitValue(c).None? then Failed else
      var digit := DigitValue(c).value;
      var i := d.i + Times(digit, d.w);
      var t := Threshold(d.k, d.bias);
      if digit >= t then d.(i := i, w := Times(BASE - t, d.w), k := d.k + BASE)
      else if i < d.oldI then Failed  // i never falls, so this does not happen
      else Complete(d, i)
  }

  function ReadAll(d: Decoder, s: string): Decoder
    decreases |s|
  {
    if s == [] then d else Read(ReadAll(d, s[..|s| - 1]), s[|s| - 1])
  }

  lemma ReadAllSnoc(d: Decoder, s: string, c: char)
    ensures ReadAll(d, s + [c]) == Read(ReadAll(d, s), c)
  {
    assert (s + [c])[..|s|] == s;
  }

  /** Position of the last delimiter, if any. */
  function LastDelimiter(s: string): (r: Option<nat>)
    ensures r.Some? ==> r.value < |s| && s[r.value] == '-'
    decreases |s|
  {
    if s == [] then None
    else if s[|s| - 1] == '-' then Some(|s| - 1)
    else LastDelimiter(s[..|s| - 1])
  }

  function CodePoints(s: string): seq<nat> { seq(|s|, j requires 0 <= j < |s| => s[j] as int) }

  /** The whole decoder: basic code points up to the last delimiter, then the deltas. */
  function Decode(s: string): Option<seq<nat>> {
    var b := LastDelimiter(s);
    var basic := if b.Some? && b.value > 0 then s[..b.value] else [];
    var deltas := if b.Some? && b.value > 0 then s[b.value + 1..] else s;
    if exists c :: c in basic && c as int >= INITIAL_N then None else
      var d := ReadAll(Reading(INITIAL_N, 0, INITIAL_BIAS, CodePoints(basic), 0, 1, BASE), deltas);
      if d.Reading? && d.k == BASE then Some(d.output) else None
  }
}
