/** IPv4 addresses as text: the printer and the parser, and that the parser undoes the printer. */
module Inet4 {
  import opened Wrappers
  import opened SeqFacts

  datatype Result<+T> = Ok(value: T) | ENOSPC | EINVAL

  predicate Bytes(b: seq<nat>) { forall i :: 0 <= i < |b| ==> b[i] < 256 }

  function DigitChar(d: nat): char
    requires d < 10
  {
    ('0' as int + d) as char
  }

  /** %u of a byte. */
  function Decimal(n: nat): (s: string)
    requires n < 256
    ensures 1 <= |s| <= 3
  {
    if n < 10 then [DigitChar(n)]
    else if n < 100 then [DigitChar(n / 10), DigitChar(n % 10)]
    else [DigitChar(n / 100), DigitChar(n / 10 % 10), DigitChar(n % 10)]
  }

  /** What decimal digits stand for. */
  function Ten(s: string): int { if s == [] then 0 else 10 * Ten(s[..|s| - 1]) + (s[|s| - 1] as int - '0' as int) }

  /** Decimal digits of the number, without leading zeros. */
  lemma {:induction false} DecimalMeans(n: nat)
    requires n < 256
    ensures var s := Decimal(n);
      && (forall i :: 0 <= i < |s| ==> '0' <= s[i] <= '9') && Ten(s) == n && (|s| > 1 ==> s[0] != '0')
  {
    if n < 10 {
      TenOne(n);
    } else if n < 100 {
      TenTwo(n / 10, n % 10);
    } else {
      TenTwo(n / 100, n / 10 % 10);
      TenSnoc([DigitChar(n / 100), DigitChar(n / 10 % 10)], DigitChar(n % 10));
      assert [DigitChar(n / 100), DigitChar(n / 10 % 10)] + [DigitChar(n % 10)] == Decimal(n);
    }
  }

  lemma {:induction false} TenOne(d: nat)
    requires d < 10
    ensures Ten([DigitChar(d)]) == d
  {
    NothingAround([DigitChar(d)]);
    TenSnoc([], DigitChar(d));
  }

  lemma {:induction false} TenTwo(d: nat, e: nat)
    requires d < 10 && e < 10
    ensures Ten([DigitChar(d), DigitChar(e)]) == 10 * d + e
  {
    TenOne(d);
    TenSnoc([DigitChar(d)], DigitChar(e));
    assert [DigitChar(d)] + [DigitChar(e)] == [DigitChar(d), DigitChar(e)];
  }

  lemma {:induction false} TenSnoc(s: string, c: char)
    ensures Ten(s + [c]) == 10 * Ten(s) + (c as int - '0' as int)
  {
    assert (s + [c])[..|s|] == s;
  }

  /** Bytes in decimal, with dots between them. */
  function Join(b: seq<nat>): (s: string)
    requires b != [] && Bytes(b)
    ensures |s| <= 4 * |b| - 1
  {
    if |b| == 1 then Decimal(b[0]) else Decimal(b[0]) + ("." + Join(b[1..]))
  }

  function Dotted(b: seq<nat>): (s: string)
    requires |b| == 4 && Bytes(b)
    ensures |s| <= 15
  {
    Join(b)
  }

  // ---- The parser as a machine that reads one character at a time ----

  /** The octets completed, the one being read, whether it has a digit yet, and the number of octets begun. */
  datatype State = State(done: seq<nat>, cur: nat, saw: bool, octets: nat)

  function Step(st: State, c: char): Option<State> {
    if '0' <= c <= '9' then
      var nw := st.cur * 10 + (c as int - '0' as int);
      if st.saw && st.cur == 0 then None
      else if nw > 255 then None
      else if st.saw then Some(st.(cur := nw))
      else if st.octets + 1 > 4 then None
      else Some(State(st.done, nw, true, st.octets + 1))
    else if c == '.' && st.saw then
      if st.octets == 4 then None else Some(State(st.done + [st.cur], 0, false, st.octets))
    else None
  }

  function Run(st: State, s: string): Option<State>
    decreases |s|
  {
    if s == [] then Some(st)
    else match Step(st, s[0])
      case None => None
      case Some(next) => Run(next, s[1..])
  }

  function Start(): State { State([], 0, false, 0) }

  function Parse(s: string): Option<seq<nat>> {
    match Run(Start(), s)
    case None => None
    case Some(st) => if st.octets < 4 then None else Some(st.done + [st.cur])
  }

  lemma RunCons(st: State, c: char, s: string)
    ensures Run(st, [c] + s) == match Step(st, c) case None => None case Some(next) => Run(next, s)
  {
    assert ([c] + s)[1..] == s;
  }

  lemma StepDigit(st: State, d: nat)
    requires d < 10
    ensures Step(st, DigitChar(d)) ==
      (if (st.saw && st.cur == 0) || st.cur * 10 + d > 255 || (!st.saw && st.octets >= 4) then None
       else Some(State(st.done, st.cur * 10 + d, true, if st.saw then st.octets else st.octets + 1)))
  {
  }

  /** One more digit of an octet. */
  lemma RunDigit(st: State, d: nat, s: string)
    requires d < 10 && st.cur * 10 + d <= 255 && (if st.saw then st.cur > 0 else st.octets < 4)
    ensures Run(st, [DigitChar(d)] + s)
         == Run(State(st.done, st.cur * 10 + d, true, if st.saw then st.octets else st.octets + 1), s)
  {
    RunCons(st, DigitChar(d), s);
    StepDigit(st, d);
  }

  lemma RunTwoDigits(st: State, d: nat, e: nat, s: string)
    requires 0 < d < 10 && e < 10 && !st.saw && st.cur == 0 && st.octets < 4
    ensures Run(st, [DigitChar(d), DigitChar(e)] + s) == Run(State(st.done, d * 10 + e, true, st.octets + 1), s)
  {
    Associates([DigitChar(d)], [DigitChar(e)], s);
    RunDigit(st, d, [DigitChar(e)] + s);
    RunDigit(State(st.done, d, true, st.octets + 1), e, s);
  }

  lemma RunThreeDigits(st: State, d: nat, e: nat, f: nat, s: string)
    requires 0 < d < 10 && e < 10 && f < 10 && d * 100 + e * 10 + f <= 255 && !st.saw && st.cur == 0 && st.octets < 4
    ensures Run(st, [DigitChar(d), DigitChar(e), DigitChar(f)] + s)
         == Run(State(st.done, d * 100 + e * 10 + f, true, st.octets + 1), s)
  {
    assert [DigitChar(d), DigitChar(e), DigitChar(f)] == [DigitChar(d), DigitChar(e)] + [DigitChar(f)];
    Associates([DigitChar(d), DigitChar(e)], [DigitChar(f)], s);
    RunTwoDigits(st, d, e, [DigitChar(f)] + s);
    RunDigit(State(st.done, d * 10 + e, true, st.octets + 1), f, s);
  }

  /** A printed byte is read back, whatever follows. */
  lemma RunDecimal(st: State, n: nat, s: string)
    requires n < 256 && !st.saw && st.cur == 0 && st.octets < 4
    ensures Run(st, Decimal(n) + s) == Run(State(st.done, n, true, st.octets + 1), s)
  {
    var d, e, f := n / 100, n / 10 % 10, n % 10;
    DigitsOf(n);
    if n < 10 {
      RunDigit(st, n, s);
    } else if n < 100 {
      RunTwoDigits(st, e, f, s);
    } else {
      RunThreeDigits(st, d, e, f, s);
    }
  }

  lemma DigitsOf(n: nat)
    requires n < 256
    ensures var d, e, f := n / 100, n / 10 % 10, n % 10;
      && n == d * 100 + e * 10 + f && d < 10 && e < 10
      && (n < 100 ==> d == 0 && e == n / 10) && (n >= 100 ==> d > 0) && (n >= 10 && n < 100 ==> e > 0)
  {
  }

  /** A printed byte and a dot are read back, whatever follows. */
  lemma RunOctet(done: seq<nat>, n: nat, s: string)
    requires n < 256 && |done| < 3
    ensures Run(State(done, 0, false, |done|), Decimal(n) + ("." + s)) == Run(State(done + [n], 0, false, |done| + 1), s)
  {
    RunDecimal(State(done, 0, false, |done|), n, "." + s);
    RunCons(State(done, n, true, |done| + 1), '.', s);
  }

  lemma {:induction false} RunJoin(done: seq<nat>, b: seq<nat>)
    requires b != [] && Bytes(b) && |done| + |b| == 4
    ensures Run(State(done, 0, false, |done|), Join(b)) == Some(State((done + b)[..3], b[|b| - 1], true, 4))
    decreases |b|
  {
    if |b| == 1 {
      assert Decimal(b[0]) + "" == Decimal(b[0]);
      RunDecimal(State(done, 0, false, 3), b[0], "");
      assert (done + b)[..3] == done;
    } else {
      RunOctet(done, b[0], Join(b[1..]));
      RunJoin(done + [b[0]], b[1..]);
      assert done + [b[0]] + b[1..] == done + b;
    }
  }

  /** Printing an address and parsing the text gives the address back. */
  lemma RoundTrip(b: seq<nat>)
    requires |b| == 4 && Bytes(b)
    ensures Parse(Dotted(b)) == Some(b)
  {
    RunJoin([], b);
    assert ([] + b)[..3] + [b[3]] == b;
  }

  // ---- The parser accepts nothing else ----

  function Dots(done: seq<nat>): string
    requires Bytes(done)
  {
    if done == [] then "" else Dots(done[..|done| - 1]) + Decimal(done[|done| - 1]) + "."
  }

  predicate Good(st: State) {
    && Bytes(st.done) && |st.done| <= 3 && st.cur < 256 && (!st.saw ==> st.cur == 0)
    && st.octets == |st.done| + (if st.saw then 1 else 0)
  }

  /** The only text that leads to a state. */
  function Written(st: State): string
    requires Good(st)
  {
    Dots(st.done) + if st.saw then Decimal(st.cur) else ""
  }

  lemma DecimalGrows(n: nat, d: nat)
    requires 0 < n && d < 10 && n * 10 + d < 256
    ensures Decimal(n * 10 + d) == Decimal(n) + [DigitChar(d)]
  {
    var m := n * 10 + d;
    assert m / 10 == n && m % 10 == d && m / 100 == n / 10 && m / 10 % 10 == n % 10;
  }

  lemma StepWritten(st: State, c: char)
    requires Good(st) && Step(st, c).Some?
    ensures Good(Step(st, c).value) && Written(Step(st, c).value) == Written(st) + [c]
  {
    if '0' <= c <= '9' {
      var d := c as int - '0' as int;
      assert c == DigitChar(d);
      if st.saw { DecimalGrows(st.cur, d); }
    } else {
      assert (st.done + [st.cur])[..|st.done|] == st.done;
    }
  }

  lemma {:induction false} RunWritten(st: State, s: string)
    requires Good(st) && Run(st, s).Some?
    ensures Good(Run(st, s).value) && Written(Run(st, s).value) == Written(st) + s
    decreases |s|
  {
    if s != [] {
      StepWritten(st, s[0]);
      RunWritten(Step(st, s[0]).value, s[1..]);
      OneByOne(Written(st), s);
    }
  }

  lemma {:induction false} OneByOne(t: string, s: string)
    requires s != []
    ensures (t + [s[0]]) + s[1..] == t + s
  {
  }

  lemma Reassociate(a: string, b: string, c: string, d: string)
    ensures a + (b + (c + d)) == (a + b + c) + d
  {
  }

  lemma {:induction false} JoinSnoc(done: seq<nat>, n: nat)
    requires Bytes(done) && n < 256
    ensures Join(done + [n]) == Dots(done) + Decimal(n)
    decreases |done|
  {
    if done == [] {
      assert done + [n] == [n];
    } else {
      JoinSnoc(done[1..], n);
      JoinCons(done[0], done[1..] + [n]);
      DotsCons(done[0], done[1..]);
      FirstAndRest(done);
      Associates([done[0]], done[1..], [n]);
      Reassociate(Decimal(done[0]), ".", Dots(done[1..]), Decimal(n));
    }
  }

  lemma JoinCons(n: nat, b: seq<nat>)
    requires n < 256 && Bytes(b) && b != []
    ensures Join([n] + b) == Decimal(n) + ("." + Join(b))
  {
    assert ([n] + b)[1..] == b;
  }

  lemma {:induction false} DotsCons(n: nat, done: seq<nat>)
    requires n < 256 && Bytes(done)
    ensures Dots([n] + done) == Decimal(n) + "." + Dots(done)
    decreases |done|
  {
    if done == [] {
      DotsSnoc([], n);
      NothingAround([n]);
    } else {
      var init, m := done[..|done| - 1], done[|done| - 1];
      DotsCons(n, init);
      DotsConsSnoc(n, init, m);
      FrontAndLast(done);
    }
  }

  lemma {:induction false} DotsConsSnoc(n: nat, init: seq<nat>, m: nat)
    requires n < 256 && m < 256 && Bytes(init) && Dots([n] + init) == Decimal(n) + "." + Dots(init)
    ensures Dots([n] + (init + [m])) == Decimal(n) + "." + Dots(init + [m])
  {
    DotsSnoc([n] + init, m);
    DotsSnoc(init, m);
    Associates([n], init, [m]);
    DotsBehind(Decimal(n) + ".", Dots(init), Decimal(m));
  }

  lemma {:induction false} DotsSnoc(done: seq<nat>, n: nat)
    requires n < 256 && Bytes(done)
    ensures Bytes(done + [n]) && Dots(done + [n]) == Dots(done) + Decimal(n) + "."
  {
    assert (done + [n])[..|done|] == done;
  }

  lemma {:induction false} DotsBehind(a: string, b: string, c: string)
    ensures (a + b) + c + "." == a + (b + c + ".")
  {
  }

  /** The parser accepts exactly the texts the printer writes: no leading zeros, no other forms. */
  lemma AcceptsOnlyPrinted(s: string)
    requires Parse(s).Some?
    ensures var b := Parse(s).value; |b| == 4 && Bytes(b) && s == Dotted(b)
  {
    RunWritten(Start(), s);
    var st := Run(Start(), s).value;
    JoinSnoc(st.done, st.cur);
    assert Written(Start()) + s == s;
  }

  // ---- C strings ----

  predicate NulFree(s: string) { forall i :: 0 <= i < |s| ==> s[i] != 0 as char }

  lemma NulFreeConcat(s: string, t: string)
    requires NulFree(s) && NulFree(t)
    ensures NulFree(s + t)
  {
  }

  lemma {:induction false} JoinNulFree(b: seq<nat>)
    requires b != [] && Bytes(b)
    ensures NulFree(Join(b))
    decreases |b|
  {
    assert NulFree(Decimal(b[0]));
    if |b| > 1 {
      JoinNulFree(b[1..]);
      NulFreeConcat(".", Join(b[1..]));
    }
  }

  /** A C string in a buffer. */
  predicate Holds(buf: seq<char>, s: string) { |s| < |buf| && buf[..|s|] == s && buf[|s|] == 0 as char }

  /** `uv__strscpy`: copy what fits and terminate it; the only buffer left unterminated is the empty one. */
  method Strscpy(d: array<char>, s: string) returns (r: Option<nat>)
    requires NulFree(s)
    modifies d
    ensures r == if |s| < d.Length then Some(|s|) else if d.Length == 0 then Some(0) else None
    ensures d.Length > 0 ==> Holds(d[..], if |s| < d.Length then s else s[..d.Length - 1])
  {
    var src := s + [0 as char];
    for i := 0 to d.Length
      invariant i <= |s| && d[..i] == s[..i]
    {
      d[i] := src[i];
      if d[i] == 0 as char {
        return Some(i);
      }
    }
    if d.Length == 0 {
      return Some(0);
    }
    d[d.Length - 1] := 0 as char;
    r := None;
  }

  /** The number of characters before the terminator. */
  method Strlen(buf: array<char>, ghost s: string) returns (n: nat)
    requires Holds(buf[..], s) && NulFree(s)
    ensures n == |s|
  {
    n := 0;
    assert forall i :: 0 <= i < |s| ==> buf[..][i] == s[i];
    while buf[n] != 0 as char
      invariant n <= |s|
      decreases |s| - n
    {
      n := n + 1;
    }
  }

  // ---- The code ----

  /** `inet_ntop4`: on success the buffer holds the one text that parses to the address; it fails, and leaves the buffer
      alone, exactly when that text and its terminator do not fit. */
  method Ntop4(src: seq<nat>, dst: array<char>) returns (ok: bool, ghost t: string)
    requires |src| == 4 && Bytes(src)
    modifies dst
    ensures Parse(t) == Some(src) && NulFree(t) && |t| < 16
    ensures ok == (|t| < dst.Length)
    ensures ok ==> Holds(dst[..], t)
    ensures !ok ==> dst[..] == old(dst[..])
  {
    var tmp := Dotted(src);
    t := tmp;
    RoundTrip(src);
    JoinNulFree(src);
    if |tmp| >= dst.Length {
      return false, t;
    }
    var _ := Strscpy(dst, tmp);
    ok := true;
  }

  /** `inet_pton4`: the loop over the characters, with the octets in place. */
  method Pton4(src: string) returns (r: Result<seq<nat>>)
    ensures r == match Parse(src) case Some(b) => Ok(b) case None => EINVAL
    ensures r.Ok? ==> |r.value| == 4 && Bytes(r.value)
  {
    var tmp := new nat[4](_ => 0);
    var tp, sawDigit, octets := 0, false, 0;
    for i := 0 to |src|
      invariant 0 <= octets <= 4 && (if sawDigit then tp + 1 == octets else tp == octets) && (tp < 4)
      invariant Bytes(tmp[..tp + 1])
      invariant Run(Start(), src) == Run(State(tmp[..tp], tmp[tp], sawDigit, octets), src[i..])
    {
      var ch := src[i];
      assert src[i..] == [ch] + src[i + 1..];
      RunCons(State(tmp[..tp], tmp[tp], sawDigit, octets), ch, src[i + 1..]);
      if '0' <= ch <= '9' {
        var nw := tmp[tp] * 10 + (ch as int - '0' as int);
        if sawDigit && tmp[tp] == 0 {
          return EINVAL;
        }
        if nw > 255 {
          return EINVAL;
        }
        tmp[tp] := nw;
        if !sawDigit {
          octets := octets + 1;
          if octets > 4 {
            return EINVAL;
          }
          sawDigit := true;
        }
      } else if ch == '.' && sawDigit {
        if octets == 4 {
          return EINVAL;
        }
        tp := tp + 1;
        tmp[tp] := 0;
        sawDigit := false;
        assert tmp[..tp] == tmp[..tp - 1] + [tmp[tp - 1]];
      } else {
        return EINVAL;
      }
    }
    assert src[|src|..] == [];
    if octets < 4 {
      return EINVAL;
    }
    assert tmp[..] == tmp[..tp] + [tmp[tp]];
    r := Ok(tmp[..]);
  }
}
