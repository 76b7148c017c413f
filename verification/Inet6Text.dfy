/** The text of IPv6 addresses: the parser as a machine that reads one character at a time, and a grammar after section
    2.2 of RFC 4291 that says what it accepts and what that means. */
module Inet6Text {
  import opened Wrappers
  import opened SeqFacts
  import V4 = Inet4

  function HexValue(c: char): Option<nat> {
    if '0' <= c <= '9' then Some(c as int - '0' as int)
    else if 'a' <= c <= 'f' then Some(c as int - 'a' as int + 10)
    else if 'A' <= c <= 'F' then Some(c as int - 'A' as int + 10)
    else None
  }

  // ---- The grammar ----

  /** One to four hexadecimal digits. */
  predicate Group(g: string) { 1 <= |g| <= 4 && Digits(g) }

  predicate Digits(g: string) { forall i :: 0 <= i < |g| ==> HexValue(g[i]).Some? }

  function Number(g: string): nat
    requires Digits(g)
  {
    if g == [] then 0 else Number(g[..|g| - 1]) * 16 + HexValue(g[|g| - 1]).value
  }

  predicate AllGroups(gs: seq<string>) { forall i :: 0 <= i < |gs| ==> Group(gs[i]) }

  /** The bytes of groups, high byte first. */
  function Octets(gs: seq<string>): (b: seq<nat>)
    requires AllGroups(gs)
    ensures |b| == 2 * |gs| && V4.Bytes(b)
  {
    if gs == [] then []
    else
      var n := Number(gs[|gs| - 1]);
      Octets(gs[..|gs| - 1]) + [n / 256 % 256, n % 256]
  }

  /** Parts with colons between them. */
  function Join(ps: seq<string>): string {
    if ps == [] then "" else if |ps| == 1 then ps[0] else ps[0] + (":" + Join(ps[1..]))
  }

  /** The groups before a "::", or all of them; those after it, if it is there; and an IPv4 address at the end, if there
      is one. */
  datatype Form = Form(left: seq<string>, gap: Option<seq<string>>, v4: Option<seq<nat>>)

  function Right(f: Form): seq<string> { if f.gap.Some? then f.gap.value else [] }

  function Last(f: Form): seq<nat> { if f.v4.Some? then f.v4.value else [] }

  /** Eight words in all, or fewer if there is a "::"; the IPv4 address counts for two. */
  predicate WellFormed(f: Form) {
    && AllGroups(f.left) && AllGroups(Right(f)) && (f.v4.Some? ==> |f.v4.value| == 4 && V4.Bytes(f.v4.value))
    && var words := |f.left| + |Right(f)| + (if f.v4.Some? then 2 else 0);
       if f.gap.Some? then words < 8 else words == 8
  }

  function Parts(gs: seq<string>, v4: Option<seq<nat>>): seq<string>
    requires v4.Some? ==> |v4.value| == 4 && V4.Bytes(v4.value)
  {
    gs + if v4.Some? then [V4.Dotted(v4.value)] else []
  }

  function Spell(f: Form): string
    requires WellFormed(f)
  {
    if f.gap.Some? then Join(f.left) + ("::" + Join(Parts(f.gap.value, f.v4))) else Join(Parts(f.left, f.v4))
  }

  /** The address: the "::" stands for as many zeros as are missing. */
  function Meaning(f: Form): (b: seq<nat>)
    requires WellFormed(f)
    ensures |b| == 16 && V4.Bytes(b)
  {
    var left, right := Octets(f.left), Octets(Right(f)) + Last(f);
    left + Zeros(16 - |left| - |right|) + right
  }

  function Zeros(n: nat): (z: seq<nat>)
    ensures |z| == n && forall i :: 0 <= i < n ==> z[i] == 0
  {
    seq(n, _ => 0)
  }

  // ---- The parser as a machine ----

  /** Bytes stored, the place of "::" among them, hex digits seen and their value, and the text from the start of the
      current token on. */
  datatype State = State(bytes: seq<nat>, colon: Option<nat>, seen: nat, val: nat, tok: string)

  function Push(st: State): State { st.(bytes := st.bytes + [st.val / 256 % 256, st.val % 256], seen := 0, val := 0) }

  /** What is left to do at the end of the text. */
  function Finish(st: State): Option<seq<nat>> {
    if st.seen > 0 && |st.bytes| + 2 > 16 then None else
      var b := if st.seen > 0 then Push(st).bytes else st.bytes;
      match st.colon
      case None => if |b| != 16 then None else Some(b)
      case Some(c) => if |b| >= 16 || c > |b| then None else Some(b[..c] + Zeros(16 - |b|) + b[c..])
  }

  /** What one character leads to: an error, a state to go on from, or the end of the text. */
  datatype Move = Fail | Go(st: State) | Stop(st: State)

  function Step(st: State, c: char, rest: string): Move {
    if HexValue(c).Some? then
      if st.seen + 1 > 4 then Fail else Go(st.(val := st.val * 16 + HexValue(c).value, seen := st.seen + 1))
    else if c == ':' then
      if st.seen == 0 then
        if st.colon.Some? then Fail else Go(st.(colon := Some(|st.bytes|), tok := rest))
      else if rest == [] then Fail
      else if |st.bytes| + 2 > 16 then Fail
      else Go(Push(st).(tok := rest))
    else if c == '.' && |st.bytes| + 4 <= 16 && V4.Parse(st.tok).Some? then
      Stop(st.(bytes := st.bytes + V4.Parse(st.tok).value, seen := 0))
    else Fail
  }

  function Run(st: State, s: string): Option<seq<nat>>
    decreases |s|
  {
    if s == [] then Finish(st)
    else match Step(st, s[0], s[1..])
      case Fail => None
      case Go(next) => Run(next, s[1..])
      case Stop(last) => Finish(last)
  }

  lemma RunCons(st: State, c: char, s: string)
    ensures Run(st, [c] + s) == match Step(st, c, s)
                                case Fail => None
                                case Go(next) => Run(next, s)
                                case Stop(last) => Finish(last)
  {
    assert ([c] + s)[1..] == s;
  }

  function ParseWith(run: Machine, s: string): Option<seq<nat>> {
    if s != [] && s[0] == ':' then
      if |s| < 2 || s[1] != ':' then None else run(State([], None, 0, 0, s[1..]), s[1..])
    else run(State([], None, 0, 0, s), s)
  }

  /** What `inet_pton6` makes of a text. */
  function Parse(s: string): Option<seq<nat>> { ParseWith(Run, s) }

  // ---- What a reader of text does ----

  /** A reader of text from a given state; the lemmas below need only these facts of it. */
  type Machine = (State, string) -> Option<seq<nat>>

  /** All that the lemmas about the machine need of `Run`. */
  predicate StepsAt(run: Machine, st: State, c: char, s: string) {
    run(st, [c] + s) == match Step(st, c, s)
                        case Fail => None
                        case Go(next) => run(next, s)
                        case Stop(last) => Finish(last)
  }

  predicate EndAt(run: Machine, st: State) { run(st, "") == Finish(st) }

  ghost predicate Reads(run: Machine) {
    && (forall st, c, s :: StepsAt(run, st, c, s))
    && (forall st :: EndAt(run, st))
  }

  lemma {:induction false} RunReads()
    ensures Reads(Run)
  {
    forall st: State, c: char, s: string ensures StepsAt(Run, st, c, s) { RunCons(st, c, s); }
  }

  /** A parser between two groups. */
  predicate Fresh(st: State) { st.seen == 0 && st.val == 0 }

  /** What the end of the text makes of the bytes stored. */
  function Assemble(b: seq<nat>, colon: Option<nat>): Option<seq<nat>> { Finish(State(b, colon, 0, 0, "")) }

  lemma {:induction false} ReadDigit(run: Machine, st: State, c: char, s: string)
    requires Reads(run) && HexValue(c).Some? && st.seen < 4
    ensures run(st, [c] + s) == run(st.(val := st.val * 16 + HexValue(c).value, seen := st.seen + 1), s)
  {
    assert StepsAt(run, st, c, s);
  }

  lemma {:induction false} NumberSnoc(g: string, c: char)
    requires Digits(g) && HexValue(c).Some?
    ensures Digits(g + [c]) && Number(g + [c]) == Number(g) * 16 + HexValue(c).value
  {
    assert (g + [c])[..|g|] == g;
  }

  /** The digits of a group become the current value. */
  lemma {:induction false} ReadDigits(run: Machine, st: State, g: string, s: string)
    requires Reads(run) && Fresh(st) && Digits(g) && |g| <= 4
    ensures run(st, g + s) == run(st.(val := Number(g), seen := |g|), s)
    decreases |g|
  {
    if g == [] {
      assert g + s == s;
    } else {
      var init, c := g[..|g| - 1], g[|g| - 1];
      ReadDigits(run, st, init, [c] + s);
      ReadLastDigit(run, st, init, c, s);
      FrontAndLast(g);
    }
  }

  lemma {:induction false} ReadLastDigit(run: Machine, st: State, init: string, c: char, s: string)
    requires Reads(run) && Digits(init) && |init| < 4 && HexValue(c).Some?
    requires run(st, init + ([c] + s)) == run(st.(val := Number(init), seen := |init|), [c] + s)
    ensures Digits(init + [c]) && run(st, (init + [c]) + s) == run(st.(val := Number(init + [c]), seen := |init| + 1), s)
  {
    Associates(init, [c], s);
    ReadDigit(run, st.(val := Number(init), seen := |init|), c, s);
    NumberSnoc(init, c);
  }

  /** A group and the colon after it. */
  lemma {:induction false} ReadGroup(run: Machine, st: State, g: string, s: string)
    requires Reads(run) && Fresh(st) && Group(g) && s != [] && |st.bytes| <= 14
    ensures var n := Number(g);
      run(st, g + (":" + s)) == run(st.(bytes := st.bytes + [n / 256 % 256, n % 256], tok := s), s)
  {
    ReadDigits(run, st, g, ":" + s);
    assert StepsAt(run, st.(val := Number(g), seen := |g|), ':', s);
  }

  // ---- Groups with a colon after each ----

  function Each(gs: seq<string>): string {
    if gs == [] then "" else Each(gs[..|gs| - 1]) + (gs[|gs| - 1] + ":")
  }

  lemma {:induction false} EachSnoc(gs: seq<string>, g: string)
    ensures Each(gs + [g]) == Each(gs) + (g + ":")
  {
    assert (gs + [g])[..|gs|] == gs;
  }

  lemma {:induction false} OctetsSnoc(gs: seq<string>, g: string)
    requires AllGroups(gs) && Group(g)
    ensures AllGroups(gs + [g])
    ensures Octets(gs + [g]) == Octets(gs) + [Number(g) / 256 % 256, Number(g) % 256]
  {
    assert (gs + [g])[..|gs|] == gs;
  }

  lemma {:induction false} JoinCons(p: string, ps: seq<string>)
    requires ps != []
    ensures Join([p] + ps) == p + (":" + Join(ps))
  {
    assert ([p] + ps)[1..] == ps;
  }

  lemma {:induction false} EachCons(p: string, ps: seq<string>)
    ensures Each([p] + ps) == p + (":" + Each(ps))
    decreases |ps|
  {
    if ps == [] {
      NothingAround([p]);
      EachSnoc([], p);
      assert Each([]) + (p + ":") == p + (":" + Each([]));
    } else {
      var init, q := ps[..|ps| - 1], ps[|ps| - 1];
      FrontAndLast(ps);
      Associates([p], init, [q]);
      EachSnoc([p] + init, q);
      EachSnoc(init, q);
      EachCons(p, init);
      assert (p + (":" + Each(init))) + (q + ":") == p + (":" + (Each(init) + (q + ":")));
    }
  }

  lemma {:induction false} JoinSnoc(ps: seq<string>, p: string)
    ensures Join(ps + [p]) == Each(ps) + p
    decreases |ps|
  {
    if ps == [] {
      assert ps + [p] == [p];
    } else {
      var h, t := ps[0], ps[1..];
      FirstAndRest(ps);
      Associates([h], t, [p]);
      JoinCons(h, t + [p]);
      JoinSnoc(t, p);
      EachCons(h, t);
      assert h + (":" + (Each(t) + p)) == (h + (":" + Each(t))) + p;
    }
  }

  /** Groups, each with its colon. */
  lemma {:induction false} ReadEach(run: Machine, st: State, gs: seq<string>, s: string)
    requires Reads(run) && Fresh(st) && AllGroups(gs) && s != [] && |st.bytes| + 2 * |gs| <= 16 && st.tok == Each(gs) + s
    ensures run(st, Each(gs) + s) == run(st.(bytes := st.bytes + Octets(gs), tok := s), s)
    decreases |gs|
  {
    if gs == [] {
      assert Each(gs) + s == s && st.bytes + Octets(gs) == st.bytes;
    } else {
      var init, g := gs[..|gs| - 1], gs[|gs| - 1];
      FrontAndLast(gs);
      EachSnoc(init, g);
      var t := g + (":" + s);
      assert Each(gs) + s == Each(init) + t;
      ReadEach(run, st, init, t);
      ReadGroup(run, st.(bytes := st.bytes + Octets(init), tok := t), g, s);
      OctetsSnoc(init, g);
      assert st.bytes + Octets(init) + [Number(g) / 256 % 256, Number(g) % 256] == st.bytes + Octets(gs);
    }
  }

  lemma {:induction false} DecimalDigits(n: nat)
    requires n < 256
    ensures Digits(V4.Decimal(n))
  {
  }

  /** An IPv4 address at the end of the text. */
  lemma {:induction false} ReadDotted(run: Machine, st: State, b: seq<nat>)
    requires Reads(run) && Fresh(st) && |b| == 4 && V4.Bytes(b) && |st.bytes| <= 12 && st.tok == V4.Dotted(b)
    ensures run(st, V4.Dotted(b)) == Assemble(st.bytes + b, st.colon)
  {
    var g, t := V4.Decimal(b[0]), V4.Join(b[1..]);
    assert V4.Dotted(b) == g + ("." + t);
    DecimalDigits(b[0]);
    ReadDigits(run, st, g, "." + t);
    V4.RoundTrip(b);
    var now := st.(val := Number(g), seen := |g|);
    assert StepsAt(run, now, '.', t);
  }

  lemma {:induction false} ReadLastGroup(run: Machine, st: State, g: string)
    requires Reads(run) && Fresh(st) && Group(g) && |st.bytes| <= 14
    ensures run(st, g) == Assemble(st.bytes + [Number(g) / 256 % 256, Number(g) % 256], st.colon)
  {
    assert g + "" == g;
    ReadDigits(run, st, g, "");
    assert EndAt(run, st.(val := Number(g), seen := |g|));
  }

  lemma {:induction false} ReadMixed(run: Machine, st: State, gs: seq<string>, v4: seq<nat>)
    requires Reads(run) && Fresh(st) && AllGroups(gs) && |v4| == 4 && V4.Bytes(v4)
    requires |st.bytes| + 2 * |gs| <= 12 && st.tok == Each(gs) + V4.Dotted(v4)
    ensures run(st, Each(gs) + V4.Dotted(v4)) == Assemble(st.bytes + (Octets(gs) + v4), st.colon)
  {
    var d := V4.Dotted(v4);
    ReadEach(run, st, gs, d);
    ReadDotted(run, st.(bytes := st.bytes + Octets(gs), tok := d), v4);
    Associates(st.bytes, Octets(gs), v4);
  }

  lemma {:induction false} ReadPlain(run: Machine, st: State, init: seq<string>, g: string)
    requires Reads(run) && Fresh(st) && AllGroups(init) && Group(g)
    requires |st.bytes| + 2 * |init| <= 14 && st.tok == Each(init) + g
    ensures AllGroups(init + [g]) && run(st, Each(init) + g) == Assemble(st.bytes + Octets(init + [g]), st.colon)
  {
    ReadEach(run, st, init, g);
    ReadLastGroup(run, st.(bytes := st.bytes + Octets(init), tok := g), g);
    OctetsSnoc(init, g);
    var w := [Number(g) / 256 % 256, Number(g) % 256];
    Associates(st.bytes, Octets(init), w);
  }

  /** Groups, and perhaps an IPv4 address, up to the end of the text. */
  lemma {:induction false} ReadParts(run: Machine, st: State, gs: seq<string>, v4: Option<seq<nat>>)
    requires Reads(run) && Fresh(st) && AllGroups(gs) && (v4.Some? ==> |v4.value| == 4 && V4.Bytes(v4.value))
    requires |st.bytes| + 2 * |gs| + (if v4.Some? then 4 else 0) <= 16 && st.tok == Join(Parts(gs, v4))
    ensures run(st, Join(Parts(gs, v4)))
         == Assemble(st.bytes + (Octets(gs) + (if v4.Some? then v4.value else [])), st.colon)
  {
    if v4.Some? {
      JoinSnoc(gs, V4.Dotted(v4.value));
      ReadMixed(run, st, gs, v4.value);
    } else {
      NothingAround(gs);
      NothingAround(Octets(gs));
      ReadGroups(run, st, gs);
    }
  }

  lemma {:induction false} ReadGroups(run: Machine, st: State, gs: seq<string>)
    requires Reads(run) && Fresh(st) && AllGroups(gs) && |st.bytes| + 2 * |gs| <= 16 && st.tok == Join(gs)
    ensures run(st, Join(gs)) == Assemble(st.bytes + Octets(gs), st.colon)
  {
    if gs == [] {
      NothingAround(st.bytes);
      assert EndAt(run, st);
    } else {
      var init, g := gs[..|gs| - 1], gs[|gs| - 1];
      FrontAndLast(gs);
      JoinSnoc(init, g);
      ReadPlain(run, st, init, g);
    }
  }

  lemma {:induction false} AssembleGap(a: seq<nat>, b: seq<nat>)
    requires |a| + |b| < 16
    ensures Assemble(a + b, Some(|a|)) == Some(a + Zeros(16 - |a| - |b|) + b)
  {
    assert (a + b)[..|a|] == a && (a + b)[|a|..] == b;
  }

  lemma {:induction false} ReadSecondColon(run: Machine, st: State, t: string)
    requires Reads(run) && Fresh(st) && st.colon == None
    ensures run(st, ":" + t) == run(st.(colon := Some(|st.bytes|), tok := t), t)
  {
    assert StepsAt(run, st, ':', t);
  }

  /** The second colon of "::", and all that follows it. */
  lemma {:induction false} ReadGap(run: Machine, st: State, f: Form)
    requires Reads(run) && Fresh(st) && WellFormed(f) && f.gap.Some? && st.bytes == Octets(f.left) && st.colon == None
    ensures run(st, ":" + Join(Parts(f.gap.value, f.v4))) == Some(Meaning(f))
  {
    var t := Join(Parts(f.gap.value, f.v4));
    ReadSecondColon(run, st, t);
    ReadParts(run, st.(colon := Some(|st.bytes|), tok := t), f.gap.value, f.v4);
    AssembleGap(Octets(f.left), Octets(f.gap.value) + Last(f));
  }

  lemma {:induction false} FirstOfGroup(gs: seq<string>, s: string)
    requires AllGroups(gs) && gs != []
    ensures Each(gs) != [] && Each(gs)[0] != ':'
  {
    EachCons(gs[0], gs[1..]);
    FirstAndRest(gs);
    assert HexValue(gs[0][0]).Some?;
  }

  lemma {:induction false} ParsesAtGap(run: Machine, f: Form)
    requires Reads(run) && WellFormed(f) && f.gap.Some? && f.left == []
    ensures ParseWith(run, Spell(f)) == Some(Meaning(f))
  {
    var t := ":" + Join(Parts(f.gap.value, f.v4));
    assert Spell(f) == ":" + t;
    assert Spell(f)[1..] == t;
    ReadGap(run, State([], None, 0, 0, t), f);
  }

  /** The groups before the gap, each with its colon, and the second colon of the gap. */
  lemma {:induction false} SpellAtGap(left: seq<string>, t: string)
    requires left != []
    ensures Join(left) + ("::" + t) == Each(left) + (":" + t)
  {
    var init, g := left[..|left| - 1], left[|left| - 1];
    FrontAndLast(left);
    JoinSnoc(init, g);
    EachSnoc(init, g);
    TwoColons(Each(init), g, t);
  }

  lemma {:induction false} TwoColons(a: string, g: string, t: string)
    ensures (a + g) + ("::" + t) == (a + (g + ":")) + (":" + t)
  {
  }

  lemma {:induction false} ParsesLeft(run: Machine, left: seq<string>, t: string)
    requires Reads(run) && AllGroups(left) && 0 < |left| < 8 && t != []
    ensures ParseWith(run, Each(left) + t) == run(State(Octets(left), None, 0, 0, t), t)
  {
    FirstOfGroup(left, t);
    ReadEach(run, State([], None, 0, 0, Each(left) + t), left, t);
    NothingAround(Octets(left));
  }

  lemma {:induction false} ParsesGapped(run: Machine, f: Form)
    requires Reads(run) && WellFormed(f) && f.gap.Some?
    ensures ParseWith(run, Spell(f)) == Some(Meaning(f))
  {
    if f.left == [] {
      ParsesAtGap(run, f);
    } else {
      var t := Join(Parts(f.gap.value, f.v4));
      SpellAtGap(f.left, t);
      ParsesLeft(run, f.left, ":" + t);
      ReadGap(run, State(Octets(f.left), None, 0, 0, ":" + t), f);
    }
  }

  lemma {:induction false} FirstIsDigit(left: seq<string>, ps: seq<string>)
    requires AllGroups(left) && left != [] && left <= ps
    ensures Join(ps) != [] && Join(ps)[0] != ':'
  {
    FirstAndRest(ps);
    if ps[1..] != [] { JoinCons(ps[0], ps[1..]); }
    assert ps[0] == left[0] && HexValue(left[0][0]).Some?;
  }

  lemma {:induction false} NoGap(a: seq<nat>, b: seq<nat>)
    ensures [] + (a + b) == a + Zeros(0) + ([] + b)
  {
  }

  lemma {:induction false} ParsesFull(run: Machine, f: Form)
    requires Reads(run) && WellFormed(f) && f.gap.None?
    ensures ParseWith(run, Spell(f)) == Some(Meaning(f))
  {
    var ps := Parts(f.left, f.v4);
    FirstIsDigit(f.left, ps);
    ReadParts(run, State([], None, 0, 0, Join(ps)), f.left, f.v4);
    NoGap(Octets(f.left), Last(f));
  }

  /** Every text the grammar allows is accepted, with its meaning. */
  lemma {:induction false} Parses(f: Form)
    requires WellFormed(f)
    ensures Parse(Spell(f)) == Some(Meaning(f))
  {
    RunReads();
    if f.gap.Some? { ParsesGapped(Run, f); } else { ParsesFull(Run, f); }
  }

  lemma {:induction false} NothingAfter(gs: seq<string>)
    requires AllGroups(gs)
    ensures Join(Parts(gs, None)) == Join(gs) && Octets(gs) + [] == Octets(gs)
  {
    assert Parts(gs, None) == gs;
  }

  /** t is the text of a form for the address b. Quantified only so that the details stay out of sight until `StandsAt` is
      named. */
  ghost predicate Stands(f: Form, t: string, b: seq<nat>) { forall z: int :: StandsAt(f, t, b, z) }

  ghost predicate StandsAt(f: Form, t: string, b: seq<nat>, z: int) { WellFormed(f) && Spell(f) == t && Meaning(f) == b }

  lemma {:induction false} ItStands(f: Form, t: string, b: seq<nat>)
    requires WellFormed(f) && Spell(f) == t && Meaning(f) == b
    ensures Stands(f, t, b)
  {
    forall z: int ensures StandsAt(f, t, b, z) {}
  }

  lemma {:induction false} TextParses(f: Form, t: string, b: seq<nat>)
    requires Stands(f, t, b)
    ensures Parse(t) == Some(b)
  {
    assert StandsAt(f, t, b, 0);
    Parses(f);
  }

  lemma {:induction false} AroundGap(left: seq<string>, gs: seq<string>, v4: Option<seq<nat>>, len: nat)
    requires AllGroups(left) && AllGroups(gs) && (v4.Some? ==> |v4.value| == 4 && V4.Bytes(v4.value))
    requires |left| + len + |gs| + (if v4.Some? then 2 else 0) == 8 && len > 0
    ensures Stands(Form(left, Some(gs), v4), Join(left) + ("::" + Join(Parts(gs, v4))),
                   Octets(left) + Zeros(2 * len) + (Octets(gs) + (if v4.Some? then v4.value else [])))
  {
    var f := Form(left, Some(gs), v4);
    assert Right(f) == gs && WellFormed(f);
    assert |Octets(left)| + |Octets(gs) + Last(f)| == 16 - 2 * len;
    ItStands(f, Spell(f), Meaning(f));
  }

  // ---- The parser accepts nothing else ----

  /** What has been read: the groups before and after the gap, and the digits of the current one. */
  datatype Progress = Progress(left: seq<string>, gap: bool, right: seq<string>, cur: string)

  predicate Sound(p: Progress) {
    AllGroups(p.left) && AllGroups(p.right) && (!p.gap ==> p.right == []) && Digits(p.cur) && |p.cur| <= 4
  }

  /** The state of the parser says what has been read. */
  predicate Tracks(st: State, p: Progress) {
    && Sound(p) && st.bytes == Octets(p.left) + Octets(p.right)
    && st.colon == (if p.gap then Some(2 * |p.left|) else None) && st.seen == |p.cur| && st.val == Number(p.cur)
  }

  /** The text read so far, without the first of two leading colons. */
  function Consumed(p: Progress): string { Each(p.left) + ((if p.gap then ":" else "") + (Each(p.right) + p.cur)) }

  /** The text of a form, without the first of two leading colons. */
  function Body(f: Form): string
    requires WellFormed(f)
  {
    if f.gap.Some? then Each(f.left) + (":" + Join(Parts(f.gap.value, f.v4))) else Join(Parts(f.left, f.v4))
  }

  /** After a separator something must follow. */
  predicate Goes(p: Progress, rest: string) {
    p.cur == "" && rest == "" ==> if p.gap then p.right == [] else p.left == []
  }

  function AddDigit(p: Progress, c: char): Progress { p.(cur := p.cur + [c]) }

  function AddGap(p: Progress): Progress { p.(gap := true) }

  function AddGroup(p: Progress): Progress {
    if p.gap then p.(right := p.right + [p.cur], cur := "") else p.(left := p.left + [p.cur], cur := "")
  }

  lemma {:induction false} TracksDigit(st: State, p: Progress, c: char, rest: string)
    requires Tracks(st, p) && HexValue(c).Some? && st.seen < 4
    ensures Tracks(st.(val := st.val * 16 + HexValue(c).value, seen := st.seen + 1), AddDigit(p, c))
    ensures Consumed(AddDigit(p, c)) + rest == Consumed(p) + ([c] + rest)
  {
    NumberSnoc(p.cur, c);
    DigitBehind(Each(p.left), if p.gap then ":" else "", Each(p.right), p.cur, [c], rest);
  }

  lemma {:induction false} DigitBehind(a: string, b: string, c: string, cur: string, d: string, rest: string)
    ensures (a + (b + (c + (cur + d)))) + rest == (a + (b + (c + cur))) + (d + rest)
  {
  }

  lemma {:induction false} TracksGap(st: State, p: Progress, rest: string)
    requires Tracks(st, p) && p.cur == "" && !p.gap
    ensures Tracks(st.(colon := Some(|st.bytes|), tok := rest), AddGap(p))
    ensures Consumed(AddGap(p)) + rest == Consumed(p) + (":" + rest)
  {
    assert p.right == [] && Each([]) == "";
  }

  lemma {:induction false} RegroupRight(a: string, b: string, c: string, d: string, rest: string)
    ensures (a + (b + ((c + (d + ":")) + ""))) + rest == (a + (b + (c + d))) + (":" + rest)
  {
  }

  lemma {:induction false} RegroupLeft(a: string, d: string, rest: string)
    ensures ((a + (d + ":")) + ("" + ("" + ""))) + rest == (a + ("" + ("" + d))) + (":" + rest)
  {
  }

  lemma {:induction false} ConsumedGroup(p: Progress, rest: string)
    requires Sound(p)
    ensures Consumed(AddGroup(p)) + rest == Consumed(p) + (":" + rest)
  {
    if p.gap {
      EachSnoc(p.right, p.cur);
      RegroupRight(Each(p.left), ":", Each(p.right), p.cur, rest);
    } else {
      EachSnoc(p.left, p.cur);
      RegroupLeft(Each(p.left), p.cur, rest);
    }
  }

  lemma {:induction false} BytesOneMore(a: seq<nat>, b: seq<nat>, w: seq<nat>)
    ensures (a + b) + w == a + (b + w) && (b == [] ==> (a + b) + w == (a + w) + b)
  {
  }

  lemma {:induction false} TracksGroup(st: State, p: Progress, rest: string)
    requires Tracks(st, p) && p.cur != ""
    ensures Tracks(Push(st).(tok := rest), AddGroup(p))
  {
    var w := [Number(p.cur) / 256 % 256, Number(p.cur) % 256];
    OctetsSnoc(if p.gap then p.right else p.left, p.cur);
    BytesOneMore(Octets(p.left), Octets(p.right), w);
    var q, now := AddGroup(p), Push(st).(tok := rest);
    assert now.bytes == st.bytes + w;
    assert now.bytes == Octets(q.left) + Octets(q.right);
  }

  /** The bytes stored at the end, as a form. */
  lemma {:induction false} FormOf(left: seq<string>, gap: Option<seq<string>>, v4: Option<seq<nat>>, b: seq<nat>)
    requires AllGroups(left) && (gap.Some? ==> AllGroups(gap.value)) && (v4.Some? ==> |v4.value| == 4 && V4.Bytes(v4.value))
    requires var f := Form(left, gap, v4);
      Assemble(Octets(left) + (Octets(Right(f)) + Last(f)), if gap.Some? then Some(2 * |left|) else None) == Some(b)
    ensures WellFormed(Form(left, gap, v4)) && Meaning(Form(left, gap, v4)) == b
  {
    var f := Form(left, gap, v4);
    if gap.Some? {
      AssembleGap(Octets(left), Octets(Right(f)) + Last(f));
    } else {
      assert Octets(left) + (Octets(Right(f)) + Last(f)) == Octets(left) + Zeros(0) + (Octets(Right(f)) + Last(f));
    }
  }

  /** A form for the whole text, given what is read and what is left to read. */
  predicate Whole(f: Form, p: Progress, rest: string, b: seq<nat>) {
    WellFormed(f) && Meaning(f) == b && Body(f) == Consumed(p) + rest
  }

  /** The text of a form whose last part is still to be joined to what has been read. */
  lemma {:induction false} LastPart(p: Progress, last: string)
    requires Sound(p)
    ensures p.gap ==> Each(p.left) + (":" + Join(p.right + [last])) == Consumed(p.(cur := "")) + last
    ensures !p.gap ==> Join(p.left + [last]) == Consumed(p.(cur := "")) + last
  {
    if p.gap {
      JoinSnoc(p.right, last);
      assert Each(p.left) + (":" + (Each(p.right) + last)) == (Each(p.left) + (":" + (Each(p.right) + ""))) + last;
    } else {
      JoinSnoc(p.left, last);
      assert Each(p.left) + last == (Each(p.left) + ("" + ("" + ""))) + last;
    }
  }

  lemma {:induction false} NoDotted(gs: seq<string>)
    ensures Parts(gs, None) == gs
  {
  }

  lemma {:induction false} ConsumedCur(p: Progress, rest: string)
    ensures Consumed(p.(cur := "")) + (p.cur + rest) == Consumed(p) + rest
  {
    var a, b, c := Each(p.left), (if p.gap then ":" else ""), Each(p.right);
    assert (a + (b + (c + ""))) + (p.cur + rest) == (a + (b + (c + p.cur))) + rest;
  }

  function FormWith(p: Progress, v4: Option<seq<nat>>): Form { Form(p.left, if p.gap then Some(p.right) else None, v4) }

  /** The bytes at the end of the text. */
  lemma {:induction false} BytesAtEnd(st: State, p: Progress, v4: Option<seq<nat>>, b: seq<nat>)
    requires Sound(p) && (v4.Some? ==> |v4.value| == 4 && V4.Bytes(v4.value)) && st.seen == 0 && Finish(st) == Some(b)
    requires st.bytes == (Octets(p.left) + Octets(p.right)) + (if v4.Some? then v4.value else [])
    requires st.colon == if p.gap then Some(2 * |p.left|) else None
    ensures WellFormed(FormWith(p, v4)) && Meaning(FormWith(p, v4)) == b
  {
    var f := FormWith(p, v4);
    var x, y, z := Octets(p.left), Octets(p.right), Last(f);
    Associates(x, y, z);
    assert Octets(Right(f)) == y;
    FormOf(p.left, f.gap, v4, b);
  }

  lemma {:induction false} BodyGroup(p: Progress)
    requires Sound(p) && WellFormed(FormWith(AddGroup(p), None))
    ensures Body(FormWith(AddGroup(p), None)) == Consumed(p) + ""
  {
    LastPart(p, p.cur);
    ConsumedCur(p, "");
    assert p.cur + "" == p.cur;
    NoDotted(AddGroup(p).right);
    NoDotted(AddGroup(p).left);
  }

  lemma {:induction false} BodyMixed(p: Progress, rest: string, v4: seq<nat>)
    requires Sound(p) && WellFormed(FormWith(p, Some(v4))) && p.cur + rest == V4.Dotted(v4)
    ensures Body(FormWith(p, Some(v4))) == Consumed(p) + rest
  {
    LastPart(p, p.cur + rest);
    ConsumedCur(p, rest);
  }

  lemma {:induction false} BodyGap(p: Progress)
    requires Sound(p) && p.gap && p.right == [] && p.cur == "" && WellFormed(FormWith(p, None))
    ensures Body(FormWith(p, None)) == Consumed(p) + ""
  {
    NoDotted([]);
    assert Each(p.left) + (":" + "") == (Each(p.left) + (":" + ("" + ""))) + "";
  }

  lemma {:induction false} EndsInGroup(st: State, p: Progress, b: seq<nat>) returns (f: Form)
    requires Tracks(st, p) && p.cur != "" && Finish(st) == Some(b)
    ensures Whole(f, p, "", b)
  {
    TracksGroup(st, p, "");
    NothingAround(Push(st).bytes);
    BytesAtEnd(Push(st), AddGroup(p), None, b);
    BodyGroup(p);
    f := FormWith(AddGroup(p), None);
  }

  lemma {:induction false} EndsInGap(st: State, p: Progress, b: seq<nat>) returns (f: Form)
    requires Tracks(st, p) && p.cur == "" && Goes(p, "") && Finish(st) == Some(b)
    ensures Whole(f, p, "", b)
  {
    NothingAround(st.bytes);
    BytesAtEnd(st, p, None, b);
    BodyGap(p);
    f := FormWith(p, None);
  }

  lemma {:induction false} EndsInIPv4(st: State, p: Progress, rest: string, v4: seq<nat>, b: seq<nat>) returns (f: Form)
    requires Tracks(st, p) && |v4| == 4 && V4.Bytes(v4) && p.cur + rest == V4.Dotted(v4)
    requires Finish(st.(bytes := st.bytes + v4, seen := 0)) == Some(b)
    ensures Whole(f, p, rest, b)
  {
    BytesAtEnd(st.(bytes := st.bytes + v4, seen := 0), p, Some(v4), b);
    BodyMixed(p, rest, v4);
    f := FormWith(p, Some(v4));
  }

  lemma {:induction false} DotMeansIPv4(run: Machine, st: State, p: Progress, c: char, more: string, b: seq<nat>)
    returns (f: Form)
    requires Reads(run) && Tracks(st, p) && st.tok == p.cur + ([c] + more) && HexValue(c).None? && c != ':'
    requires run(st, [c] + more) == Some(b)
    ensures Whole(f, p, [c] + more, b)
  {
    assert StepsAt(run, st, c, more);
    V4.AcceptsOnlyPrinted(st.tok);
    f := EndsInIPv4(st, p, [c] + more, V4.Parse(st.tok).value, b);
  }

  /** A state and what has been read to get there, with a text to go that is accepted. */
  predicate Pending(run: Machine, st: State, p: Progress, rest: string, b: seq<nat>) {
    Tracks(st, p) && Goes(p, rest) && st.tok == p.cur + rest && run(st, rest) == Some(b)
  }

  lemma {:induction false} DigitStep(run: Machine, st: State, p: Progress, c: char, more: string, b: seq<nat>)
    returns (next: State)
    requires Reads(run) && Pending(run, st, p, [c] + more, b) && HexValue(c).Some?
    ensures Pending(run, next, AddDigit(p, c), more, b)
    ensures Consumed(AddDigit(p, c)) + more == Consumed(p) + ([c] + more)
  {
    assert StepsAt(run, st, c, more);
    next := st.(val := st.val * 16 + HexValue(c).value, seen := st.seen + 1);
    TracksDigit(st, p, c, more);
    Associates(p.cur, [c], more);
  }

  lemma {:induction false} GapStep(run: Machine, st: State, p: Progress, more: string, b: seq<nat>) returns (next: State)
    requires Reads(run) && Pending(run, st, p, ":" + more, b) && p.cur == ""
    ensures Pending(run, next, AddGap(p), more, b) && Consumed(AddGap(p)) + more == Consumed(p) + (":" + more)
  {
    assert StepsAt(run, st, ':', more);
    next := st.(colon := Some(|st.bytes|), tok := more);
    TracksGap(st, p, more);
    assert "" + more == more;
  }

  lemma {:induction false} GroupStep(run: Machine, st: State, p: Progress, more: string, b: seq<nat>) returns (next: State)
    requires Reads(run) && Pending(run, st, p, ":" + more, b) && p.cur != ""
    ensures Pending(run, next, AddGroup(p), more, b) && Consumed(AddGroup(p)) + more == Consumed(p) + (":" + more)
  {
    assert StepsAt(run, st, ':', more);
    next := Push(st).(tok := more);
    TracksGroup(st, p, more);
    ConsumedGroup(p, more);
    assert "" + more == more;
  }

  lemma {:induction false} Ends(run: Machine, st: State, p: Progress, b: seq<nat>) returns (f: Form)
    requires Reads(run) && Pending(run, st, p, "", b)
    ensures Whole(f, p, "", b)
  {
    assert EndAt(run, st);
    if p.cur != "" { f := EndsInGroup(st, p, b); } else { f := EndsInGap(st, p, b); }
  }

  /** Whatever is accepted from a state has a form. */
  lemma {:induction false} Inverts(run: Machine, st: State, p: Progress, rest: string, b: seq<nat>) returns (f: Form)
    requires Reads(run) && Pending(run, st, p, rest, b)
    ensures Whole(f, p, rest, b)
    decreases |rest|
  {
    if rest == "" {
      f := Ends(run, st, p, b);
    } else {
      var c, more := rest[0], rest[1..];
      assert rest == [c] + more;
      if HexValue(c).Some? {
        var next := DigitStep(run, st, p, c, more, b);
        f := Inverts(run, next, AddDigit(p, c), more, b);
      } else if c == ':' && p.cur == "" {
        var next := GapStep(run, st, p, more, b);
        f := Inverts(run, next, AddGap(p), more, b);
      } else if c == ':' {
        var next := GroupStep(run, st, p, more, b);
        f := Inverts(run, next, AddGroup(p), more, b);
      } else {
        f := DotMeansIPv4(run, st, p, c, more, b);
      }
    }
  }

  /** A text is accepted exactly when the grammar allows it, and then its bytes are its meaning. */
  lemma {:induction false} AcceptsExactly(s: string, b: seq<nat>)
    ensures Parse(s) == Some(b) <==> exists f :: WellFormed(f) && Spell(f) == s && Meaning(f) == b
  {
    if Parse(s) == Some(b) {
      RunReads();
      var f := FormFor(Run, s, b);
      assert WellFormed(f) && Spell(f) == s && Meaning(f) == b;
    }
    if f :| WellFormed(f) && Spell(f) == s && Meaning(f) == b {
      Parses(f);
    }
  }

  lemma {:induction false} SpellGapped(f: Form)
    requires WellFormed(f) && f.gap.Some?
    ensures Spell(f) == if f.left == [] then ":" + Body(f) else Body(f)
  {
    var t := Join(Parts(f.gap.value, f.v4));
    if f.left == [] {
      assert "" + ("::" + t) == ":" + ("" + (":" + t));
    } else {
      SpellAtGap(f.left, t);
    }
  }

  lemma {:induction false} FullStart(f: Form)
    requires WellFormed(f) && f.gap.None?
    ensures Body(f) != "" && Body(f)[0] != ':'
  {
    FirstIsDigit(f.left, Parts(f.left, f.v4));
  }

  lemma {:induction false} BodyStart(f: Form)
    requires WellFormed(f)
    ensures Body(f) != "" && (Body(f)[0] == ':' <==> f.gap.Some? && f.left == [])
    ensures Spell(f) == if f.gap.Some? && f.left == [] then ":" + Body(f) else Body(f)
  {
    if f.gap.None? {
      FullStart(f);
    } else {
      SpellGapped(f);
      if f.left != [] { FirstOfGroup(f.left, ""); }
    }
  }

  lemma {:induction false} FormFor(run: Machine, s: string, b: seq<nat>) returns (f: Form)
    requires Reads(run) && ParseWith(run, s) == Some(b)
    ensures WellFormed(f) && Spell(f) == s && Meaning(f) == b
  {
    var t := if s != [] && s[0] == ':' then s[1..] else s;
    f := BodyFor(run, t, b);
    BodyStart(f);
    if s != [] && s[0] == ':' { FirstAndRest(s); }
  }

  lemma {:induction false} BodyFor(run: Machine, t: string, b: seq<nat>) returns (f: Form)
    requires Reads(run) && run(State([], None, 0, 0, t), t) == Some(b)
    ensures WellFormed(f) && Body(f) == t && Meaning(f) == b
  {
    var none := Progress([], false, [], "");
    assert Consumed(none) == "";
    NothingAround(t);
    f := Inverts(run, State([], None, 0, 0, t), none, t, b);
  }

  /** The texts that are accepted, and what they give. */
  lemma {:induction false} Accepted(s: string)
    ensures Parse(s).Some? <==> exists f :: WellFormed(f) && Spell(f) == s
    ensures forall f :: WellFormed(f) && Spell(f) == s ==> Parse(s) == Some(Meaning(f))
    ensures Parse(s).Some? ==> |Parse(s).value| == 16 && V4.Bytes(Parse(s).value)
  {
    forall f | WellFormed(f) && Spell(f) == s ensures Parse(s) == Some(Meaning(f)) { Parses(f); }
    if Parse(s).Some? {
      RunReads();
      var f := FormFor(Run, s, Parse(s).value);
    }
  }
}
