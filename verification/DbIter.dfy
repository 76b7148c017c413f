/** The LevelDB database iterator: many versions of each user key in one sorted stream, shown to the client
    as a cursor over the keys that are live at one snapshot. */
module DbIter {
  import opened Wrappers
  import opened SortedMap

  datatype Kind = Deletion | Value

  /** One internal entry; every internal key is taken to parse. */
  datatype Entry = Entry(key: Key, seqno: nat, kind: Kind, value: string)

  /** Sequence number and type packed in one number, the type in the low eight bits. */
  function Tag(seqno: nat, kind: Kind): nat { seqno * 256 + (if kind == Value then 1 else 0) }

  predicate InternalLess(less: Order, k1: Key, tag1: nat, k2: Key, tag2: nat) {
    less(k1, k2) || (k1 == k2 && tag1 > tag2)
  }

  predicate Before(less: Order, es: seq<Entry>, i: nat, j: nat)
    requires i < |es| && j < |es|
  {
    InternalLess(less, es[i].key, Tag(es[i].seqno, es[i].kind), es[j].key, Tag(es[j].seqno, es[j].kind))
  }

  ghost predicate Sorted(less: Order, es: seq<Entry>) {
    forall i, j :: 0 <= i < j < |es| ==> Before(less, es, i, j)
  }

  // ---- The snapshot, defined without looking at the order of the entries ----

  ghost predicate Visible(es: seq<Entry>, snapshot: nat, i: int) {
    0 <= i < |es| && es[i].seqno <= snapshot
  }

  /** Entry i is the newest one of its key that the snapshot can see, and it is a value. */
  ghost predicate LiveAt(es: seq<Entry>, snapshot: nat, i: int) {
    && Visible(es, snapshot, i)
    && es[i].kind == Value
    && forall j :: Visible(es, snapshot, j) && es[j].key == es[i].key
         ==> Tag(es[j].seqno, es[j].kind) <= Tag(es[i].seqno, es[i].kind)
  }

  ghost function LiveKeys(es: seq<Entry>, snapshot: nat): set<Key> {
    set i | 0 <= i < |es| && LiveAt(es, snapshot, i) :: es[i].key
  }

  ghost function LiveIndex(es: seq<Entry>, snapshot: nat, k: Key): (i: int)
    requires k in LiveKeys(es, snapshot)
    ensures LiveAt(es, snapshot, i) && es[i].key == k
  {
    var i :| 0 <= i < |es| && LiveAt(es, snapshot, i) && es[i].key == k;
    i
  }

  /** The sorted map the client should see. */
  ghost function View(es: seq<Entry>, snapshot: nat): (view: map<Key, string>)
    ensures view.Keys == LiveKeys(es, snapshot)
  {
    map k | k in LiveKeys(es, snapshot) :: es[LiveIndex(es, snapshot, k)].value
  }

  // ---- What sortedness says about the snapshot ----

  lemma SortedKeys(less: Order, es: seq<Entry>, i: int, j: int)
    requires StrictTotalOrder(less) && Sorted(less, es)
    requires 0 <= i <= j < |es|
    ensures !less(es[j].key, es[i].key)
  {
    if i < j {
      assert Before(less, es, i, j) && TransitiveAt(less, es[i].key, es[j].key, es[i].key);
    }
  }

  lemma SortedTags(less: Order, es: seq<Entry>, i: int, j: int)
    requires StrictTotalOrder(less) && Sorted(less, es)
    requires 0 <= i < j < |es| && es[i].key == es[j].key
    ensures Tag(es[i].seqno, es[i].kind) > Tag(es[j].seqno, es[j].kind)
  {
    assert Before(less, es, i, j);
  }

  /** In a sorted stream the live entry of a key is the first one the snapshot can see. */
  lemma LiveIsFirstVisible(less: Order, es: seq<Entry>, snapshot: nat, i: int)
    requires StrictTotalOrder(less) && Sorted(less, es)
    ensures LiveAt(es, snapshot, i) <==>
      Visible(es, snapshot, i) && es[i].kind == Value
      && forall j :: 0 <= j < i && es[j].key == es[i].key ==> !Visible(es, snapshot, j)
  {
    if LiveAt(es, snapshot, i) {
      forall j | 0 <= j < i && es[j].key == es[i].key ensures !Visible(es, snapshot, j) {
        SortedTags(less, es, j, i);
      }
    } else if Visible(es, snapshot, i) && es[i].kind == Value {
      var j :| Visible(es, snapshot, j) && es[j].key == es[i].key
        && Tag(es[j].seqno, es[j].kind) > Tag(es[i].seqno, es[i].kind);
      if i < j { SortedTags(less, es, i, j); }
    }
  }

  lemma LiveUnique(less: Order, es: seq<Entry>, snapshot: nat, i: int)
    requires StrictTotalOrder(less) && Sorted(less, es)
    requires LiveAt(es, snapshot, i)
    ensures es[i].key in View(es, snapshot) && View(es, snapshot)[es[i].key] == es[i].value
  {
    var j := LiveIndex(es, snapshot, es[i].key);
    if i < j { SortedTags(less, es, i, j); } else if j < i { SortedTags(less, es, j, i); }
  }

  /** The first live entry whose key lies in an upward slice of the live keys is the least key of that slice. */
  lemma FirstIsLeast(less: Order, es: seq<Entry>, snapshot: nat, slice: set<Key>, p: int)
    requires StrictTotalOrder(less) && Sorted(less, es)
    requires slice <= LiveKeys(es, snapshot)
    requires LiveAt(es, snapshot, p) && es[p].key in slice
    requires forall i :: LiveAt(es, snapshot, i) && es[i].key in slice ==> p <= i
    ensures Least(less, slice) == Some(es[p].key)
  {
    var k := Least(less, slice).value;
    var i := LiveIndex(es, snapshot, k);
    SortedKeys(less, es, p, i);
  }

  lemma LastIsGreatest(less: Order, es: seq<Entry>, snapshot: nat, slice: set<Key>, p: int)
    requires StrictTotalOrder(less) && Sorted(less, es)
    requires slice <= LiveKeys(es, snapshot)
    requires LiveAt(es, snapshot, p) && es[p].key in slice
    requires forall i :: LiveAt(es, snapshot, i) && es[i].key in slice ==> i <= p
    ensures Greatest(less, slice) == Some(es[p].key)
  {
    var k := Greatest(less, slice).value;
    var i := LiveIndex(es, snapshot, k);
    SortedKeys(less, es, i, p);
  }

  /** The fixed 64-bit little-endian form of a packed tag. */
  function Fixed64(tag: nat): string {
    seq(8, i requires 0 <= i < 8 => ((tag / Pow256(i)) % 256) as char)
  }

  function Pow256(i: nat): (r: nat)
    ensures r > 0
  {
    if i == 0 then 1 else 256 * Pow256(i - 1)
  }

  datatype Direction = Forward | Reverse

  class Iterator {
    const less: Order
    const entries: seq<Entry>
    const sequence: nat

    // The internal iterator: an index, or |entries| when it is not valid.
    var pos: nat
    var direction: Direction
    var valid: bool
    var savedKey: Key
    var savedValue: string

    ghost predicate Shape()
      reads this
    {
      StrictTotalOrder(less) && Sorted(less, entries) && pos <= |entries|
    }

    /** Index of the internal iterator when moving backwards; invalid means before everything. */
    ghost function Limit(): int
      reads this
    {
      if pos == |entries| then -1 else pos
    }

    /** The position invariant. Forward: the internal iterator stands on the live entry of the current key.
        Reverse: it stands before all entries of the current key, and whatever lies between belongs to
        smaller keys and is invisible. */
    ghost predicate Inv()
      reads this
    {
      && Shape()
      && (valid && direction == Forward ==> LiveAt(entries, sequence, pos))
      && (valid && direction == Reverse ==>
            && savedKey in View(entries, sequence)
            && View(entries, sequence)[savedKey] == savedValue
            && (forall i :: 0 <= i <= Limit() ==> less(entries[i].key, savedKey))
            && (forall i :: Limit() < i < |entries| && less(entries[i].key, savedKey) ==> !Visible(entries, sequence, i)))
    }

    /** The key the client's cursor is at. */
    ghost function Cursor(): Option<Key>
      requires Inv()
      reads this
    {
      if !valid then None else if direction == Forward then Some(entries[pos].key) else Some(savedKey)
    }

    ghost function Keys(): set<Key> { LiveKeys(entries, sequence) }

    constructor (less: Order, entries: seq<Entry>, sequence: nat, pos: nat)
      requires StrictTotalOrder(less) && Sorted(less, entries) && pos <= |entries|
      ensures Inv() && Cursor() == None
      ensures this.less == less && this.entries == entries && this.sequence == sequence
    {
      this.less, this.entries, this.sequence := less, entries, sequence;
      this.pos, direction, valid, savedKey, savedValue := pos, Forward, false, "", "";
    }

    /** `key()` and `value()`. */
    method Get() returns (k: Key, v: string)
      requires Inv() && valid
      ensures Cursor() == Some(k)
      ensures See(View(entries, sequence), Cursor()) == Some((k, v))
    {
      if direction == Forward {
        LiveUnique(less, entries, sequence, pos);
        k, v := entries[pos].key, entries[pos].value;
      } else {
        k, v := savedKey, savedValue;
      }
    }

    method IterPrev()
      requires pos < |entries|
      modifies this`pos
      ensures pos <= |entries|
      ensures Limit() == old(pos) - 1
    {
      pos := if pos == 0 then |entries| else pos - 1;
    }

    /** The internal iterator's own seek: the first entry not before (target, tag). */
    method IterSeek(target: Key, tag: nat)
      requires Shape()
      modifies this`pos
      ensures pos <= |entries|
      ensures forall i :: 0 <= i < pos ==>
        InternalLess(less, entries[i].key, Tag(entries[i].seqno, entries[i].kind), target, tag)
      ensures pos < |entries| ==>
        !InternalLess(less, entries[pos].key, Tag(entries[pos].seqno, entries[pos].kind), target, tag)
    {
      pos := 0;
      while pos < |entries|
        && InternalLess(less, entries[pos].key, Tag(entries[pos].seqno, entries[pos].kind), target, tag)
        invariant pos <= |entries|
        invariant forall i :: 0 <= i < pos ==>
          InternalLess(less, entries[i].key, Tag(entries[i].seqno, entries[i].kind), target, tag)
      {
        pos := pos + 1;
      }
    }

    /** What a forward scan from p0 may count on: `slice` names the live keys that are wanted, nothing visible
        behind p0 shares a key with them, and nothing visible ahead is smaller than the key k0 to skip. */
    ghost predicate Ahead(p0: nat, k0: Key, skip: bool, slice: set<Key>) {
      && slice <= Keys()
      && (forall i :: LiveAt(entries, sequence, i) ==>
            (entries[i].key in slice <==> p0 <= i && (skip ==> less(k0, entries[i].key))))
      && (forall i, j :: 0 <= j < p0 <= i < |entries| && Visible(entries, sequence, j) ==>
            (entries[i].key == entries[j].key ==> skip && !less(k0, entries[i].key)))
      && (skip ==> forall i :: p0 <= i && Visible(entries, sequence, i) ==> !less(entries[i].key, k0))
    }

    /** Scans forward for the first live entry from `pos` on, past the key in `savedKey` when skipping. */
    method FindNextUserEntry(skip: bool, ghost slice: set<Key>)
      requires Shape() && pos < |entries| && direction == Forward
      requires Ahead(pos, savedKey, skip, slice)
      modifies this`pos, this`valid, this`savedKey
      ensures Inv()
      ensures Cursor() == Least(less, slice)
    {
      var skipping := skip;
      ghost var p0, k0 := pos, savedKey;
      while pos < |entries|
        invariant p0 <= pos <= |entries|
        invariant Scanned(p0, k0, skip, slice, pos, savedKey, skipping)
      {
        var e := entries[pos];
        ScanOn(p0, k0, skip, slice, pos, savedKey, skipping);
        if e.seqno <= sequence {
          match e.kind
          case Deletion =>
            savedKey := e.key;
            skipping := true;
          case Value =>
            if skipping && !less(savedKey, e.key) {
              // hidden
            } else {
              valid := true;
              savedKey := "";
              return;
            }
        }
        pos := pos + 1;
      }
      NothingLeft(slice);
      savedKey := "";
      valid := false;
    }

    /** Why a forward scan skips key k: it was asked to, or it met a visible deletion of that key. */
    ghost predicate SkipReason(p0: nat, k0: Key, skip: bool, p: nat, k: Key) {
      || (skip && k == k0)
      || exists d :: p0 <= d < p && Visible(entries, sequence, d) && entries[d].key == k && entries[d].kind == Deletion
    }

    /** A forward scan has come from p0 to p and is skipping k: every visible entry it passed has a key not above k,
        and nothing wanted was passed. */
    ghost predicate Scanned(p0: nat, k0: Key, skip: bool, slice: set<Key>, p: nat, k: Key, skipping: bool) {
      && (skip ==> skipping && !less(k, k0))
      && (skipping ==> SkipReason(p0, k0, skip, p, k))
      && (forall j :: p0 <= j < p && Visible(entries, sequence, j) ==> skipping && !less(k, entries[j].key))
      && (forall i :: LiveAt(entries, sequence, i) && entries[i].key in slice ==> p <= i)
    }

    /** While scanning forward, a visible entry is never smaller than the key being skipped, so meeting a deletion
        never lowers that key. */
    lemma SkipNeverFalls(p0: nat, k0: Key, skip: bool, slice: set<Key>, p: nat, k: Key)
      requires Shape() && p0 <= p && Ahead(p0, k0, skip, slice) && SkipReason(p0, k0, skip, p, k)
      requires Visible(entries, sequence, p)
      ensures !less(entries[p].key, k)
    {
      if !(skip && k == k0) {
        var d :| p0 <= d < p && entries[d].key == k;
        SortedKeys(less, entries, d, p);
      }
    }

    /** One entry of a forward scan: either it is the one wanted, or the scan goes on. */
    lemma ScanOn(p0: nat, k0: Key, skip: bool, slice: set<Key>, p: nat, k: Key, skipping: bool)
      requires Shape() && p0 <= p < |entries|
      requires Ahead(p0, k0, skip, slice) && Scanned(p0, k0, skip, slice, p, k, skipping)
      ensures
        if !Visible(entries, sequence, p) then
          Scanned(p0, k0, skip, slice, p + 1, k, skipping)
        else if entries[p].kind == Deletion then
          Scanned(p0, k0, skip, slice, p + 1, entries[p].key, true)
        else if skipping && !less(k, entries[p].key) then
          Scanned(p0, k0, skip, slice, p + 1, k, true)
        else
          LiveAt(entries, sequence, p) && Least(less, slice) == Some(entries[p].key)
    {
      if Visible(entries, sequence, p) {
        if skipping { SkipNeverFalls(p0, k0, skip, slice, p, k); }
        if entries[p].kind == Deletion {
          forall j | p0 <= j < p ensures !less(entries[p].key, entries[j].key) { SortedKeys(less, entries, j, p); }
          assert SkipReason(p0, k0, skip, p + 1, entries[p].key);
        } else {
          LiveIsFirstVisible(less, entries, sequence, p);
          if !(skipping && !less(k, entries[p].key)) {
            if skip { Chain(less, k0, k, entries[p].key); }
            FirstIsLeast(less, entries, sequence, slice, p);
          }
        }
      }
    }

    lemma NothingLeft(slice: set<Key>)
      requires slice <= Keys()
      requires forall i :: LiveAt(entries, sequence, i) ==> entries[i].key !in slice
      ensures slice == {}
    {
    }

    /** Scans backward from `pos` for the last live entry. `slice` names the live keys that are still behind. */
    method FindPrevUserEntry(ghost slice: set<Key>)
      requires Shape() && direction == Reverse
      requires slice <= Keys()
      requires forall i :: LiveAt(entries, sequence, i) ==> (entries[i].key in slice <==> i <= Limit())
      requires forall i, j :: 0 <= i <= Limit() < j < |entries| && entries[i].key == entries[j].key ==>
        !Visible(entries, sequence, j)
      modifies this`pos, this`valid, this`savedKey, this`savedValue, this`direction
      ensures Inv()
      ensures Cursor() == Greatest(less, slice)
    {
      var kind := Deletion;
      ghost var p0, v := Limit(), -1;
      while pos < |entries|
        invariant pos <= |entries| && Limit() <= p0 && direction == Reverse
        invariant kind == Value ==> Limit() < v <= p0 && LastSeen(v)
        invariant forall i :: LiveAt(entries, sequence, i) && i <= p0 ==> i <= Limit() || (kind == Value && i == v)
        decreases Limit()
      {
        var e := entries[pos];
        if e.seqno <= sequence {
          if kind != Deletion && less(e.key, savedKey) {
            break;
          }
          if kind == Value { NotLiveBehind(v); }
          kind := e.kind;
          if kind == Deletion {
            savedKey, savedValue := "", "";
          } else {
            savedKey, savedValue := e.key, e.value;
            v := pos;
          }
        }
        IterPrev();
      }
      if kind == Deletion {
        valid := false;
        savedKey, savedValue := "", "";
        direction := Forward;
        NothingLeft(slice);
      } else {
        valid := true;
        SavedIsLive(v);
        LiveUnique(less, entries, sequence, v);
        LastIsGreatest(less, entries, sequence, slice, v);
      }
    }

    /** Entry v is the last visible one met so far, and it is the saved one. */
    ghost predicate LastSeen(v: int)
      reads this
    {
      && Visible(entries, sequence, v) && entries[v].kind == Value
      && entries[v].key == savedKey && entries[v].value == savedValue
      && forall j :: Limit() < j < v ==> !Visible(entries, sequence, j)
    }

    /** A value seen with a newer visible entry of the same key in front of it is not live. */
    lemma NotLiveBehind(v: int)
      requires Shape() && pos < v < |entries| && Visible(entries, sequence, pos)
      requires !less(entries[pos].key, entries[v].key)
      ensures !LiveAt(entries, sequence, v)
    {
      SortedKeys(less, entries, pos, v);
      LiveIsFirstVisible(less, entries, sequence, v);
    }

    lemma SavedIsLive(v: int)
      requires Shape() && Limit() < v < |entries| && Visible(entries, sequence, v) && entries[v].kind == Value
      requires forall j :: Limit() < j < v ==> !Visible(entries, sequence, j)
      requires pos < |entries| ==> less(entries[pos].key, entries[v].key)
      ensures LiveAt(entries, sequence, v)
      ensures forall i :: 0 <= i <= Limit() ==> less(entries[i].key, entries[v].key)
      ensures forall i :: Limit() < i < |entries| && less(entries[i].key, entries[v].key) ==> !Visible(entries, sequence, i)
    {
      forall i | 0 <= i <= Limit() ensures less(entries[i].key, entries[v].key) {
        SortedKeys(less, entries, i, pos);
        Chain(less, entries[i].key, entries[pos].key, entries[v].key);
      }
      LiveIsFirstVisible(less, entries, sequence, v);
      forall i | v <= i < |entries| ensures !less(entries[i].key, entries[v].key) {
        SortedKeys(less, entries, v, i);
      }
    }

    method Next()
      requires Inv() && valid
      modifies this
      ensures Inv()
      ensures Cursor() == Move(less, Keys(), old(Cursor()), Op.Next)
    {
      ghost var k := Cursor().value;
      ghost var slice := Above(less, Keys(), k);
      if direction == Reverse {
        direction := Forward;
        if pos == |entries| { pos := 0; } else { pos := pos + 1; }
        // The source also handles an exhausted internal iterator here; the entries of the current key
        // lie ahead, so that cannot happen.
        assert pos < |entries| by { var i := LiveIndex(entries, sequence, k); }
        forall j | 0 <= j < pos ensures !less(savedKey, entries[j].key) { Chain(less, entries[j].key, k, k); }
      } else {
        savedKey := entries[pos].key;
        forall i | pos <= i < |entries| ensures !less(entries[i].key, savedKey) {
          SortedKeys(less, entries, pos, i);
        }
        forall j | 0 <= j < pos ensures !less(savedKey, entries[j].key) {
          SortedKeys(less, entries, j, pos);
        }
      }
      FindNextUserEntry(true, slice);
    }

    method Prev()
      requires Inv() && valid
      modifies this
      ensures Inv()
      ensures Cursor() == Move(less, Keys(), old(Cursor()), Op.Prev)
    {
      ghost var k := Cursor().value;
      ghost var slice := Below(less, Keys(), k);
      if direction == Forward {
        savedKey := entries[pos].key;
        ghost var p0 := pos;
        while true
          invariant pos <= p0 < |entries|
          invariant forall i :: pos <= i <= p0 ==> entries[i].key == savedKey
          invariant savedKey == k
          decreases pos
        {
          IterPrev();
          if pos == |entries| {
            valid := false;
            savedKey, savedValue := "", "";
            forall i | 0 <= i < |entries| ensures !less(entries[i].key, k) { SortedKeys(less, entries, 0, i); }
            NothingLeft(slice);
            return;
          }
          if less(entries[pos].key, savedKey) {
            break;
          }
          SortedKeys(less, entries, pos, pos + 1);
        }
        direction := Reverse;
        forall i | 0 <= i <= pos ensures less(entries[i].key, k) {
          SortedKeys(less, entries, i, pos);
          Chain(less, entries[i].key, entries[pos].key, k);
        }
        forall i | pos < i < |entries| ensures !less(entries[i].key, k) {
          SortedKeys(less, entries, pos + 1, i);
        }
      }
      FindPrevUserEntry(slice);
    }

    method Seek(target: Key)
      requires Inv()
      modifies this
      ensures Inv()
      ensures Cursor() == Move(less, Keys(), old(Cursor()), Op.Seek(target))
    {
      ghost var slice := AtLeast(less, Keys(), target);
      direction := Forward;
      savedValue := "";
      var tag := Tag(sequence, Value);
      savedKey := target + Fixed64(tag);
      IterSeek(target, tag);
      SeekSplitsVisible(target, tag);
      if pos < |entries| {
        FindNextUserEntry(false, slice);
      } else {
        valid := false;
        NothingLeft(slice);
      }
    }

    lemma SeekSplitsVisible(target: Key, tag: nat)
      requires Shape() && tag == Tag(sequence, Value)
      requires forall i :: 0 <= i < pos ==>
        InternalLess(less, entries[i].key, Tag(entries[i].seqno, entries[i].kind), target, tag)
      requires pos < |entries| ==>
        !InternalLess(less, entries[pos].key, Tag(entries[pos].seqno, entries[pos].kind), target, tag)
      ensures forall i :: Visible(entries, sequence, i) ==> (i < pos <==> less(entries[i].key, target))
      ensures forall i :: pos <= i < |entries| ==> !less(entries[i].key, target)
    {
      forall i | pos <= i < |entries| ensures !less(entries[i].key, target) {
        SortedKeys(less, entries, pos, i);
        Chain(less, target, entries[pos].key, entries[i].key);
      }
    }

    method SeekToFirst()
      requires Inv()
      modifies this
      ensures Inv()
      ensures Cursor() == Move(less, Keys(), old(Cursor()), Op.SeekToFirst)
    {
      direction := Forward;
      savedValue := "";
      pos := 0;
      if pos < |entries| {
        FindNextUserEntry(false, Keys());
      } else {
        valid := false;
      }
    }

    method SeekToLast()
      requires Inv()
      modifies this
      ensures Inv()
      ensures Cursor() == Move(less, Keys(), old(Cursor()), Op.SeekToLast)
    {
      direction := Reverse;
      savedValue := "";
      pos := if |entries| == 0 then 0 else |entries| - 1;
      FindPrevUserEntry(Keys());
    }

    /** Carries out one client move; a client moves an iterator on only while it is valid. */
    method Do(op: Op)
      requires Inv()
      modifies this
      ensures Inv()
      ensures Cursor() == Move(less, Keys(), old(Cursor()), op)
    {
      match op
      case Seek(target) => Seek(target);
      case SeekToFirst => SeekToFirst();
      case SeekToLast => SeekToLast();
      case Next => if valid { Next(); }
      case Prev => if valid { Prev(); }
    }

    /** A step and a step back, which changes direction, come back to the same key, unless the first one leaves the map. */
    method ThereAndBack(op: Op) returns (back: bool)
      requires Inv() && valid && (op.Next? || op.Prev?)
      modifies this
      ensures Inv() && back == Move(less, Keys(), old(Cursor()), op).Some?
      ensures Cursor() == if back then old(Cursor()) else None
    {
      StepAndBack(less, Keys(), Cursor().value);
      if op.Next? {
        Next();
        back := valid;
        if back { Prev(); }
      } else {
        Prev();
        back := valid;
        if back { Next(); }
      }
    }

    /** Whatever moves a client makes, in whatever order and direction, it sees exactly what a cursor over the
        sorted map of live keys would have shown. */
    method Drive(ops: seq<Op>) returns (seen: seq<Option<(Key, string)>>)
      requires Inv()
      modifies this
      ensures Inv()
      ensures Cursor() == CursorAfter(less, Keys(), old(Cursor()), ops)
      ensures seen == Trace(less, View(entries, sequence), old(Cursor()), ops)
    {
      seen := [];
      ghost var start, view := Cursor(), View(entries, sequence);
      for n := 0 to |ops|
        invariant Inv()
        invariant Cursor() == CursorAfter(less, view.Keys, start, ops[..n])
        invariant seen == Trace(less, view, start, ops[..n])
      {
        Do(ops[n]);
        assert ops[..n + 1] == ops[..n] + [ops[n]];
        TraceSnoc(less, view, start, ops[..n], ops[n]);
        if valid {
          var k, v := Get();
          seen := seen + [Some((k, v))];
        } else {
          seen := seen + [None];
        }
      }
      assert ops[..|ops|] == ops;
    }
  }
}
