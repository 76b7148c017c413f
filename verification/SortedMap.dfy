/** A sorted map seen through a cursor: the simple thing a database iterator is meant to be.
    The order of keys is a parameter, as it is for a LevelDB database. */
module SortedMap {
  import opened Wrappers

  type Key = string
  type Order = (Key, Key) -> bool

  predicate TransitiveAt(less: Order, a: Key, b: Key, c: Key) { less(a, b) && less(b, c) ==> less(a, c) }

  ghost predicate StrictTotalOrder(less: Order) {
    && (forall a :: !less(a, a))
    && (forall a, b, c :: TransitiveAt(less, a, b, c))
    && (forall a, b :: a == b || less(a, b) || less(b, a))
  }

  /** The order composes, in its strict and its weak form. */
  lemma Chain(less: Order, a: Key, b: Key, c: Key)
    requires StrictTotalOrder(less)
    ensures less(a, b) ==> !less(b, a)
    ensures less(a, b) && !less(c, b) ==> less(a, c)
    ensures !less(b, a) && less(b, c) ==> less(a, c)
    ensures !less(b, a) && !less(c, b) ==> !less(c, a)
  {
    assert TransitiveAt(less, a, b, a) && TransitiveAt(less, a, b, c) && TransitiveAt(less, c, a, b) && TransitiveAt(less, b, c, a);
  }

  /** The smallest key of a finite set, if there is one. */
  ghost function Least(less: Order, s: set<Key>): (r: Option<Key>)
    requires StrictTotalOrder(less)
    ensures r == None <==> s == {}
    ensures r.Some? ==> r.value in s && forall k :: k in s ==> !less(k, r.value)
    decreases |s|
  {
    if s == {} then None else
      var x :| x in s;
      var rest := Least(less, s - {x});
      assert s == (s - {x}) + {x};
      if rest.Some? && less(rest.value, x) then Chain(less, rest.value, x, x); rest else
        assert forall k :: k in s && rest.Some? ==> !less(k, x) by {
          forall k | k in s && rest.Some? ensures !less(k, x) { Chain(less, x, rest.value, k); }
        }
        Some(x)
  }

  /** The largest key of a finite set, if there is one. */
  ghost function Greatest(less: Order, s: set<Key>): (r: Option<Key>)
    requires StrictTotalOrder(less)
    ensures r == None <==> s == {}
    ensures r.Some? ==> r.value in s && forall k :: k in s ==> !less(r.value, k)
    decreases |s|
  {
    if s == {} then None else
      var x :| x in s;
      var rest := Greatest(less, s - {x});
      assert s == (s - {x}) + {x};
      if rest.Some? && less(x, rest.value) then Chain(less, x, rest.value, x); rest else
        assert forall k :: k in s && rest.Some? ==> !less(x, k) by {
          forall k | k in s && rest.Some? ensures !less(x, k) { Chain(less, k, rest.value, x); }
        }
        Some(x)
  }

  datatype Op = Seek(target: Key) | SeekToFirst | SeekToLast | Next | Prev

  ghost function Above(less: Order, keys: set<Key>, k: Key): set<Key> { set x | x in keys && less(k, x) }

  ghost function Below(less: Order, keys: set<Key>, k: Key): set<Key> { set x | x in keys && less(x, k) }

  ghost function AtLeast(less: Order, keys: set<Key>, k: Key): set<Key> { set x | x in keys && !less(x, k) }

  /** One move of a cursor over the keys of a sorted map. `Next` and `Prev` leave an invalid cursor invalid. */
  ghost function Move(less: Order, keys: set<Key>, at: Option<Key>, op: Op): Option<Key>
    requires StrictTotalOrder(less)
  {
    match op
    case Seek(target) => Least(less, AtLeast(less, keys, target))
    case SeekToFirst => Least(less, keys)
    case SeekToLast => Greatest(less, keys)
    case Next => if at == None then None else Least(less, Above(less, keys, at.value))
    case Prev => if at == None then None else Greatest(less, Below(less, keys, at.value))
  }

  /** Stepping forward from a key of the map and then back returns to it, and the other way round. */
  lemma StepAndBack(less: Order, keys: set<Key>, k: Key)
    requires StrictTotalOrder(less) && k in keys
    ensures var n := Move(less, keys, Some(k), Next); n.Some? ==> Move(less, keys, n, Prev) == Some(k)
    ensures var p := Move(less, keys, Some(k), Prev); p.Some? ==> Move(less, keys, p, Next) == Some(k)
  {
    var n := Move(less, keys, Some(k), Next);
    if n.Some? {
      var back := Move(less, keys, n, Prev);
      assert k in Below(less, keys, n.value);
    }
    var p := Move(less, keys, Some(k), Prev);
    if p.Some? {
      var forth := Move(less, keys, p, Next);
      assert k in Above(less, keys, p.value);
    }
  }

  /** What a client sees at a cursor: nothing, or a key and its value. */
  ghost function See(view: map<Key, string>, at: Option<Key>): Option<(Key, string)> {
    if at.Some? && at.value in view then Some((at.value, view[at.value])) else None
  }

  /** Everything a client sees along a sequence of moves. */
  ghost function Trace(less: Order, view: map<Key, string>, at: Option<Key>, ops: seq<Op>): (t: seq<Option<(Key, string)>>)
    requires StrictTotalOrder(less)
    ensures |t| == |ops|
    decreases |ops|
  {
    if ops == [] then [] else
      var next := Move(less, view.Keys, at, ops[0]);
      [See(view, next)] + Trace(less, view, next, ops[1..])
  }

  ghost function CursorAfter(less: Order, keys: set<Key>, at: Option<Key>, ops: seq<Op>): Option<Key>
    requires StrictTotalOrder(less)
    decreases |ops|
  {
    if ops == [] then at else CursorAfter(less, keys, Move(less, keys, at, ops[0]), ops[1..])
  }

  lemma {:induction false} TraceSnoc(less: Order, view: map<Key, string>, at: Option<Key>, ops: seq<Op>, op: Op)
    requires StrictTotalOrder(less)
    ensures CursorAfter(less, view.Keys, at, ops + [op]) == Move(less, view.Keys, CursorAfter(less, view.Keys, at, ops), op)
    ensures Trace(less, view, at, ops + [op])
         == Trace(less, view, at, ops) + [See(view, CursorAfter(less, view.Keys, at, ops + [op]))]
    decreases |ops|
  {
    if ops == [] {
      assert (ops + [op])[1..] == [];
    } else {
      assert (ops + [op])[1..] == ops[1..] + [op];
      TraceSnoc(less, view, Move(less, view.Keys, at, ops[0]), ops[1..], op);
    }
  }
}
