/** A message descriptor as the field iterator sees it, with one unit of address for each slot. */
module Layout {
  import opened Message
  import FieldIter

  function RuleOf(rule: Rule): FieldIter.Rule {
    match rule
    case Required => FieldIter.Required
    case Optional => FieldIter.Optional
    case Repeated(_) => FieldIter.Repeated
    case Oneof(_) => FieldIter.Oneof
  }

  function Describe(f: Field): FieldIter.Info {
    FieldIter.Info(f.tag, RuleOf(f.rule), FieldIter.Static, false, f.rule == Oneof(true), 0, 0, 1, 1)
  }

  function Entries(fs: seq<Field>): (es: seq<FieldIter.Info>)
    ensures |es| == |fs| && forall k :: 0 <= k < |fs| ==> es[k] == Describe(fs[k])
  {
    seq(|fs|, k requires 0 <= k < |fs| => Describe(fs[k]))
  }

  /** The iterator's data pointer is the slot of its field, and its required index counts the required fields. */
  lemma {:induction false} EntryPlaces(fs: seq<Field>, k: nat)
    requires k < |fs|
    ensures FieldIter.DataAt(Entries(fs), k) == SlotAt(fs, k)
    decreases k
  {
    if k > 0 { EntryPlaces(fs, k - 1); }
  }

  lemma {:induction false} EntryRequired(fs: seq<Field>, k: nat)
    requires k <= |fs|
    ensures FieldIter.RequiredBefore(Entries(fs), k) == RequiredBefore(fs, k)
    decreases k
  {
    if k > 0 { EntryRequired(fs, k - 1); }
  }

  /** The slot and the required index at the iterator's position. */
  method Here(iter: FieldIter.Iter, ghost fs: seq<Field>) returns (at: nat, required: nat)
    requires iter.Valid() && iter.fs == Entries(fs) && iter.pos < |fs|
    ensures at == SlotAt(fs, iter.pos) && required == RequiredBefore(fs, iter.pos)
  {
    assert FieldIter.PlaceAt(iter.fs, iter.place, iter.pos);
    EntryPlaces(fs, iter.pos);
    EntryRequired(fs, iter.pos);
    at, required := iter.pData, iter.required;
  }
}
