/**
 * The label lookup the tables share: take the first record whose `id` equals
 * the wanted id (`Array.prototype.find`), show its `nameUz`, and fall back to
 * "Noma'lum" ("unknown") when nothing matches or the name is empty.
 */
module Lookup {

  import opened Wrappers

  /** A reference record shown by its Uzbek name: an announcement type or a region. */
  datatype Named = Named(id: int, nameUz: string)

  /** The id of a named record, as a function value for `FindFirst`. */
  function NamedId(n: Named): int
  {
    n.id
  }

  /** The fallback label. */
  const Unknown: string := "Noma'lum"

  /** `i` is the index of the first element of `xs` whose id (read by `idOf`) is `id`. */
  ghost predicate FirstWithId<T>(xs: seq<T>, idOf: T -> int, id: int, i: int)
  {
    0 <= i < |xs| && idOf(xs[i]) == id && forall j :: 0 <= j < i ==> idOf(xs[j]) != id
  }

  /** Searching a list front to back for the first record with a given id; absent when none has it. */
  function FindFirst<T>(xs: seq<T>, idOf: T -> int, id: int): (r: Option<T>)
    ensures r.None? <==> forall i :: 0 <= i < |xs| ==> idOf(xs[i]) != id
    ensures forall i :: FirstWithId(xs, idOf, id, i) ==> r == Some(xs[i])
  {
    if xs == [] then None
    else if idOf(xs[0]) == id then Some(xs[0])
    else
      var r := FindFirst(xs[1..], idOf, id);
      assert forall i :: FirstWithId(xs, idOf, id, i) ==> i > 0 && FirstWithId(xs[1..], idOf, id, i - 1);
      r
  }

  /** The name shown for an id: the first matching record's non-empty `nameUz`, else the fallback. */
  function LabelOf(xs: seq<Named>, id: int): (shown: string)
    ensures shown != ""
    ensures (forall i :: 0 <= i < |xs| ==> xs[i].id != id) ==> shown == Unknown
    ensures forall i :: FirstWithId(xs, NamedId, id, i) ==>
              shown == if xs[i].nameUz != "" then xs[i].nameUz else Unknown
  {
    match FindFirst(xs, NamedId, id)
    case Some(x) => if x.nameUz != "" then x.nameUz else Unknown
    case None => Unknown
  }

  /** A label other than the fallback is the name of a record carrying that id. */
  lemma {:induction false} KnownLabelComesFromMatch(xs: seq<Named>, id: int)
    requires LabelOf(xs, id) != Unknown
    ensures exists i :: FirstWithId(xs, NamedId, id, i) && xs[i].nameUz == LabelOf(xs, id)
  {
    if xs[0].id == id {
      assert FirstWithId(xs, NamedId, id, 0);
    } else {
      assert LabelOf(xs[1..], id) == LabelOf(xs, id);
      KnownLabelComesFromMatch(xs[1..], id);
      var i :| FirstWithId(xs[1..], NamedId, id, i) && xs[1..][i].nameUz == LabelOf(xs, id);
      assert FirstWithId(xs, NamedId, id, i + 1);
    }
  }
}
