/** Values the server receives from clients and keeps in its collections.

    Request bodies, query strings and socket payloads are loosely typed: a
    field may be missing (undefined), null, or a string. The store serialises
    undefined as null, and a null filter value matches a null field, so the
    two are one value here: `Absent`.
 */
module Values {

  datatype Option<+T> = None | Some(value: T)

  /** A client-supplied identifier or text field. */
  datatype Field = Absent | Str(s: string)

  /** JavaScript truthiness of a field: undefined, null and "" are falsy. */
  predicate Truthy(f: Field) {
    f.Str? && f.s != ""
  }

  /** `f || ''`: the field itself when truthy, otherwise the empty string. */
  function OrEmpty(f: Field): (r: Field)
    ensures r.Str?
    ensures Truthy(f) ==> r == f
    ensures !Truthy(f) ==> r == Str("")
  {
    if Truthy(f) then f else Str("")
  }

  predicate NoDuplicates<T(==)>(s: seq<T>) {
    forall i, j :: 0 <= i < j < |s| ==> s[i] != s[j]
  }

  /** Position of the first `x` in `s`, or `|s|` when there is none. */
  function IndexOf<T(==)>(s: seq<T>, x: T): (k: nat)
    ensures k <= |s|
    ensures k < |s| ==> s[k] == x
    ensures forall j :: 0 <= j < k ==> s[j] != x
  {
    if s == [] then 0
    else if s[0] == x then 0
    else 1 + IndexOf(s[1..], x)
  }
}
