/** Values shared by every part of the model. */
module Base {

  datatype Option<+T> = None | Some(value: T)

  /** The pair (owner_type, owner_id) that every owner-scoped table is keyed by. */
  datatype Owner = Owner(kind: string, id: int)

  /** A count that grows, if at all, at `x` alone. */
  ghost predicate GrowsAt<T(!new)>(before: multiset<T>, after: multiset<T>, x: T) {
    before[x] <= after[x] && forall y :: y != x ==> after[y] == before[y]
  }

  /** No value occurs twice. */
  ghost predicate Distinct<T(!new)>(s: seq<T>) {
    forall i, j :: 0 <= i < j < |s| ==> s[i] != s[j]
  }
}
