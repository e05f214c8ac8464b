/**
 * A JavaScript `Set` of strings: its elements in insertion order. `add` of a new
 * element appends it, `add` of a present one changes nothing, `delete`
 * removes it; spreading (`[...set]`) and `for … of` follow the element order.
 */
module JsSet {
  /** The elements of a set, oldest first. */
  type Elements = seq<string>

  /** No element occurs twice, as in every set that `add` builds from an empty one. */
  predicate Distinct(s: Elements)
  {
    forall i, j :: 0 <= i < j < |s| ==> s[i] != s[j]
  }

  /** `set.add(x)`. */
  function Add(s: Elements, x: string): (r: Elements)
    ensures forall y :: y in r <==> y in s || y == x
    ensures x in s ==> r == s
    ensures x !in s ==> r == s + [x]
    ensures Distinct(s) ==> Distinct(r)
  {
    if x in s then s else s + [x]
  }

  /** `set.delete(x)`: the other elements, in their order. */
  function Remove(s: Elements, x: string): (r: Elements)
    ensures forall y :: y in r <==> y in s && y != x
    ensures |r| <= |s|
    ensures Distinct(s) ==> Distinct(r)
  {
    if s == [] then []
    else
      assert Distinct(s) ==> Distinct(s[1..]) && s[0] !in s[1..] by {
        if Distinct(s) {
          forall i, j | 0 <= i < j < |s| - 1
            ensures s[1..][i] != s[1..][j]
          {
            assert s[1..][i] == s[i + 1] && s[1..][j] == s[j + 1];
          }
        }
      }
      if s[0] == x then Remove(s[1..], x)
      else [s[0]] + Remove(s[1..], x)
  }
}
