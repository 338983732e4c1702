/** Small building blocks shared by the model of the menu-item options modal. */
module Basics {

  /** A value that may be missing: `undefined`/`null` in the component. */
  datatype Option<T> = None | Some(value: T)

  /** The index of the first element of `s` that satisfies `p`, if any.
      This is what a `for` loop with a `break` on the first match, and
      `filter(p)[0]`, both pick. */
  function FirstWhere<T>(s: seq<T>, p: T -> bool): (r: Option<nat>)
    ensures r.Some? ==> r.value < |s| && p(s[r.value])
    ensures r.Some? ==> forall j :: 0 <= j < r.value ==> !p(s[j])
    ensures r.None? ==> forall j :: 0 <= j < |s| ==> !p(s[j])
  {
    if |s| == 0 then None
    else if p(s[0]) then Some(0)
    else match FirstWhere(s[1..], p)
      case None => None
      case Some(k) => Some(k + 1)
  }

  /** The number of `true` entries of `s`. */
  function CountTrue(s: seq<bool>): (n: nat)
    ensures n <= |s|
  {
    if |s| == 0 then 0 else (if s[0] then 1 else 0) + CountTrue(s[1..])
  }

  /** Overwriting one entry changes the count by exactly that entry. */
  lemma {:induction false} CountTrueUpdate(s: seq<bool>, i: nat, b: bool)
    requires i < |s|
    ensures CountTrue(s[i := b]) == CountTrue(s) - (if s[i] then 1 else 0) + (if b then 1 else 0)
  {
    if i > 0 {
      assert s[i := b][1..] == s[1..][i - 1 := b];
      CountTrueUpdate(s[1..], i - 1, b);
    } else {
      assert s[i := b][1..] == s[1..];
    }
  }

  /** Splitting off the first entry of a suffix. */
  lemma CountTrueSuffix(s: seq<bool>, j: nat)
    requires j < |s|
    ensures CountTrue(s[j..]) == (if s[j] then 1 else 0) + CountTrue(s[j + 1..])
  {
    assert s[j..][1..] == s[j + 1..];
  }
}
