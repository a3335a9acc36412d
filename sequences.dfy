/**
 * Sequence operations the dashboard borrows from lodash and from JavaScript's
 * arrays: `dropWhile`, one-argument `Array.prototype.slice`, and the search
 * for the first position of an element.
 */
module Sequences {

  /** No element occurs twice. */
  predicate NoDup<T(==)>(s: seq<T>)
  {
    forall i, j :: 0 <= i < j < |s| ==> s[i] != s[j]
  }

  /** lodash `dropWhile`: drop elements from the front as long as `p` holds. */
  function DropWhile<T>(s: seq<T>, p: T -> bool): (r: seq<T>)
    ensures |r| <= |s| && r == s[|s| - |r|..]
    ensures forall i :: 0 <= i < |s| - |r| ==> p(s[i])
    ensures r != [] ==> !p(r[0])
  {
    if s == [] || !p(s[0]) then s else DropWhile(s[1..], p)
  }

  /**
   * `s.slice(start)` of JavaScript: a negative `start` counts from the end,
   * and the start position is clamped to the bounds of `s`.  Since `-0` is
   * `0`, `s.slice(-0)` is all of `s`.
   */
  function Slice<T>(s: seq<T>, start: int): (r: seq<T>)
    ensures |r| <= |s| && r == s[|s| - |r|..]
    ensures 0 <= start ==> |r| == if start <= |s| then |s| - start else 0
    ensures start < 0 ==> |r| == if -start <= |s| then -start else |s|
  {
    if start < 0 then
      if |s| + start < 0 then s else s[|s| + start..]
    else if start <= |s| then s[start..]
    else []
  }

  /** A non-negative start drops that many elements, or all of them. */
  lemma SliceFrom<T>(s: seq<T>, start: nat)
    ensures Slice(s, start) == s[if start <= |s| then start else |s|..]
  {
  }

  /**
   * `s.slice(-n)` keeps the last `n` elements, or all of them when there
   * are fewer; for `n == 0` it keeps all of them too, since `-0` is `0`.
   */
  lemma SliceFromEnd<T>(s: seq<T>, n: nat)
    ensures n == 0 ==> Slice(s, -(n as int)) == s
    ensures 0 < n ==> Slice(s, -(n as int)) == s[if n <= |s| then |s| - n else 0..]
  {
    if n == 0 {
      assert s[0..] == s;
    }
  }

  /** The position of the first occurrence of `x` in `s`. */
  function FirstIndex<T(==)>(s: seq<T>, x: T): (k: nat)
    requires x in s
    ensures k < |s| && s[k] == x && x !in s[..k]
  {
    if s[0] == x then 0
    else
      var k := FirstIndex(s[1..], x);
      assert s[1..][..k] == s[1..k + 1];
      1 + k
  }

  /** A position holding `x` with no `x` before it is the first index of `x`. */
  lemma FirstIndexUnique<T>(s: seq<T>, x: T, k: nat)
    requires k < |s| && s[k] == x && x !in s[..k]
    ensures FirstIndex(s, x) == k
  {
  }

  /** The first index of an element of a prefix is the same in the whole sequence. */
  lemma FirstIndexPrefix<T>(s: seq<T>, k: nat, x: T)
    requires k <= |s| && x in s[..k]
    ensures FirstIndex(s, x) == FirstIndex(s[..k], x) < k
  {
    var f := FirstIndex(s[..k], x);
    assert s[..k][..f] == s[..f];
    FirstIndexUnique(s, x, f);
  }
}
