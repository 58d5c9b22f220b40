/** Small value types and sequence helpers shared by every component model. */
module Base {

  /** A nullable value (`T | null` or an optional property). */
  datatype Option<T> = None | Some(value: T)

  /** The `{ data, error }` answer of a backend call; the error's contents are not modelled. */
  datatype Result<T> = Ok(value: T) | Err

  /** JavaScript truthiness of a `string | null`: neither null nor the empty string. */
  predicate Truthy(s: Option<string>) {
    s.Some? && s.value != ""
  }

  /** `s || ''` */
  function OrEmpty(s: Option<string>): (r: string)
    ensures Truthy(s) ==> r == s.value
    ensures !Truthy(s) ==> r == ""
  {
    if s.Some? then s.value else ""
  }

  /** `a` can be obtained from `b` by deleting elements, without reordering. */
  predicate IsSubsequence<T(==)>(a: seq<T>, b: seq<T>)
    decreases |b|
  {
    a == [] || (b != [] && ((a[0] == b[0] && IsSubsequence(a[1..], b[1..])) || IsSubsequence(a, b[1..])))
  }

  /** `Array.prototype.filter`: the elements of `s` that `keep` accepts, in their original order. */
  function Filter<T(==,!new)>(s: seq<T>, keep: T -> bool): (r: seq<T>)
    ensures |r| <= |s|
    ensures forall x :: x in r <==> x in s && keep(x)
    ensures IsSubsequence(r, s)
    ensures (forall x :: x in s ==> keep(x)) ==> r == s
  {
    if s == [] then []
    else if keep(s[0]) then [s[0]] + Filter(s[1..], keep)
    else Filter(s[1..], keep)
  }

  /** `filter` keeps every accepted element as many times as it occurs, and none of the others. */
  lemma {:induction false} FilterCounts<T(!new)>(s: seq<T>, keep: T -> bool)
    ensures forall x :: multiset(Filter(s, keep))[x] == if keep(x) then multiset(s)[x] else 0
  {
    if s != [] {
      FilterCounts(s[1..], keep);
      assert s == [s[0]] + s[1..];
    }
  }

  /** Two filters may be applied in either order. */
  lemma {:induction false} FilterCommutes<T(!new)>(s: seq<T>, p: T -> bool, q: T -> bool)
    ensures Filter(Filter(s, p), q) == Filter(Filter(s, q), p)
  {
    if s != [] {
      FilterCommutes(s[1..], p, q);
      if p(s[0]) && q(s[0]) {
        assert Filter(Filter(s, p), q) == [s[0]] + Filter(Filter(s[1..], p), q);
        assert Filter(Filter(s, q), p) == [s[0]] + Filter(Filter(s[1..], q), p);
      } else if p(s[0]) {
        assert Filter(Filter(s, p), q) == Filter(Filter(s[1..], p), q);
      } else if q(s[0]) {
        assert Filter(Filter(s, q), p) == Filter(Filter(s[1..], q), p);
      }
    }
  }

  /** The last element, as `Array.prototype.pop` returns it from a non-empty array. */
  function Last<T>(s: seq<T>): T
    requires |s| > 0
  {
    s[|s| - 1]
  }
}
