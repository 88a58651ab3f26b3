/** The pagination rule shared by the holder listing and both question
    listings: ascending key order, an optional exclusive start cursor, and a
    page size of `limit.unwrap_or(10).min(30)`. */
module Paging {
  import opened Wrappers
  import opened Ordering
  import opened Chain

  const DefaultLimit: nat := 10
  const MaxLimit: nat := 30

  function Min(a: nat, b: nat): nat {
    if a < b then a else b
  }

  /** The page size: `limit.unwrap_or(DEFAULT_QUERY_LIMIT).min(MAX_QUERY_LIMIT)`. */
  function PageSize(limit: Option<U32>): (n: nat)
    ensures n <= MaxLimit
    ensures limit.None? ==> n == DefaultLimit
    ensures limit.Some? && limit.value <= MaxLimit ==> n == limit.value
    ensures limit.Some? && limit.value >= MaxLimit ==> n == MaxLimit
  {
    Min(limit.GetOr(DefaultLimit), MaxLimit)
  }

  /** `m` is the least element of `s` under `less`. */
  predicate IsLeast<T(==)>(m: T, s: set<T>, less: (T, T) -> bool) {
    m in s && forall y :: y in s && y != m ==> less(m, y)
  }

  /** A finite non-empty set has a least element under a strict total order. */
  lemma {:induction false} LeastExists<T(!new)>(s: set<T>, less: (T, T) -> bool)
    requires s != {} && StrictTotalOrder(less)
    ensures exists m :: IsLeast(m, s, less)
    decreases s
  {
    var x :| x in s;
    if s == {x} {
      assert IsLeast(x, s, less);
    } else {
      var rest := s - {x};
      LeastExists(rest, less);
      var m :| IsLeast(m, rest, less);
      if less(m, x) {
        assert IsLeast(m, s, less);
      } else {
        assert less(x, m);
        forall y | y in s && y != x
          ensures less(x, y)
        {
          if y != m {
            assert less(m, y);
          }
        }
        assert IsLeast(x, s, less);
      }
    }
  }

  function Least<T(!new)>(s: set<T>, less: (T, T) -> bool): (m: T)
    requires s != {} && StrictTotalOrder(less)
    ensures m in s && forall y :: y in s && y != m ==> less(m, y)
  {
    LeastExists(s, less);
    var m :| IsLeast(m, s, less);
    m
  }

  /** The `n` smallest elements of `s`, in ascending order. */
  function Smallest<T(!new)>(s: set<T>, n: nat, less: (T, T) -> bool): (r: seq<T>)
    requires StrictTotalOrder(less)
    ensures |r| == Min(|s|, n)
    ensures forall i :: 0 <= i < |r| ==> r[i] in s
    ensures forall i, j :: 0 <= i < j < |r| ==> less(r[i], r[j])
    ensures forall i, y :: 0 <= i < |r| && y in s && y !in r ==> less(r[i], y)
    ensures |s| <= n ==> forall y :: y in s ==> y in r
    decreases n
  {
    if n == 0 || s == {} then []
    else
      var m := Least(s, less);
      [m] + Smallest(s - {m}, n - 1, less)
  }

  /** The keys strictly after the cursor, or all keys without one
      (`Bound::exclusive`). */
  function After<T(!new)>(s: set<T>, start: Option<T>, less: (T, T) -> bool): (e: set<T>)
    ensures forall k :: k in e <==> k in s && (start.Some? ==> less(start.value, k))
  {
    set k | k in s && (start.None? || less(start.value, k))
  }

  /** One page of an ascending range over the keys `s`. */
  function Page<T(!new)>(s: set<T>, less: (T, T) -> bool, start: Option<T>, limit: Option<U32>): (r: seq<T>)
    requires StrictTotalOrder(less)
    ensures |r| == Min(|After(s, start, less)|, PageSize(limit))
    ensures forall i :: 0 <= i < |r| ==> r[i] in s
    ensures start.Some? ==> forall i :: 0 <= i < |r| ==> less(start.value, r[i])
    ensures forall i, j :: 0 <= i < j < |r| ==> less(r[i], r[j])
    ensures forall i, y :: 0 <= i < |r| && y in After(s, start, less) && y !in r ==> less(r[i], y)
    ensures start.None? ==> |r| == Min(|s|, PageSize(limit))
    ensures start.None? && |s| <= PageSize(limit) ==> forall k :: k in s <==> k in r
  {
    assert start.None? ==> After(s, start, less) == s;
    Smallest(After(s, start, less), PageSize(limit), less)
  }

  /** The cursor itself never reappears on the page after it. */
  lemma PageExcludesCursor<T(!new)>(s: set<T>, less: (T, T) -> bool, cursor: T, limit: Option<U32>)
    requires StrictTotalOrder(less)
    ensures cursor !in Page(s, less, Some(cursor), limit)
  {
  }
}
