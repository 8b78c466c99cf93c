/** Small building blocks shared by every module: an optional value, the
    Python errors the model raises, and Python's ordered `dict` as an
    association list. */
module Base {

  /** A value that may be absent; `None` stands for Python's `None` and for
      the library's `NOTHING` sentinel alike. */
  datatype Option<+T> = None | Some(value: T)

  /** The built-in exceptions the modelled code can raise itself. */
  datatype PyError = IndexError

  /** Either a value or a raised error. */
  datatype Result<+T> = Done(value: T) | Raised(error: PyError)

  /** True iff `x` occurs in `s` (Python's `x in s`). */
  predicate Contains<T(==)>(s: seq<T>, x: T) {
    x in s
  }

  /** Every element of `s` occurs once. */
  predicate Distinct<T(==)>(s: seq<T>) {
    forall i, j :: 0 <= i < j < |s| ==> s[i] != s[j]
  }

  /** Position of the first occurrence of `x` in `s` (Python's `list.index`). */
  function IndexOf<T(==)>(s: seq<T>, x: T): (i: nat)
    requires x in s
    ensures i < |s| && s[i] == x
    ensures forall j :: 0 <= j < i ==> s[j] != x
  {
    if s[0] == x then 0 else 1 + IndexOf(s[1..], x)
  }

  /** Python's `list.insert(i, x)` for `0 <= i <= len`. */
  function InsertAt<T>(s: seq<T>, i: nat, x: T): (r: seq<T>)
    requires i <= |s|
    ensures |r| == |s| + 1 && r[i] == x
    ensures forall j {:trigger r[j]} :: 0 <= j < i ==> r[j] == s[j]
    ensures forall j {:trigger r[j]} :: i < j < |r| ==> r[j] == s[j - 1]
  {
    s[..i] + [x] + s[i..]
  }

  /** Python's `del s[i]`. */
  function RemoveAt<T>(s: seq<T>, i: nat): (r: seq<T>)
    requires i < |s|
    ensures |r| == |s| - 1
    ensures forall j {:trigger r[j]} :: 0 <= j < i ==> r[j] == s[j]
    ensures forall j {:trigger r[j]} :: i <= j < |r| ==> r[j] == s[j + 1]
  {
    s[..i] + s[i + 1..]
  }

  /** The elements of `s` that satisfy `p`, in order. */
  function Filter<T>(s: seq<T>, p: T -> bool): (r: seq<T>)
    ensures |r| <= |s|
    ensures forall i :: 0 <= i < |r| ==> r[i] in s && p(r[i])
    ensures forall i :: 0 <= i < |s| && p(s[i]) ==> s[i] in r
  {
    if s == [] then []
    else if p(s[0]) then [s[0]] + Filter(s[1..], p)
    else Filter(s[1..], p)
  }

  /** Removing one element keeps the rest distinct. */
  lemma RemoveAtDistinct<T>(s: seq<T>, i: nat)
    requires i < |s| && Distinct(s)
    ensures Distinct(RemoveAt(s, i))
    ensures forall x :: x in RemoveAt(s, i) <==> x in s && x != s[i]
  {
    var r := RemoveAt(s, i);
    forall x | x in s && x != s[i] ensures x in r {
      var k :| 0 <= k < |s| && s[k] == x;
      if k < i { assert r[k] == x; } else { assert r[k - 1] == x; }
    }
  }

  /** Inserting a new element keeps the sequence distinct. */
  lemma InsertAtDistinct<T>(s: seq<T>, i: nat, x: T)
    requires i <= |s| && Distinct(s) && x !in s
    ensures Distinct(InsertAt(s, i, x))
    ensures forall y :: y in InsertAt(s, i, x) <==> y in s || y == x
  {
    var r := InsertAt(s, i, x);
    assert r == s[..i] + [x] + s[i..];
    forall y | y in s ensures y in r {
      var k :| 0 <= k < |s| && s[k] == y;
      if k < i { assert r[k] == y; } else { assert r[k + 1] == y; }
    }
  }

  /** Two distinct sequences with no common element concatenate to a
      distinct sequence. */
  lemma DistinctConcat<T>(a: seq<T>, b: seq<T>)
    requires Distinct(a) && Distinct(b)
    requires forall x :: x in a ==> x !in b
    ensures Distinct(a + b)
  {
    var s := a + b;
    forall i, j | 0 <= i < j < |s| ensures s[i] != s[j] {
      if i < |a| && j >= |a| {
        assert s[i] in a && s[j] == b[j - |a|];
      } else if i >= |a| {
        assert s[i] == b[i - |a|] && s[j] == b[j - |a|];
      }
    }
  }

  /** A distinct sequence has as many elements as the set of its elements. */
  lemma {:induction false} DistinctCard<T>(s: seq<T>)
    requires Distinct(s)
    ensures |set x | x in s| == |s|
  {
    if s != [] {
      var rest := s[1..];
      assert Distinct(rest) by {
        forall i, j | 0 <= i < j < |rest| ensures rest[i] != rest[j] {
          assert rest[i] == s[i + 1] && rest[j] == s[j + 1];
        }
      }
      DistinctCard(rest);
      assert s[0] !in rest;
      assert (set x | x in s) == (set x | x in rest) + {s[0]};
    }
  }

  /** The three pieces of a distinct sequence cut at `a <= b` are distinct
      and share no element. */
  lemma DistinctPieces<T>(s: seq<T>, a: nat, b: nat)
    requires a <= b <= |s| && Distinct(s)
    ensures Distinct(s[..a]) && Distinct(s[a..b]) && Distinct(s[b..])
    ensures forall x :: x in s[..a] ==> x !in s[a..b] && x !in s[b..]
    ensures forall x :: x in s[a..b] ==> x !in s[b..]
  {
    forall x | x in s[..a] ensures x !in s[a..b] && x !in s[b..] {
      var i :| 0 <= i < a && s[i] == x;
      assert forall j :: a <= j < |s| ==> s[j] != x;
    }
    forall x | x in s[a..b] ensures x !in s[b..] {
      var i :| a <= i < b && s[i] == x;
      assert forall j :: b <= j < |s| ==> s[j] != x;
    }
  }

  /** Replacing the range `[a, b)` of a distinct sequence by distinct
      elements that are new or come from that range keeps it distinct. */
  lemma SpliceDistinct<T>(s: seq<T>, a: nat, b: nat, vs: seq<T>)
    requires a <= b <= |s| && Distinct(s) && Distinct(vs)
    requires forall v :: v in vs ==> v !in s || v in s[a..b]
    ensures Distinct(s[..a] + vs + s[b..])
  {
    DistinctPieces(s, a, b);
    assert s == s[..a] + s[a..b] + s[b..];
    forall x | x in s[..a] ensures x !in vs {
      assert x in s && x !in s[a..b];
    }
    DistinctConcat(s[..a], vs);
    forall x | x in s[b..] ensures x !in s[..a] + vs {
      assert x in s && x !in s[a..b];
    }
    DistinctConcat(s[..a] + vs, s[b..]);
  }

  // ---------------------------------------------------------------------
  // Python list indexing
  // ---------------------------------------------------------------------

  /** The position `s[i]` denotes in a list of length `n`: a negative index
      counts from the end; `None` is Python's IndexError. */
  function NormIndex(i: int, n: nat): (r: Option<nat>)
    ensures r.Some? <==> 0 <= i + n && i < n
    ensures r.Some? ==> r.value < n && r.value % n == i % n
  {
    if 0 <= i < n then Some(i)
    else if 0 <= i + n && i < 0 then Some(i + n)
    else None
  }

  /** The position `list.insert(i, x)` puts `x` at: a negative index counts
      from the end and the result is clamped into `0..n`. */
  function ClampInsert(i: int, n: nat): (p: nat)
    ensures p <= n
    ensures 0 <= i <= n ==> p == i
    ensures 0 <= i + n && i < 0 ==> p == i + n
    ensures i + n < 0 ==> p == 0
    ensures i > n ==> p == n
  {
    if i < 0 then (if i + n < 0 then 0 else i + n)
    else if i > n then n
    else i
  }

  /** One bound of a step-1 slice `s[lo:hi]`, with `dflt` standing for an
      omitted bound. */
  function SliceBound(b: Option<int>, dflt: nat, n: nat): (p: nat)
    requires dflt <= n
    ensures p <= n
  {
    match b
    case None => dflt
    case Some(k) => ClampInsert(k, n)
  }

  /** The half-open range `[a, b)` a step-1 slice covers; an empty range
      `hi <= lo` sits at `lo`. */
  function SliceRange(lo: Option<int>, hi: Option<int>, n: nat): (r: (nat, nat))
    ensures r.0 <= r.1 <= n
    ensures lo.None? ==> r.0 == 0
    ensures hi.None? ==> r.1 == n
    ensures lo.Some? && 0 <= lo.value <= n ==> r.0 == lo.value
    ensures hi.Some? && r.0 <= hi.value <= n ==> r.1 == hi.value
  {
    var a := SliceBound(lo, 0, n);
    var b := SliceBound(hi, n, n);
    (a, if b < a then a else b)
  }
}
