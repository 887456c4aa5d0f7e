/** Small shared vocabulary: an Option type and facts about sequences used as
    append-only lists of identifiers. */
module Common {

  /** A value that may be absent (JavaScript's `undefined`, or a result that
      is not a finite number). */
  datatype Option<+T> = None | Some(value: T)

  /** Number of occurrences of `x` in `s`. */
  function Count<T(==)>(s: seq<T>, x: T): (n: nat)
    ensures n <= |s|
    ensures n == 0 <==> x !in s
  {
    if s == [] then 0 else (if s[0] == x then 1 else 0) + Count(s[1..], x)
  }

  lemma {:induction false} CountAppend<T>(s: seq<T>, t: seq<T>, x: T)
    ensures Count(s + t, x) == Count(s, x) + Count(t, x)
  {
    if s == [] {
      assert s + t == t;
    } else {
      assert (s + t)[1..] == s[1..] + t;
      CountAppend(s[1..], t, x);
    }
  }

  /** The list without its `k`-th element (a fired timer leaves the list of
      pending ones). */
  function Without<T>(s: seq<T>, k: nat): (r: seq<T>)
    requires k < |s|
    ensures |r| == |s| - 1
    ensures r[..k] == s[..k] && r[k..] == s[k + 1..]
  {
    s[..k] + s[k + 1..]
  }

  /** Values drawn from `Math.random()`: each lies in [0, 1). */
  predicate Randoms(rand: seq<real>)
  {
    forall i :: 0 <= i < |rand| ==> 0.0 <= rand[i] < 1.0
  }

  /** Removing the element at position `k` removes one occurrence of it. */
  lemma CountRemoveAt<T>(s: seq<T>, k: nat, x: T)
    requires k < |s|
    ensures Count(Without(s, k), x) == Count(s, x) - (if s[k] == x then 1 else 0)
  {
    var a, b, c := s[..k], [s[k]], s[k + 1..];
    assert Without(s, k) == a + c;
    assert s == a + (b + c);
    CountAppend(a, b + c, x);
    CountAppend(b, c, x);
    CountAppend(a, c, x);
    assert Count(b, x) == if s[k] == x then 1 else 0 by {
      assert b[1..] == [];
    }
  }

  /** The identifiers that occur in `s`. */
  function Elems<T>(s: seq<T>): set<T>
  {
    set x | x in s
  }

  /** No identifier occurs twice. */
  predicate NoDupes<T(==)>(s: seq<T>)
  {
    forall i, j :: 0 <= i < j < |s| ==> s[i] != s[j]
  }

  /** `s.filter(y => y !== x)`: every occurrence of `x` goes, everything else
      stays with its multiplicity. */
  function RemoveAll<T(==,!new)>(s: seq<T>, x: T): (r: seq<T>)
    ensures x !in r
    ensures forall y :: y != x ==> Count(r, y) == Count(s, y)
    ensures |r| == |s| - Count(s, x)
  {
    if s == [] then []
    else if s[0] == x then RemoveAll(s[1..], x)
    else [s[0]] + RemoveAll(s[1..], x)
  }

  /** A list without duplicates has as many elements as its set. */
  lemma {:induction false} DistinctCardinality<T>(s: seq<T>)
    requires NoDupes(s)
    ensures |Elems(s)| == |s|
  {
    if s != [] {
      var t := s[1..];
      assert NoDupes(t) by {
        forall i, j | 0 <= i < j < |t| ensures t[i] != t[j] {
          assert t[i] == s[i + 1] && t[j] == s[j + 1];
        }
      }
      DistinctCardinality(t);
      assert s == [s[0]] + t;
      assert Elems(s) == {s[0]} + Elems(t);
      assert s[0] !in Elems(t);
    }
  }

  /** A duplicate-free list drawn from `u` is no longer than `u`; it is exactly
      as long as `u` (duplicate-free) when it holds every element of `u`. */
  lemma DistinctSubset<T>(s: seq<T>, u: seq<T>)
    requires NoDupes(s) && NoDupes(u) && Elems(s) <= Elems(u)
    ensures |s| <= |u|
    ensures |s| == |u| <==> Elems(s) == Elems(u)
  {
    DistinctCardinality(s);
    DistinctCardinality(u);
    var a, b := Elems(s), Elems(u);
    assert |a| <= |b| by { SubsetCardinality(a, b); }
    if |a| == |b| && a != b {
      var x :| x in b && x !in a;
      assert a <= b - {x};
      SubsetCardinality(a, b - {x});
    }
  }

  lemma SubsetCardinality<T>(a: set<T>, b: set<T>)
    requires a <= b
    ensures |a| <= |b|
  {
    assert b == a + (b - a);
  }
}
