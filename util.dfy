/**
 * Small sequence helpers shared by the model: an Option type, distinctness,
 * removal of keys from an insertion order, reversal and first-occurrence
 * de-duplication.
 */
module Util {

  datatype Option<+T> = None | Some(value: T)

  function Min(a: int, b: int): int
  {
    if a <= b then a else b
  }

  /** No element occurs twice. */
  predicate Distinct<T(==)>(s: seq<T>)
  {
    forall i, j | 0 <= i < j < |s| :: s[i] != s[j]
  }

  /** Distinctness of a sequence with a first element. */
  lemma DistinctCons<T>(a: T, s: seq<T>)
    ensures Distinct([a] + s) <==> a !in s && Distinct(s)
  {
    var r := [a] + s;
    if a !in s && Distinct(s) {
      forall i, j | 0 <= i < j < |r| ensures r[i] != r[j] {
        if i == 0 { assert r[j] == s[j - 1]; }
        else { assert r[i] == s[i - 1] && r[j] == s[j - 1]; }
      }
    }
    if Distinct(r) {
      forall i, j | 0 <= i < j < |s| ensures s[i] != s[j] {
        assert s[i] == r[i + 1] && s[j] == r[j + 1];
      }
    }
    if a in s {
      var k :| 0 <= k < |s| && s[k] == a;
      assert r[0] == r[k + 1];
    }
  }

  /** Distinctness of a sequence with a last element. */
  lemma DistinctSnoc<T>(s: seq<T>, a: T)
    ensures Distinct(s + [a]) <==> a !in s && Distinct(s)
  {
    var r := s + [a];
    if a !in s && Distinct(s) {
      forall i, j | 0 <= i < j < |r| ensures r[i] != r[j] {
        if j == |s| { assert r[i] == s[i]; }
        else { assert r[i] == s[i] && r[j] == s[j]; }
      }
    }
    if Distinct(r) {
      forall i, j | 0 <= i < j < |s| ensures s[i] != s[j] {
        assert s[i] == r[i] && s[j] == r[j];
      }
    }
    if a in s {
      var k :| 0 <= k < |s| && s[k] == a;
      assert r[k] == r[|s|];
    }
  }

  /** `s` with every occurrence of `x` dropped (for a distinct `s`: the one occurrence). */
  function Without<T(==,!new)>(s: seq<T>, x: T): (r: seq<T>)
    ensures forall y :: y in r <==> y in s && y != x
    ensures |r| <= |s|
    ensures Distinct(s) ==> Distinct(r)
    ensures x !in s ==> r == s
  {
    if s == [] then []
    else
      assert forall y :: y in s <==> y == s[0] || y in s[1..];
      assert s == [s[0]] + s[1..];
      DistinctCons(s[0], s[1..]);
      var rest := Without(s[1..], x);
      DistinctCons(s[0], rest);
      if s[0] == x then rest else [s[0]] + rest
  }

  /** The elements of `s` that are keys of `m`, in the order of `s`. */
  function Kept<T(==,!new), U>(s: seq<T>, m: map<T, U>): (r: seq<T>)
    ensures forall y :: y in r <==> y in s && y in m
    ensures Distinct(s) ==> Distinct(r)
  {
    if s == [] then []
    else
      assert forall y :: y in s <==> y == s[0] || y in s[1..];
      assert s == [s[0]] + s[1..];
      DistinctCons(s[0], s[1..]);
      var rest := Kept(s[1..], m);
      DistinctCons(s[0], rest);
      if s[0] in m then [s[0]] + rest else rest
  }

  /** Keeping the keys of a map that holds every element of `s` keeps all of `s`. */
  lemma {:induction false} KeptAll<T(!new), U>(s: seq<T>, m: map<T, U>)
    requires forall y | y in s :: y in m
    ensures Kept(s, m) == s
  {
    if s != [] {
      KeptAll(s[1..], m);
    }
  }

  /** Dropping `x` from what is kept is keeping the keys of `m` without `x`. */
  lemma {:induction false} WithoutKept<T(!new), U>(s: seq<T>, m: map<T, U>, x: T)
    ensures Without(Kept(s, m), x) == Kept(s, m - {x})
  {
    if s != [] {
      WithoutKept(s[1..], m, x);
      var rest := Kept(s[1..], m);
      if s[0] in m {
        assert ([s[0]] + rest)[1..] == rest;
      }
    }
  }

  /** The elements of `s` in the opposite order. */
  function Reverse<T>(s: seq<T>): (r: seq<T>)
    ensures |r| == |s|
    ensures forall i | 0 <= i < |s| :: r[i] == s[|s| - 1 - i]
  {
    if s == [] then [] else Reverse(s[1..]) + [s[0]]
  }

  /** The first occurrence of every element of `s`, in the order of `s`. */
  function Dedup<T(==,!new)>(s: seq<T>): (r: seq<T>)
    ensures forall x :: x in r <==> x in s
    ensures Distinct(r)
  {
    if s == [] then []
    else
      var init, last := s[..|s| - 1], s[|s| - 1];
      assert s == init + [last];
      DistinctSnoc(Dedup(init), last);
      if last in init then Dedup(init) else Dedup(init) + [last]
  }

  /** De-duplicating a sequence with one more element: it is appended unless already present. */
  lemma DedupSnoc<T(!new)>(s: seq<T>, x: T)
    ensures Dedup(s + [x]) == if x in Dedup(s) then Dedup(s) else Dedup(s) + [x]
  {
    assert (s + [x])[..|s + [x]| - 1] == s;
  }

  /** Concatenation is associative. */
  lemma AppendAssoc<T>(a: seq<T>, b: seq<T>, c: seq<T>)
    ensures a + (b + c) == (a + b) + c
  {
  }
}
