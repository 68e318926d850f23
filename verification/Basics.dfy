/** Vocabulary shared by the other modules. */
module Basics {

  function Min(a: int, b: int): int { if a <= b then a else b }

  function Max(a: int, b: int): int { if a <= b then b else a }

  newtype byte = x: int | 0 <= x < 256

  type Bytes = seq<byte>

  datatype Option<+T> = None | Some(value: T)

  /** Overwrites `s` with `t` from position `pos` on. */
  function Splice<T>(s: seq<T>, pos: nat, t: seq<T>): (r: seq<T>)
    requires pos + |t| <= |s|
    ensures |r| == |s|
  {
    s[..pos] + t + s[pos + |t|..]
  }

  ghost predicate NoDup<T>(s: seq<T>) {
    forall i, j | 0 <= i < j < |s| :: s[i] != s[j]
  }

  ghost predicate Ascending(s: seq<nat>) {
    forall i, j | 0 <= i < j < |s| :: s[i] < s[j]
  }

  lemma SameElements<T>(r: seq<T>, s: seq<T>)
    requires multiset(r) == multiset(s)
    ensures |r| == |s| && forall x :: x in r <==> x in s
    ensures NoDup(s) ==> NoDup(r)
  {
    assert |multiset(r)| == |r| && |multiset(s)| == |s|;
    forall x ensures x in r <==> x in s {
      assert x in r <==> x in multiset(r);
      assert x in s <==> x in multiset(s);
    }
    if NoDup(s) {
      forall x ensures multiset(r)[x] <= 1 { OnceInSeq(s, x); }
      forall i, j | 0 <= i < j < |r| ensures r[i] != r[j] {
        assert r == r[..j] + [r[j]] + r[j + 1..];
        assert multiset(r) == multiset(r[..j]) + multiset{r[j]} + multiset(r[j + 1..]);
        assert multiset(r)[r[j]] == multiset(r[..j])[r[j]] + 1 + multiset(r[j + 1..])[r[j]];
        assert r[i] == r[..j][i] && r[i] in multiset(r[..j]);
      }
    }
  }

  lemma {:induction false} OnceInSeq<T>(s: seq<T>, x: T)
    requires NoDup(s)
    ensures multiset(s)[x] <= 1
  {
    if s != [] {
      assert s == [s[0]] + s[1..];
      assert NoDup(s[1..]) && s[0] !in s[1..];
      OnceInSeq(s[1..], x);
      if x == s[0] { assert x !in multiset(s[1..]); }
    }
  }

  /** list.remove: `l` without the first `r`, if there is one. */
  function Removed<T(==)>(l: seq<T>, r: T): seq<T> {
    if l == [] then [] else if l[0] == r then l[1..] else [l[0]] + Removed(l[1..], r)
  }

  lemma {:induction false} RemovedFacts<T>(l: seq<T>, r: T)
    requires NoDup(l)
    ensures NoDup(Removed(l, r)) && forall x :: x in Removed(l, r) <==> x in l && x != r
    ensures |Removed(l, r)| == |l| - if r in l then 1 else 0
  {
    if l != [] {
      assert l == [l[0]] + l[1..] && NoDup(l[1..]) && l[0] !in l[1..];
      if l[0] != r { RemovedFacts(l[1..], r); }
    }
  }

  lemma {:induction false} RemovedSubset<T>(l: seq<T>, r: T)
    ensures forall x | x in Removed(l, r) :: x in l
  {
    if l != [] {
      RemovedSubset(l[1..], r);
    }
  }

  lemma {:induction false} RemovedAbsent<T>(l: seq<T>, r: T)
    requires r !in l
    ensures Removed(l, r) == l
  {
    if l != [] {
      RemovedAbsent(l[1..], r);
    }
  }

  lemma Regroup<T>(a: seq<T>, b: seq<T>, c: seq<T>)
    ensures a + (b + c) == a + b + c
  {
  }
}
