/** Heap sort of 32-bit numbers, in place. The heap is numbered from 1: element `i` is `a[i - 1]`, and its children
    are the elements `2 * i` and `2 * i + 1`. */
module Sorting {
  newtype uint32 = x: int | 0 <= x < 0x1_0000_0000

  /** Element `i` of the heap. */
  function El(s: seq<uint32>, i: nat): uint32
    requires 1 <= i <= |s|
  {
    s[i - 1]
  }

  /** Node `c` is in order with its parent, except for what concerns the hole `k`: `temp` may be put there as far as
      the parent is concerned, and so may the children of the hole. */
  ghost predicate InOrder(s: seq<uint32>, from: nat, k: nat, temp: uint32, c: nat)
    requires 2 <= c <= |s| && k <= |s| && 1 <= from
  {
    if c == k then El(s, c / 2) >= temp
    else if c / 2 == k then (k / 2 >= from ==> El(s, k / 2) >= El(s, c))
    else El(s, c / 2) >= El(s, c)
  }

  /** Below the nodes from `from` on, every node is at least as large as its children; `k` is a hole, 0 for none. */
  ghost predicate Heap(s: seq<uint32>, from: nat, size: nat, k: nat, temp: uint32) {
    && size <= |s| && k <= |s| && 1 <= from
    && forall c | 2 <= c <= size && c / 2 >= from :: InOrder(s, from, k, temp, c)
  }

  /** The hole goes down to its larger child `c`. */
  lemma Descend(s: seq<uint32>, from: nat, size: nat, k: nat, temp: uint32, c: nat)
    requires Heap(s, from, size, k, temp) && from <= k && c / 2 == k && c <= size && temp < El(s, c)
    requires forall d | 2 <= d <= size && d / 2 == k :: El(s, d) <= El(s, c)
    ensures Heap(s[k - 1 := El(s, c)], from, size, c, temp)
  {
    var s' := s[k - 1 := El(s, c)];
    forall d | 2 <= d <= size && d / 2 >= from ensures InOrder(s', from, c, temp, d) {
      assert InOrder(s, from, k, temp, d);
      assert El(s', d) == if d == k then El(s, c) else El(s, d);
      assert El(s', d / 2) == if d / 2 == k then El(s, c) else El(s, d / 2);
      if d / 2 == k { assert El(s, d) <= El(s, c); }
      if d == k { assert InOrder(s, from, k, temp, c); }
    }
  }

  /** The hole is filled. */
  lemma Fill(s: seq<uint32>, from: nat, size: nat, k: nat, temp: uint32)
    requires Heap(s, from, size, k, temp) && from <= k <= |s|
    requires forall d | 2 <= d <= size && d / 2 == k :: El(s, d) <= temp
    ensures Heap(s[k - 1 := temp], from, size, 0, 0)
  {
    var s' := s[k - 1 := temp];
    forall d | 2 <= d <= size && d / 2 >= from ensures InOrder(s', from, 0, 0, d) {
      assert InOrder(s, from, k, temp, d);
      assert El(s', d) == if d == k then temp else El(s, d);
      assert El(s', d / 2) == if d / 2 == k then temp else El(s, d / 2);
      if d / 2 == k { assert El(s, d) <= temp; }
    }
  }

  /** Any node can be taken as a hole if nothing is known above it. */
  lemma Dig(s: seq<uint32>, size: nat, k: nat)
    requires 1 <= k && 2 * k <= size && Heap(s, k + 1, size, 0, 0)
    ensures Heap(s, k, size, k, El(s, k))
  {
    forall c | 2 <= c <= size && c / 2 >= k ensures InOrder(s, k, k, El(s, k), c) {
      if c / 2 > k { assert InOrder(s, k + 1, 0, 0, c); }
    }
  }

  lemma {:induction false} RootLargest(s: seq<uint32>, size: nat, i: nat)
    requires Heap(s, 1, size, 0, 0) && 1 <= i <= size
    ensures El(s, i) <= El(s, 1)
  {
    if i > 1 {
      assert InOrder(s, 1, 0, 0, i);
      RootLargest(s, size, i / 2);
    }
  }

  /** From the third level on, every node is at most as large as one of the two below the root. */
  lemma {:induction false} BelowTheTwo(s: seq<uint32>, size: nat, i: nat)
    requires Heap(s, 1, size, 0, 0) && 2 <= i <= size && 3 <= size
    ensures El(s, i) <= El(s, 2) || El(s, i) <= El(s, 3)
  {
    if i > 3 {
      assert InOrder(s, 1, 0, 0, i);
      BelowTheTwo(s, size, i / 2);
    }
  }

  /** The shortcut: the root and the last element are taken out, the larger child `k` becomes the root without being
      compared with the last element, and where it was is the hole for that one. */
  lemma Promote(s: seq<uint32>, size: nat, k: nat)
    requires Heap(s, 1, size, 0, 0) && 3 < size && k == if El(s, 3) > El(s, 2) then 3 else 2
    ensures Heap(s[size - 1 := El(s, 1)][0 := El(s, k)], 1, size - 1, k, El(s, size))
  {
    var s' := s[size - 1 := El(s, 1)][0 := El(s, k)];
    BelowTheTwo(s, size, size);
    forall c | 2 <= c <= size - 1 ensures InOrder(s', 1, k, El(s, size), c) {
      assert InOrder(s, 1, 0, 0, c);
    }
  }

  // ---- Sortedness ----

  ghost predicate Sorted(s: seq<uint32>) {
    forall i, j | 0 <= i < j < |s| :: s[i] <= s[j]
  }

  /** What is left of the heap is at most as large as what has been taken out, which is in order. */
  ghost predicate Taken(s: seq<uint32>, size: nat)
    requires size <= |s|
  {
    Sorted(s[size..]) && forall i, j | 0 <= i < size <= j < |s| :: s[i] <= s[j]
  }

  lemma SameElements(s: seq<uint32>, t: seq<uint32>, i: nat) returns (j: nat)
    requires multiset(s) == multiset(t) && i < |s|
    ensures j < |t| && t[j] == s[i]
  {
    assert s[i] in multiset(t);
    j :| 0 <= j < |t| && t[j] == s[i];
  }

  /** Reordering the heap does not matter to what has been taken out. */
  lemma TakenReordered(s: seq<uint32>, t: seq<uint32>, size: nat)
    requires size <= |s| == |t| && Taken(s, size) && multiset(s[..size]) == multiset(t[..size])
    requires s[size..] == t[size..]
    ensures Taken(t, size)
  {
    forall i, j | 0 <= i < size <= j < |t| ensures t[i] <= t[j] {
      assert |multiset(s[..size])| == size;
      var m := SameElements(t[..size], s[..size], i);
      assert s[..size][m] == s[m] && t[j] == t[size..][j - size] == s[size..][j - size] == s[j];
    }
  }

  /** The root is the next one to be taken out. */
  lemma TakeRoot(s: seq<uint32>, size: nat, s': seq<uint32>)
    requires 1 < size <= |s| && Heap(s, 1, size, 0, 0) && Taken(s, size)
    requires |s'| == |s| && s'[size - 1] == El(s, 1) && s'[size..] == s[size..]
    requires forall i | 0 <= i < size - 1 :: s'[i] in s[..size]
    ensures Taken(s', size - 1)
  {
    forall i, j | 0 <= i < size - 1 <= j < |s'| ensures s'[i] <= s'[j] {
      var m :| 0 <= m < size && s[m] == s'[i];
      RootLargest(s, size, m + 1);
      if j >= size { assert s'[j] == s'[size..][j - size] == s[j]; }
    }
    forall i, j | size - 1 <= i < j < |s'| ensures s'[i] <= s'[j] {
      assert s'[j] == s'[size..][j - size] == s[j];
      if i >= size { assert s'[i] == s'[size..][i - size] == s[i]; assert s[size..][i - size] <= s[size..][j - size]; }
    }
  }

  // ---- The algorithm ----

  /** `s` is `s0` with the hole moved down from `k0` to `k`; `temp` is not in the array meanwhile. */
  ghost predicate Sinking(s0: seq<uint32>, k0: nat, s: seq<uint32>, from: nat, size: nat, k: nat, temp: uint32) {
    && 1 <= k0 <= size <= |s0| == |s| && 1 <= from <= k <= size
    && Heap(s, from, size, k, temp)
    && multiset(s[..size][k - 1 := temp]) == multiset(s0[..size][k0 - 1 := temp])
    && s[size..] == s0[size..]
  }

  lemma SinkStart(s: seq<uint32>, k: nat, from: nat, size: nat, temp: uint32)
    requires 1 <= from <= k <= size <= |s| && Heap(s, from, size, k, temp)
    ensures Sinking(s, k, s, from, size, k, temp)
  {
  }

  lemma SinkStep(s0: seq<uint32>, k0: nat, s: seq<uint32>, from: nat, size: nat, k: nat, temp: uint32, c: nat)
    requires Sinking(s0, k0, s, from, size, k, temp) && c / 2 == k && c <= size && temp < El(s, c)
    requires forall d | 2 <= d <= size && d / 2 == k :: El(s, d) <= El(s, c)
    ensures Sinking(s0, k0, s[k - 1 := El(s, c)], from, size, c, temp)
  {
    Descend(s, from, size, k, temp, c);
    hide Heap;
    Exchanged(s[..size], k - 1, c - 1, temp);
    assert s[k - 1 := El(s, c)][..size] == s[..size][k - 1 := El(s, c)];
  }

  lemma SinkEnd(s0: seq<uint32>, k0: nat, s: seq<uint32>, from: nat, size: nat, k: nat, temp: uint32)
    requires Sinking(s0, k0, s, from, size, k, temp)
    requires forall d | 2 <= d <= size && d / 2 == k :: El(s, d) <= temp
    ensures Heap(s[k - 1 := temp], from, size, 0, 0) && s[k - 1 := temp][size..] == s0[size..]
    ensures multiset(s[k - 1 := temp][..size]) == multiset(s0[..size][k0 - 1 := temp])
  {
    Fill(s, from, size, k, temp);
    hide Heap;
    assert s[k - 1 := temp][..size] == s[..size][k - 1 := temp];
  }

  /** The macro HeapSortDown: the hole `k` sinks until `temp` can be put there. */
  method HeapSortDown(p: array<uint32>, k0: nat, size: nat, temp: uint32, ghost from: nat)
    requires 1 <= from <= k0 <= size <= p.Length && size < 0x8000_0000
    requires Heap(p[..], from, size, k0, temp)
    modifies p
    ensures Heap(p[..], from, size, 0, 0)
    ensures multiset(p[..size]) == multiset(old(p[..size])[k0 - 1 := temp]) && p[size..] == old(p[size..])
  {
    hide Heap, Sinking;
    var k := k0;
    ghost var s0 := p[..];
    SinkStart(s0, k0, from, size, temp);
    assert s0[..size] == old(p[..size]) && s0[size..] == old(p[size..]);
    while true
      invariant from <= k <= size && Sinking(s0, k0, p[..], from, size, k, temp)
      decreases size - k
    {
      var s := 2 * k;
      if s > size {
        break;
      }
      if s < size && p[s] > p[s - 1] {
        s := s + 1;
      }
      if temp >= p[s - 1] {
        break;
      }
      ghost var q := p[..];
      SinkStep(s0, k0, q, from, size, k, temp, s);
      p[k - 1] := p[s - 1];
      assert p[..] == q[k - 1 := El(q, s)];
      k := s;
    }
    ghost var q := p[..];
    SinkEnd(s0, k0, q, from, size, k, temp);
    p[k - 1] := temp;
    assert p[..] == q[k - 1 := temp] && p[..size] == p[..][..size] && p[size..] == p[..][size..];
  }

  /** Moving an element into the hole exchanges it with what is to go there. */
  lemma Exchanged(s: seq<uint32>, k: nat, c: nat, temp: uint32)
    requires k < |s| && c < |s| && k != c
    ensures multiset(s[k := s[c]][c := temp]) == multiset(s[k := temp])
  {
    assert s[k := s[c]][c := temp] == s[k := temp][k := s[c]][c := temp];
  }

  /** First part of HeapSort: makes a heap. */
  method BuildHeap(p: array<uint32>, size: nat)
    requires 2 <= size <= p.Length && size < 0x8000_0000
    modifies p
    ensures Heap(p[..], 1, size, 0, 0) && multiset(p[..size]) == multiset(old(p[..size])) && p[size..] == old(p[size..])
  {
    var i := size / 2;
    while i != 0
      invariant 0 <= i <= size / 2 && Heap(p[..], i + 1, size, 0, 0)
      invariant multiset(p[..size]) == multiset(old(p[..size])) && p[size..] == old(p[size..])
      decreases i
    {
      Dig(p[..], size, i);
      assert p[..size][i - 1 := p[i - 1]] == p[..size];
      HeapSortDown(p, i, size, p[i - 1], i);
      i := i - 1;
    }
  }

  /** One turn of the loop that takes the largest element out. */
  method TakeOut(p: array<uint32>, size: nat)
    requires 3 < size <= p.Length && size < 0x8000_0000 && Heap(p[..], 1, size, 0, 0) && Taken(p[..], size)
    modifies p
    ensures Heap(p[..], 1, size - 1, 0, 0) && Taken(p[..], size - 1) && multiset(p[..]) == multiset(old(p[..]))
  {
    ghost var s := p[..];
    var temp := p[size - 1];
    var k := if p[2] > p[1] then 3 else 2;
    Promote(s, size, k);
    p[size - 1] := p[0];
    p[0] := p[k - 1];
    ghost var t := p[..];
    assert t == s[size - 1 := El(s, 1)][0 := El(s, k)];
    HeapSortDown(p, k, size - 1, temp, 1);
    TakenOut(s, t, p[..], size, k);
  }

  lemma TakenOut(s: seq<uint32>, t: seq<uint32>, r: seq<uint32>, size: nat, k: nat)
    requires 3 < size <= |s| && Heap(s, 1, size, 0, 0) && Taken(s, size) && (k == 2 || k == 3)
    requires t == s[size - 1 := El(s, 1)][0 := El(s, k)] && |r| == |s|
    requires multiset(r[..size - 1]) == multiset(t[..size - 1][k - 1 := El(s, size)]) && r[size - 1..] == t[size - 1..]
    ensures Taken(r, size - 1) && multiset(r) == multiset(s)
  {
    hide Heap, Taken;
    var u := t[k - 1 := El(s, size)];
    Rearranged(s, size, k);
    assert u[..size - 1] == t[..size - 1][k - 1 := El(s, size)] && u[size - 1..] == t[size - 1..];
    SameParts(r, u, size - 1);
    TakeRoot(s, size, u);
    TakenReordered(u, r, size - 1);
  }

  /** The elements 1, `k` and `size` change places in a cycle. */
  lemma Rearranged(s: seq<uint32>, size: nat, k: nat)
    requires 3 < size <= |s| && 2 <= k < size
    ensures var u := s[size - 1 := El(s, 1)][0 := El(s, k)][k - 1 := El(s, size)];
      && multiset(u) == multiset(s) && u[size - 1] == El(s, 1) && u[size..] == s[size..]
      && forall i | 0 <= i < size - 1 :: u[i] in s[..size]
  {
    var u := s[size - 1 := El(s, 1)][0 := El(s, k)][k - 1 := El(s, size)];
    forall i | 0 <= i < size - 1 ensures u[i] in s[..size] {
      var m := if i == 0 then k - 1 else if i == k - 1 then size - 1 else i;
      assert s[..size][m] == s[m] == u[i];
    }
  }

  lemma SameParts(r: seq<uint32>, u: seq<uint32>, n: nat)
    requires n <= |r| == |u| && multiset(r[..n]) == multiset(u[..n]) && r[n..] == u[n..]
    ensures multiset(r) == multiset(u)
  {
    assert r == r[..n] + r[n..] && u == u[..n] + u[n..];
  }

  /** The special ending for the last 2 or 3 elements. */
  method Ending(p: array<uint32>, size: nat)
    requires 2 <= size <= 3 && size <= p.Length && Heap(p[..], 1, size, 0, 0) && Taken(p[..], size)
    modifies p
    ensures Sorted(p[..]) && multiset(p[..]) == multiset(old(p[..]))
  {
    hide Heap, Taken, Sorted;
    ghost var s := p[..];
    var temp := p[size - 1];
    p[size - 1] := p[0];
    if size > 2 && p[1] < temp {
      p[0] := p[1];
      p[1] := temp;
      Two(s);
    } else {
      p[0] := temp;
    }
    assert p[..] == if size > 2 && s[1] < s[2] then s[2 := s[0]][0 := s[1]][1 := s[2]]
        else s[size - 1 := s[0]][0 := s[size - 1]];
    EndingSorted(s, p[..], size);
  }

  lemma Two(s: seq<uint32>)
    requires |s| >= 3
    ensures s[2 := s[0]][0 := s[1]][1 := s[2]][1] == s[2]
  {
  }

  lemma EndingSorted(s: seq<uint32>, r: seq<uint32>, size: nat)
    requires 2 <= size <= 3 && size <= |s| && Heap(s, 1, size, 0, 0) && Taken(s, size)
    requires r == if size > 2 && s[1] < s[2] then s[2 := s[0]][0 := s[1]][1 := s[2]]
      else s[size - 1 := s[0]][0 := s[size - 1]]
    ensures Sorted(r) && multiset(r) == multiset(s)
  {
    hide Sorted, Taken;
    assert InOrder(s, 1, 0, 0, 2) && (size == 3 ==> InOrder(s, 1, 0, 0, 3));
    if size > 2 && s[1] < s[2] {
      Cycle(s, 0, 1, 2);
      forall i | 0 <= i < size ensures r[i] in s[..size] {
        assert s[..size][if i == 2 then 0 else i + 1] == r[i];
      }
    } else {
      Pair(s, 0, size - 1);
      forall i | 0 <= i < size ensures r[i] in s[..size] {
        assert s[..size][if i == 0 then size - 1 else if i == size - 1 then 0 else i] == r[i];
      }
    }
    assert r[size..] == s[size..];
    SortedTogether(s, r, size);
  }

  lemma Cycle(s: seq<uint32>, i: nat, j: nat, k: nat)
    requires i < j < k < |s|
    ensures multiset(s[k := s[i]][i := s[j]][j := s[k]]) == multiset(s)
  {
  }

  lemma Pair(s: seq<uint32>, i: nat, k: nat)
    requires i < k < |s|
    ensures multiset(s[k := s[i]][i := s[k]]) == multiset(s)
  {
  }

  lemma SortedTogether(s: seq<uint32>, r: seq<uint32>, size: nat)
    requires 2 <= size <= 3 && size <= |s| == |r| && Taken(s, size) && r[size..] == s[size..]
    requires r[0] <= r[1] && (size == 3 ==> r[1] <= r[2]) && forall i | 0 <= i < size :: r[i] in s[..size]
    ensures Sorted(r)
  {
    forall i, j | 0 <= i < j < |r| ensures r[i] <= r[j] {
      if j >= size {
        assert r[size..][j - size] == s[size..][j - size] == r[j] == s[j];
        if i >= size {
          assert r[size..][i - size] == s[size..][i - size] == r[i];
        } else {
          var m :| 0 <= m < size && s[m] == r[i];
        }
      }
    }
  }

  /** Sorts all of `p`: the result is in order and has the same elements, however often each occurs. */
  method HeapSort(p: array<uint32>)
    requires p.Length < 0x8000_0000
    modifies p
    ensures Sorted(p[..]) && multiset(p[..]) == multiset(old(p[..]))
  {
    var size := p.Length;
    if size <= 1 {
      return;
    }
    assert p[..size] == p[..];
    BuildHeap(p, size);
    assert p[..size] == p[..];
    while size > 3
      invariant 2 <= size <= p.Length && Heap(p[..], 1, size, 0, 0) && Taken(p[..], size)
      invariant multiset(p[..]) == multiset(old(p[..]))
    {
      TakeOut(p, size);
      size := size - 1;
    }
    Ending(p, size);
  }
}
