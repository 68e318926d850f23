/** Where pieces sit on disk while a download runs: each piece has a home slot, but may
    temporarily occupy another one. */
module Slots {
  import opened Basics

  /** `n` pieces of `size` bytes each, except that the last one ends at `total`. */
  datatype Geometry = Geometry(n: nat, size: nat, total: nat) {

    ghost predicate Sound() {
      && 0 < size
      && (n == 0 ==> total == 0)
      && (n > 0 ==> size * (n - 1) < total <= size * n)
    }

    function Begin(i: nat): nat {
      i * size
    }

    function PieceLen(i: nat): int {
      if i < n - 1 then size else total - i * size
    }

    ghost function End(i: nat): int {
      Begin(i) + PieceLen(i)
    }

    lemma LastShort(i: nat)
      requires Sound() && i < n
      ensures 0 <= PieceLen(n - 1) <= PieceLen(i)
    {
      Slot(i);
      Slot(n - 1);
    }

    lemma Slot(i: nat)
      requires Sound() && i < n
      ensures 1 <= PieceLen(i) <= size
      ensures Begin(i) + PieceLen(i) <= total && 0 < total
      ensures PieceLen(i) < size ==> i == n - 1
    {
      if i < n - 1 {
        MulMonotone(i + 1, n - 1, size);
      }
    }

    /** The length as `_make_inactive` computes it. */
    lemma LastLen(i: nat)
      requires Sound() && i < n
      ensures PieceLen(i) == Min(size, total - size * i)
    {
      Slot(i);
      if i < n - 1 {
        MulMonotone(i + 1, n - 1, size);
      }
    }

    /** Every byte is in a slot. */
    lemma SlotOf(k: nat) returns (i: nat)
      requires Sound() && k < total
      ensures i < n && 0 <= Begin(i) <= k < End(i)
    {
      i := k / size;
      assert i * size <= k < i * size + size;
      if n <= i { MulMonotone(n, i, size); }
      if i < n - 1 { MulMonotone(i + 1, n - 1, size); }
    }

    lemma Apart(i: nat, j: nat)
      requires Sound() && i < n && j < n && i != j
      ensures Begin(i) + PieceLen(i) <= Begin(j) || Begin(j) + PieceLen(j) <= Begin(i)
    {
      Slot(i); Slot(j);
      if i < j { MulMonotone(i + 1, j, size); } else { MulMonotone(j + 1, i, size); }
    }
  }

  lemma MulMonotone(a: nat, b: nat, m: nat)
    requires a <= b
    ensures a * m <= b * m
  {
  }

  type Places = map<nat, nat>

  ghost predicate Occupied(places: Places, v: nat) {
    exists p :: p in places && places[p] == v
  }

  ghost function Elems(s: seq<nat>): (r: set<nat>)
    ensures forall x :: x in r <==> x in s
  {
    set x | x in s
  }

  /** The layout invariant: `places` is injective, its image is exactly what is not a hole, the holes
      are in ascending order, a piece away from home finds its home free, and every piece fits its slot. */
  ghost predicate Laid(g: Geometry, places: Places, holes: seq<nat>) {
    Ascending(holes) && LaidOut(g, places, Elems(holes))
  }

  ghost predicate LaidOut(g: Geometry, places: Places, free: set<nat>) {
    && (forall p | p in places :: p < g.n && places[p] < g.n && places[p] !in free)
    && (forall p, q | p in places && q in places && places[p] == places[q] :: p == q)
    && (forall v: nat | v < g.n && v !in free :: Occupied(places, v))
    && (forall h | h in free :: h < g.n)
    && (forall p | p in places :: places[p] == p || p in free)
    && Fits(g, places)
  }

  /** Pieces are within the array and fit the slots they are in. */
  ghost predicate Fits(g: Geometry, places: Places) {
    forall p | p in places :: p < g.n && places[p] < g.n && g.PieceLen(p) <= g.PieceLen(places[p])
  }

  /** The bytes of piece `p`, wherever it sits. */
  ghost function Data(g: Geometry, flat: seq<byte>, places: Places, p: nat): (d: seq<byte>)
    requires g.Sound() && |flat| == g.total && p in places && p < g.n && places[p] < g.n
    requires g.PieceLen(p) <= g.PieceLen(places[p])
    ensures |d| == g.PieceLen(p)
  {
    g.Slot(p); g.Slot(places[p]);
    flat[g.Begin(places[p])..g.Begin(places[p]) + g.PieceLen(p)]
  }

  /** Every piece placed before is still placed, with the same bytes. */
  ghost predicate Preserved(g: Geometry, flat: seq<byte>, places: Places, flat': seq<byte>, places': Places)
    requires g.Sound() && |flat| == |flat'| == g.total
    requires Fits(g, places) && Fits(g, places')
  {
    forall p | p in places :: p in places' && Data(g, flat', places', p) == Data(g, flat, places, p)
  }

  // ---- Consequences of the invariant ----

  lemma {:induction false} InjectiveCard(places: Places, keys: set<nat>, vals: set<nat>)
    requires forall p | p in keys :: p in places && places[p] in vals
    requires forall p, q | p in keys && q in keys && places[p] == places[q] :: p == q
    ensures |keys| <= |vals|
  {
    if keys != {} {
      var p :| p in keys;
      InjectiveCard(places, keys - {p}, vals - {places[p]});
    }
  }

  ghost function Below(n: nat): (s: set<nat>)
    ensures |s| == n && forall i: nat :: i in s <==> i < n
  {
    if n == 0 then {} else Below(n - 1) + {n - 1}
  }

  /** While a piece is unplaced there is a hole, so the placement loop never runs out of slots. */
  lemma UnplacedLeavesHole(g: Geometry, places: Places, holes: seq<nat>, index: nat)
    requires Laid(g, places, holes) && index < g.n && index !in places
    ensures holes != []
  {
    hide LaidOut, Ascending, Occupied;
    if holes == [] {
      AllOccupied(g, places, holes);
      var owners := Owners(places, g.n);
      SubsetCard(owners, Below(g.n) - {index});
      assert false;
    }
  }

  /** The pieces in the first `k` slots. */
  ghost function Owners(places: Places, k: nat): (r: set<nat>)
    requires forall v: nat | v < k :: Occupied(places, v)
    ensures |r| == k && forall p | p in r :: p in places && places[p] < k
  {
    if k == 0 then {} else
      assert Occupied(places, k - 1);
      var p :| p in places && places[p] == k - 1;
      Owners(places, k - 1) + {p}
  }

  lemma {:induction false} SubsetCard(a: set<nat>, b: set<nat>)
    requires a <= b
    ensures |a| <= |b|
  {
    if x :| x in a { SubsetCard(a - {x}, b - {x}); }
  }

  lemma AllOccupied(g: Geometry, places: Places, holes: seq<nat>)
    requires Laid(g, places, holes) && holes == []
    ensures forall v: nat | v < g.n :: Occupied(places, v)
    ensures forall p | p in places :: p < g.n
  {
  }

  /** Once every piece is placed no hole is left, and so every piece is at home. */
  lemma AllPlacedMeansHome(g: Geometry, places: Places, holes: seq<nat>)
    requires Laid(g, places, holes) && forall p: nat | p < g.n :: p in places
    ensures holes == [] && forall p: nat | p < g.n :: places[p] == p
  {
    PlacedFacts(g, places, holes);
    hide Laid;
    if holes != [] {
      var slots := Below(g.n);
      assert holes[0] in slots;
      InjectiveCard(places, slots, slots - {holes[0]});
      assert false;
    }
  }

  lemma PlacedFacts(g: Geometry, places: Places, holes: seq<nat>)
    requires Laid(g, places, holes)
    ensures forall p | p in places :: places[p] < g.n && (holes == [] ==> places[p] == p)
    ensures forall p, q | p in places && q in places && places[p] == places[q] :: p == q
    ensures holes != [] ==> holes[0] < g.n && forall p | p in places :: places[p] != holes[0]
  {
    hide Ascending, Fits, Occupied;
    var free := Elems(holes);
    assert holes != [] ==> holes[0] in free;
  }

  lemma HolesTail(g: Geometry, places: Places, holes: seq<nat>)
    requires Laid(g, places, holes) && holes != []
    ensures holes[0] in Elems(holes) && Elems(holes[1..]) == Elems(holes) - {holes[0]}
    ensures Ascending(holes[1..]) && forall h | h in holes[1..] :: holes[0] < h
  {
    hide LaidOut;
    assert holes == [holes[0]] + holes[1..];
  }

  /** An occupant of a foreign slot finds its home free, and that slot is not the short one. */
  lemma OccupantAway(g: Geometry, places: Places, free: set<nat>, p: nat)
    requires g.Sound() && LaidOut(g, places, free) && p in places && places[p] != p
    ensures p in free && g.PieceLen(places[p]) == g.size
  {
    hide Geometry.PieceLen, Geometry.Begin;
    g.Slot(p); g.Slot(places[p]);
  }

  // ---- Moving bytes ----

  /** A slice is unchanged by a splice that does not meet it. */
  lemma SliceApart(flat: seq<byte>, pos: nat, chunk: seq<byte>, a: nat, b: nat)
    requires pos + |chunk| <= |flat| && a <= b <= |flat| && (b <= pos || pos + |chunk| <= a)
    ensures Splice(flat, pos, chunk)[a..b] == flat[a..b]
  {
  }

  lemma SliceInside(flat: seq<byte>, pos: nat, chunk: seq<byte>, len: nat)
    requires pos + |chunk| <= |flat| && len <= |chunk|
    ensures Splice(flat, pos, chunk)[pos..pos + len] == chunk[..len]
  {
  }

  lemma SliceOfSlice(flat: seq<byte>, base: nat, len: nat, begin: nat, l: nat)
    requires base + len <= |flat| && begin + l <= len
    ensures flat[base + begin..base + begin + l] == flat[base..base + len][begin..begin + l]
  {
    var a, b := flat[base + begin..base + begin + l], flat[base..base + len][begin..begin + l];
    forall k | 0 <= k < l ensures a[k] == b[k] {
      assert flat[base..base + len][begin + k] == flat[base + begin + k];
    }
  }

  lemma SliceOwn(flat: seq<byte>, base: nat, len: nat, begin: nat, chunk: seq<byte>)
    requires base + len <= |flat| && begin + |chunk| <= len
    ensures Splice(flat, base + begin, chunk)[base..base + len] == Splice(flat[base..base + len], begin, chunk)
  {
  }

  /** Writing into a free slot disturbs no placed piece. */
  lemma WriteFree(g: Geometry, flat: seq<byte>, places: Places, v: nat, pos: nat, chunk: seq<byte>)
    requires g.Sound() && |flat| == g.total && Fits(g, places) && v < g.n
    requires g.Begin(v) <= pos && pos + |chunk| <= g.End(v) <= g.total
    requires forall p | p in places :: places[p] != v
    ensures Preserved(g, flat, places, Splice(flat, pos, chunk), places)
  {
    forall p | p in places
      ensures Data(g, Splice(flat, pos, chunk), places, p) == Data(g, flat, places, p)
    {
      g.Slot(p); g.Slot(places[p]);
      g.Apart(places[p], v);
      SliceApart(flat, pos, chunk, g.Begin(places[p]), g.Begin(places[p]) + g.PieceLen(p));
    }
  }

  /** Copying a piece into a free slot that holds it, and noting the new place, preserves all data. */
  lemma MovePiece(g: Geometry, flat: seq<byte>, places: Places, p: nat, v: nat, len: nat)
    requires g.Sound() && |flat| == g.total && Fits(g, places) && p in places && v < g.n
    requires g.PieceLen(p) <= len <= g.PieceLen(v) && len <= g.PieceLen(places[p])
    requires forall q | q in places :: places[q] != v
    ensures g.Begin(places[p]) + len <= g.total && g.Begin(v) + len <= g.total
    ensures var chunk := flat[g.Begin(places[p])..g.Begin(places[p]) + len];
      Preserved(g, flat, places, Splice(flat, g.Begin(v), chunk), places[p := v])
  {
    g.Slot(v); g.Slot(places[p]);
    var chunk := flat[g.Begin(places[p])..g.Begin(places[p]) + len];
    var flat' := Splice(flat, g.Begin(v), chunk);
    WriteFree(g, flat, places, v, g.Begin(v), chunk);
    SliceInside(flat, g.Begin(v), chunk, g.PieceLen(p));
    assert chunk[..g.PieceLen(p)] == Data(g, flat, places, p);
    hide Splice;
    forall q | q in places
      ensures Data(g, flat', places[p := v], q) == Data(g, flat, places, q)
    {
      if q != p { assert Data(g, flat', places[p := v], q) == Data(g, flat', places, q); }
    }
  }

  lemma PreservedRefl(g: Geometry, flat: seq<byte>, places: Places)
    requires g.Sound() && |flat| == g.total && Fits(g, places)
    ensures Preserved(g, flat, places, flat, places)
  {
  }

  lemma PreservedTrans(g: Geometry, f1: seq<byte>, p1: Places, f2: seq<byte>, p2: Places, f3: seq<byte>, p3: Places)
    requires g.Sound() && |f1| == |f2| == |f3| == g.total && Fits(g, p1) && Fits(g, p2) && Fits(g, p3)
    requires Preserved(g, f1, p1, f2, p2) && Preserved(g, f2, p2, f3, p3)
    ensures Preserved(g, f1, p1, f3, p3)
  {
  }

  lemma PreservedNewcomer(g: Geometry, flat: seq<byte>, places: Places, flat': seq<byte>, places': Places, index: nat,
                          v: nat)
    requires g.Sound() && |flat| == |flat'| == g.total && Fits(g, places) && Fits(g, places')
    requires Preserved(g, flat, places, flat', places') && index !in places
    requires index < g.n && v < g.n && g.PieceLen(index) <= g.PieceLen(v)
    ensures Preserved(g, flat, places, flat', places'[index := v])
  {
    forall p | p in places
      ensures Data(g, flat', places'[index := v], p) == Data(g, flat, places, p)
    {
      assert Data(g, flat', places'[index := v], p) == Data(g, flat', places', p);
    }
  }

  // ---- Relocations: where things end up ----

  /** A piece whose home is free comes home. */
  lemma ComeHome(g: Geometry, places: Places, free: set<nat>, n: nat)
    requires g.Sound() && LaidOut(g, places, free) && n in free && n in places
    ensures LaidOut(g, places[n := n], free - {n} + {places[n]})
    ensures g.PieceLen(places[n]) == g.size && places[n] !in places[n := n]
  {
    hide Geometry.PieceLen, Geometry.Begin;
    OccupantAway(g, places, free, n);
    forall v: nat | v < g.n && v !in free - {n} + {places[n]} ensures Occupied(places[n := n], v) {
      if v == n {
        assert places[n := n][n] == n;
      } else {
        var q :| q in places && places[q] == v;
        assert places[n := n][q] == v;
      }
    }
  }

  /** A newcomer whose own home is free may sit in any free slot it fits. */
  lemma TakeSlot(g: Geometry, places: Places, free: set<nat>, v: nat, index: nat)
    requires g.Sound() && LaidOut(g, places, free) && v in free && v !in places
    requires index < g.n && index !in places && index in free && (index == v || g.PieceLen(v) == g.size)
    ensures LaidOut(g, places[index := v], free - {v})
  {
    hide Geometry.PieceLen, Geometry.Begin;
    g.Slot(index);
    forall w: nat | w < g.n && w !in free - {v} ensures Occupied(places[index := v], w) {
      if w == v {
        assert places[index := v][index] == w;
      } else {
        var q :| q in places && places[q] == w;
        assert places[index := v][q] == w;
      }
    }
  }

  /** A newcomer whose home is occupied moves in there, and the occupant moves to the free slot `v`. */
  lemma Displace(g: Geometry, places: Places, free: set<nat>, v: nat, index: nat, p: nat)
    requires g.Sound() && LaidOut(g, places, free) && v in free && v !in places && g.PieceLen(v) == g.size
    requires index < g.n && index !in places && p in places && places[p] == index
    ensures LaidOut(g, places[index := index][p := v], free - {v})
    ensures g.PieceLen(index) == g.size
  {
    hide Geometry.PieceLen, Geometry.Begin;
    OccupantAway(g, places, free, p);
    g.Slot(p);
    forall w: nat | w < g.n && w !in free - {v} ensures Occupied(places[index := index][p := v], w) {
      DisplacedOccupied(places, v, index, p, w);
    }
    hide Occupied;
  }

  lemma DisplacedOccupied(places: Places, v: nat, index: nat, p: nat, w: nat)
    requires index !in places && p in places && places[p] == index && (w == v || Occupied(places, w))
    ensures Occupied(places[index := index][p := v], w)
  {
    var places' := places[index := index][p := v];
    if w == v {
      assert places'[p] == w;
    } else if w == index {
      assert places'[index] == w;
    } else {
      var q :| q in places && places[q] == w;
      assert places'[q] == w;
    }
  }

  /** A slot that is not the last hole is not the short last slot. */
  lemma EarlyHoleIsFull(g: Geometry, places: Places, free: set<nat>, n: nat, h: nat)
    requires g.Sound() && LaidOut(g, places, free) && n in free && h in free && n < h
    ensures g.PieceLen(n) == g.size
  {
    g.Slot(n);
  }

  lemma UpdatesCommute(m: Places, a: nat, x: nat, b: nat, y: nat)
    requires a != b
    ensures m[a := x][b := y] == m[b := y][a := x]
  {
  }

  // ---- What placing a new piece does, in the four cases ----

  /** The piece of slot `n` comes home, and `index` is noted in the slot it left. */
  ghost predicate TakenOver(g: Geometry, flat: seq<byte>, places: Places, n: nat, index: nat, flat': seq<byte>,
                            places': Places)
    requires g.Sound() && |flat| == g.total && Fits(g, places)
  {
    && n in places && g.End(n) <= g.total
    && flat' == Splice(flat, g.Begin(n), Data(g, flat, places, n))
    && places' == places[n := n][index := places[n]]
  }

  /** The piece of slot `n` comes home, the occupant `p` of slot `index` moves to the slot it left, and `index` is
      noted as being at home. */
  ghost predicate SwappedIn(g: Geometry, flat: seq<byte>, places: Places, n: nat, index: nat, p: nat, flat': seq<byte>,
                            places': Places)
    requires g.Sound() && |flat| == g.total && Fits(g, places)
  {
    && n in places && g.End(n) <= g.total
    && g.Begin(index) + g.size <= g.total && g.Begin(places[n]) + g.size <= g.total
    && p in places[n := n] && places[n := n][p] == index
    && (var flat1 := Splice(flat, g.Begin(n), Data(g, flat, places, n));
        flat' == Splice(flat1, g.Begin(places[n]), flat1[g.Begin(index)..g.Begin(index) + g.size]))
    && places' == places[n := n][index := index][p := places[n]]
  }

  /** `index` is noted in slot `n`, which is filled up with bytes 255 if it was not on disk yet. */
  ghost predicate Filled(g: Geometry, flat: seq<byte>, places: Places, n: nat, index: nat, chunk: seq<byte>,
                         flat': seq<byte>, places': Places)
    requires g.Sound() && |flat| == g.total
  {
    && (chunk == [] || |chunk| == g.PieceLen(n)) && (forall k | 0 <= k < |chunk| :: chunk[k] == 0xFF)
    && g.End(n) <= g.total && g.Begin(n) + |chunk| <= g.total
    && flat' == Splice(flat, g.Begin(n), chunk)
    && places' == places[index := n]
  }

  /** The occupant `p` of slot `index` moves to slot `n`, and `index` is noted as being at home. */
  ghost predicate Displaced(g: Geometry, flat: seq<byte>, places: Places, n: nat, index: nat, p: nat, flat': seq<byte>,
                            places': Places)
    requires g.Sound() && |flat| == g.total
  {
    && g.Begin(n) + g.size <= g.total && g.Begin(index) + g.size <= g.total
    && p in places && places[p] == index
    && flat' == Splice(flat, g.Begin(n), flat[g.Begin(index)..g.Begin(index) + g.size])
    && places' == places[index := index][p := n]
  }

  /** The first hole belongs to a piece that is stored elsewhere. */
  ghost predicate OwnerReturned(g: Geometry, flat: seq<byte>, places: Places, n: nat, rest: seq<nat>, index: nat,
                                flat': seq<byte>, places': Places)
    requires g.Sound() && |flat| == g.total && Fits(g, places)
  {
    && n in places
    && if index == places[n] || index in rest then TakenOver(g, flat, places, n, index, flat', places')
       else exists p: nat :: SwappedIn(g, flat, places, n, index, p, flat', places')
  }

  /** The first hole belongs to a piece that is not stored at all. */
  ghost predicate HoleUsed(g: Geometry, flat: seq<byte>, places: Places, n: nat, rest: seq<nat>, index: nat,
                           flat': seq<byte>, places': Places)
    requires g.Sound() && |flat| == g.total
  {
    && n !in places
    && if index == n || index in rest then exists chunk :: Filled(g, flat, places, n, index, chunk, flat', places')
       else exists p: nat :: Displaced(g, flat, places, n, index, p, flat', places')
  }

  ghost predicate Placed(g: Geometry, flat: seq<byte>, places: Places, n: nat, rest: seq<nat>, index: nat,
                         flat': seq<byte>, places': Places)
    requires g.Sound() && |flat| == g.total && Fits(g, places)
  {
    || OwnerReturned(g, flat, places, n, rest, index, flat', places')
    || HoleUsed(g, flat, places, n, rest, index, flat', places')
  }

  // ---- Relocations: all of it, for the four cases of placing a new piece ----

  /** Piece `index` got a place, the free slot `n` is filled, every other piece kept its bytes, and pieces at home
      stayed. */
  ghost predicate Relocated(g: Geometry, flat: seq<byte>, places: Places, free: set<nat>, n: nat, index: nat,
                            flat': seq<byte>, places': Places)
    requires g.Sound() && |flat| == |flat'| == g.total && Fits(g, places)
  {
    && LaidOut(g, places', free - {n})
    && places'.Keys == places.Keys + {index}
    && Preserved(g, flat, places, flat', places')
    && forall p | p in places && places[p] == p :: places'[p] == p
  }

  lemma FreeSlot(g: Geometry, places: Places, free: set<nat>, n: nat)
    requires LaidOut(g, places, free) && n in free
    ensures n < g.n && Fits(g, places) && forall q | q in places :: places[q] != n && places[q] < g.n
  {
    hide Occupied, Geometry.PieceLen;
  }

  /** The piece whose home is the free slot `n` comes home. */
  lemma HomeStep(g: Geometry, flat: seq<byte>, places: Places, free: set<nat>, n: nat, oldpos: nat, flat1: seq<byte>)
    requires g.Sound() && |flat| == g.total && LaidOut(g, places, free) && n in free && n in places
    requires oldpos == places[n]
    requires g.End(n) <= g.total && flat1 == Splice(flat, g.Begin(n), Data(g, flat, places, n))
    ensures LaidOut(g, places[n := n], free - {n} + {oldpos})
    ensures oldpos !in places[n := n] && g.PieceLen(oldpos) == g.size
    ensures Preserved(g, flat, places, flat1, places[n := n])
  {
    hide Splice, Geometry.PieceLen, LaidOut, Occupied, Preserved, Geometry.Begin;
    ComeHome(g, places, free, n);
    FreeSlot(g, places, free, n);
    g.Slot(n); g.Slot(oldpos);
    MovePiece(g, flat, places, n, n, g.PieceLen(n));
  }

  lemma RelocateTakeOver(g: Geometry, flat: seq<byte>, places: Places, free: set<nat>, n: nat, oldpos: nat, index: nat,
                         flat1: seq<byte>)
    requires g.Sound() && |flat| == g.total && LaidOut(g, places, free) && n in free && n in places
    requires oldpos == places[n]
    requires index < g.n && index !in places && (index == oldpos || index in free - {n})
    requires g.End(n) <= g.total && flat1 == Splice(flat, g.Begin(n), Data(g, flat, places, n))
    ensures Relocated(g, flat, places, free, n, index, flat1, places[n := n][index := oldpos])
  {
    hide Splice, Geometry.PieceLen, Data, Preserved;
    HomeStep(g, flat, places, free, n, oldpos, flat1);
    TakeSlot(g, places[n := n], free - {n} + {oldpos}, oldpos, index);
    assert free - {n} + {oldpos} - {oldpos} == free - {n};
    g.Slot(index);
    PreservedNewcomer(g, flat, places, flat1, places[n := n], index, oldpos);
  }

  lemma RelocateSwapIn(g: Geometry, flat: seq<byte>, places: Places, free: set<nat>, n: nat, oldpos: nat, index: nat,
                       p: nat, flat1: seq<byte>, flat2: seq<byte>)
    requires g.Sound() && |flat| == g.total && LaidOut(g, places, free) && n in free && n in places
    requires oldpos == places[n]
    requires index < g.n && index !in places && index != oldpos && p in places[n := n] && places[n := n][p] == index
    requires g.End(n) <= g.total && flat1 == Splice(flat, g.Begin(n), Data(g, flat, places, n))
    requires g.Begin(index) + g.size <= g.total && g.Begin(oldpos) + g.size <= g.total
    requires flat2 == Splice(flat1, g.Begin(oldpos), flat1[g.Begin(index)..g.Begin(index) + g.size])
    ensures Relocated(g, flat, places, free, n, index, flat2, places[n := n][index := index][p := oldpos])
  {
    hide Splice, Geometry.PieceLen, Data, Preserved;
    HomeStep(g, flat, places, free, n, oldpos, flat1);
    var places1 := places[n := n];
    var free1 := free - {n} + {oldpos};
    Displace(g, places1, free1, oldpos, index, p);
    assert free1 - {oldpos} == free - {n};
    DisplaceData(g, flat, places, flat1, places1, index, p, oldpos);
    UpdatesCommute(places1, p, oldpos, index, index);
  }

  /** The occupant of `index` moves to `v`, and `index` is noted as placed at home. */
  lemma DisplaceData(g: Geometry, flat: seq<byte>, places: Places, flat1: seq<byte>, places1: Places, index: nat,
                     p: nat, v: nat)
    requires g.Sound() && |flat| == |flat1| == g.total && Fits(g, places) && Fits(g, places1)
    requires Preserved(g, flat, places, flat1, places1) && index !in places && index < g.n && v < g.n
    requires p in places1 && places1[p] == index && g.PieceLen(index) == g.PieceLen(v) == g.size
    requires forall q | q in places1 :: places1[q] != v
    ensures g.Begin(index) + g.size <= g.total && g.Begin(v) + g.size <= g.total
    ensures Fits(g, places1[p := v][index := index])
    ensures Preserved(g, flat, places, Splice(flat1, g.Begin(v), flat1[g.Begin(index)..g.Begin(index) + g.size]),
                      places1[p := v][index := index])
  {
    hide Splice, Geometry.PieceLen, Data, Preserved;
    g.Slot(index); g.Slot(v); g.Slot(p);
    MovePiece(g, flat1, places1, p, v, g.size);
    var flat2 := Splice(flat1, g.Begin(v), flat1[g.Begin(index)..g.Begin(index) + g.size]);
    PreservedTrans(g, flat, places, flat1, places1, flat2, places1[p := v]);
    PreservedNewcomer(g, flat, places, flat2, places1[p := v], index, index);
  }

  lemma RelocateFill(g: Geometry, flat: seq<byte>, places: Places, free: set<nat>, n: nat, index: nat, chunk: seq<byte>)
    requires g.Sound() && |flat| == g.total && LaidOut(g, places, free) && n in free && n !in places
    requires forall h | h in free :: n <= h
    requires index < g.n && index !in places && index in free
    requires g.End(n) <= g.total && |chunk| <= g.PieceLen(n)
    ensures Relocated(g, flat, places, free, n, index, Splice(flat, g.Begin(n), chunk), places[index := n])
  {
    hide Splice, Geometry.PieceLen, Data, Preserved;
    if index != n { EarlyHoleIsFull(g, places, free, n, index); }
    g.Slot(n); g.Slot(index);
    TakeSlot(g, places, free, n, index);
    WriteFree(g, flat, places, n, g.Begin(n), chunk);
    PreservedNewcomer(g, flat, places, Splice(flat, g.Begin(n), chunk), places, index, n);
  }

  lemma RelocateDisplace(g: Geometry, flat: seq<byte>, places: Places, free: set<nat>, n: nat, index: nat, p: nat,
                         flat1: seq<byte>)
    requires g.Sound() && |flat| == g.total && LaidOut(g, places, free) && n in free && n !in places
    requires forall h | h in free :: n <= h
    requires index < g.n && index !in places && p in places && places[p] == index
    requires g.Begin(n) + g.size <= g.total && g.Begin(index) + g.size <= g.total
    requires flat1 == Splice(flat, g.Begin(n), flat[g.Begin(index)..g.Begin(index) + g.size])
    ensures Relocated(g, flat, places, free, n, index, flat1, places[index := index][p := n])
  {
    hide Splice, Geometry.PieceLen, Data, Preserved;
    DisplaceSizes(g, places, free, n, index, p);
    Displace(g, places, free, n, index, p);
    PreservedRefl(g, flat, places);
    DisplaceData(g, flat, places, flat, places, index, p, n);
    UpdatesCommute(places, p, n, index, index);
  }

  lemma LaidOutFits(g: Geometry, places: Places, free: set<nat>)
    requires LaidOut(g, places, free)
    ensures Fits(g, places) && forall h | h in free :: h < g.n
  {
  }

  /** A place can always be found: the source's cases leave none out, and what they read and write is within the
      array. */
  lemma CanPlace(g: Geometry, flat: seq<byte>, places: Places, free: set<nat>, n: nat, rest: seq<nat>, index: nat)
      returns (flat': seq<byte>, places': Places)
    requires g.Sound() && |flat| == g.total && LaidOut(g, places, free) && n in free
    requires (forall h | h in free :: n <= h) && Elems(rest) == free - {n}
    requires index < g.n && index !in places
    ensures |flat'| == g.total && Fits(g, places) && Placed(g, flat, places, n, rest, index, flat', places')
  {
    hide Splice, Geometry.PieceLen, Data, Occupied;
    LaidOutFits(g, places, free);
    if n in places {
      flat', places' := CanReturn(g, flat, places, free, n, rest, index);
    } else {
      flat', places' := CanUse(g, flat, places, free, n, rest, index);
    }
  }

  lemma CanReturn(g: Geometry, flat: seq<byte>, places: Places, free: set<nat>, n: nat, rest: seq<nat>, index: nat)
      returns (flat': seq<byte>, places': Places)
    requires g.Sound() && |flat| == g.total && LaidOut(g, places, free) && n in free && n in places
    requires Elems(rest) == free - {n} && index < g.n && index !in places
    ensures |flat'| == g.total && Fits(g, places) && OwnerReturned(g, flat, places, n, rest, index, flat', places')
  {
    hide Splice, Geometry.PieceLen, Data, Occupied, Fits;
    LaidOutFits(g, places, free);
    g.Slot(n);
    OccupiedUnless(g, places, free, index);
    hide LaidOut;
    flat', places' := Splice(flat, g.Begin(n), Data(g, flat, places, n)), places[n := n][index := places[n]];
    if index != places[n] && index !in rest {
      OccupiedStill(places, n, index);
      var p := OccupantOf(places[n := n], index);
      SwapInSizes(g, places, free, n, index, p);
      g.Slot(index); g.Slot(places[n]);
      flat', places' := Splice(flat', g.Begin(places[n]), flat'[g.Begin(index)..g.Begin(index) + g.size]),
        places[n := n][index := index][p := places[n]];
      assert SwappedIn(g, flat, places, n, index, p, flat', places');
    }
  }

  lemma CanUse(g: Geometry, flat: seq<byte>, places: Places, free: set<nat>, n: nat, rest: seq<nat>, index: nat)
      returns (flat': seq<byte>, places': Places)
    requires g.Sound() && |flat| == g.total && LaidOut(g, places, free) && n in free && n !in places
    requires (forall h | h in free :: n <= h) && Elems(rest) == free - {n}
    requires index < g.n && index !in places
    ensures |flat'| == g.total && HoleUsed(g, flat, places, n, rest, index, flat', places')
  {
    hide Splice, Geometry.PieceLen, Data, Occupied, Fits;
    LaidOutFits(g, places, free);
    g.Slot(n);
    OccupiedUnless(g, places, free, index);
    if index == n || index in rest {
      flat', places' := Splice(flat, g.Begin(n), []), places[index := n];
      assert Filled(g, flat, places, n, index, [], flat', places');
    } else {
      var p := OccupantOf(places, index);
      DisplaceSizes(g, places, free, n, index, p);
      g.Slot(index);
      flat', places' := Splice(flat, g.Begin(n), flat[g.Begin(index)..g.Begin(index) + g.size]),
        places[index := index][p := n];
      assert Displaced(g, flat, places, n, index, p, flat', places');
    }
  }

  lemma OccupiedStill(places: Places, n: nat, v: nat)
    requires Occupied(places, v) && n in places && places[n] != v
    ensures Occupied(places[n := n], v)
  {
    var p :| p in places && places[p] == v;
    assert places[n := n][p] == v;
  }

  lemma OccupiedUnless(g: Geometry, places: Places, free: set<nat>, v: nat)
    requires LaidOut(g, places, free) && v < g.n
    ensures v in free || Occupied(places, v)
  {
    hide Occupied, Fits, Geometry.PieceLen;
  }

  lemma OccupantOf(places: Places, v: nat) returns (p: nat)
    requires Occupied(places, v)
    ensures p in places && places[p] == v
  {
    p :| p in places && places[p] == v;
  }

  /** Whichever case it is, the first hole is filled, the layout stays sound, and no byte of a placed piece is lost. */
  lemma PlacedRelocated(g: Geometry, flat: seq<byte>, places: Places, free: set<nat>, n: nat, rest: seq<nat>,
                        index: nat, flat': seq<byte>, places': Places)
    requires g.Sound() && |flat| == |flat'| == g.total && LaidOut(g, places, free)
    requires n in free && Elems(rest) == free - {n} && forall h | h in free :: n <= h
    requires index < g.n && index !in places && Placed(g, flat, places, n, rest, index, flat', places')
    ensures Relocated(g, flat, places, free, n, index, flat', places')
  {
    hide LaidOut, Relocated, Splice, Data, Geometry.PieceLen, Geometry.Begin;
    LaidOutFits(g, places, free);
    g.Slot(n);
    if n in places {
      if index == places[n] || index in rest {
        RelocateTakeOver(g, flat, places, free, n, places[n], index, flat');
      } else {
        var p: nat :| SwappedIn(g, flat, places, n, index, p, flat', places');
        var flat1 := Splice(flat, g.Begin(n), Data(g, flat, places, n));
        RelocateSwapIn(g, flat, places, free, n, places[n], index, p, flat1, flat');
      }
    } else if index == n || index in rest {
      var chunk :| Filled(g, flat, places, n, index, chunk, flat', places');
      RelocateFill(g, flat, places, free, n, index, chunk);
    } else {
      var p: nat :| Displaced(g, flat, places, n, index, p, flat', places');
      RelocateDisplace(g, flat, places, free, n, index, p, flat');
    }
  }

  /** Neither the first hole nor a slot with a foreign occupant is the short last slot. */
  lemma DisplaceSizes(g: Geometry, places: Places, free: set<nat>, n: nat, index: nat, p: nat)
    requires g.Sound() && LaidOut(g, places, free) && n in free && n !in places
    requires forall h | h in free :: n <= h
    requires index !in places && p in places && places[p] == index
    ensures g.PieceLen(index) == g.PieceLen(n) == g.size
  {
    OccupantAway(g, places, free, p);
    EarlyHoleIsFull(g, places, free, n, p);
  }

  lemma SwapInSizes(g: Geometry, places: Places, free: set<nat>, n: nat, index: nat, p: nat)
    requires g.Sound() && LaidOut(g, places, free) && n in free && n in places
    requires index !in places && p in places[n := n] && places[n := n][p] == index
    ensures g.PieceLen(index) == g.PieceLen(places[n]) == g.size && places[n] < g.n
  {
    OccupantAway(g, places, free, n);
    OccupantAway(g, places, free, p);
  }

  lemma OthersFit(g: Geometry, places: Places, free: set<nat>, index: nat, others: Places)
    requires LaidOut(g, places, free) && index in places
    requires others == map p | p in places && p != index :: places[p]
    ensures index < g.n && places[index] < g.n && g.PieceLen(index) <= g.PieceLen(places[index])
    ensures Fits(g, others) && Fits(g, places) && forall p | p in others :: others[p] != places[index]
  {
    hide Geometry.PieceLen, Occupied;
  }

  /** Writing inside a placed piece changes that piece's bytes and no other's. */
  lemma WriteOwn(g: Geometry, flat: seq<byte>, places: Places, free: set<nat>, index: nat, begin: nat, chunk: seq<byte>)
    requires g.Sound() && |flat| == g.total && LaidOut(g, places, free)
    requires index in places && begin + |chunk| <= g.PieceLen(index)
    ensures g.Begin(places[index]) + begin + |chunk| <= g.End(places[index]) <= g.total
    ensures var flat' := Splice(flat, g.Begin(places[index]) + begin, chunk);
      && Data(g, flat', places, index) == Splice(Data(g, flat, places, index), begin, chunk)
      && forall p | p in places && p != index :: Data(g, flat', places, p) == Data(g, flat, places, p)
  {
    hide Splice, Geometry.PieceLen, Geometry.Begin, LaidOut;
    var v := places[index];
    var others: Places := map p | p in places && p != index :: places[p];
    OthersFit(g, places, free, index, others);
    g.Slot(v); g.Slot(index);
    WriteFree(g, flat, others, v, g.Begin(v) + begin, chunk);
    var flat' := Splice(flat, g.Begin(v) + begin, chunk);
    SliceOwn(flat, g.Begin(v), g.PieceLen(index), begin, chunk);
    forall p | p in places && p != index ensures Data(g, flat', places, p) == Data(g, flat, places, p) {
      assert p in others && Data(g, flat', others, p) == Data(g, flat, others, p);
    }
  }
}
