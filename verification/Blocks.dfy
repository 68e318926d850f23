/** The blocks a piece is requested in, and the bookkeeping of which ones are still to be requested. */
module Blocks {
  import opened Basics
  import opened Slots

  /** Bytes [begin, begin + length) of a piece. Python's tuples compare by `begin` first. */
  datatype Block = Block(begin: nat, length: nat)

  predicate Less(a: Block, b: Block) {
    a.begin < b.begin || (a.begin == b.begin && a.length < b.length)
  }

  /** What `inactive_requests` holds for a piece: 1, None, or the list of blocks not requested yet. */
  datatype Inactive = Fresh | Done | Started(l: seq<Block>)

  /** Python's truth value of an `inactive_requests` entry. */
  predicate HasRequests(a: Inactive) {
    a.Fresh? || (a.Started? && a.l != [])
  }

  // ---- Cutting a piece into blocks ----

  /** The blocks of [x, length), `size` bytes each except for the last. */
  ghost function Cut(x: nat, length: nat, size: nat): seq<Block>
    requires 0 < size && x < length
    decreases length - x
  {
    if x + size < length then [Block(x, size)] + Cut(x + size, length, size) else [Block(x, length - x)]
  }

  /** After the blocks `l`, one more is cut off. */
  lemma CutOne(l: seq<Block>, x: nat, length: nat, size: nat)
    requires 0 < size && x < length
    ensures x + size < length ==>
      l + Cut(x, length, size) == (l + [Block(x, size)]) + Cut(x + size, length, size)
    ensures x + size >= length ==> l + Cut(x, length, size) == l + [Block(x, length - x)]
  {
  }

  /** `l` tiles [x, end): each block starts where the one before ends, and none is empty. */
  ghost predicate Tiles(l: seq<Block>, x: nat, end: nat) {
    if l == [] then x == end
    else l[0].begin == x && 0 < l[0].length && Tiles(l[1..], x + l[0].length, end)
  }

  lemma {:induction false} CutTiles(x: nat, length: nat, size: nat)
    requires 0 < size && x < length
    ensures Tiles(Cut(x, length, size), x, length)
    ensures forall b | b in Cut(x, length, size) :: b.length <= size
    decreases length - x
  {
    if x + size < length {
      CutTiles(x + size, length, size);
      assert Cut(x, length, size)[1..] == Cut(x + size, length, size);
    } else {
      assert Cut(x, length, size)[1..] == [];
    }
  }

  lemma {:induction false} TilesFacts(l: seq<Block>, x: nat, end: nat)
    requires Tiles(l, x, end)
    ensures x <= end && SumLen(l) == end - x && NoDup(l)
    ensures forall b | b in l :: x <= b.begin && 0 < b.length && b.begin + b.length <= end
    decreases |l|
  {
    if l != [] {
      TilesFacts(l[1..], x + l[0].length, end);
      assert l == [l[0]] + l[1..];
    }
  }

  lemma {:induction false} TilesApart(l: seq<Block>, x: nat, end: nat, b: Block, c: Block)
    requires Tiles(l, x, end) && b in l && c in l && b != c
    ensures b.begin + b.length <= c.begin || c.begin + c.length <= b.begin
    decreases |l|
  {
    TilesFacts(l[1..], x + l[0].length, end);
    if b in l[1..] && c in l[1..] {
      TilesApart(l[1..], x + l[0].length, end, b, c);
    }
  }

  // ---- Sums ----

  ghost function SumLen(l: seq<Block>): (n: nat)
  {
    if l == [] then 0 else l[0].length + SumLen(l[1..])
  }

  lemma {:induction false} SumLenAppend(l: seq<Block>, m: seq<Block>)
    ensures SumLen(l + m) == SumLen(l) + SumLen(m)
  {
    if l == [] {
      assert l + m == m;
    } else {
      SumLenAppend(l[1..], m);
      assert (l + m)[1..] == l[1..] + m;
    }
  }

  /** `l` without its element at `k`. */
  function Without<T>(l: seq<T>, k: nat): seq<T>
    requires k < |l|
  {
    l[..k] + l[k + 1..]
  }

  lemma {:induction false} WithoutFacts(l: seq<Block>, k: nat)
    requires k < |l|
    ensures SumLen(Without(l, k)) == SumLen(l) - l[k].length
  {
    if k == 0 {
      assert Without(l, k) == l[1..];
    } else {
      WithoutFacts(l[1..], k - 1);
      assert Without(l, k) == [l[0]] + Without(l[1..], k - 1);
    }
  }

  lemma WithoutNoDup<T>(l: seq<T>, k: nat)
    requires k < |l| && NoDup(l)
    ensures NoDup(Without(l, k)) && forall b :: b in Without(l, k) <==> b in l && b != l[k]
  {
    assert l == l[..k] + [l[k]] + l[k + 1..];
  }

  /** Bytes of piece `i` that are not requested yet. */
  ghost function Unrequested(g: Geometry, i: nat, a: Inactive): int {
    match a
    case Fresh => g.PieceLen(i)
    case Done => 0
    case Started(l) => SumLen(l)
  }

  /** Total of unrequested bytes over the first `n` pieces. */
  ghost function TotalUnrequested(g: Geometry, inactive: seq<Inactive>, n: nat): int
    requires n <= |inactive|
  {
    if n == 0 then 0 else TotalUnrequested(g, inactive, n - 1) + Unrequested(g, n - 1, inactive[n - 1])
  }

  lemma {:induction false} UnrequestedUpdate(g: Geometry, inactive: seq<Inactive>, n: nat, i: nat, a: Inactive)
    requires n <= |inactive| && i < |inactive|
    ensures TotalUnrequested(g, inactive[i := a], n)
         == TotalUnrequested(g, inactive, n) + if i < n then Unrequested(g, i, a) - Unrequested(g, i, inactive[i])
             else 0
  {
    if n > 0 {
      UnrequestedUpdate(g, inactive, n - 1, i, a);
    }
  }

  /** Nothing is unrequested exactly when no piece has requests left. */
  lemma {:induction false} NothingUnrequested(g: Geometry, inactive: seq<Inactive>, n: nat)
    requires g.Sound() && n <= |inactive| == g.n
    requires forall i | 0 <= i < n && inactive[i].Started? :: forall b | b in inactive[i].l :: 0 < b.length
    ensures TotalUnrequested(g, inactive, n) >= 0
    ensures TotalUnrequested(g, inactive, n) == 0 <==> forall i | 0 <= i < n :: !HasRequests(inactive[i])
  {
    if n > 0 {
      NothingUnrequested(g, inactive, n - 1);
      g.Slot(n - 1);
      match inactive[n - 1]
      case Fresh =>
      case Done =>
      case Started(l) => if l != [] { assert l[0] in l; }
    }
  }

  /** Total length of the pieces among the first `n` that are not verified yet. */
  ghost function TotalMissing(g: Geometry, have: seq<bool>, n: nat): int
    requires n <= |have|
  {
    if n == 0 then 0 else TotalMissing(g, have, n - 1) + if have[n - 1] then 0 else g.PieceLen(n - 1)
  }

  lemma {:induction false} MissingUpdate(g: Geometry, have: seq<bool>, n: nat, i: nat)
    requires n <= |have| && i < |have| && !have[i]
    ensures TotalMissing(g, have[i := true], n) == TotalMissing(g, have, n) - if i < n then g.PieceLen(i) else 0
  {
    if n > 0 {
      MissingUpdate(g, have, n - 1, i);
    }
  }

  /** Nothing is missing exactly when every piece is there. */
  lemma {:induction false} NothingMissing(g: Geometry, have: seq<bool>, n: nat)
    requires g.Sound() && n <= |have| == g.n
    ensures TotalMissing(g, have, n) >= 0
    ensures TotalMissing(g, have, n) == 0 <==> forall i | 0 <= i < n :: have[i]
  {
    if n > 0 {
      NothingMissing(g, have, n - 1);
      g.Slot(n - 1);
    }
  }

  /** All pieces together are as long as the torrent. */
  lemma {:induction false} LengthsAddUp(g: Geometry, have: seq<bool>, n: nat)
    requires g.Sound() && n <= |have| == g.n && forall i | 0 <= i < n :: !have[i]
    ensures TotalMissing(g, have, n) == if n < g.n then n * g.size else g.total
  {
    if n > 0 {
      LengthsAddUp(g, have, n - 1);
    }
  }

  lemma {:induction false} AllFresh(g: Geometry, inactive: seq<Inactive>, have: seq<bool>, n: nat)
    requires n <= |inactive| == |have| && forall i | 0 <= i < n :: !have[i] && inactive[i] == Fresh
    ensures TotalUnrequested(g, inactive, n) == TotalMissing(g, have, n)
  {
    if n > 0 {
      AllFresh(g, inactive, have, n - 1);
    }
  }

  // ---- The state of one piece's blocks ----

  /** The unrequested, outstanding and arrived blocks of a piece that was started are exactly the blocks it
      was cut into, each in one of the three states. Otherwise nothing is outstanding or arrived. */
  ghost predicate Tiled(all: seq<Block>, a: Inactive, active: set<Block>, got: set<Block>) {
    match a
    case Fresh => active == {} && got == {}
    case Done => active == {} && got == {}
    case Started(l) =>
      && NoDup(l)
      && active !! got
      && (forall b | b in l :: b in all && b !in active && b !in got)
      && (forall b | b in active :: b in all)
      && (forall b | b in got :: b in all)
      && (forall b | b in all :: b in l || b in active || b in got)
      && (l != [] || active != {})
  }

  /** The bytes of a piece whose blocks all arrived. */
  ghost function Assemble(all: seq<Block>, got: map<Block, seq<byte>>): seq<byte>
    requires forall b | b in all :: b in got
  {
    if all == [] then [] else got[all[0]] + Assemble(all[1..], got)
  }

  /** If every block's bytes are in place, the piece is what the blocks assemble to. */
  lemma {:induction false} AssembledIs(data: seq<byte>, all: seq<Block>, got: map<Block, seq<byte>>, x: nat)
    requires Tiles(all, x, |data|)
    requires forall b | b in all ::
      b in got && b.begin + b.length <= |data| && data[b.begin..b.begin + b.length] == got[b]
    ensures x <= |data| && data[x..] == Assemble(all, got)
    decreases |all|
  {
    if all != [] {
      var b := all[0];
      AssembledIs(data, all[1..], got, x + b.length);
      assert data[x..] == data[x..x + b.length] + data[x + b.length..];
    }
  }
}
