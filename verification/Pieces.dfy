/** What holds of one piece of the torrent, seen by itself. */
module Pieces {
  import opened Basics
  import opened Blocks
  import opened Slots

  type Digest = seq<byte>

  /** All that is known of one piece: the blocks it is cut into, the bookkeeping of its requests, the blocks
      that arrived since it was last started, and its bytes on disk if it has a place there. */
  datatype Piece = Piece(all: seq<Block>, inactive: Inactive, numactive: nat, active: set<Block>,
                         arrived: map<Block, seq<byte>>, have: bool, checked: bool,
                         atHome: bool, data: Option<seq<byte>>, hash: Digest)

  /** The blocks tile the piece, every arrived block is on disk, and a piece we have is on disk and,
      once checked, has the expected hash. */
  ghost predicate PieceInv(q: Piece, sha: seq<byte> -> Digest) {
    && Tiled(q.all, q.inactive, q.active, q.arrived.Keys)
    && q.numactive == |q.active|
    && (q.have <==> q.inactive.Done?)
    && (q.arrived != map[] ==> q.data.Some?)
    && AllStored(q.data, q.arrived)
    && (q.have ==> q.data.Some? && (if q.checked then sha(q.data.value) == q.hash else q.atHome))
  }

  ghost predicate AllStored(data: Option<seq<byte>>, got: map<Block, seq<byte>>) {
    forall b | b in got :: Stored(data, b, got[b])
  }

  ghost predicate Stored(data: Option<seq<byte>>, b: Block, s: seq<byte>) {
    && data.Some?
    && |s| == b.length
    && b.begin + b.length <= |data.value|
    && data.value[b.begin..b.begin + b.length] == s
  }

  /** Block `b` is the only one that has not arrived. */
  ghost predicate LastBlock(q: Piece, b: Block) {
    q.inactive == Started([]) && q.active == {b}
  }

  ghost function Arrived(q: Piece, b: Block, s: seq<byte>): Piece
    requires q.data.Some? && b.begin + |s| <= |q.data.value| && 0 < q.numactive
  {
    q.(numactive := q.numactive - 1, active := q.active - {b}, arrived := q.arrived[b := s],
       data := Some(Splice(q.data.value, b.begin, s)))
  }

  /** One block arriving: either some block is still missing, or the piece is now what its blocks assemble to. */
  lemma Arrive(q: Piece, sha: seq<byte> -> Digest, b: Block, s: seq<byte>)
    requires PieceInv(q, sha) && q.data.Some? && Tiles(q.all, 0, |q.data.value|) && b in q.active && |s| == b.length
    ensures b.begin + b.length <= |q.data.value| && 0 < q.numactive
    ensures q.inactive.Started? && !q.have
    ensures LastBlock(q, b) <==> q.inactive.l == [] && q.numactive == 1
    ensures LastBlock(q, b) <==> forall c | c in q.all :: c == b || c in q.arrived
    ensures var q' := Arrived(q, b, s);
      if LastBlock(q, b) then (forall c | c in q.all :: c in q'.arrived) && q'.data.value == Assemble(q.all, q'.arrived)
      else PieceInv(q', sha)
  {
    hide Tiles, Assemble, Splice, AllStored, Stored, PieceInv;
    ActiveFacts(q, sha, b);
    OnlyMissing(q, sha, b);
    ArrivedStored(q.all, q.arrived, q.data.value, b, s);
    if LastBlock(q, b) {
      AllInPlace(Splice(q.data.value, b.begin, s), q.all, q.arrived[b := s]);
    } else {
      NotLast(q, sha, b, s);
    }
  }

  lemma ActiveFacts(q: Piece, sha: seq<byte> -> Digest, b: Block)
    requires PieceInv(q, sha) && q.data.Some? && b in q.active
    ensures q.inactive.Started? && !q.have && 0 < q.numactive && b in q.all && forall c | c in q.arrived :: c in q.all
    ensures LastBlock(q, b) <==> q.inactive.l == [] && q.numactive == 1
    ensures AllStored(q.data, q.arrived)
  {
    hide AllStored;
    if q.numactive == 1 {
      assert |q.active - {b}| == 0;
    }
  }

  /** A block that is not the last one. */
  lemma NotLast(q: Piece, sha: seq<byte> -> Digest, b: Block, s: seq<byte>)
    requires PieceInv(q, sha) && q.data.Some? && b in q.active && b.begin + |s| <= |q.data.value| && 0 < q.numactive
    requires AllStored(Some(Splice(q.data.value, b.begin, s)), q.arrived[b := s]) && !LastBlock(q, b)
    ensures PieceInv(Arrived(q, b, s), sha)
  {
    hide AllStored, Splice;
  }

  /** Another block is missing exactly if one is unrequested or outstanding. */
  lemma OnlyMissing(q: Piece, sha: seq<byte> -> Digest, b: Block)
    requires PieceInv(q, sha) && b in q.active
    ensures LastBlock(q, b) <==> forall c | c in q.all :: c == b || c in q.arrived
  {
    hide AllStored, Stored;
    if q.inactive.Started? && q.inactive.l != [] {
      assert q.inactive.l[0] in q.inactive.l;
    }
    if q.active != {b} {
      var c :| c in q.active && c != b;
    }
  }

  lemma AllInPlace(data: seq<byte>, all: seq<Block>, got: map<Block, seq<byte>>)
    requires Tiles(all, 0, |data|) && AllStored(Some(data), got) && forall c | c in all :: c in got
    ensures data == Assemble(all, got)
  {
    hide Tiles, Assemble, Stored;
    forall c | c in all ensures c.begin + c.length <= |data| && data[c.begin..c.begin + c.length] == got[c] {
      StoredIs(data, c, got[c]);
    }
    AssembledIs(data, all, got, 0);
    assert data[0..] == data;
  }

  lemma StoredIs(data: seq<byte>, b: Block, s: seq<byte>)
    requires Stored(Some(data), b, s)
    ensures b.begin + b.length <= |data| && data[b.begin..b.begin + b.length] == s
  {
  }

  /** A new block disturbs no block that arrived before. */
  lemma ArrivedStored(all: seq<Block>, got: map<Block, seq<byte>>, data: seq<byte>, b: Block, s: seq<byte>)
    requires Tiles(all, 0, |data|) && b in all && |s| == b.length
    requires AllStored(Some(data), got) && forall c | c in got :: c in all
    ensures b.begin + b.length <= |data|
    ensures AllStored(Some(Splice(data, b.begin, s)), got[b := s])
  {
    hide Tiles, Splice;
    TilesFacts(all, 0, |data|);
    var data', got' := Splice(data, b.begin, s), got[b := s];
    forall c | c in got' ensures Stored(Some(data'), c, got'[c]) {
      if c != b {
        TilesApart(all, 0, |data|, b, c);
        assert Stored(Some(data), c, got[c]);
        SliceApart(data, b.begin, s, c.begin, c.begin + c.length);
      } else {
        SliceInside(data, b.begin, s, b.length);
        assert s[..b.length] == s;
      }
    }
  }

  /** A new place, or a first one, for a piece with unchanged bytes. */
  lemma Rehoused(q: Piece, q': Piece, sha: seq<byte> -> Digest)
    requires PieceInv(q, sha) && q' == q.(data := q'.data, atHome := q'.atHome)
    requires q.data.Some? ==> q'.data == q.data && (q.atHome ==> q'.atHome)
    ensures PieceInv(q', sha)
  {
  }

  /** Cutting a piece that was not started. */
  lemma Start(q: Piece, sha: seq<byte> -> Digest, length: nat)
    requires PieceInv(q, sha) && q.inactive == Fresh && Tiles(q.all, 0, length) && 0 < length
    ensures PieceInv(q.(inactive := Started(q.all)), sha) && SumLen(q.all) == length
  {
    TilesFacts(q.all, 0, length);
  }

  /** An unrequested block becomes outstanding. */
  lemma Request(q: Piece, sha: seq<byte> -> Digest, k: nat)
    requires PieceInv(q, sha) && q.inactive.Started? && k < |q.inactive.l|
    ensures q.inactive.l[k] !in q.active && q.inactive.l[k] in q.all
    ensures PieceInv(q.(inactive := Started(Without(q.inactive.l, k)), numactive := q.numactive + 1,
                        active := q.active + {q.inactive.l[k]}), sha)
  {
    WithoutNoDup(q.inactive.l, k);
  }

  /** An outstanding block becomes unrequested. */
  lemma Lose(q: Piece, sha: seq<byte> -> Digest, b: Block)
    requires PieceInv(q, sha) && b in q.active
    ensures q.inactive.Started? && q.numactive > 0 && b in q.all
    ensures PieceInv(q.(inactive := Started(q.inactive.l + [b]), numactive := q.numactive - 1,
                        active := q.active - {b}), sha)
  {
  }
}
