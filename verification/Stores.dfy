/** The state of a download as one value: what is on disk, where each piece is, and what was requested. */
module Stores {
  import opened Basics
  import opened Blocks
  import opened Pieces
  import opened Slots

  datatype Store = Store(
    g: Geometry,
    requestSize: nat,
    hashes: seq<Digest>,
    checkHashes: bool,
    flat: seq<byte>,                          // the bytes on disk
    places: Places,
    holes: seq<nat>,
    inactive: seq<Inactive>,
    numactive: seq<nat>,
    active: seq<set<Block>>,                  // blocks requested and not arrived
    arrived: seq<map<Block, seq<byte>>>,      // blocks arrived since the piece was started, with their bytes
    have: seq<bool>,
    waschecked: seq<bool>,
    amountLeft: int,
    amountInactive: int,
    endgame: bool,
    finishedCalls: nat                        // calls of the `finished` callback
  )

  ghost predicate Shape(s: Store) {
    && s.g.Sound()
    && 0 < s.requestSize
    && |s.flat| == s.g.total
    && |s.hashes| == |s.inactive| == |s.numactive| == |s.active| == |s.arrived| == |s.have| == |s.waschecked| == s.g.n
    && Fits(s.g, s.places)
  }

  /** The blocks piece `i` is cut into. */
  ghost function All(s: Store, i: nat): seq<Block>
    requires Shape(s) && i < s.g.n
  {
    s.g.Slot(i);
    Cut(0, s.g.PieceLen(i), s.requestSize)
  }

  ghost function DataOf(s: Store, i: nat): Option<seq<byte>>
    requires Shape(s)
  {
    if i in s.places then Some(Data(s.g, s.flat, s.places, i)) else None
  }

  ghost function PieceOf(s: Store, i: nat): Piece
    requires Shape(s) && i < s.g.n
  {
    Piece(All(s, i), s.inactive[i], s.numactive[i], s.active[i], s.arrived[i], s.have[i], s.waschecked[i],
          i in s.places && s.places[i] == i, DataOf(s, i), s.hashes[i])
  }

  ghost predicate PiecesOK(s: Store, sha: seq<byte> -> Digest)
    requires Shape(s)
  {
    forall i: nat | i < s.g.n :: PieceInv(PieceOf(s, i), sha)
  }

  ghost predicate Sums(s: Store)
    requires Shape(s)
  {
    && s.amountLeft == TotalMissing(s.g, s.have, s.g.n)
    && s.amountInactive == TotalUnrequested(s.g, s.inactive, s.g.n)
  }

  /** The invariant of a download: the layout is sound, every piece is, the byte counts are the sums they
      stand for, `finished` was called once if nothing is left, and not before, and endgame begins in time. */
  ghost predicate Inv(s: Store, sha: seq<byte> -> Digest) {
    && Shape(s)
    && Laid(s.g, s.places, s.holes)
    && PiecesOK(s, sha)
    && Sums(s)
    && (s.checkHashes ==> forall i | 0 <= i < s.g.n :: s.waschecked[i])
    && s.finishedCalls == (if s.amountLeft == 0 then 1 else 0)
    && EndgameBegun(s)
  }

  /** Once a block is outstanding and no other can be requested, endgame has begun. */
  ghost predicate EndgameBegun(s: Store) {
    s.endgame || s.amountInactive > 0 || forall i | 0 <= i < |s.active| :: s.active[i] == {}
  }

  /** No piece has outstanding or arrived blocks. */
  ghost predicate NothingStarted(s: Store) {
    |s.active| == |s.arrived| && forall i | 0 <= i < |s.active| :: s.active[i] == {} && s.arrived[i] == map[]
  }

  // ---- What follows from the invariant ----

  lemma Lengths(s: Store)
    requires Shape(s)
    ensures |s.hashes| == |s.inactive| == |s.numactive| == |s.active| == |s.arrived| == |s.have| == |s.waschecked|
      == s.g.n
  {
  }

  lemma InvShape(s: Store, sha: seq<byte> -> Digest)
    requires Inv(s, sha)
    ensures Shape(s)
    ensures |s.hashes| == |s.inactive| == |s.numactive| == |s.active| == |s.arrived| == |s.have| == |s.waschecked|
      == s.g.n
  {
  }

  /** When nothing is left, every piece is at home and verified, and so the disk holds the pieces in order. */
  lemma Complete(s: Store, sha: seq<byte> -> Digest)
    requires Inv(s, sha) && s.amountLeft == 0
    ensures s.holes == [] && s.finishedCalls == 1
    ensures forall i: nat | i < s.g.n :: i in s.places && s.places[i] == i
    ensures forall i: nat | i < s.g.n ::
      0 <= s.g.Begin(i) <= s.g.End(i) <= |s.flat| && s.have[i]
      && (s.waschecked[i] ==> sha(s.flat[s.g.Begin(i)..s.g.End(i)]) == s.hashes[i])
  {
    hide Tiled, Geometry.PieceLen, TotalMissing, Fits;
    NothingMissing(s.g, s.have, s.g.n);
    forall i: nat | i < s.g.n ensures i in s.places && s.have[i] {
      assert PieceInv(PieceOf(s, i), sha);
    }
    AllPlacedMeansHome(s.g, s.places, s.holes);
    forall i: nat | i < s.g.n
      ensures 0 <= s.g.Begin(i) <= s.g.End(i) <= |s.flat| && s.have[i]
      ensures s.waschecked[i] ==> sha(s.flat[s.g.Begin(i)..s.g.End(i)]) == s.hashes[i]
    {
      s.g.Slot(i);
      assert PieceInv(PieceOf(s, i), sha);
      assert DataOf(s, i) == Some(s.flat[s.g.Begin(i)..s.g.End(i)]);
    }
  }

  lemma AllChecked(s: Store, sha: seq<byte> -> Digest)
    requires Inv(s, sha) && s.checkHashes
    ensures forall i: nat | i < s.g.n :: i < |s.waschecked| && s.waschecked[i]
  {
    hide Laid, PiecesOK, Sums, Fits;
  }

  /** `amount_inactive` reaches 0 exactly when no piece has anything left to request. */
  lemma EndgameTest(s: Store, sha: seq<byte> -> Digest)
    requires Inv(s, sha)
    ensures s.amountInactive == 0 <==> forall i | 0 <= i < s.g.n :: !HasRequests(s.inactive[i])
  {
    hide PiecesOK, Sums;
    UnrequestedTest(s, sha);
  }

  /** Before endgame, while a block is outstanding, another one can be requested. */
  lemma SomethingLeft(s: Store, sha: seq<byte> -> Digest, i: nat, b: Block)
    requires Inv(s, sha) && !s.endgame && i < s.g.n && b in s.active[i]
    ensures exists j: nat :: j < s.g.n && HasRequests(s.inactive[j])
  {
    hide Laid, PiecesOK, Sums;
    EndgameTest(s, sha);
    var j :| 0 <= j < s.g.n && HasRequests(s.inactive[j]);
  }

  lemma UnrequestedTest(s: Store, sha: seq<byte> -> Digest)
    requires Shape(s) && PiecesOK(s, sha) && Sums(s)
    ensures s.amountInactive >= 0
    ensures s.amountInactive == 0 <==> forall i | 0 <= i < s.g.n :: !HasRequests(s.inactive[i])
  {
    hide Geometry.PieceLen, Laid, TotalUnrequested, TotalMissing, Data, Cut, Tiles;
    forall i: nat | i < s.g.n && s.inactive[i].Started? ensures forall b | b in s.inactive[i].l :: 0 < b.length {
      assert PieceInv(PieceOf(s, i), sha);
      AllTiles(s, i);
      TilesFacts(All(s, i), 0, s.g.PieceLen(i));
    }
    NothingUnrequested(s.g, s.inactive, s.g.n);
  }

  lemma AllTiles(s: Store, i: nat)
    requires Shape(s) && i < s.g.n
    ensures 1 <= s.g.PieceLen(i) && Tiles(All(s, i), 0, s.g.PieceLen(i))
    ensures forall b | b in All(s, i) :: b.length <= s.requestSize
  {
    s.g.Slot(i);
    CutTiles(0, s.g.PieceLen(i), s.requestSize);
  }

  // ---- Steps ----

  /** Only the bookkeeping of piece `i` changed, and that piece is still fine. */
  lemma OnePiece(s: Store, s': Store, sha: seq<byte> -> Digest, i: nat)
    requires Inv(s, sha) && i < s.g.n
    requires |s'.inactive| == |s'.numactive| == |s'.active| == |s'.arrived| == s.g.n
    requires s' == s.(inactive := s.inactive[i := s'.inactive[i]], numactive := s.numactive[i := s'.numactive[i]],
                      active := s.active[i := s'.active[i]], arrived := s.arrived[i := s'.arrived[i]],
                      amountInactive := s'.amountInactive, endgame := s'.endgame)
    requires s'.amountInactive
      == s.amountInactive + Unrequested(s.g, i, s'.inactive[i]) - Unrequested(s.g, i, s.inactive[i])
    requires PieceInv(PieceOf(s', i), sha) && (s'.amountInactive >= 0 ==> EndgameBegun(s'))
    ensures Inv(s', sha)
  {
    hide PieceInv, TotalMissing, TotalUnrequested, Unrequested, Data, Geometry.PieceLen, Laid, Fits, EndgameBegun;
    UnrequestedUpdate(s.g, s.inactive, s.g.n, i, s'.inactive[i]);
    forall j: nat | j < s.g.n && j != i ensures PieceInv(PieceOf(s', j), sha) {
      assert PieceOf(s', j) == PieceOf(s, j);
      assert PieceInv(PieceOf(s, j), sha);
    }
    UnrequestedTest(s', sha);
  }

  /** The blocks of piece `i` that are not requested, as a list. */
  ghost function ToRequest(s: Store, i: nat): seq<Block>
    requires Shape(s) && i < s.g.n
  {
    match s.inactive[i]
    case Fresh => All(s, i)
    case Done => []
    case Started(l) => l
  }

  ghost function CutUp(s: Store, i: nat): Store
    requires Shape(s) && i < s.g.n
  {
    s.(inactive := s.inactive[i := Started(ToRequest(s, i))])
  }

  lemma CutUpInv(s: Store, sha: seq<byte> -> Digest, i: nat)
    requires Inv(s, sha) && i < s.g.n && HasRequests(s.inactive[i])
    ensures Inv(CutUp(s, i), sha)
  {
    hide Geometry.PieceLen, Laid, PieceInv, TotalUnrequested, TotalMissing, Data, Cut, Tiles, Fits;
    assert PieceInv(PieceOf(s, i), sha);
    if s.inactive[i] == Fresh {
      AllTiles(s, i);
      Start(PieceOf(s, i), sha, s.g.PieceLen(i));
      assert PieceOf(CutUp(s, i), i) == PieceOf(s, i).(inactive := Started(All(s, i)));
      OnePiece(s, CutUp(s, i), sha, i);
    } else {
      assert CutUp(s, i) == s;
    }
  }

  /** Block `k` of the unrequested ones of piece `i` becomes outstanding. */
  ghost function Requested(s: Store, i: nat, k: nat): Store
    requires Shape(s) && i < s.g.n && k < |ToRequest(s, i)|
  {
    var b := ToRequest(s, i)[k];
    s.(inactive := s.inactive[i := Started(Without(ToRequest(s, i), k))],
       numactive := s.numactive[i := s.numactive[i] + 1],
       active := s.active[i := s.active[i] + {b}],
       amountInactive := s.amountInactive - b.length,
       endgame := s.endgame || s.amountInactive == b.length)
  }

  /** Cutting a piece into its blocks changes nothing that counts. */
  lemma OpenedSame(s: Store, s': Store, i: nat)
    requires Shape(s) && i < s.g.n && HasRequests(s.inactive[i])
    requires s' == s.(inactive := s.inactive[i := Started(ToRequest(s, i))])
    ensures Shape(s') && ToRequest(s', i) == ToRequest(s, i)
  {
  }

  lemma OpenedRequested(s: Store, s': Store, i: nat, k: nat)
    requires Shape(s) && i < s.g.n && s' == s.(inactive := s.inactive[i := Started(ToRequest(s, i))])
    requires Shape(s') && k < |ToRequest(s, i)| && ToRequest(s', i) == ToRequest(s, i)
    ensures Requested(s', i, k) == Requested(s, i, k)
  {
    hide All, Without;
  }

  lemma RequestedInv(s: Store, sha: seq<byte> -> Digest, i: nat, k: nat)
    requires Inv(s, sha) && i < s.g.n && HasRequests(s.inactive[i]) && k < |ToRequest(s, i)|
    ensures Inv(Requested(s, i, k), sha)
    ensures ToRequest(s, i)[k] !in s.active[i] && ToRequest(s, i)[k] in All(s, i)
  {
    hide Geometry.PieceLen, Laid, PieceInv, TotalUnrequested, TotalMissing, Data, Cut, Fits, Without;
    var c := CutUp(s, i);
    CutUpInv(s, sha, i);
    assert PieceInv(PieceOf(c, i), sha) && All(c, i) == All(s, i);
    Request(PieceOf(c, i), sha, k);
    WithoutFacts(ToRequest(s, i), k);
    var s' := Requested(s, i, k);
    assert PieceOf(s', i)
        == PieceOf(c, i).(inactive := s'.inactive[i], numactive := s'.numactive[i], active := s'.active[i]);
    OnePiece(c, s', sha, i);
  }

  /** Outstanding block `b` of piece `i` becomes unrequested again. */
  ghost function Lost(s: Store, i: nat, b: Block): Store
    requires Shape(s) && i < s.g.n && s.inactive[i].Started? && 0 < s.numactive[i]
  {
    s.(inactive := s.inactive[i := Started(s.inactive[i].l + [b])],
       numactive := s.numactive[i := s.numactive[i] - 1],
       active := s.active[i := s.active[i] - {b}],
       amountInactive := s.amountInactive + b.length)
  }

  lemma LostInv(s: Store, sha: seq<byte> -> Digest, i: nat, b: Block)
    requires Inv(s, sha) && i < s.g.n && b in s.active[i]
    ensures s.inactive[i].Started? && 0 < s.numactive[i] && Inv(Lost(s, i, b), sha)
  {
    hide Geometry.PieceLen, Laid, PieceInv, TotalUnrequested, TotalMissing, Data, Cut, Fits;
    assert PieceInv(PieceOf(s, i), sha);
    Lose(PieceOf(s, i), sha, b);
    SumLenAppend(s.inactive[i].l, [b]);
    var s' := Lost(s, i, b);
    assert PieceOf(s', i)
        == PieceOf(s, i).(inactive := s'.inactive[i], numactive := s'.numactive[i], active := s'.active[i]);
    OnePiece(s, s', sha, i);
  }

  /** Pieces were moved around on disk, and `index` got a place: no byte of a placed piece changed. */
  ghost predicate Moved(s: Store, s': Store, index: nat)
    requires Shape(s) && Shape(s')
  {
    && s' == s.(flat := s'.flat, places := s'.places, holes := s'.holes)
    && s'.places.Keys == s.places.Keys + {index}
    && Preserved(s.g, s.flat, s.places, s'.flat, s'.places)
    && forall p | p in s.places && s.places[p] == p :: s'.places[p] == p
  }

  lemma MovedInv(s: Store, s': Store, sha: seq<byte> -> Digest, index: nat)
    requires Inv(s, sha) && Shape(s') && Moved(s, s', index) && Laid(s'.g, s'.places, s'.holes)
    ensures Inv(s', sha)
    ensures forall p | p in s.places :: DataOf(s', p) == DataOf(s, p)
  {
    hide PieceInv, TotalMissing, TotalUnrequested, Data, Geometry.PieceLen, Laid, Fits;
    forall i: nat | i < s.g.n ensures PieceInv(PieceOf(s', i), sha) {
      assert PieceInv(PieceOf(s, i), sha);
      Rehoused(PieceOf(s, i), PieceOf(s', i), sha);
    }
  }

  /** Outstanding block `b` of the placed piece `i` is written to disk with bytes `t`. */
  ghost function Wrote(s: Store, i: nat, b: Block, t: seq<byte>): Store
    requires Shape(s) && i < s.g.n && i in s.places && 0 < s.numactive[i] && b.begin + |t| <= s.g.PieceLen(i)
  {
    s.g.Slot(i); s.g.Slot(s.places[i]);
    s.(flat := Splice(s.flat, s.g.Begin(s.places[i]) + b.begin, t),
       numactive := s.numactive[i := s.numactive[i] - 1],
       active := s.active[i := s.active[i] - {b}],
       arrived := s.arrived[i := s.arrived[i][b := t]])
  }

  /** Nothing of the started piece `i` is unrequested or outstanding. */
  predicate AllArrived(inactive: Inactive, numactive: nat) {
    !HasRequests(inactive) && numactive == 0
  }

  /** A piece whose hash is right is had; one whose hash is wrong starts over. */
  ghost function Checked(s: Store, i: nat, good: bool): Store
    requires Shape(s) && i < s.g.n
  {
    var s1 := s.(arrived := s.arrived[i := map[]]);
    if good then
      var left := s.amountLeft - s.g.PieceLen(i);
      s1.(inactive := s.inactive[i := Done], have := s.have[i := true], waschecked := s.waschecked[i := true],
          amountLeft := left, finishedCalls := s.finishedCalls + if left == 0 then 1 else 0)
    else
      s1.(inactive := s.inactive[i := Fresh], amountInactive := s.amountInactive + s.g.PieceLen(i))
  }

  /** The write changes the bytes of piece `i` as if it were alone on disk, and no other piece's. */
  lemma WroteFacts(s: Store, sha: seq<byte> -> Digest, i: nat, b: Block, t: seq<byte>)
    requires Inv(s, sha) && i < s.g.n && i in s.places && b in s.active[i] && |t| == b.length
    ensures 0 < s.numactive[i] && b.begin + |t| <= s.g.PieceLen(i)
    ensures Shape(Wrote(s, i, b, t))
    ensures forall j: nat | j < s.g.n && j != i :: PieceOf(Wrote(s, i, b, t), j) == PieceOf(s, j)
    ensures PieceOf(Wrote(s, i, b, t), i) == Arrived(PieceOf(s, i), b, t)
  {
    hide Geometry.PieceLen, Sums, Splice, Cut, Tiles, Data, PieceInv;
    var q := PieceOf(s, i);
    assert PieceInv(q, sha);
    AllTiles(s, i);
    Arrive(q, sha, b, t);
    hide LastBlock, PiecesOK, All, Assemble;
    WriteOwn(s.g, s.flat, s.places, Elems(s.holes), i, b.begin, t);
  }

  /** If more blocks are missing, that is all that happens. */
  lemma WroteInv(s: Store, sha: seq<byte> -> Digest, i: nat, b: Block, t: seq<byte>)
    requires Inv(s, sha) && i < s.g.n && i in s.places && b in s.active[i] && |t| == b.length
    ensures 0 < s.numactive[i] && b.begin + |t| <= s.g.PieceLen(i)
    ensures LastBlock(PieceOf(s, i), b) <==> AllArrived(Wrote(s, i, b, t).inactive[i], Wrote(s, i, b, t).numactive[i])
    ensures !LastBlock(PieceOf(s, i), b) ==> Inv(Wrote(s, i, b, t), sha)
  {
    hide Geometry.PieceLen, Sums, Splice, Cut, Tiles, Data, Laid;
    WroteFacts(s, sha, i, b, t);
    AllTiles(s, i);
    assert PieceInv(PieceOf(s, i), sha);
    Arrive(PieceOf(s, i), sha, b, t);
    hide PieceInv, Assemble;
    var s' := Wrote(s, i, b, t);
    if !LastBlock(PieceOf(s, i), b) {
      forall j: nat | j < s.g.n ensures PieceInv(PieceOf(s', j), sha) {
        if j != i { assert PieceInv(PieceOf(s, j), sha); }
      }
      SameSums(s, s');
    }
  }

  lemma SameSums(s: Store, s': Store)
    requires Shape(s) && Shape(s') && Sums(s) && s'.g == s.g && s'.have == s.have && s'.inactive == s.inactive
    requires s'.amountLeft == s.amountLeft && s'.amountInactive == s.amountInactive
    ensures Sums(s')
  {
  }

  /** Whether the hash of a complete piece is right or wrong, the invariant holds again after the check. */
  lemma CheckedInv(s: Store, sha: seq<byte> -> Digest, i: nat, b: Block, t: seq<byte>, good: bool)
    requires Inv(s, sha) && i < s.g.n && i in s.places && b in s.active[i] && |t| == b.length
    requires LastBlock(PieceOf(s, i), b)
    ensures 0 < s.numactive[i] && b.begin + |t| <= s.g.PieceLen(i) && Shape(Wrote(s, i, b, t))
    ensures good == Good(Wrote(s, i, b, t), sha, i) ==> Inv(Checked(Wrote(s, i, b, t), i, good), sha)
  {
    hide Geometry.PieceLen, Splice, Cut, Tiles, Data, Laid, Assemble, Fits, PieceInv, TotalMissing, TotalUnrequested;
    WroteFacts(s, sha, i, b, t);
    LastBlockFacts(s, sha, i, b);
    var s1 := Wrote(s, i, b, t);
    if good == Good(s1, sha, i) {
      var s2 := Checked(s1, i, good);
      CheckedPiece(PieceOf(s1, i), PieceOf(s2, i), sha, good);
      forall j: nat | j < s.g.n ensures PieceInv(PieceOf(s2, j), sha) {
        if j != i {
          assert PieceInv(PieceOf(s, j), sha) && PieceOf(s2, j) == PieceOf(s1, j);
        }
      }
      CheckedSums(s, s1, i, good);
      NothingMissing(s.g, s.have, s.g.n);
    }
  }

  lemma LastBlockFacts(s: Store, sha: seq<byte> -> Digest, i: nat, b: Block)
    requires Inv(s, sha) && i < s.g.n && LastBlock(PieceOf(s, i), b)
    ensures s.inactive[i] == Started([]) && s.active[i] == {b} && s.numactive[i] == 1 && !s.have[i]
  {
    assert PieceInv(PieceOf(s, i), sha);
  }

  /** A piece with nothing left to come is fine as a verified one if its hash is right, and as a new one if not. */
  lemma CheckedPiece(q: Piece, q': Piece, sha: seq<byte> -> Digest, good: bool)
    requires q.active == {} && q.numactive == 0 && q.data.Some? && good == (sha(q.data.value) == q.hash)
    requires !q.have
    requires q'
      == q.(arrived := map[], inactive := if good then Done else Fresh, have := good, checked := good || q.checked)
    ensures PieceInv(q', sha)
  {
  }

  lemma CheckedSums(s: Store, s1: Store, i: nat, good: bool)
    requires Shape(s) && Shape(s1) && Sums(s) && i < s.g.n && !s.have[i] && s.inactive[i] == Started([])
    requires s1.g == s.g && s1.have == s.have && s1.inactive == s.inactive
    requires s1.amountLeft == s.amountLeft && s1.amountInactive == s.amountInactive
    ensures Shape(Checked(s1, i, good)) && Sums(Checked(s1, i, good))
  {
    hide Geometry.PieceLen, TotalMissing, TotalUnrequested;
    var s2 := Checked(s1, i, good);
    UnrequestedUpdate(s.g, s.inactive, s.g.n, i, s2.inactive[i]);
    MissingUpdate(s.g, s.have, s.g.n, i);
  }

  /** A piece we have that is away from home was checked, so its bytes on disk have the expected hash. */
  lemma CheckedAway(s: Store, sha: seq<byte> -> Digest, n: nat)
    requires Inv(s, sha) && n in s.places && n in s.holes
    ensures s.have[n] ==> sha(Data(s.g, s.flat, s.places, n)) == s.hashes[n]
  {
    assert PieceInv(PieceOf(s, n), sha);
    assert s.places[n] != n;
  }

  lemma RequestableNotHad(s: Store, sha: seq<byte> -> Digest, i: nat)
    requires Inv(s, sha) && i < s.g.n && HasRequests(s.inactive[i])
    ensures !s.have[i]
  {
    assert PieceInv(PieceOf(s, i), sha);
  }

  lemma HadQuiet(s: Store, sha: seq<byte> -> Digest, i: nat)
    requires Inv(s, sha) && i < s.g.n && s.have[i]
    ensures s.active[i] == {}
  {
    assert PieceInv(PieceOf(s, i), sha);
  }

  lemma SomeToRequest(s: Store, i: nat)
    requires Shape(s) && i < s.g.n && HasRequests(s.inactive[i])
    ensures ToRequest(s, i) != []
  {
    AllTiles(s, i);
  }

  ghost predicate Good(s: Store, sha: seq<byte> -> Digest, i: nat)
    requires Shape(s) && i < s.g.n
  {
    DataOf(s, i).Some? && sha(DataOf(s, i).value) == s.hashes[i]
  }

  /** What placing a piece without a place starts from: there is a hole, and if its own piece is elsewhere and had,
      that piece was checked. */
  lemma FirstHole(s: Store, sha: seq<byte> -> Digest, index: nat)
    requires Inv(s, sha) && index < s.g.n && index !in s.places
    ensures s.holes != [] && LaidOut(s.g, s.places, Elems(s.holes)) && Shape(s) && |s.have| == s.g.n
    ensures s.holes[0] in Elems(s.holes) && s.holes[0] < s.g.n && forall h | h in Elems(s.holes) :: s.holes[0] <= h
    ensures Elems(s.holes[1..]) == Elems(s.holes) - {s.holes[0]} && Ascending(s.holes[1..])
    ensures s.holes[0] in s.places && s.have[s.holes[0]] ==>
      sha(Data(s.g, s.flat, s.places, s.holes[0])) == s.hashes[s.holes[0]]
  {
    hide Geometry.PieceLen, PieceInv, Sums, Data, LaidOut, Ascending;
    UnplacedLeavesHole(s.g, s.places, s.holes, index);
    HolesTail(s.g, s.places, s.holes);
    HoleInRange(s.g, s.places, s.holes);
    assert forall h | h in Elems(s.holes) :: h == s.holes[0] || h in s.holes[1..];
    if s.holes[0] in s.places { CheckedAway(s, sha, s.holes[0]); }
  }

  lemma HoleInRange(g: Geometry, places: Places, holes: seq<nat>)
    requires Laid(g, places, holes)
    ensures forall h | h in holes :: h < g.n
  {
    hide Ascending;
  }

  /** A relocation keeps the invariant. */
  lemma RelocatedInv(s: Store, s': Store, sha: seq<byte> -> Digest, index: nat)
    requires Inv(s, sha) && s.holes != [] && Ascending(s.holes[1..])
    requires Elems(s.holes[1..]) == Elems(s.holes) - {s.holes[0]}
    requires |s'.flat| == s.g.total && s' == s.(flat := s'.flat, places := s'.places, holes := s.holes[1..])
    requires Relocated(s.g, s.flat, s.places, Elems(s.holes), s.holes[0], index, s'.flat, s'.places)
    ensures Shape(s') && Moved(s, s', index) && Inv(s', sha)
  {
    hide Geometry.PieceLen, PieceInv, Sums, Data, Ascending, Preserved;
    MovedInv(s, s', sha, index);
  }

  lemma GoodWhere(s: Store, sha: seq<byte> -> Digest, i: nat)
    requires Shape(s) && i < s.g.n && i in s.places
    ensures s.places[i] < s.g.n && 0 <= s.g.PieceLen(i) <= s.g.PieceLen(s.places[i])
    ensures s.g.Begin(s.places[i]) + s.g.PieceLen(i) <= s.g.total
    ensures Good(s, sha, i) <==>
      sha(s.flat[s.g.Begin(s.places[i])..s.g.Begin(s.places[i]) + s.g.PieceLen(i)]) == s.hashes[i]
  {
    hide Geometry.PieceLen;
    s.g.Slot(i); s.g.Slot(s.places[i]);
  }

  /** Piece `i` gets a place, if it has none: other pieces are moved as the source does. */
  ghost predicate PlacedAs(s: Store, mid: Store, i: nat)
    requires Shape(s)
  {
    if i in s.places then mid == s
    else
      && s.holes != [] && mid == s.(flat := mid.flat, places := mid.places, holes := s.holes[1..])
          && |mid.flat| == s.g.total
      && Placed(s.g, s.flat, s.places, s.holes[0], s.holes[1..], i, mid.flat, mid.places)
  }

  /** There is always a place. */
  lemma PlacePossible(s: Store, sha: seq<byte> -> Digest, i: nat) returns (mid: Store)
    requires Inv(s, sha) && i < s.g.n
    ensures PlacedAs(s, mid, i)
  {
    hide Geometry.PieceLen, LaidOut, Placed, PieceInv, Sums, Data, Ascending, Fits;
    InvShape(s, sha);
    mid := s;
    if i !in s.places {
      FirstHole(s, sha, i);
      var flat, places := CanPlace(s.g, s.flat, s.places, Elems(s.holes), s.holes[0], s.holes[1..], i);
      mid := s.(flat := flat, places := places, holes := s.holes[1..]);
    }
  }

  /** Placing a piece keeps the invariant, and the bytes of every piece that had a place. */
  lemma PlacedInv(s: Store, mid: Store, sha: seq<byte> -> Digest, i: nat)
    requires Inv(s, sha) && i < s.g.n && PlacedAs(s, mid, i)
    ensures Inv(mid, sha) && Shape(mid) && mid.g == s.g && i in mid.places
    ensures if i in s.places then mid == s else Moved(s, mid, i)
    ensures mid.active == s.active && mid.have == s.have && mid.inactive == s.inactive && mid.endgame == s.endgame
    ensures mid.numactive == s.numactive && mid.arrived == s.arrived && mid.requestSize == s.requestSize
    ensures mid.hashes == s.hashes
  {
    hide Geometry.PieceLen, LaidOut, Placed, Relocated, PieceInv, Sums, Data, Ascending;
    if i !in s.places {
      FirstHole(s, sha, i);
      PlacedRelocated(s.g, s.flat, s.places, Elems(s.holes), s.holes[0], s.holes[1..], i, mid.flat, mid.places);
      RelocatedInv(s, mid, sha, i);
    }
  }

  /** The program can store block `b` of piece `i`: the piece has a place, and the block is inside it. */
  ghost predicate CanStore(mid: Store, i: nat, b: Block, t: seq<byte>) {
    && Shape(mid) && i < mid.g.n && i in mid.places && 0 < mid.numactive[i] && b.begin + |t| <= mid.g.PieceLen(i)
    && Shape(Wrote(mid, i, b, t))
  }

  /** The block goes to its bytes, and when that was the last one the piece is kept or started over. */
  ghost predicate StoredAs(mid: Store, s': Store, sha: seq<byte> -> Digest, i: nat, b: Block, t: seq<byte>, r: bool)
    requires CanStore(mid, i, b, t)
  {
    var w := Wrote(mid, i, b, t);
    if AllArrived(w.inactive[i], w.numactive[i]) then r == Good(w, sha, i) && s' == Checked(w, i, r)
    else r && s' == w
  }

  /** From `s` to `s'`, outstanding block `b` of piece `i` arrives with bytes `t`: the piece gets a place if it had none
      (state `mid`), and the block is stored. */
  ghost predicate BlockArrives(s: Store, mid: Store, s': Store, sha: seq<byte> -> Digest, i: nat, b: Block,
                               t: seq<byte>, r: bool)
  {
    && Shape(s) && i < s.g.n && b in s.active[i] && |t| == b.length
    && PlacedAs(s, mid, i)
    && CanStore(mid, i, b, t) && StoredAs(mid, s', sha, i, b, t, r)
  }

  /** An outstanding block of a piece that has a place can be stored. */
  lemma StorePossible(mid: Store, sha: seq<byte> -> Digest, i: nat, b: Block, t: seq<byte>)
    requires Inv(mid, sha) && i < mid.g.n && i in mid.places && b in mid.active[i] && |t| == b.length
    ensures CanStore(mid, i, b, t)
  {
    hide Geometry.PieceLen, Sums, Splice, Cut, Tiles, Data, Laid, PiecesOK, PieceInv;
    WroteFacts(mid, sha, i, b, t);
  }

  /** Storing a block keeps the invariant. */
  lemma StoredInv(mid: Store, s': Store, sha: seq<byte> -> Digest, i: nat, b: Block, t: seq<byte>, r: bool)
    requires Inv(mid, sha) && i < mid.g.n && i in mid.places && b in mid.active[i] && |t| == b.length
    requires CanStore(mid, i, b, t) && StoredAs(mid, s', sha, i, b, t, r)
    ensures Inv(s', sha)
  {
    hide Laid, Sums, PiecesOK, Geometry.PieceLen;
    WroteInv(mid, sha, i, b, t);
    if LastBlock(PieceOf(mid, i), b) {
      CheckedInv(mid, sha, i, b, t, r);
    }
  }

  /** An arriving block keeps the invariant, and so does the move that makes room for it. */
  lemma ArrivesInv(s: Store, mid: Store, s': Store, sha: seq<byte> -> Digest, i: nat, b: Block, t: seq<byte>, r: bool)
    requires Inv(s, sha) && BlockArrives(s, mid, s', sha, i, b, t, r)
    ensures Inv(mid, sha) && Inv(s', sha) && Shape(mid) && Shape(s')
    ensures if i in s.places then mid == s else Moved(s, mid, i)
  {
    hide Inv, Shape, Placed, StoredAs, CanStore;
    InvShape(s, sha);
    PlacedInv(s, mid, sha, i);
    StoredInv(mid, s', sha, i, b, t, r);
    InvShape(s', sha);
  }

  lemma BlockStored(s: Store, mid: Store, s': Store, sha: seq<byte> -> Digest, i: nat, b: Block, t: seq<byte>, r: bool)
    requires Inv(s, sha) && i < s.g.n && b in s.active[i] && |t| == b.length && PlacedAs(s, mid, i)
    requires CanStore(mid, i, b, t) && StoredAs(mid, s', sha, i, b, t, r)
    ensures BlockArrives(s, mid, s', sha, i, b, t, r) && Inv(s', sha)
  {
    hide Inv, Shape, PlacedAs, StoredAs, CanStore;
    InvShape(s, sha);
    ArrivesInv(s, mid, s', sha, i, b, t, r);
  }

  /** From `s` to `s'`, the least unrequested block of piece `i`, the `k`th of the list, is requested. */
  ghost predicate BlockRequested(s: Store, s': Store, sha: seq<byte> -> Digest, i: nat, k: nat, r: Block) {
    && Shape(s) && i < s.g.n && HasRequests(s.inactive[i]) && k < |ToRequest(s, i)|
    && r == ToRequest(s, i)[k]
    && (forall b | b in ToRequest(s, i) :: r.begin < b.begin || (r.begin == b.begin && r.length <= b.length))
    && s' == Requested(s, i, k)
  }

  /** Every block of piece `i` has arrived when `b` does. */
  ghost predicate Gathered(s: Store, i: nat, b: Block)
    requires Shape(s) && i < s.g.n
  {
    forall c | c in All(s, i) :: c == b || c in s.arrived[i]
  }

  /** What is on disk after the last block is what the blocks assemble to. */
  lemma LastAssembles(s: Store, sha: seq<byte> -> Digest, i: nat, b: Block, t: seq<byte>)
    requires Inv(s, sha) && i < s.g.n && i in s.places && b in s.active[i] && |t| == b.length && CanStore(s, i, b, t)
    ensures Gathered(s, i, b) <==> AllArrived(Wrote(s, i, b, t).inactive[i], Wrote(s, i, b, t).numactive[i])
    ensures Gathered(s, i, b) ==> DataOf(Wrote(s, i, b, t), i) == Some(Assemble(All(s, i), s.arrived[i][b := t]))
  {
    hide Geometry.PieceLen, Splice, Cut, Tiles, Data, Laid, Assemble, Sums, Fits, PieceInv, LastBlock;
    WroteFacts(s, sha, i, b, t);
    WroteInv(s, sha, i, b, t);
    AllTiles(s, i);
    assert PieceInv(PieceOf(s, i), sha);
    Arrive(PieceOf(s, i), sha, b, t);
  }

  /** The hash is taken when every block of the piece has arrived, and not before; and then of what the blocks assemble
      to. The piece is had from then on exactly if that is the expected hash. */
  lemma Verdict(s: Store, mid: Store, s': Store, sha: seq<byte> -> Digest, i: nat, b: Block, t: seq<byte>, r: bool)
    requires Inv(s, sha) && BlockArrives(s, mid, s', sha, i, b, t, r)
    ensures |s'.have| == |s.have| == |s.arrived| == |s.hashes| == s.g.n
    ensures !Gathered(s, i, b) ==> r && !s'.have[i]
    ensures Gathered(s, i, b) ==>
      (r <==> sha(Assemble(All(s, i), s.arrived[i][b := t])) == s.hashes[i]) && (r <==> s'.have[i])
  {
    hide Inv, Shape, All, PlacedAs, Assemble, DataOf, Wrote, CanStore;
    InvShape(s, sha);
    ArrivesInv(s, mid, s', sha, i, b, t, r);
    PlacedInv(s, mid, sha, i);
    InvShape(mid, sha); InvShape(s', sha);
    SameBlocks(s, mid, i);
    NotHadYet(mid, sha, i, b);
    LastAssembles(mid, sha, i, b, t);
    VerdictStored(mid, s', sha, i, b, t, r);
  }

  lemma VerdictStored(mid: Store, s': Store, sha: seq<byte> -> Digest, i: nat, b: Block, t: seq<byte>, r: bool)
    requires CanStore(mid, i, b, t) && StoredAs(mid, s', sha, i, b, t, r) && !mid.have[i]
    ensures |s'.have| == mid.g.n && Shape(Wrote(mid, i, b, t))
    ensures AllArrived(Wrote(mid, i, b, t).inactive[i], Wrote(mid, i, b, t).numactive[i]) ==> (r <==> s'.have[i])
    ensures AllArrived(Wrote(mid, i, b, t).inactive[i], Wrote(mid, i, b, t).numactive[i]) ==>
      (r <==> Good(Wrote(mid, i, b, t), sha, i))
    ensures !AllArrived(Wrote(mid, i, b, t).inactive[i], Wrote(mid, i, b, t).numactive[i]) ==> r && !s'.have[i]
    ensures Wrote(mid, i, b, t).hashes == mid.hashes
  {
    hide Geometry.PieceLen, Fits, DataOf, Splice;
  }

  /** A piece that was taken on trust is checked before it is first served. */
  ghost function Trusted(s: Store, i: nat): Store
    requires Shape(s) && i < s.g.n
  {
    s.(waschecked := s.waschecked[i := true])
  }

  lemma TrustedInv(s: Store, sha: seq<byte> -> Digest, i: nat)
    requires Inv(s, sha) && i < s.g.n && s.have[i] && Good(s, sha, i)
    ensures Inv(Trusted(s, i), sha)
  {
    hide Geometry.PieceLen, Fits, Laid;
    var s' := Trusted(s, i);
    forall j: nat | j < s.g.n ensures PieceInv(PieceOf(s', j), sha) {
      assert PieceInv(PieceOf(s, j), sha);
      assert PieceOf(s', j) == PieceOf(s, j).(checked := s'.waschecked[j]);
    }
  }

  lemma HavePlaced(s: Store, sha: seq<byte> -> Digest, i: nat)
    requires Inv(s, sha) && i < s.g.n && s.have[i]
    ensures Shape(s) && i in s.places && |DataOf(s, i).value| == s.g.PieceLen(i)
    ensures s.places[i] < s.g.n && s.g.PieceLen(i) <= s.g.PieceLen(s.places[i]) && s.places[i] !in s.holes
    ensures s.waschecked[i] ==> Good(s, sha, i)
  {
    hide Geometry.PieceLen, Sums;
    assert PieceInv(PieceOf(s, i), sha);
  }

  lemma ServedBytes(s: Store, i: nat, begin: nat, len: nat)
    requires Shape(s) && i < s.g.n && i in s.places && begin + len <= s.g.PieceLen(i)
    ensures |DataOf(s, i).value| == s.g.PieceLen(i)
    ensures s.g.Begin(s.places[i]) + begin + len <= |s.flat|
    ensures s.flat[s.g.Begin(s.places[i]) + begin..s.g.Begin(s.places[i]) + begin + len]
         == DataOf(s, i).value[begin..begin + len]
  {
    hide Geometry.PieceLen, Geometry.Begin;
    s.g.Slot(i); s.g.Slot(s.places[i]);
    SliceOfSlice(s.flat, s.g.Begin(s.places[i]), s.g.PieceLen(i), begin, len);
  }

  /** What the caller of `new_request` may rely on. */
  lemma RequestedFacts(s: Store, s': Store, sha: seq<byte> -> Digest, i: nat, k: nat, b: Block)
    requires Inv(s, sha) && BlockRequested(s, s', sha, i, k, b)
    ensures Inv(s', sha) && Shape(s) && Shape(s') && i < s.g.n && b in All(s, i)
    ensures Progress(s, s') && s'.have == s.have && s'.arrived == s.arrived
    ensures All(s', i) == All(s, i) && |ToRequest(s', i)| == |ToRequest(s, i)| - 1
    ensures i < |s.active| && b !in s.active[i] && s'.active == s.active[i := s.active[i] + {b}]
    ensures HasRequests(s.inactive[i]) && s'.inactive == s.inactive[i := s'.inactive[i]]
    ensures s'.endgame <==> s.endgame || forall j | 0 <= j < |s'.inactive| :: !HasRequests(s'.inactive[j])
  {
    hide Inv, Shape, All, ToRequest, Requested, Progress;
    InvShape(s, sha);
    RequestedInv(s, sha, i, k);
    InvShape(s', sha);
    EndgameTest(s', sha);
    EndgameIs(s, i, k);
    RequestedShape(s, i, k);
  }

  /** Endgame starts with the request that leaves nothing to request. */
  lemma EndgameIs(s: Store, i: nat, k: nat)
    requires Shape(s) && i < s.g.n && k < |ToRequest(s, i)|
    ensures Requested(s, i, k).endgame <==> s.endgame || Requested(s, i, k).amountInactive == 0
  {
    hide All, Without;
  }

  lemma RequestedShape(s: Store, i: nat, k: nat)
    requires Shape(s) && i < s.g.n && k < |ToRequest(s, i)| && Shape(Requested(s, i, k))
    ensures var s' := Requested(s, i, k); var b := ToRequest(s, i)[k];
      && Progress(s, s') && s'.have == s.have && s'.arrived == s.arrived && s'.g == s.g
      && All(s', i) == All(s, i) && |ToRequest(s', i)| == |ToRequest(s, i)| - 1
      && s'.active == s.active[i := s.active[i] + {b}] && s'.inactive == s.inactive[i := s'.inactive[i]]
  {
    hide Geometry.PieceLen, Fits, All, DataOf;
    SameData(s, Requested(s, i, k));
    SameBlocks(s, Requested(s, i, k), i);
  }

  /** What the caller of `request_lost` may rely on. */
  lemma LostFacts(s: Store, sha: seq<byte> -> Digest, i: nat, b: Block)
    requires Inv(s, sha) && i < s.g.n && b in s.active[i]
    ensures s.inactive[i].Started? && 0 < s.numactive[i] && Inv(Lost(s, i, b), sha) && Progress(s, Lost(s, i, b))
  {
    hide Geometry.PieceLen, Laid, PiecesOK, Sums, Fits;
    LostInv(s, sha, i, b);
    SameData(s, Lost(s, i, b));
  }

  /** What the caller of `piece_came_in` may rely on. */
  lemma ArrivesFacts(s: Store, mid: Store, s': Store, sha: seq<byte> -> Digest, i: nat, b: Block, t: seq<byte>, r: bool)
    requires Inv(s, sha) && BlockArrives(s, mid, s', sha, i, b, t, r)
    ensures Inv(s', sha) && Progress(s, s') && s'.endgame == s.endgame && i < s.g.n && s'.g == s.g && Shape(s)
    ensures Shape(s')
    ensures All(s', i) == All(s, i)
    ensures |s.have| == |s.active| == |s'.have| == |s'.inactive| == |s'.arrived| == s.g.n && !s.have[i]
    ensures b in s.active[i] && b in All(s, i)
    ensures s'.active == s.active[i := s.active[i] - {b}]
    ensures s'.have == s.have || (r && s'.have == s.have[i := true])
    ensures !r ==> s'.have == s.have && s'.inactive[i] == Fresh && s'.arrived[i] == map[] && s'.active[i] == {}
    ensures |s.inactive| == |s'.inactive| && s'.inactive == s.inactive[i := s'.inactive[i]]
    ensures r ==> (HasRequests(s'.inactive[i]) <==> HasRequests(s.inactive[i]))
  {
    hide Geometry.PieceLen, Laid, PiecesOK, Sums, Fits, Inv, All, Progress;
    ArriveProgress(s, mid, s', sha, i, b, t, r);
    ArrivesInv(s, mid, s', sha, i, b, t, r);
    InvShape(s, sha); InvShape(mid, sha); InvShape(s', sha);
    assert mid.active == s.active && mid.have == s.have;
    NotHadYet(s, sha, i, b);
    ActiveBlock(s, sha, i, b);
    WroteInv(mid, sha, i, b, t);
    SameBlocks(s, s', i);
    if LastBlock(PieceOf(mid, i), b) { LastBlockFacts(mid, sha, i, b); }
  }

  lemma SameBlocks(s: Store, s': Store, i: nat)
    requires Shape(s) && Shape(s') && s'.g == s.g && s'.requestSize == s.requestSize && i < s.g.n
    ensures All(s', i) == All(s, i)
  {
  }

  lemma ActiveBlock(s: Store, sha: seq<byte> -> Digest, i: nat, b: Block)
    requires Inv(s, sha) && i < s.g.n && b in s.active[i]
    ensures b in All(s, i)
  {
    assert PieceInv(PieceOf(s, i), sha);
  }

  /** When a piece of which nothing arrived has nothing left to request, all its blocks are outstanding. */
  lemma AllOutstanding(s: Store, sha: seq<byte> -> Digest, i: nat)
    requires Inv(s, sha) && i < s.g.n && s.arrived[i] == map[] && !s.have[i] && !HasRequests(s.inactive[i])
    ensures forall b | b in All(s, i) :: b in s.active[i]
  {
    assert PieceInv(PieceOf(s, i), sha);
  }

  // ---- Whole runs ----

  datatype Event =
    | Asked(i: nat, k: nat, b: Block)
    | Gave(i: nat, b: Block)
    | Arriving(i: nat, b: Block, t: seq<byte>, mid: Store, r: bool)
    | Served(i: nat)

  /** What the program does in each event. Where it would fail, because an index is out of range or a count would become
      negative, nothing is said about the next state; that this never happens is part of what is proved. */
  ghost predicate Step(s: Store, s': Store, sha: seq<byte> -> Digest, e: Event) {
    Shape(s) ==>
      match e
      case Asked(i, k, b) => BlockRequested(s, s', sha, i, k, b)
      case Gave(i, b) =>
        i < s.g.n && b in s.active[i] && (s.inactive[i].Started? && 0 < s.numactive[i] ==> s' == Lost(s, i, b))
      case Arriving(i, b, t, mid, r) =>
        && i < s.g.n && b in s.active[i] && |t| == b.length && PlacedAs(s, mid, i)
        && (CanStore(mid, i, b, t) ==> StoredAs(mid, s', sha, i, b, t, r))
      case Served(i) => i < s.g.n && s.have[i] && Good(s, sha, i) && s' == Trusted(s, i)
  }

  ghost predicate Run(states: seq<Store>, events: seq<Event>, sha: seq<byte> -> Digest) {
    && |states| == |events| + 1
    && Inv(states[0], sha)
    && forall k | 0 <= k < |events| :: StepAt(states, events, sha, k)
  }

  ghost predicate StepAt(states: seq<Store>, events: seq<Event>, sha: seq<byte> -> Digest, k: nat)
    requires |states| == |events| + 1 && k < |events|
  {
    Step(states[k], states[k + 1], sha, events[k])
  }

  /** What is never taken back: a piece once had stays had, with the same bytes; nothing already verified is
      unverified; what is left only shrinks; endgame does not end. */
  ghost predicate Progress(s: Store, s': Store) {
    && Shape(s) && Shape(s')
    && s'.g == s.g && s'.hashes == s.hashes
    && (forall i: nat | i < s.g.n && s.have[i] :: s'.have[i] && DataOf(s', i) == DataOf(s, i))
    && (forall i | 0 <= i < s.g.n && s.waschecked[i] :: s'.waschecked[i])
    && s'.amountLeft <= s.amountLeft && s'.finishedCalls >= s.finishedCalls
    && (s.endgame ==> s'.endgame)
    && s.places.Keys <= s'.places.Keys
  }

  /** Nothing but what is requested, and whether endgame has begun, differs. */
  ghost predicate OnlyRequests(s: Store, s': Store) {
    s' == s.(inactive := s'.inactive, numactive := s'.numactive, active := s'.active,
        amountInactive := s'.amountInactive,
             endgame := s'.endgame)
  }

  lemma StepProgress(s: Store, s': Store, sha: seq<byte> -> Digest, e: Event)
    requires Inv(s, sha) && Step(s, s', sha, e)
    ensures Inv(s', sha) && Progress(s, s')
  {
    hide Geometry.PieceLen, Laid, Fits, PiecesOK, Sums;
    match e
    case Asked(i, k, b) =>
      RequestedFacts(s, s', sha, i, k, b);
    case Gave(i, b) =>
      LostInv(s, sha, i, b);
      SameData(s, s');
    case Arriving(i, b, t, mid, r) =>
      PlacedInv(s, mid, sha, i);
      StorePossible(mid, sha, i, b, t);
      ArrivesInv(s, mid, s', sha, i, b, t, r);
      ArriveProgress(s, mid, s', sha, i, b, t, r);
    case Served(i) =>
      TrustedInv(s, sha, i);
      SameData(s, s');
  }

  /** No event finds the program stuck: a piece of which a block can be requested has a least one, an outstanding block
      can be given back, and it can arrive with any bytes, for which there is a place. */
  lemma NeverStuck(s: Store, sha: seq<byte> -> Digest, i: nat)
    requires Inv(s, sha) && i < s.g.n
    ensures HasRequests(s.inactive[i]) ==> exists s', k, b :: BlockRequested(s, s', sha, i, k, b)
    ensures forall b | b in s.active[i] :: s.inactive[i].Started? && 0 < s.numactive[i]
    ensures forall b, t | b in s.active[i] && |t| == b.length ::
      exists mid, s', r :: BlockArrives(s, mid, s', sha, i, b, t, r)
  {
    hide Geometry.PieceLen, Laid, PiecesOK, Sums, Fits, PlacedAs, CanStore, StoredAs, ToRequest, Requested, All, Lost;
    InvShape(s, sha);
    if HasRequests(s.inactive[i]) {
      SomeToRequest(s, i);
      var k := LeastOf(ToRequest(s, i));
      assert BlockRequested(s, Requested(s, i, k), sha, i, k, ToRequest(s, i)[k]);
    }
    forall b | b in s.active[i] ensures s.inactive[i].Started? && 0 < s.numactive[i] {
      LostInv(s, sha, i, b);
    }
    forall b, t | b in s.active[i] && |t| == b.length
      ensures exists mid, s', r :: BlockArrives(s, mid, s', sha, i, b, t, r)
    {
      var mid := PlacePossible(s, sha, i);
      PlacedInv(s, mid, sha, i);
      StorePossible(mid, sha, i, b, t);
      var s', r := Storing(mid, sha, i, b, t);
      assert BlockArrives(s, mid, s', sha, i, b, t, r);
    }
  }

  lemma {:induction false} LeastOf(l: seq<Block>) returns (k: nat)
    requires l != []
    ensures k < |l| && forall b | b in l :: !Less(b, l[k])
  {
    k := 0;
    if |l| > 1 {
      var j := LeastOf(l[1..]);
      if Less(l[1..][j], l[0]) { k := j + 1; }
      assert forall b | b in l :: b == l[0] || b in l[1..];
    }
  }

  lemma Storing(mid: Store, sha: seq<byte> -> Digest, i: nat, b: Block, t: seq<byte>) returns (s': Store, r: bool)
    requires CanStore(mid, i, b, t)
    ensures StoredAs(mid, s', sha, i, b, t, r)
  {
    var w := Wrote(mid, i, b, t);
    if AllArrived(w.inactive[i], w.numactive[i]) {
      r := Good(w, sha, i);
      s' := Checked(w, i, r);
    } else {
      s', r := w, true;
    }
  }

  lemma SameData(s: Store, s': Store)
    requires Shape(s) && Shape(s') && s'.g == s.g && s'.flat == s.flat && s'.places == s.places
    ensures forall i: nat | i < s.g.n :: DataOf(s', i) == DataOf(s, i)
  {
  }

  lemma ArriveProgress(s: Store, mid: Store, s': Store, sha: seq<byte> -> Digest, i: nat, b: Block, t: seq<byte>,
                       r: bool)
    requires Inv(s, sha) && BlockArrives(s, mid, s', sha, i, b, t, r)
    ensures Progress(s, s')
  {
    hide Geometry.PieceLen, Laid, Fits, Sums, PieceInv, Placed, DataOf, All, Good;
    ArrivesInv(s, mid, s', sha, i, b, t, r);
    PlacedInv(s, mid, sha, i);
    mid.g.Slot(i);
    forall j: nat | j < s.g.n && s.have[j] ensures s'.have[j] && DataOf(s', j) == DataOf(s, j) {
      ArriveKeeps(s, mid, s', sha, i, b, t, r, j);
    }
  }

  /** An arriving block does not change a piece that is had. */
  lemma ArriveKeeps(s: Store, mid: Store, s': Store, sha: seq<byte> -> Digest, i: nat, b: Block, t: seq<byte>, r: bool,
                    j: nat)
    requires Inv(s, sha) && BlockArrives(s, mid, s', sha, i, b, t, r) && j < s.g.n && s.have[j]
    ensures Shape(s') && s'.have[j] && DataOf(s', j) == DataOf(s, j)
  {
    hide Geometry.PieceLen, Laid, Fits, Sums, PieceInv, Placed, Good, All;
    ArrivesInv(s, mid, s', sha, i, b, t, r);
    PlacedInv(s, mid, sha, i);
    if i !in s.places { MovedInv(s, mid, sha, i); }
    NotHadYet(mid, sha, i, b);
    WroteFacts(mid, sha, i, b, t);
    HavePlaced(s, sha, j);
    var w := Wrote(mid, i, b, t);
    assert PieceOf(w, j) == PieceOf(mid, j);
    SamePlaced(w, s', j);
  }

  /** What is on disk does not depend on the bookkeeping. */
  lemma SamePlaced(s: Store, s': Store, j: nat)
    requires Shape(s) && Shape(s') && s'.g == s.g && s'.flat == s.flat && s'.places == s.places
    ensures DataOf(s', j) == DataOf(s, j)
  {
    hide Geometry.PieceLen, Fits;
  }

  lemma NotHadYet(s: Store, sha: seq<byte> -> Digest, i: nat, b: Block)
    requires Inv(s, sha) && i < s.g.n && b in s.active[i]
    ensures !s.have[i]
  {
    assert PieceInv(PieceOf(s, i), sha);
  }

  lemma ProgressTrans(s: Store, s1: Store, s2: Store)
    requires Progress(s, s1) && Progress(s1, s2)
    ensures Progress(s, s2)
  {
    hide Fits, Geometry.PieceLen;
  }

  /** Over any run the invariant holds in every state, and progress is never undone. */
  lemma {:induction false} RunProgress(states: seq<Store>, events: seq<Event>, sha: seq<byte> -> Digest, j: nat, k: nat)
    requires Run(states, events, sha) && j <= k < |states|
    ensures Inv(states[j], sha) && Inv(states[k], sha) && Progress(states[j], states[k])
  {
    hide Geometry.PieceLen, Laid, PiecesOK, Sums, Fits, Step, Progress;
    if k == 0 {
      ProgressRefl(states[0]);
    } else if j == k {
      RunProgress(states, events, sha, 0, k - 1);
      assert StepAt(states, events, sha, k - 1);
      StepProgress(states[k - 1], states[k], sha, events[k - 1]);
      ProgressRefl(states[k]);
    } else {
      RunProgress(states, events, sha, j, k - 1);
      assert StepAt(states, events, sha, k - 1);
      StepProgress(states[k - 1], states[k], sha, events[k - 1]);
      ProgressTrans(states[j], states[k - 1], states[k]);
    }
  }

  lemma ProgressRefl(s: Store)
    requires Shape(s)
    ensures Progress(s, s)
  {
  }

  /** In any run that checks hashes, from the moment nothing is left to the end of the run: `finished` has been
      called exactly once, and the disk holds the pieces in order, each with its expected hash. */
  lemma RunCompletes(states: seq<Store>, events: seq<Event>, sha: seq<byte> -> Digest, j: nat, k: nat)
    requires Run(states, events, sha) && j <= k < |states| && states[0].checkHashes && states[j].amountLeft == 0
    ensures Inv(states[k], sha) && states[k].finishedCalls == 1 && states[k].holes == []
    ensures forall i: nat | i < states[k].g.n ::
      && 0 <= states[k].g.Begin(i) <= states[k].g.End(i) <= |states[k].flat|
      && sha(states[k].flat[states[k].g.Begin(i)..states[k].g.End(i)]) == states[k].hashes[i]
  {
    hide Geometry.PieceLen, Laid, PiecesOK, Fits;
    RunProgress(states, events, sha, j, k);
    RunProgress(states, events, sha, 0, j);
    var s := states[k];
    NothingMissing(s.g, s.have, s.g.n);
    Complete(states[j], sha);
    Complete(s, sha);
  }
}
