/** What holds while the existing file contents are checked at start-up, slot by slot. */
module Scans {
  import opened Basics
  import opened Blocks
  import opened Pieces
  import opened Slots
  import opened Stores

  type Targets = map<Digest, seq<nat>>

  /** `pre[v]` says that slot `v` was on disk before. Slots below `upto` were scanned: each that was on disk is
      taken, the others are the holes. A piece sits in its own slot, or was not on disk in its own slot. */
  ghost predicate ScanPlaces(g: Geometry, pre: seq<bool>, places: Places, holes: seq<nat>, upto: nat)
    requires |pre| == g.n
  {
    && upto <= g.n
    && Fits(g, places)
    && (forall p | p in places :: places[p] < upto && pre[places[p]] && (places[p] == p || !pre[p]))
    && (forall p, q | p in places && q in places && places[p] == places[q] :: p == q)
    && (forall v: nat | v < upto && pre[v] :: Occupied(places, v))
    && Ascending(holes)
    && (forall h | h in holes :: h < upto && !pre[h])
    && (forall v: nat | v < upto && !pre[v] :: v in holes)
  }

  /** `targets` lists, by hash and in ascending order, the pieces that were not on disk in their own slot. One
      that was found elsewhere is off the list, except that a short last piece may still be on it. */
  ghost predicate TargetsOK(g: Geometry, hashes: seq<Digest>, pre: seq<bool>, places: Places, targets: Targets)
    requires |hashes| == |pre| == g.n
  {
    && (forall h | h in targets :: Ascending(targets[h]))
    && (forall h | h in targets :: forall t | t in targets[h] ::
          t < g.n && !pre[t] && hashes[t] == h && (t in places ==> t == g.n - 1 && g.PieceLen(t) < g.size))
    && (forall t: nat | t < g.n && !pre[t] && t !in places :: hashes[t] in targets && t in targets[hashes[t]])
  }

  /** No piece was started; the pieces we have are placed and, when hashes are checked, verified. */
  ghost predicate ScanPieces(s: Store, sha: seq<byte> -> Digest, pre: seq<bool>)
    requires Shape(s) && |pre| == s.g.n
  {
    forall i: nat | i < s.g.n :: ScanPiece(s, sha, pre, i)
  }

  ghost predicate ScanPiece(s: Store, sha: seq<byte> -> Digest, pre: seq<bool>, i: nat)
    requires Shape(s) && |pre| == s.g.n && i < s.g.n
  {
    && s.numactive[i] == 0 && s.active[i] == {} && s.arrived[i] == map[]
    && s.waschecked[i] == s.checkHashes
    && s.inactive[i] == (if s.have[i] then Done else Fresh)
    && (s.have[i] ==> Found(s, sha, i))
    && (i in s.places && !pre[i] ==> s.have[i])
  }

  ghost predicate Found(s: Store, sha: seq<byte> -> Digest, i: nat)
    requires Shape(s) && i < s.g.n
  {
    i in s.places && if s.checkHashes then sha(DataOf(s, i).value) == s.hashes[i] else s.places[i] == i
  }

  // ---- What is to be found ----

  ghost function SlotHash(s: Store, sha: seq<byte> -> Digest, v: nat): Digest
    requires Shape(s) && v < s.g.n
  {
    s.g.Slot(v);
    sha(s.flat[s.g.Begin(v)..s.g.End(v)])
  }

  /** The slot holds its own piece, or is taken to. */
  ghost predicate HomeGood(s: Store, sha: seq<byte> -> Digest, v: nat)
    requires Shape(s) && v < s.g.n
  {
    s.checkHashes ==> SlotHash(s, sha, v) == s.hashes[v]
  }

  /** Piece `t` was not on disk in its own slot, and slot `v` holds what it should be. */
  ghost predicate Fitting(s: Store, sha: seq<byte> -> Digest, pre: seq<bool>, t: nat, v: nat)
    requires Shape(s) && |pre| == s.g.n && v < s.g.n
  {
    t < s.g.n && !pre[t] && s.g.PieceLen(t) == s.g.PieceLen(v) && s.hashes[t] == SlotHash(s, sha, v)
  }

  /** The last piece was not on disk in its own slot, and slot `v` begins with it. */
  ghost predicate BeginsWithLast(s: Store, sha: seq<byte> -> Digest, pre: seq<bool>, v: nat)
    requires Shape(s) && |pre| == s.g.n && v < s.g.n
  {
    s.g.Slot(v); s.g.LastShort(v);
    !pre[s.g.n - 1] && sha(SlotBytes(s, v, s.g.PieceLen(s.g.n - 1))) == s.hashes[s.g.n - 1]
  }

  /** The last piece, of another length, has the hash of the slot: then no other piece of that hash is looked for. */
  ghost predicate Hidden(s: Store, sha: seq<byte> -> Digest, pre: seq<bool>, v: nat)
    requires Shape(s) && |pre| == s.g.n && v < s.g.n
  {
    !pre[s.g.n - 1] && s.g.PieceLen(s.g.n - 1) != s.g.PieceLen(v) && s.hashes[s.g.n - 1] == SlotHash(s, sha, v)
  }

  ghost predicate FoundAt(s: Store, t: nat, v: nat)
    requires Shape(s)
  {
    t < s.g.n && s.have[t] && t in s.places && s.places[t] == v
  }

  /** No piece is left that slot `v` could be credited with. */
  ghost predicate NoneLeft(s: Store, sha: seq<byte> -> Digest, pre: seq<bool>, v: nat)
    requires Shape(s) && |pre| == s.g.n && v < s.g.n
  {
    Hidden(s, sha, pre, v) || forall t: nat | t < s.g.n && Fitting(s, sha, pre, t, v) :: s.have[t]
  }

  /** A slot with the right contents has its own piece credited, in place. Another one that matches a piece that is not
      at home has such a piece credited, as long as one is left; and then, one that begins with the last piece, unless
      that is had already. */
  ghost predicate SlotSearched(s: Store, sha: seq<byte> -> Digest, pre: seq<bool>, v: nat)
    requires Shape(s) && |pre| == s.g.n && v < s.g.n
  {
    if HomeGood(s, sha, v) then FoundAt(s, v, v)
    else
      || (exists t :: Fitting(s, sha, pre, t, v) && FoundAt(s, t, v))
      || (NoneLeft(s, sha, pre, v) && (BeginsWithLast(s, sha, pre, v) ==> s.have[s.g.n - 1]))
  }

  /** The slots below `upto` that were on disk were searched. */
  ghost predicate Searched(s: Store, sha: seq<byte> -> Digest, pre: seq<bool>, upto: nat)
    requires Shape(s) && |pre| == s.g.n
  {
    forall v: nat | v < s.g.n && v < upto && pre[v] :: SlotSearched(s, sha, pre, v)
  }

  /** What is had sits in a slot that was on disk, and is there not without need. */
  ghost predicate OnlyMoved(s: Store, pre: seq<bool>)
    requires Shape(s) && |pre| == s.g.n
  {
    forall t | 0 <= t < s.g.n && s.have[t] ::
      t in s.places && pre[s.places[t]] && (s.places[t] == t || !pre[t])
  }

  ghost predicate ScanInv(s: Store, sha: seq<byte> -> Digest, pre: seq<bool>, targets: Targets, upto: nat) {
    && Shape(s) && |pre| == s.g.n
    && ScanPlaces(s.g, pre, s.places, s.holes, upto)
    && TargetsOK(s.g, s.hashes, pre, s.places, targets)
    && ScanPieces(s, sha, pre)
    && Searched(s, sha, pre, upto)
    && Sums(s)
  }

  /** `markgot(piece, pos)`. */
  ghost function Marked(s: Store, piece: nat, pos: nat): Store
    requires Shape(s) && piece < s.g.n
  {
    s.(places := s.places[piece := pos], have := s.have[piece := true],
       amountLeft := s.amountLeft - s.g.PieceLen(piece), amountInactive := s.amountInactive - s.g.PieceLen(piece),
       inactive := s.inactive[piece := Done], waschecked := s.waschecked[piece := s.checkHashes])
  }

  // ---- Listing the pieces to look for ----

  /** `targets` lists the pieces below `upto` that were not on disk in their own slot. */
  ghost predicate TargetsUpTo(hashes: seq<Digest>, pre: seq<bool>, targets: Targets, upto: nat)
    requires |hashes| == |pre| && upto <= |pre|
  {
    && (forall h | h in targets :: Ascending(targets[h]))
    && (forall h | h in targets :: forall t | t in targets[h] :: t < upto && !pre[t] && hashes[t] == h)
    && (forall t: nat | t < upto && !pre[t] :: hashes[t] in targets && t in targets[hashes[t]])
  }

  /** `targets.setdefault(h, []).append(i)`. */
  function Appended(targets: Targets, h: Digest, i: nat): Targets {
    targets[h := (if h in targets then targets[h] else []) + [i]]
  }

  lemma TargetsAppend(hashes: seq<Digest>, pre: seq<bool>, targets: Targets, i: nat)
    requires |hashes| == |pre| && i < |pre| && TargetsUpTo(hashes, pre, targets, i)
    ensures TargetsUpTo(hashes, pre, if pre[i] then targets else Appended(targets, hashes[i], i), i + 1)
  {
    if !pre[i] {
      var h := hashes[i];
      var l := if h in targets then targets[h] else [];
      assert forall k | 0 <= k < |l| :: l[k] in l;
      assert Ascending(l + [i]);
      hide Ascending;
      assert forall t :: t in l + [i] <==> t in l || t == i;
    }
  }

  /** Before the scan, nothing is placed and nothing is had. */
  lemma ScanStart(s: Store, sha: seq<byte> -> Digest, pre: seq<bool>, targets: Targets)
    requires Shape(s) && s.places == map[] && s.holes == [] && |pre| == s.g.n
    requires TargetsUpTo(s.hashes, pre, targets, s.g.n)
    requires forall i: nat | i < s.g.n :: s.numactive[i] == 0 && s.active[i] == {} && s.arrived[i] == map[]
    requires forall i: nat | i < s.g.n :: s.waschecked[i] == s.checkHashes && s.inactive[i] == Fresh && !s.have[i]
    requires s.amountLeft == s.amountInactive == s.g.total
    ensures ScanInv(s, sha, pre, targets, 0)
  {
    hide Geometry.PieceLen;
    AllFresh(s.g, s.inactive, s.have, s.g.n);
    LengthsAddUp(s.g, s.have, s.g.n);
  }

  // ---- The steps of the scan ----

  lemma PlaceScanned(g: Geometry, pre: seq<bool>, places: Places, holes: seq<nat>, i: nat, piece: nat)
    requires |pre| == g.n && ScanPlaces(g, pre, places, holes, i) && i < g.n && pre[i]
    requires piece < g.n && piece !in places && (piece == i || !pre[piece]) && g.PieceLen(piece) <= g.PieceLen(i)
    ensures ScanPlaces(g, pre, places[piece := i], holes, i + 1)
  {
    hide Ascending, Geometry.PieceLen;
    var places' := places[piece := i];
    forall v: nat | v < i + 1 && pre[v] ensures Occupied(places', v) {
      if v == i {
        assert places'[piece] == i;
      } else {
        var p :| p in places && places[p] == v;
        assert places'[p] == v;
      }
    }
  }

  lemma HoleScanned(g: Geometry, pre: seq<bool>, places: Places, holes: seq<nat>, i: nat)
    requires |pre| == g.n && ScanPlaces(g, pre, places, holes, i) && i < g.n && !pre[i]
    ensures ScanPlaces(g, pre, places, holes + [i], i + 1)
  {
    hide Geometry.PieceLen, Fits;
    assert forall k | 0 <= k < |holes| :: holes[k] in holes;
  }

  /** A slot's own piece is not placed before that slot is scanned. */
  lemma OwnUnplaced(g: Geometry, pre: seq<bool>, places: Places, holes: seq<nat>, i: nat)
    requires |pre| == g.n && ScanPlaces(g, pre, places, holes, i) && i < g.n && pre[i]
    ensures i !in places
  {
  }

  /** What is known of the contents of a slot does not depend on what was credited. */
  lemma SameContents(s: Store, s': Store, sha: seq<byte> -> Digest, pre: seq<bool>, v: nat)
    requires Shape(s) && Shape(s') && |pre| == s.g.n && v < s.g.n
    requires s'.g == s.g && s'.flat == s.flat && s'.hashes == s.hashes && s'.checkHashes == s.checkHashes
    ensures HomeGood(s', sha, v) == HomeGood(s, sha, v) && Hidden(s', sha, pre, v) == Hidden(s, sha, pre, v)
    ensures BeginsWithLast(s', sha, pre, v) == BeginsWithLast(s, sha, pre, v)
    ensures forall t :: Fitting(s', sha, pre, t, v) == Fitting(s, sha, pre, t, v)
  {
    hide Geometry.PieceLen, Fits;
  }

  lemma SlotStays(s: Store, s': Store, sha: seq<byte> -> Digest, pre: seq<bool>, v: nat)
    requires Shape(s) && Shape(s') && |pre| == s.g.n && v < s.g.n && SlotSearched(s, sha, pre, v)
    requires s'.g == s.g && s'.flat == s.flat && s'.hashes == s.hashes && s'.checkHashes == s.checkHashes
    requires forall j | 0 <= j < s.g.n && s.have[j] :: s'.have[j]
    requires forall p | p in s.places :: p in s'.places && s'.places[p] == s.places[p]
    ensures SlotSearched(s', sha, pre, v)
  {
    hide Geometry.PieceLen, Fits, HomeGood, Hidden, BeginsWithLast, Fitting;
    SameContents(s, s', sha, pre, v);
    if t :| Fitting(s, sha, pre, t, v) && FoundAt(s, t, v) {
      assert Fitting(s', sha, pre, t, v) && FoundAt(s', t, v);
    }
    if NoneLeft(s, sha, pre, v) {
      forall t: nat | t < s.g.n && Fitting(s', sha, pre, t, v) && !Hidden(s', sha, pre, v) ensures s'.have[t] {
        assert Fitting(s, sha, pre, t, v);
      }
    }
  }

  /** Crediting one more piece, or none, in slot `i` leaves the earlier credits alone. */
  lemma SearchedStep(s: Store, s': Store, sha: seq<byte> -> Digest, pre: seq<bool>, i: nat)
    requires Shape(s) && Shape(s') && |pre| == s.g.n && Searched(s, sha, pre, i) && i < s.g.n
    requires s'.g == s.g && s'.flat == s.flat && s'.hashes == s.hashes && s'.checkHashes == s.checkHashes
    requires forall j | 0 <= j < s.g.n && s.have[j] :: s'.have[j]
    requires forall p | p in s.places :: p in s'.places && s'.places[p] == s.places[p]
    requires pre[i] ==> SlotSearched(s', sha, pre, i)
    ensures Searched(s', sha, pre, i + 1)
  {
    hide Geometry.PieceLen, Fits, SlotSearched;
    forall v: nat | v < s.g.n && v < i + 1 && pre[v] ensures SlotSearched(s', sha, pre, v) {
      if v < i { SlotStays(s, s', sha, pre, v); }
    }
  }

  /** Slot `i` is credited with the right piece. */
  ghost predicate Credits(s: Store, sha: seq<byte> -> Digest, pre: seq<bool>, piece: nat, i: nat)
    requires Shape(s) && |pre| == s.g.n && i < s.g.n
  {
    if HomeGood(s, sha, i) then piece == i
    else Fitting(s, sha, pre, piece, i) || (piece == s.g.n - 1 && NoneLeft(s, sha, pre, i))
  }

  lemma CreditedSlot(s: Store, s': Store, sha: seq<byte> -> Digest, pre: seq<bool>, piece: nat, i: nat)
    requires Shape(s) && Shape(s') && |pre| == s.g.n && i < s.g.n && piece < s.g.n
    requires s'.g == s.g && s'.flat == s.flat && s'.hashes == s.hashes && s'.checkHashes == s.checkHashes
    requires Credits(s, sha, pre, piece, i) && FoundAt(s', piece, i)
    requires forall j | 0 <= j < s.g.n && s.have[j] :: s'.have[j]
    ensures SlotSearched(s', sha, pre, i)
  {
    hide Geometry.PieceLen, Fits, HomeGood, Hidden, BeginsWithLast, Fitting;
    SameContents(s, s', sha, pre, i);
    if !HomeGood(s, sha, i) && !Fitting(s, sha, pre, piece, i) && !Hidden(s, sha, pre, i) {
      forall t: nat | t < s.g.n && Fitting(s', sha, pre, t, i) ensures s'.have[t] {
        assert Fitting(s, sha, pre, t, i);
      }
    }
  }

  /** A piece that is not touched by a step is still as it was. */
  lemma PieceStays(s: Store, s': Store, sha: seq<byte> -> Digest, pre: seq<bool>, j: nat)
    requires Shape(s) && Shape(s') && |pre| == s.g.n && j < s.g.n && ScanPiece(s, sha, pre, j)
    requires s'.g == s.g && s'.flat == s.flat && s'.hashes == s.hashes && s'.checkHashes == s.checkHashes
    requires (j in s'.places <==> j in s.places) && (j in s.places ==> s'.places[j] == s.places[j])
    requires s'.numactive == s.numactive && s'.active == s.active && s'.arrived == s.arrived
    requires s'.have[j] == s.have[j] && s'.waschecked[j] == s.waschecked[j] && s'.inactive[j] == s.inactive[j]
    ensures ScanPiece(s', sha, pre, j)
  {
    hide Geometry.PieceLen, Fits;
  }

  lemma MarkedInv(s: Store, sha: seq<byte> -> Digest, pre: seq<bool>, targets: Targets, targets': Targets, i: nat,
                  piece: nat)
    requires ScanInv(s, sha, pre, targets, i) && i < s.g.n && pre[i]
    requires piece < s.g.n && piece !in s.places && (piece == i || !pre[piece])
    requires s.g.PieceLen(piece) <= s.g.PieceLen(i)
    requires TargetsOK(s.g, s.hashes, pre, s.places[piece := i], targets')
    requires 0 <= s.g.PieceLen(piece) && s.g.Begin(i) + s.g.PieceLen(piece) <= |s.flat|
    requires if s.checkHashes then sha(s.flat[s.g.Begin(i)..s.g.Begin(i) + s.g.PieceLen(piece)]) == s.hashes[piece]
      else piece == i
    requires Credits(s, sha, pre, piece, i)
    ensures ScanInv(Marked(s, piece, i), sha, pre, targets', i + 1)
  {
    hide Geometry.PieceLen, TargetsOK, Credits, Searched, SlotSearched, ScanPlaces, ScanPiece, Fits, Sums;
    var s' := Marked(s, piece, i);
    PlaceScanned(s.g, pre, s.places, s.holes, i, piece);
    ScannedFits(s'.g, pre, s'.places, s'.holes, i + 1);
    CreditedSlot(s, s', sha, pre, piece, i);
    SearchedStep(s, s', sha, pre, i);
    assert ScanPiece(s, sha, pre, piece);
    NotCredited(s, sha, pre, piece);
    MarkedPiece(s, sha, pre, i, piece);
    forall j: nat | j < s.g.n ensures ScanPiece(s', sha, pre, j) {
      assert ScanPiece(s, sha, pre, j);
      if j != piece { PieceStays(s, s', sha, pre, j); }
    }
    MarkedSums(s, piece, i);
  }

  lemma ScannedFits(g: Geometry, pre: seq<bool>, places: Places, holes: seq<nat>, upto: nat)
    requires |pre| == g.n && ScanPlaces(g, pre, places, holes, upto)
    ensures Fits(g, places)
  {
  }

  lemma NotCredited(s: Store, sha: seq<byte> -> Digest, pre: seq<bool>, i: nat)
    requires Shape(s) && |pre| == s.g.n && i < s.g.n && ScanPiece(s, sha, pre, i) && i !in s.places
    ensures !s.have[i] && s.inactive[i] == Fresh
  {
  }

  /** The totals follow. */
  lemma MarkedSums(s: Store, piece: nat, i: nat)
    requires Shape(s) && piece < s.g.n && Shape(Marked(s, piece, i)) && Sums(s)
    requires !s.have[piece] && s.inactive[piece] == Fresh
    ensures Sums(Marked(s, piece, i))
  {
    hide Geometry.PieceLen, TotalMissing, TotalUnrequested, Fits;
    MissingUpdate(s.g, s.have, s.g.n, piece);
    UnrequestedUpdate(s.g, s.inactive, s.g.n, piece, Done);
  }

  lemma MarkedPiece(s: Store, sha: seq<byte> -> Digest, pre: seq<bool>, i: nat, piece: nat)
    requires Shape(s) && piece < s.g.n && Shape(Marked(s, piece, i)) && |pre| == s.g.n && i < s.g.n
    requires ScanPiece(s, sha, pre, piece) && 0 <= s.g.PieceLen(piece) && s.g.Begin(i) + s.g.PieceLen(piece) <= |s.flat|
    requires if s.checkHashes then sha(s.flat[s.g.Begin(i)..s.g.Begin(i) + s.g.PieceLen(piece)]) == s.hashes[piece]
      else piece == i
    ensures ScanPiece(Marked(s, piece, i), sha, pre, piece)
  {
    hide Geometry.PieceLen, Fits;
  }

  /** An unknown slot: its own piece sits there, unverified. */
  lemma UnknownInv(s: Store, sha: seq<byte> -> Digest, pre: seq<bool>, targets: Targets, i: nat)
    requires ScanInv(s, sha, pre, targets, i) && i < s.g.n && pre[i] && !HomeGood(s, sha, i)
    requires NoneLeft(s, sha, pre, i) && (BeginsWithLast(s, sha, pre, i) ==> s.have[s.g.n - 1])
    ensures ScanInv(s.(places := s.places[i := i]), sha, pre, targets, i + 1)
  {
    hide Geometry.PieceLen, Ascending, TotalMissing, TotalUnrequested, HomeGood, Searched, NoneLeft, BeginsWithLast,
      SlotSearched, ScanPlaces, TargetsOK, Fits;
    var s' := s.(places := s.places[i := i]);
    OwnUnplaced(s.g, pre, s.places, s.holes, i);
    PlaceScanned(s.g, pre, s.places, s.holes, i, i);
    ScannedFits(s'.g, pre, s'.places, s'.holes, i + 1);
    UnknownSearched(s, sha, pre, i);
    SlotStays(s, s', sha, pre, i);
    SearchedStep(s, s', sha, pre, i);
    TargetsOwn(s.g, s.hashes, pre, s.places, targets, i);
    forall j: nat | j < s.g.n ensures ScanPiece(s', sha, pre, j) {
      assert ScanPiece(s, sha, pre, j);
      if j != i { PieceStays(s, s', sha, pre, j); }
    }
  }

  lemma UnknownSearched(s: Store, sha: seq<byte> -> Digest, pre: seq<bool>, i: nat)
    requires Shape(s) && |pre| == s.g.n && i < s.g.n && !HomeGood(s, sha, i)
    requires NoneLeft(s, sha, pre, i) && (BeginsWithLast(s, sha, pre, i) ==> s.have[s.g.n - 1])
    ensures SlotSearched(s, sha, pre, i)
  {
    hide Shape, HomeGood, NoneLeft, BeginsWithLast, Fitting;
  }

  lemma SkippedInv(s: Store, sha: seq<byte> -> Digest, pre: seq<bool>, targets: Targets, i: nat)
    requires ScanInv(s, sha, pre, targets, i) && i < s.g.n && !pre[i]
    ensures ScanInv(s.(holes := s.holes + [i]), sha, pre, targets, i + 1)
  {
    hide Geometry.PieceLen, Ascending, TotalMissing, TotalUnrequested, TargetsOK, HomeGood, Searched, SlotSearched;
    var s' := s.(holes := s.holes + [i]);
    HoleScanned(s.g, pre, s.places, s.holes, i);
    SearchedStep(s, s', sha, pre, i);
    hide ScanPlaces, Fits;
    forall j: nat | j < s.g.n ensures ScanPiece(s', sha, pre, j) {
      PieceStays(s, s', sha, pre, j);
    }
  }

  // ---- The three ways of finding a piece ----

  /** A piece in its own slot is on no list. */
  lemma TargetsOwn(g: Geometry, hashes: seq<Digest>, pre: seq<bool>, places: Places, targets: Targets, i: nat)
    requires |hashes| == |pre| == g.n && TargetsOK(g, hashes, pre, places, targets) && i < g.n && pre[i]
    ensures TargetsOK(g, hashes, pre, places[i := i], targets)
  {
    hide Geometry.PieceLen, Ascending;
  }

  /** The last entry of a list is a piece not found yet, unless its length rules it out; it may be taken off. */
  lemma TargetsPop(g: Geometry, hashes: seq<Digest>, pre: seq<bool>, places: Places, targets: Targets, h: Digest,
                   i: nat)
    requires g.Sound() && |hashes| == |pre| == g.n && TargetsOK(g, hashes, pre, places, targets) && i < g.n && pre[i]
    requires h in targets && targets[h] != []
    ensures var t := targets[h][|targets[h]| - 1];
      && t < g.n && !pre[t] && hashes[t] == h
      && (g.PieceLen(t) == g.PieceLen(i) ==> t !in places)
      && (g.PieceLen(t) == g.PieceLen(i) ==>
            TargetsOK(g, hashes, pre, places[t := i], targets[h := targets[h][..|targets[h]| - 1]]))
  {
    hide Geometry.PieceLen;
    var l := targets[h];
    var t := l[|l| - 1];
    assert t in l;
    g.Slot(i); g.Slot(t);
    if g.PieceLen(t) == g.PieceLen(i) {
      var front := l[..|l| - 1];
      assert l == front + [t];
      assert forall k | 0 <= k < |front| :: front[k] == l[k] < t;
    }
  }

  /** A last piece of full size that was not found yet is the last entry of its list. */
  lemma LastIsListed(g: Geometry, hashes: seq<Digest>, pre: seq<bool>, places: Places, targets: Targets)
    requires |hashes| == |pre| == g.n && g.n > 0 && TargetsOK(g, hashes, pre, places, targets)
    requires !pre[g.n - 1] && g.n - 1 !in places
    ensures hashes[g.n - 1] in targets
    ensures var l := targets[hashes[g.n - 1]]; l != [] && l[|l| - 1] == g.n - 1
  {
    hide Geometry.PieceLen;
    var l := targets[hashes[g.n - 1]];
    var k :| 0 <= k < |l| && l[k] == g.n - 1;
    assert l[|l| - 1] in l;
  }

  /** A short last piece stays on its list. */
  lemma TargetsLast(g: Geometry, hashes: seq<Digest>, pre: seq<bool>, places: Places, targets: Targets, i: nat)
    requires |hashes| == |pre| == g.n && g.n > 0 && TargetsOK(g, hashes, pre, places, targets)
    requires g.PieceLen(g.n - 1) < g.size
    ensures TargetsOK(g, hashes, pre, places[g.n - 1 := i], targets)
  {
    hide Ascending;
  }

  /** When slot `i` holds neither its own piece nor a listed one of its length, but begins with the last piece, which
      was not on disk in its slot or found, then that piece is short. */
  lemma LastIsShort(s: Store, sha: seq<byte> -> Digest, pre: seq<bool>, targets: Targets, i: nat, h: Digest,
                    hfirst: Digest)
    requires ScanInv(s, sha, pre, targets, i) && i < s.g.n - 1
    requires !s.have[s.g.n - 1] && hfirst == s.hashes[s.g.n - 1] && !pre[s.g.n - 1]
    requires s.g.PieceLen(s.g.n - 1) == s.g.PieceLen(i) ==> h == hfirst
    requires h in targets && targets[h] != [] && targets[h][|targets[h]| - 1] < s.g.n ==>
      s.g.PieceLen(i) != s.g.PieceLen(targets[h][|targets[h]| - 1])
    ensures s.g.PieceLen(s.g.n - 1) < s.g.size && s.g.n - 1 !in s.places
  {
    hide ScanPlaces, TargetsOK, Sums, Fits, Searched, Ascending;
    var last := s.g.n - 1;
    assert ScanPiece(s, sha, pre, last);
    s.g.Slot(last); s.g.Slot(i);
    hide ScanPieces, Shape;
    LastIsListed(s.g, s.hashes, pre, s.places, targets);
  }

  // ---- One turn of the scan ----

  lemma ScanShape(s: Store, sha: seq<byte> -> Digest, pre: seq<bool>, targets: Targets, i: nat)
    requires ScanInv(s, sha, pre, targets, i)
    ensures Shape(s) && |s.have| == |s.hashes| == s.g.n
  {
  }

  ghost function SlotBytes(s: Store, i: nat, len: nat): seq<byte>
    requires s.g.Begin(i) + len <= |s.flat|
  {
    s.flat[s.g.Begin(i)..s.g.Begin(i) + len]
  }

  /** The slot holds its own piece (or is taken to). */
  lemma OwnFound(s: Store, sha: seq<byte> -> Digest, pre: seq<bool>, targets: Targets, i: nat)
    requires ScanInv(s, sha, pre, targets, i) && i < s.g.n && pre[i] && HomeGood(s, sha, i)
    ensures ScanInv(Marked(s, i, i), sha, pre, targets, i + 1)
  {
    hide Geometry.PieceLen, Sums, Ascending, ScanPieces, Searched;
    s.g.Slot(i);
    OwnUnplaced(s.g, pre, s.places, s.holes, i);
    TargetsOwn(s.g, s.hashes, pre, s.places, targets, i);
    hide ScanPlaces, TargetsOK, Fits;
    assert Credits(s, sha, pre, i, i);
    MarkedInv(s, sha, pre, targets, targets, i, i);
  }

  /** The slot holds a piece of the same length that was not on disk in its own slot. */
  lemma ListedFound(s: Store, sha: seq<byte> -> Digest, pre: seq<bool>, targets: Targets, i: nat, h: Digest)
    requires ScanInv(s, sha, pre, targets, i) && i < s.g.n && pre[i] && !HomeGood(s, sha, i) && s.checkHashes
    requires 0 <= s.g.PieceLen(i) && s.g.Begin(i) + s.g.PieceLen(i) <= |s.flat|
    requires h == sha(SlotBytes(s, i, s.g.PieceLen(i)))
    requires h in targets && targets[h] != []
    ensures targets[h][|targets[h]| - 1] < s.g.n
    ensures s.g.PieceLen(i) == s.g.PieceLen(targets[h][|targets[h]| - 1]) ==>
      ScanInv(Marked(s, targets[h][|targets[h]| - 1], i), sha, pre, targets[h := targets[h][..|targets[h]| - 1]], i + 1)
  {
    hide Geometry.PieceLen, Sums, Ascending, ScanPieces, Searched, HomeGood, ScanPlaces, Fits;
    TargetsPop(s.g, s.hashes, pre, s.places, targets, h, i);
    hide TargetsOK;
    var t := targets[h][|targets[h]| - 1];
    if s.g.PieceLen(i) == s.g.PieceLen(t) {
      assert Fitting(s, sha, pre, t, i) && Credits(s, sha, pre, t, i);
      MarkedInv(s, sha, pre, targets, targets[h := targets[h][..|targets[h]| - 1]], i, t);
    }
  }

  /** Slot `i`, of hash `h` and with `hfirst` for as many bytes as the last piece has, holds neither its own piece
      nor one that is listed. */
  ghost predicate Unlisted(s: Store, sha: seq<byte> -> Digest, pre: seq<bool>, targets: Targets, i: nat, h: Digest,
                           hfirst: Digest) {
    && ScanInv(s, sha, pre, targets, i) && i < s.g.n && pre[i] && !HomeGood(s, sha, i) && s.checkHashes
    && 0 <= s.g.PieceLen(s.g.n - 1) <= s.g.PieceLen(i) && s.g.Begin(i) + s.g.PieceLen(i) <= |s.flat|
    && h == sha(SlotBytes(s, i, s.g.PieceLen(i))) && hfirst == sha(SlotBytes(s, i, s.g.PieceLen(s.g.n - 1)))
    && (h in targets && targets[h] != [] && targets[h][|targets[h]| - 1] < s.g.n ==>
          s.g.PieceLen(i) != s.g.PieceLen(targets[h][|targets[h]| - 1]))
  }

  lemma UnlistedFrom(s: Store, sha: seq<byte> -> Digest, pre: seq<bool>, targets: Targets, i: nat, h: Digest,
                     hfirst: Digest)
    requires ScanInv(s, sha, pre, targets, i) && i < s.g.n && pre[i] && !HomeGood(s, sha, i) && s.checkHashes
    requires 0 <= s.g.PieceLen(s.g.n - 1) <= s.g.PieceLen(i) && s.g.Begin(i) + s.g.PieceLen(i) <= |s.flat|
    requires h == sha(SlotBytes(s, i, s.g.PieceLen(i))) && hfirst == sha(SlotBytes(s, i, s.g.PieceLen(s.g.n - 1)))
    requires h in targets && targets[h] != [] && targets[h][|targets[h]| - 1] < s.g.n ==>
      s.g.PieceLen(i) != s.g.PieceLen(targets[h][|targets[h]| - 1])
    ensures Unlisted(s, sha, pre, targets, i, h, hfirst)
  {
  }

  lemma UnlistedFacts(s: Store, sha: seq<byte> -> Digest, pre: seq<bool>, targets: Targets, i: nat, h: Digest,
                      hfirst: Digest)
    requires Unlisted(s, sha, pre, targets, i, h, hfirst)
    ensures ScanInv(s, sha, pre, targets, i) && i < s.g.n && |pre| == s.g.n && pre[i] && Shape(s) && |s.have| == s.g.n
    ensures !HomeGood(s, sha, i)
  {
  }

  /** Whatever is not found on the lists is had already, or hidden. */
  lemma NothingListed(s: Store, sha: seq<byte> -> Digest, pre: seq<bool>, targets: Targets, i: nat, h: Digest,
                      hfirst: Digest)
    requires Unlisted(s, sha, pre, targets, i, h, hfirst)
    ensures NoneLeft(s, sha, pre, i) && h == SlotHash(s, sha, i)
    ensures BeginsWithLast(s, sha, pre, i) <==> !pre[s.g.n - 1] && hfirst == s.hashes[s.g.n - 1]
  {
    hide Geometry.PieceLen, Sums, ScanPlaces, Fits, HomeGood, Searched;
    forall t: nat | t < s.g.n && Fitting(s, sha, pre, t, i) && !s.have[t] ensures Hidden(s, sha, pre, i) {
      assert ScanPiece(s, sha, pre, t);
      var l := targets[h];
      var k :| 0 <= k < |l| && l[k] == t;
      var u := l[|l| - 1];
      assert u in l && (k < |l| - 1 ==> t < u);
      s.g.Slot(i); s.g.Slot(t); s.g.Slot(u);
    }
  }

  /** The slot begins with the last piece, which was not on disk in its own slot. */
  lemma LastFound(s: Store, sha: seq<byte> -> Digest, pre: seq<bool>, targets: Targets, i: nat, h: Digest,
                  hfirst: Digest)
    requires Unlisted(s, sha, pre, targets, i, h, hfirst)
    requires !s.have[s.g.n - 1] && hfirst == s.hashes[s.g.n - 1] && (i == s.g.n - 1 || !pre[s.g.n - 1])
    ensures ScanInv(Marked(s, s.g.n - 1, i), sha, pre, targets, i + 1)
  {
    hide Geometry.PieceLen, Sums, Ascending, ScanPieces, Searched, ScanPlaces, Fits, TargetsOK, NoneLeft;
    assert i != s.g.n - 1;
    LastIsShort(s, sha, pre, targets, i, h, hfirst);
    NothingListed(s, sha, pre, targets, i, h, hfirst);
    assert Credits(s, sha, pre, s.g.n - 1, i);
    TargetsLast(s.g, s.hashes, pre, s.places, targets, i);
    MarkedInv(s, sha, pre, targets, targets, i, s.g.n - 1);
  }

  // ---- The end of the scan ----

  lemma ScanDone(s: Store, sha: seq<byte> -> Digest, pre: seq<bool>, targets: Targets)
    requires ScanInv(s, sha, pre, targets, s.g.n)
    requires s.finishedCalls == if s.amountLeft == 0 then 1 else 0
    ensures Inv(s, sha) && Searched(s, sha, pre, s.g.n) && OnlyMoved(s, pre)
  {
    ScannedOnce(s, sha, pre, targets);
    hide Geometry.PieceLen, TargetsOK, TotalMissing, TotalUnrequested, HomeGood, Searched, ScanPiece, PieceInv, Laid,
      ScanPlaces, Fits, OnlyMoved;
    AllScanned(s.g, pre, s.places, s.holes);
    forall i: nat | i < s.g.n
      ensures PieceInv(PieceOf(s, i), sha) && s.waschecked[i] == s.checkHashes && s.active[i] == {}
    {
      assert ScanPiece(s, sha, pre, i);
      ScannedPiece(s, sha, pre, i);
    }
  }

  lemma ScannedOnce(s: Store, sha: seq<byte> -> Digest, pre: seq<bool>, targets: Targets)
    requires ScanInv(s, sha, pre, targets, s.g.n)
    ensures OnlyMoved(s, pre)
  {
    hide Geometry.PieceLen, TargetsOK, Sums, Fits, Searched;
    forall t | 0 <= t < s.g.n && s.have[t] ensures t in s.places {
      assert ScanPiece(s, sha, pre, t);
    }
  }

  // ---- What is found ----

  /** The outcome of a scan that hashes, with pairwise different hashes. */
  ghost predicate WellSearched(s: Store, sha: seq<byte> -> Digest, pre: seq<bool>) {
    && Shape(s) && Inv(s, sha) && s.checkHashes && |pre| == s.g.n && Searched(s, sha, pre, s.g.n) && OnlyMoved(s, pre)
    && forall i, j | 0 <= i < j < s.g.n :: s.hashes[i] != s.hashes[j]
  }

  /** The slot, with its length, that holds piece `t`. */
  ghost predicate HeldIn(s: Store, sha: seq<byte> -> Digest, pre: seq<bool>, v: nat, t: nat)
    requires Shape(s) && |pre| == s.g.n && t < s.g.n
  {
    v < s.g.n && pre[v] && s.g.PieceLen(v) == s.g.PieceLen(t) && SlotHash(s, sha, v) == s.hashes[t]
  }

  /** The slot begins with the last piece, and has no other one credited. */
  ghost predicate OnlyLastIn(s: Store, sha: seq<byte> -> Digest, pre: seq<bool>, v: nat)
    requires Shape(s) && |pre| == s.g.n
  {
    v < s.g.n && pre[v] && BeginsWithLast(s, sha, pre, v) && forall t | FoundAt(s, t, v) :: t == s.g.n - 1
  }

  /** A piece that was on disk in its own slot is had exactly if that slot holds it. Any other one is had exactly if
      some slot on disk holds it at its length; or, if it is the last piece and short, begins with it and has no other
      piece credited. */
  lemma FoundExactly(s: Store, sha: seq<byte> -> Digest, pre: seq<bool>, t: nat)
    requires WellSearched(s, sha, pre) && t < s.g.n
    ensures pre[t] ==> (s.have[t] <==> HeldIn(s, sha, pre, t, t))
    ensures !pre[t] && s.g.PieceLen(t) == s.g.size ==> (s.have[t] <==> exists v :: HeldIn(s, sha, pre, v, t))
    ensures !pre[t] && s.g.PieceLen(t) < s.g.size ==> (s.have[t] <==> exists v :: OnlyLastIn(s, sha, pre, v))
  {
    hide Inv, Searched, OnlyMoved, SlotHash, BeginsWithLast, Geometry.PieceLen;
    s.g.Slot(t);
    if s.have[t] {
      HadIs(s, sha, pre, t);
      if !pre[t] && s.g.PieceLen(t) == s.g.size { assert HeldIn(s, sha, pre, s.places[t], t); }
      if !pre[t] && s.g.PieceLen(t) < s.g.size { assert OnlyLastIn(s, sha, pre, s.places[t]); }
    }
    if pre[t] { SearchedAt(s, sha, pre, t); }
    if v :| !pre[t] && s.g.PieceLen(t) == s.g.size && HeldIn(s, sha, pre, v, t) { SlotHad(s, sha, pre, v, t); }
    if v :| !pre[t] && s.g.PieceLen(t) < s.g.size && OnlyLastIn(s, sha, pre, v) { LastHad(s, sha, pre, v); }
  }

  lemma SearchedAt(s: Store, sha: seq<byte> -> Digest, pre: seq<bool>, v: nat)
    requires WellSearched(s, sha, pre) && v < s.g.n && pre[v]
    ensures SlotSearched(s, sha, pre, v)
  {
  }

  /** What is had is in one slot that was on disk, and has the right hash. */
  lemma HadIs(s: Store, sha: seq<byte> -> Digest, pre: seq<bool>, t: nat)
    requires WellSearched(s, sha, pre) && t < s.g.n && s.have[t]
    ensures t in s.places && s.places[t] < s.g.n && pre[s.places[t]] && (s.places[t] == t || !pre[t])
    ensures forall p | FoundAt(s, p, s.places[t]) :: p == t
    ensures s.g.PieceLen(t) == s.g.size || s.places[t] == t ==> HeldIn(s, sha, pre, s.places[t], t)
    ensures t == s.g.n - 1 && !pre[t] ==> BeginsWithLast(s, sha, pre, s.places[t])
  {
    hide Searched, Sums;
    var v := s.places[t];
    assert PieceInv(PieceOf(s, t), sha) && DataOf(s, t) == Some(Data(s.g, s.flat, s.places, t));
    s.g.Slot(t); s.g.Slot(v);
  }

  lemma SlotHad(s: Store, sha: seq<byte> -> Digest, pre: seq<bool>, v: nat, t: nat)
    requires WellSearched(s, sha, pre) && t < s.g.n && !pre[t] && HeldIn(s, sha, pre, v, t)
    ensures s.have[t]
  {
    hide Inv, Searched, OnlyMoved, SlotHash, BeginsWithLast, Geometry.PieceLen;
    SearchedAt(s, sha, pre, v);
    assert s.hashes[v] != s.hashes[t];
    if t' :| Fitting(s, sha, pre, t', v) && FoundAt(s, t', v) {
      assert t' == t;
    }
    assert Fitting(s, sha, pre, t, v);
    assert !Hidden(s, sha, pre, v);
  }

  lemma LastHad(s: Store, sha: seq<byte> -> Digest, pre: seq<bool>, v: nat)
    requires WellSearched(s, sha, pre) && 0 < s.g.n && s.g.PieceLen(s.g.n - 1) < s.g.size && OnlyLastIn(s, sha, pre, v)
    ensures s.have[s.g.n - 1]
  {
    hide Inv, Searched, OnlyMoved, SlotHash, BeginsWithLast;
    SearchedAt(s, sha, pre, v);
    if HomeGood(s, sha, v) { assert FoundAt(s, v, v); }
  }

  lemma AllScanned(g: Geometry, pre: seq<bool>, places: Places, holes: seq<nat>)
    requires |pre| == g.n && ScanPlaces(g, pre, places, holes, g.n)
    ensures Laid(g, places, holes)
  {
    hide Geometry.PieceLen;
  }

  lemma ScannedPiece(s: Store, sha: seq<byte> -> Digest, pre: seq<bool>, i: nat)
    requires Shape(s) && |pre| == s.g.n && i < s.g.n && ScanPiece(s, sha, pre, i)
    ensures PieceInv(PieceOf(s, i), sha) && s.waschecked[i] == s.checkHashes && s.active[i] == {}
  {
    hide Geometry.PieceLen, Fits;
  }

  /** The scan's invariant does not speak of the calls of `finished`. */
  lemma ScanFinished(s: Store, s': Store, sha: seq<byte> -> Digest, pre: seq<bool>, targets: Targets)
    requires ScanInv(s, sha, pre, targets, s.g.n) && s' == s.(finishedCalls := s'.finishedCalls)
    ensures ScanInv(s', sha, pre, targets, s'.g.n)
  {
    hide Geometry.PieceLen, TargetsOK, TotalMissing, TotalUnrequested, ScanPlaces, Fits;
    forall i: nat | i < s.g.n ensures ScanPiece(s', sha, pre, i) {
      PieceStays(s, s', sha, pre, i);
    }
    hide ScanPiece, SlotSearched;
    forall v: nat | v < s.g.n && pre[v] ensures SlotSearched(s', sha, pre, v) {
      SlotStays(s, s', sha, pre, v);
    }
  }

  /** A torrent without pieces is complete from the start. */
  lemma EmptyDone(s: Store, sha: seq<byte> -> Digest)
    requires Shape(s) && s.g.n == 0 && s.places == map[] && s.holes == [] && s.amountLeft == s.amountInactive == 0
    requires s.finishedCalls == 1
    ensures Inv(s, sha) && Searched(s, sha, [], 0) && OnlyMoved(s, [])
  {
  }
}
