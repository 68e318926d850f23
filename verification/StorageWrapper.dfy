/** Placing downloaded pieces on disk, and accounting for the blocks they arrive in. */
module StorageWrappers {
  import opened Basics
  import opened Blocks
  import opened Pieces
  import opened Scans
  import opened Slots
  import opened Stores
  import opened Storages

  /** What opening a download on a storage comes to. */
  datatype Opening = Ready(wrapper: StorageWrapper) | TotalTooSmall | TotalTooBig

  class StorageWrapper {
    const storage: Storage
    const requestSize: nat
    const hashes: seq<Digest>
    const pieceSize: nat
    const checkHashes: bool
    const sha: seq<byte> -> Digest
    /** The numbers above as one value. */
    const g: Geometry

    var amountLeft: int
    var numactive: seq<nat>
    var inactive: seq<Inactive>
    var amountInactive: int
    var endgame: bool
    var have: seq<bool>
    var waschecked: seq<bool>
    var places: Places
    var holes: seq<nat>
    /** How often the callbacks `finished` and `failed` were called, and the bytes reported to `data_flunked`. */
    var finishedCalls: nat
    var failedCalls: nat
    var flunked: int

    /** Blocks requested but not arrived, and blocks arrived since the piece was last started, with their bytes. */
    ghost var active: seq<set<Block>>
    ghost var arrived: seq<map<Block, seq<byte>>>

    constructor Init(storage: Storage, requestSize: nat, hashes: seq<Digest>, pieceSize: nat, checkHashes: bool,
                     sha: seq<byte> -> Digest)
      requires storage.Valid() && 0 < requestSize && 0 < pieceSize
      requires pieceSize * (|hashes| - 1) < storage.total <= pieceSize * |hashes|
      ensures Fixed() && Shape(State()) && this.storage == storage && this.hashes == hashes && this.sha == sha
      ensures this.requestSize == requestSize && this.pieceSize == pieceSize && this.checkHashes == checkHashes
      ensures places == map[] && holes == [] && amountLeft == amountInactive == g.total && !endgame
      ensures finishedCalls == 0
      ensures forall i: nat | i < g.n :: numactive[i] == 0 && active[i] == {} && arrived[i] == map[]
      ensures forall i: nat | i < g.n :: waschecked[i] == checkHashes && inactive[i] == Fresh && !have[i]
      ensures failedCalls == 0 && flunked == 0
    {
      this.storage, this.requestSize, this.hashes, this.pieceSize, this.checkHashes, this.sha :=
        storage, requestSize, hashes, pieceSize, checkHashes, sha;
      g := Geometry(|hashes|, pieceSize, storage.total);
      amountLeft := storage.total;
      numactive := seq(|hashes|, _ => 0);
      inactive := seq(|hashes|, _ => Fresh);
      amountInactive := storage.total;
      endgame := false;
      have := seq(|hashes|, _ => false);
      waschecked := seq(|hashes|, _ => checkHashes);
      places := map[];
      holes := [];
      finishedCalls, failedCalls, flunked := 0, 0, 0;
      active := seq(|hashes|, _ => {});
      arrived := seq(|hashes|, _ => map[]);
    }

    /** The constructor of the original: it refuses a total length that does not go with the number of pieces,
        and otherwise scans what is on disk: every slot that was on disk is searched for its own piece, for another one
        of its length, and for the last one. */
    static method Open(storage: Storage, requestSize: nat, hashes: seq<Digest>, pieceSize: nat, checkHashes: bool,
                       sha: seq<byte> -> Digest) returns (r: Opening)
      requires storage.Valid() && 0 < requestSize && 0 < pieceSize
      ensures r == TotalTooSmall <==> storage.total <= pieceSize * (|hashes| - 1)
      ensures r == TotalTooBig <==> storage.total > pieceSize * |hashes| && r != TotalTooSmall
      ensures r.Ready? ==> fresh(r.wrapper) && r.wrapper.Valid() && r.wrapper.storage == storage
      ensures r.Ready? ==>
        Searched(r.wrapper.State(), sha, r.wrapper.Pre(), |hashes|) && OnlyMoved(r.wrapper.State(), r.wrapper.Pre())
      ensures r.Ready? && checkHashes && (forall i, j | 0 <= i < j < |hashes| :: hashes[i] != hashes[j]) ==>
        WellSearched(r.wrapper.State(), sha, r.wrapper.Pre())
      ensures r.Ready? ==> NothingStarted(r.wrapper.State())
      ensures r.Ready? ==> r.wrapper.hashes == hashes && r.wrapper.sha == sha && !r.wrapper.endgame
      ensures r.Ready? ==>
        r.wrapper.checkHashes == checkHashes && r.wrapper.g == Geometry(|hashes|, pieceSize, storage.total)
      ensures r.Ready? ==> r.wrapper.requestSize == requestSize && r.wrapper.pieceSize == pieceSize
      ensures r.Ready? ==> r.wrapper.failedCalls == 0 && r.wrapper.flunked == 0
    {
      hide Storage.Valid, Storage.Flat, StorageWrapper.Valid, Searched, OnlyMoved, Inv, StorageWrapper.Pre,
        Geometry.PieceLen;
      if storage.total <= pieceSize * (|hashes| - 1) {
        return TotalTooSmall;
      }
      if storage.total > pieceSize * |hashes| {
        return TotalTooBig;
      }
      var w := new StorageWrapper.Init(storage, requestSize, hashes, pieceSize, checkHashes, sha);
      w.Scan();
      w.Inner();
      r := Ready(w);
    }

    /** Which slots were on disk before. */
    ghost function Pre(): (p: seq<bool>)
      ensures |p| == g.n
    {
      seq(g.n, i requires 0 <= i < g.n => WasOnDisk(i))
    }

    ghost predicate WasOnDisk(i: nat) {
      0 <= g.PieceLen(i) && storage.Preallocated(g.Begin(i), g.PieceLen(i))
    }

    method Scan()
      requires Fixed() && Shape(State()) && places == map[] && holes == []
      requires amountLeft == amountInactive == g.total && finishedCalls == 0
      requires forall i: nat | i < g.n :: numactive[i] == 0 && active[i] == {} && arrived[i] == map[]
      requires forall i: nat | i < g.n :: waschecked[i] == checkHashes && inactive[i] == Fresh && !have[i]
      modifies this`amountLeft, this`amountInactive, this`have, this`inactive, this`waschecked, this`places, this`holes,
               this`finishedCalls
      ensures Valid() && Searched(State(), sha, Pre(), g.n) && OnlyMoved(State(), Pre()) && NothingStarted(State())
    {
      if |hashes| == 0 {
        finishedCalls := 1;
        EmptyDone(State(), sha);
        assert Pre() == [];
      } else {
        ScanSlots();
      }
    }

    method ScanSlots()
      requires Fixed() && Shape(State()) && places == map[] && holes == [] && 0 < g.n
      requires amountLeft == amountInactive == g.total && finishedCalls == 0
      requires forall i: nat | i < g.n :: numactive[i] == 0 && active[i] == {} && arrived[i] == map[]
      requires forall i: nat | i < g.n :: waschecked[i] == checkHashes && inactive[i] == Fresh && !have[i]
      modifies this`amountLeft, this`amountInactive, this`have, this`inactive, this`waschecked, this`places, this`holes,
               this`finishedCalls
      ensures Valid() && Searched(State(), sha, Pre(), g.n) && OnlyMoved(State(), Pre())
      ensures active == old(active) && arrived == old(arrived)
    {
      hide Geometry.PieceLen, Storage.Flat, Storage.Valid, Pre, Fits, Searched, OnlyMoved, SlotsPresent, Inv,
        StorageWrapper.Valid;
      ghost var pre := Pre();
      var targets := ListTargets();
      ScanStart(State(), sha, pre, targets);
      hide ScanInv, Shape, TargetsUpTo;
      var i := 0;
      while i < |hashes|
        invariant i <= |hashes| && Fixed() && ScanInv(State(), sha, pre, targets, i) && finishedCalls == 0
        invariant active == old(active) && arrived == old(arrived)
      {
        targets := ScanSlot(i, targets);
        i := i + 1;
      }
      EndScan(targets);
    }

    method EndScan(ghost targets: Targets)
      requires Fixed() && ScanInv(State(), sha, Pre(), targets, g.n) && finishedCalls == 0
      modifies this`finishedCalls
      ensures Valid() && Searched(State(), sha, Pre(), g.n) && OnlyMoved(State(), Pre())
    {
      hide Geometry.PieceLen, Storage.Flat, Storage.Valid, Pre, Fits, Searched, OnlyMoved, SlotsPresent, Inv, ScanInv,
        Shape;
      ScannedPresent(targets);
      ghost var s1 := State();
      if amountLeft == 0 {
        finishedCalls := 1;
      }
      ScanFinished(s1, State(), sha, Pre(), targets);
      ScanDone(State(), sha, Pre(), targets);
    }

    lemma ScannedPresent(targets: Targets)
      requires Fixed() && ScanInv(State(), sha, Pre(), targets, g.n)
      ensures SlotsPresent(Elems(holes))
    {
      hide TargetsOK, ScanPieces, Sums, Fits, Searched, OnlyMoved, Geometry.PieceLen;
      forall v: nat | v < g.n && v !in holes ensures SlotPresent(v) {
        g.Slot(v);
        assert Pre()[v];
        storage.PreallocatedIsPresent(g.Begin(v), g.PieceLen(v));
      }
    }

    method MarkGot(piece: nat, pos: nat)
      requires Fixed() && Shape(State()) && piece < g.n
      modifies this`amountLeft, this`amountInactive, this`have, this`inactive, this`waschecked, this`places
      ensures State() == Marked(old(State()), piece, pos)
    {
      hide Storage.Valid, Storage.Flat, Geometry.PieceLen, Fits;
      places, have, amountLeft, amountInactive, inactive, waschecked :=
        places[piece := pos], have[piece := true], amountLeft - g.PieceLen(piece), amountInactive - g.PieceLen(piece),
        inactive[piece := Done], waschecked[piece := checkHashes];
    }

    /** One turn of the start-up scan. */
    method ScanSlot(i: nat, targets: Targets) returns (targets': Targets)
      requires Fixed() && i < g.n && ScanInv(State(), sha, Pre(), targets, i)
      modifies this`amountLeft, this`amountInactive, this`have, this`inactive, this`waschecked, this`places, this`holes
      ensures Fixed() && ScanInv(State(), sha, Pre(), targets', i + 1)
    {
      hide Geometry.PieceLen, ScanInv, Storage.Valid, Storage.Flat, Pre, SlotPresent, Shape;
      ScanShape(State(), sha, Pre(), targets, i);
      targets' := targets;
      var p := WasPre(i);
      if !p {
        SkippedInv(State(), sha, Pre(), targets, i);
        holes := holes + [i];
      } else if !checkHashes {
        assert HomeGood(State(), sha, i);
        OwnFound(State(), sha, Pre(), targets, i);
        MarkGot(i, i);
      } else {
        targets' := CheckSlot(i, targets);
      }
    }

    /** Hashes slot `i`, and its first bytes as if it held the last piece, and credits the piece it finds. */
    method CheckSlot(i: nat, targets: Targets) returns (targets': Targets)
      requires Fixed() && i < g.n && ScanInv(State(), sha, Pre(), targets, i) && Pre()[i] && SlotPresent(i)
      requires checkHashes
      modifies this`amountLeft, this`amountInactive, this`have, this`inactive, this`waschecked, this`places
      ensures Fixed() && ScanInv(State(), sha, Pre(), targets', i + 1)
    {
      hide Geometry.PieceLen, ScanInv, Storage.Valid, Storage.Flat, Pre, SlotPresent, Shape, Unlisted;
      ScanShape(State(), sha, Pre(), targets, i);
      ghost var s0, pre := State(), Pre();
      targets' := targets;
      var h, hfirst := HashSlot(i);
      assert HomeGood(s0, sha, i) <==> h == hashes[i];
      if h == hashes[i] {
        OwnFound(s0, sha, pre, targets, i);
        MarkGot(i, i);
        return;
      }
      if h in targets && targets[h] != [] {
        ListedFound(s0, sha, pre, targets, i, h);
        if g.PieceLen(i) == g.PieceLen(targets[h][|targets[h]| - 1]) {
          var t := targets[h][|targets[h]| - 1];
          targets' := targets[h := targets[h][..|targets[h]| - 1]];
          MarkGot(t, i);
          return;
        }
      }
      UnlistedFrom(s0, sha, pre, targets, i, h, hfirst);
      CheckForLast(i, targets, h, hfirst);
    }

    /** The slot may begin with the last piece. */
    method CheckForLast(i: nat, ghost targets: Targets, ghost h: Digest, hfirst: Digest)
      requires Fixed() && i < g.n && Unlisted(State(), sha, Pre(), targets, i, h, hfirst)
      modifies this`amountLeft, this`amountInactive, this`have, this`inactive, this`waschecked, this`places
      ensures Fixed() && ScanInv(State(), sha, Pre(), targets, i + 1)
    {
      hide Geometry.PieceLen, ScanInv, Storage.Valid, Storage.Flat, Pre, SlotPresent, Shape, Unlisted, HomeGood;
      UnlistedFacts(State(), sha, Pre(), targets, i, h, hfirst);
      ghost var s0 := State();
      var last := g.n - 1;
      var preLast := WasPre(last);
      if !have[last] && hfirst == hashes[last] && (i == last || !preLast) {
        LastFound(s0, sha, Pre(), targets, i, h, hfirst);
        MarkGot(last, i);
      } else {
        NothingListed(s0, sha, Pre(), targets, i, h, hfirst);
        UnknownInv(s0, sha, Pre(), targets, i);
        places := places[i := i];
      }
    }

    method HashSlot(i: nat) returns (h: Digest, hfirst: Digest)
      requires Fixed() && i < g.n && SlotPresent(i)
      ensures 0 <= g.PieceLen(g.n - 1) <= g.PieceLen(i) && g.End(i) <= g.total
      ensures h == sha(SlotBytes(State(), i, g.PieceLen(i)))
      ensures hfirst == sha(SlotBytes(State(), i, g.PieceLen(g.n - 1)))
    {
      hide Geometry.PieceLen, Geometry.Begin, Storage.Valid, Storage.Flat, Storage.Present;
      g.Slot(i); g.Slot(g.n - 1);
      g.LastShort(i);
      BeginIs(i);
      var lastlen := g.PieceLen(g.n - 1);
      storage.PresentWithin(g.Begin(i), g.Begin(i), g.Begin(i) + lastlen, g.End(i));
      storage.PresentWithin(g.Begin(i), g.Begin(i) + lastlen, g.End(i), g.End(i));
      var first := storage.Read(pieceSize * i, lastlen);
      hfirst := sha(first);
      var rest := storage.Read(pieceSize * i + lastlen, g.PieceLen(i) - lastlen);
      assert first + rest == storage.Flat()[g.Begin(i)..g.End(i)];
      h := sha(first + rest);
    }

    lemma BeginIs(i: nat)
      requires Fixed() && i < g.n
      ensures g.Begin(i) == pieceSize * i
    {
      hide Storage.Valid;
    }

    method ListTargets() returns (targets: Targets)
      requires Fixed() && 0 < g.n
      ensures TargetsUpTo(hashes, Pre(), targets, g.n)
    {
      targets := map[];
      for i := 0 to |hashes|
        invariant TargetsUpTo(hashes, Pre(), targets, i)
      {
        var p := WasPre(i);
        TargetsAppend(hashes, Pre(), targets, i);
        if !p {
          targets := Appended(targets, hashes[i], i);
        }
      }
    }

    // ---- Invariant ----

    ghost predicate Fixed()
      reads storage
    {
      && storage.Valid()
      && g == Geometry(|hashes|, pieceSize, storage.total)
      && g.Sound()
      && 0 < requestSize
    }

    /** The bytes of every slot outside `free` are all in the files. */
    ghost predicate SlotsPresent(free: set<nat>)
      reads storage
    {
      forall v: nat | v < g.n && v !in free :: SlotPresent(v)
    }

    ghost predicate SlotPresent(v: nat)
      reads storage
    {
      0 <= g.End(v) && storage.Present(g.Begin(v), g.End(v))
    }

    ghost function State(): Store
      requires storage.Valid()
      reads this, storage
    {
      Store(g, requestSize, hashes, checkHashes, storage.Flat(), places, holes, inactive, numactive, active, arrived,
            have, waschecked, amountLeft, amountInactive, endgame, finishedCalls)
    }

    ghost predicate Valid()
      reads this, storage
    {
      && Fixed()
      && SlotsPresent(Elems(holes))
      && Inv(State(), sha)
    }

    lemma Inner()
      requires Valid()
      ensures storage.Valid() && Inv(State(), sha) && Shape(State())
      ensures |inactive| == |active| == |have| == |arrived| == g.n
    {
      hide Laid, PiecesOK, Sums, Fits;
    }

    /** Without holes, every byte is in the files. */
    lemma AllPresentIfFull()
      requires Valid() && holes == []
      ensures forall i | 0 <= i < |storage.ranges| ::
        Reaches(storage.ranges[i], Sizes(storage.files), storage.total)
    {
      hide Inv, OnlyGrown, Geometry.PieceLen, Geometry.Begin;
      forall i | 0 <= i < |storage.ranges|
        ensures Reaches(storage.ranges[i], Sizes(storage.files), storage.total)
      {
        var r := storage.ranges[i];
        RangesApart(storage.ranges, storage.total, i, i);
        var v := g.SlotOf(r.end - 1);
        assert v !in Elems(holes);
        assert SlotPresent(v);
        assert Touches(r, storage.total, g.Begin(v), g.End(v));
        assert Reaches(r, Sizes(storage.files), g.End(v));
      }
    }

    twostate lemma RequestsOnly()
      requires old(storage.Valid()) && storage.Valid() && unchanged(storage)
      requires unchanged(this`places) && unchanged(this`holes) && unchanged(this`arrived) && unchanged(this`have)
      requires unchanged(this`waschecked) && unchanged(this`amountLeft) && unchanged(this`finishedCalls)
      ensures OnlyRequests(old(State()), State())
    {
      hide Storage.Valid;
    }

    // ---- Placing a piece ----

    /** dict.items() is searched for the piece in slot `v`; the order of a dict is arbitrary. */
    method Occupant(v: nat) returns (p: nat)
      requires Occupied(places, v)
      ensures p in places && places[p] == v
    {
      var rest := places.Keys;
      p :| p in rest;
      while places[p] != v
        invariant p in rest && rest <= places.Keys
        invariant exists q :: q in rest && places[q] == v
        decreases |rest|
      {
        ghost var q :| q in rest && places[q] == v;
        rest := rest - {p};
        assert q in rest;
        p :| p in rest;
      }
    }

    method WasPre(piece: nat) returns (r: bool)
      requires Fixed() && piece < g.n
      ensures r ==> SlotPresent(piece)
      ensures r <==> Pre()[piece]
    {
      g.Slot(piece);
      r := storage.WasPreallocated(piece * pieceSize, g.PieceLen(piece));
      if r {
        storage.PreallocatedIsPresent(g.Begin(piece), g.PieceLen(piece));
      }
    }

    /** A slot that is present is read back as the flat array has it. */
    method ReadSlot(v: nat, len: nat) returns (s: seq<byte>)
      requires Fixed() && v < g.n && SlotPresent(v) && len <= g.PieceLen(v)
      ensures g.Begin(v) + len <= g.total && s == storage.Flat()[g.Begin(v)..g.Begin(v) + len]
    {
      g.Slot(v);
      storage.PresentWithin(g.Begin(v), g.Begin(v), g.Begin(v) + len, g.End(v));
      s := storage.Read(pieceSize * v, len);
    }

    method WriteInSlot(v: nat, begin: nat, s: seq<byte>)
      requires Fixed() && v < g.n && begin + |s| <= g.PieceLen(v)
      modifies storage
      ensures Fixed() && g.Begin(v) + begin + |s| <= g.total
      ensures storage.Flat() == Splice(old(storage.Flat()), g.Begin(v) + begin, s)
      ensures forall w: nat | old(SlotPresent(w)) :: SlotPresent(w)
    {
      g.Slot(v);
      storage.Write(v * pieceSize + begin, s);
    }

    method WriteSlot(v: nat, s: seq<byte>)
      requires Fixed() && v < g.n && |s| <= g.PieceLen(v)
      modifies storage
      ensures Fixed() && g.Begin(v) + |s| <= g.total
      ensures storage.Flat() == Splice(old(storage.Flat()), g.Begin(v), s)
      ensures forall w: nat | old(SlotPresent(w)) :: SlotPresent(w)
      ensures |s| == g.PieceLen(v) ==> SlotPresent(v)
    {
      g.Slot(v);
      storage.Write(pieceSize * v, s);
    }

    /** The first hole `n` belongs to a piece stored elsewhere. */
    method PlaceWhereOwnerReturns(index: nat, n: nat, ghost free: set<nat>)
      requires Fixed() && LaidOut(g, places, free) && SlotsPresent(free) && Elems(holes) == free - {n}
      requires n in free && n in places && index < g.n && index !in places && |have| == g.n
      requires have[n] ==> sha(Data(g, storage.Flat(), places, n)) == hashes[n]
      modifies this`places, storage
      ensures Fixed() && SlotsPresent(free - {n}) && Fits(g, old(places)) && |old(storage.Flat())| == g.total
      ensures OwnerReturned(g, old(storage.Flat()), old(places), n, holes, index, storage.Flat(), places)
    {
      hide Geometry.PieceLen, Splice, SlotPresent, Occupied, Fits, OnlyGrown;
      LaidOutFits(g, places, free);
      ghost var places0, flat0 := places, storage.Flat();
      var oldpos := places[n];
      OccupantAway(g, places, free, n);
      assert SlotPresent(oldpos) && (index !in free ==> SlotPresent(index) && Occupied(places, index));
      g.Slot(n); g.Slot(oldpos);
      hide LaidOut;
      var data := ReadSlot(oldpos, g.PieceLen(n));
      if have[n] && sha(data) != hashes[n] {
        // 'data corrupted on disk - maybe you have two copies running?'
        assert false;
      }
      WriteSlot(n, data);
      places := places[n := n];
      ghost var flat1 := storage.Flat();
      if index == oldpos || index in holes {
        places := places[index := oldpos];
      } else {
        OccupiedStill(places0, n, index);
        SwapIn(index, n, oldpos, free, flat0, places0);
      }
    }

    /** The newcomer moves into its own slot, and the occupant to the slot left by the piece that came home. */
    method SwapIn(index: nat, ghost n: nat, oldpos: nat, ghost free: set<nat>, ghost flat0: seq<byte>,
                  ghost places0: Places)
      requires Fixed() && SlotPresent(index) && SlotPresent(oldpos) && Occupied(places, index)
      requires |flat0| == g.total && LaidOut(g, places0, free) && n in free && n in places0 && oldpos == places0[n]
      requires index < g.n && index !in places0 && index != oldpos && places == places0[n := n]
      requires g.End(n) <= g.total && storage.Flat() == Splice(flat0, g.Begin(n), Data(g, flat0, places0, n))
      modifies this`places, storage
      ensures Fixed() && forall w: nat | old(SlotPresent(w)) :: SlotPresent(w)
      ensures Fits(g, places0) && exists p: nat :: SwappedIn(g, flat0, places0, n, index, p, storage.Flat(), places)
    {
      hide Geometry.PieceLen, Splice, SlotPresent, Occupied, Fits, OnlyGrown;
      LaidOutFits(g, places0, free);
      ghost var flat1 := storage.Flat();
      var p := Occupant(index);
      SwapInSizes(g, places0, free, n, index, p);
      hide LaidOut;
      places := places[index := index];
      places := places[p := oldpos];
      g.Slot(index); g.Slot(oldpos);
      var data := ReadSlot(index, pieceSize);
      WriteSlot(oldpos, data);
      assert SwappedIn(g, flat0, places0, n, index, p, storage.Flat(), places);
    }

    /** The first hole `n` belongs to a piece that has no place. */
    method PlaceInHole(index: nat, n: nat, ghost free: set<nat>)
      requires Fixed() && LaidOut(g, places, free) && SlotsPresent(free) && Elems(holes) == free - {n}
      requires n in free && n !in places && index < g.n && index !in places && forall h | h in free :: n <= h
      modifies this`places, storage
      ensures Fixed() && SlotsPresent(free - {n}) && |old(storage.Flat())| == g.total
      ensures HoleUsed(g, old(storage.Flat()), old(places), n, holes, index, storage.Flat(), places)
    {
      hide Geometry.PieceLen, Splice, SlotPresent, Occupied, Fits, OnlyGrown;
      ghost var places0, flat0 := places, storage.Flat();
      g.Slot(n);
      if index in holes || index == n {
        var pre := WasPre(n);
        ghost var chunk := [];
        if !pre {
          chunk := Filler(g.PieceLen(n));
          WriteSlot(n, Filler(g.PieceLen(n)));
        } else {
          SpliceNothing(flat0, g.Begin(n));
        }
        places := places[index := n];
        assert Filled(g, flat0, places0, n, index, chunk, storage.Flat(), places);
      } else {
        assert Occupied(places, index);
        var p := Occupant(index);
        DisplaceSizes(g, places, free, n, index, p);
        places := places[index := index];
        places := places[p := n];
        g.Slot(index);
        var data := ReadSlot(index, g.PieceLen(n));
        WriteSlot(n, data);
        assert Displaced(g, flat0, places0, n, index, p, storage.Flat(), places);
      }
    }

    /** First half of `_piece_came_in`: finds a place for a piece that has none, moving others as needed.
        It always finds a hole, and the occupant it looks for, and never reports corrupted data. */
    method Place(index: nat)
      requires Valid() && index < g.n && index !in places
      modifies this`places, this`holes, storage
      ensures Valid() && Shape(old(State())) && PlacedAs(old(State()), State(), index)
      ensures Moved(old(State()), State(), index)
      ensures old(holes) != [] && holes == old(holes)[1..]
    {
      hide Geometry.PieceLen, SlotPresent, Inv, OwnerReturned, HoleUsed, LaidOut, Shape, Storage.Valid, Storage.Flat,
        Data, Moved;
      ghost var s0, free := State(), Elems(holes);
      InvShape(s0, sha);
      FirstHole(s0, sha, index);
      var n := holes[0];
      holes := holes[1..];
      if n in places {
        PlaceWhereOwnerReturns(index, n, free);
      } else {
        PlaceInHole(index, n, free);
      }
      PlacedInv(s0, State(), sha, index);
    }

    // ---- Requests ----

    method MakeInactive(index: nat)
      requires Fixed() && |inactive| == g.n && index < g.n && Shape(State())
      modifies this`inactive
      ensures inactive == old(inactive)[index := Started(All(old(State()), index))]
    {
      hide Consistent, OnlyGrown, Storage.Flat, Cut;
      g.Slot(index);
      g.LastLen(index);
      var l := CutUp(Min(pieceSize, storage.total - pieceSize * index));
      inactive := inactive[index := Started(l)];
    }

    method CutUp(length: nat) returns (l: seq<Block>)
      requires 0 < requestSize && 0 < length
      ensures l == Cut(0, length, requestSize)
    {
      hide Cut;
      l := [];
      var x := 0;
      while x + requestSize < length
        invariant 0 <= x < length && l + Cut(x, length, requestSize) == Cut(0, length, requestSize)
      {
        CutOne(l, x, length, requestSize);
        l := l + [Block(x, requestSize)];
        x := x + requestSize;
      }
      CutOne(l, x, length, requestSize);
      l := l + [Block(x, length - x)];
    }

    /** min() of the list, by its position. */
    method FirstBlock(l: seq<Block>) returns (k: nat)
      requires l != []
      ensures k < |l| && forall i | 0 <= i < |l| :: !Less(l[i], l[k])
    {
      k := 0;
      for i := 1 to |l|
        invariant k < |l| && forall j | 0 <= j < i :: !Less(l[j], l[k])
      {
        if Less(l[i], l[k]) {
          k := i;
        }
      }
    }

    predicate DoIHaveRequests(index: nat)
      requires index < |inactive|
      reads this
    {
      HasRequests(inactive[index])
    }

    /** The least unrequested block becomes outstanding. Endgame starts when that was the last one anywhere. */
    method NewRequest(index: nat) returns (r: Block, ghost k: nat)
      requires Valid() && index < g.n && DoIHaveRequests(index)
      modifies this`inactive, this`numactive, this`amountInactive, this`endgame, this`active
      ensures Valid() && BlockRequested(old(State()), State(), sha, index, k, r)
    {
      hide Geometry.PieceLen, Inv, SlotsPresent, All, Without, Storage.Valid, Storage.Flat, Shape;
      ghost var s0 := State();
      InvShape(s0, sha);
      SomeToRequest(s0, index);
      if inactive[index] == Fresh {
        MakeInactive(index);
      }
      ghost var s1 := State();
      OpenedSame(s0, s1, index);
      r, k := TakeFirst(index, s1);
      OpenedRequested(s0, s1, index, k);
      RequestedInv(s0, sha, index, k);
    }

    /** min() of the unrequested blocks, taken from the list. */
    method TakeFirst(index: nat, ghost s0: Store) returns (r: Block, ghost k: nat)
      requires storage.Valid() && s0 == State() && Shape(s0) && index < g.n == |s0.inactive|
      requires s0.inactive[index].Started? && s0.inactive[index].l != []
      modifies this`inactive, this`numactive, this`amountInactive, this`endgame, this`active
      ensures k < |s0.inactive[index].l| && r == s0.inactive[index].l[k]
      ensures forall b | b in s0.inactive[index].l :: !Less(b, r)
      ensures storage.Valid() && State() == Requested(s0, index, k)
    {
      hide Geometry.PieceLen, All, Without, Storage.Valid, Storage.Flat, Shape;
      Lengths(s0);
      var rs := inactive[index].l;
      var first := FirstBlock(rs);
      k := first;
      r := rs[first];
      numactive, inactive, amountInactive, active := numactive[index := numactive[index] + 1],
        inactive[index := Started(Without(rs, first))], amountInactive - r.length, active[index := active[index] + {r}];
      if amountInactive == 0 {
        endgame := true;
      }
    }

    /** An outstanding block is not coming: it may be requested again. */
    method RequestLost(index: nat, begin: nat, length: nat)
      requires Valid() && index < g.n && Block(begin, length) in active[index]
      modifies this`inactive, this`numactive, this`amountInactive, this`active
      ensures old(inactive)[index].Started? && 0 < old(numactive)[index]
      ensures Valid() && State() == Lost(old(State()), index, Block(begin, length))
    {
      hide Geometry.PieceLen, Inv, SlotsPresent, All, Storage.Valid, Storage.Flat, Shape;
      InvShape(State(), sha);
      LostInv(State(), sha, index, Block(begin, length));
      inactive := inactive[index := Started(inactive[index].l + [Block(begin, length)])];
      amountInactive := amountInactive + length;
      numactive := numactive[index := numactive[index] - 1];
      active := active[index := active[index] - {Block(begin, length)}];
    }

    /** An outstanding block arrives. The piece is placed if it was not; the block goes to its bytes; and once all its
        blocks have arrived the piece is kept if what they assemble to has the expected hash, or else started over. */
    method PieceCameIn(index: nat, begin: nat, piece: seq<byte>) returns (r: bool, ghost mid: Store)
      requires Valid() && index < g.n && Block(begin, |piece|) in active[index]
      modifies this`places, this`holes, this`inactive, this`numactive, this`amountLeft, this`amountInactive, this`have,
               this`waschecked, this`finishedCalls, this`flunked, this`active, this`arrived, storage
      ensures Valid() && BlockArrives(old(State()), mid, State(), sha, index, Block(begin, |piece|), piece, r)
      ensures |have| == |old(arrived)| == |hashes| == g.n && Shape(old(State()))
      ensures !Gathered(old(State()), index, Block(begin, |piece|)) ==> r && !have[index]
      ensures Gathered(old(State()), index, Block(begin, |piece|)) ==>
        var data := Assemble(All(old(State()), index), old(arrived)[index][Block(begin, |piece|) := piece]);
        have[index] == r == (sha(data) == hashes[index])
      ensures flunked == old(flunked) + if r then 0 else g.PieceLen(index)
    {
      hide Geometry.PieceLen, Inv, BlockArrives, Placed, SlotsPresent, Storage.Valid, Storage.Flat, All, Assemble,
        Gathered;
      ghost var s0, b := State(), Block(begin, |piece|);
      InvShape(s0, sha);
      if index !in places {
        Place(index);
      }
      mid := State();
      PlacedPresent(index);
      StorePossible(mid, sha, index, b, piece);
      r := StoreBlock(index, begin, piece);
      hide StoredAs, Shape, CanStore;
      BlockStored(s0, mid, State(), sha, index, b, piece, r);
      Verdict(s0, mid, State(), sha, index, b, piece, r);
    }

    /** The block is written, and if it was the last one the piece is checked. */
    method StoreBlock(index: nat, begin: nat, piece: seq<byte>) returns (r: bool)
      requires Fixed() && SlotsPresent(Elems(holes)) && CanStore(State(), index, Block(begin, |piece|), piece)
      requires SlotPresent(places[index])
      modifies this`inactive, this`numactive, this`amountLeft, this`amountInactive, this`have, this`waschecked,
               this`finishedCalls, this`flunked, this`active, this`arrived, storage
      ensures Fixed() && SlotsPresent(Elems(holes)) && old(CanStore(State(), index, Block(begin, |piece|), piece))
      ensures StoredAs(old(State()), State(), sha, index, Block(begin, |piece|), piece, r)
      ensures flunked == old(flunked) + if r then 0 else g.PieceLen(index)
    {
      hide Geometry.PieceLen, SlotsPresent, SlotPresent, Storage.Valid, Storage.Flat, Wrote, Checked, Good;
      WriteBlock(index, begin, piece);
      r := true;
      if AllArrived(inactive[index], numactive[index]) {
        r := CheckPiece(index);
      }
    }

    /** The block is written to the bytes of its piece, wherever that is. */
    method WriteBlock(index: nat, begin: nat, piece: seq<byte>)
      requires Fixed() && SlotsPresent(Elems(holes)) && Shape(State()) && index < g.n && index in places
      requires 0 < numactive[index] && begin + |piece| <= g.PieceLen(index)
      modifies this`numactive, this`active, this`arrived, storage
      ensures Fixed() && SlotsPresent(Elems(holes))
      ensures State() == Wrote(old(State()), index, Block(begin, |piece|), piece)
      ensures forall v: nat | old(SlotPresent(v)) :: SlotPresent(v)
    {
      hide Geometry.PieceLen, Storage.Valid, Storage.Flat, Splice, SlotPresent;
      WriteInSlot(places[index], begin, piece);
      numactive, active, arrived := numactive[index := numactive[index] - 1],
        active[index := active[index] - {Block(begin, |piece|)}],
        arrived[index := arrived[index][Block(begin, |piece|) := piece]];
    }

    lemma PlacedPresent(index: nat)
      requires Valid() && index in places
      ensures Shape(State()) && index < g.n && places[index] < g.n && g.PieceLen(index) <= g.PieceLen(places[index])
      ensures SlotPresent(places[index])
    {
    }

    /** Second half of `_piece_came_in`: all blocks of the piece have arrived, so its hash is checked. */
    method CheckPiece(index: nat) returns (r: bool)
      requires Fixed() && Shape(State()) && index < g.n && index in places && SlotPresent(places[index])
      modifies this`inactive, this`amountLeft, this`amountInactive, this`have, this`waschecked, this`finishedCalls,
               this`flunked, this`arrived
      ensures r == Good(old(State()), sha, index) && State() == Checked(old(State()), index, r)
      ensures flunked == old(flunked) + if r then 0 else g.PieceLen(index)
    {
      hide Geometry.PieceLen, Storage.Valid, Storage.Flat, Shape, Good, SlotPresent;
      ghost var s0 := State();
      Lengths(s0);
      GoodWhere(s0, sha, index);
      var data := ReadSlot(places[index], g.PieceLen(index));
      r := sha(data) == hashes[index];
      if r {
        Keep(index);
      } else {
        Discard(index);
      }
    }

    method Keep(index: nat)
      requires Fixed() && Shape(State()) && index < g.n
      modifies this`inactive, this`amountLeft, this`have, this`waschecked, this`finishedCalls, this`arrived
      ensures State() == Checked(old(State()), index, true)
    {
      hide Geometry.PieceLen, Storage.Valid, Storage.Flat, Shape;
      Lengths(State());
      have, inactive, waschecked, amountLeft, arrived :=
        have[index := true], inactive[index := Done], waschecked[index := true], amountLeft - g.PieceLen(index),
        arrived[index := map[]];
      if amountLeft == 0 {
        finishedCalls := finishedCalls + 1;
      }
    }

    method Discard(index: nat)
      requires Fixed() && Shape(State()) && index < g.n
      modifies this`inactive, this`amountInactive, this`flunked, this`arrived
      ensures State() == Checked(old(State()), index, false) && flunked == old(flunked) + g.PieceLen(index)
    {
      hide Geometry.PieceLen, Storage.Valid, Storage.Flat, Shape;
      Lengths(State());
      flunked, inactive, amountInactive, arrived :=
        flunked + g.PieceLen(index), inactive[index := Fresh], amountInactive + g.PieceLen(index),
            arrived[index := map[]];
    }

    // ---- Serving ----

    /** Bytes of a piece are only given out from a piece we have, whose whole data has the expected hash. */
    method GetPiece(index: nat, begin: nat, length: nat) returns (r: Option<seq<byte>>)
      requires Valid() && index < g.n
      modifies this`waschecked, this`failedCalls
      ensures Valid() && old(Shape(State()))
      ensures State() == old(State())
        || (old(have)[index] && Good(old(State()), sha, index) && State() == Trusted(old(State()), index))
      ensures r == None <==>
        !have[index] || begin + length > g.PieceLen(index)
            || !(old(waschecked)[index] || Good(old(State()), sha, index))
      ensures r.Some? ==> Good(old(State()), sha, index) && begin + length <= |old(DataOf(State(), index)).value|
      ensures r.Some? ==> r.value == old(DataOf(State(), index)).value[begin..begin + length]
      ensures failedCalls == old(failedCalls) +
        if have[index] && !old(waschecked)[index] && !Good(old(State()), sha, index) then 1 else 0
    {
      hide Geometry.PieceLen, Inv, SlotsPresent, Storage.Valid, Storage.Flat, Good, DataOf, Shape;
      ghost var s0 := State();
      InvShape(s0, sha);
      if !have[index] {
        return None;
      }
      HavePlaced(s0, sha, index);
      PlacedPresent(index);
      GoodWhere(s0, sha, index);
      if !waschecked[index] {
        var data := ReadSlot(places[index], g.PieceLen(index));
        if sha(data) != hashes[index] {
          failedCalls := failedCalls + 1;
          return None;
        }
        TrustedInv(s0, sha, index);
        waschecked := waschecked[index := true];
      }
      if begin + length > g.PieceLen(index) {
        return None;
      }
      ServedBytes(s0, index, begin, length);
      var s := ReadInSlot(places[index], begin, length);
      r := Some(s);
    }

    method ReadInSlot(v: nat, begin: nat, len: nat) returns (s: seq<byte>)
      requires Fixed() && v < g.n && SlotPresent(v) && begin + len <= g.PieceLen(v)
      ensures g.Begin(v) + begin + len <= g.total && s == storage.Flat()[g.Begin(v) + begin..g.Begin(v) + begin + len]
    {
      hide Storage.Valid, Storage.Flat, Storage.Present, Geometry.PieceLen;
      g.Slot(v);
      storage.PresentWithin(g.Begin(v), g.Begin(v) + begin, g.Begin(v) + begin + len, g.End(v));
      s := storage.Read(pieceSize * v + begin, len);
    }
  }

  lemma SpliceNothing(flat: seq<byte>, pos: nat)
    requires pos <= |flat|
    ensures Splice(flat, pos, []) == flat
  {
  }

  function Filler(n: nat): seq<byte> {
    seq(n, _ => 0xFF)
  }
}
