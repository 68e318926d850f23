/** A whole download: the storage is opened, and then any events arrive from any peers, in any order. */
module Sessions {
  import opened Attention
  import opened Basics
  import opened Choosing
  import opened Downloaders
  import Blocks
  import opened PiecePickers
  import opened Scans
  import opened Slots
  import opened Storages
  import opened StorageWrappers
  import opened Stores
  import opened Swarms

  /** What may happen on the connection of peer `k`. An event that the peer is in no position to cause is ignored. */
  datatype PeerEvent =
    | Joins
    | Leaves(k: nat)
    | Chokes(k: nat)
    | Unchokes(k: nat)
    | Has(k: nat, index: nat)
    | HasBits(k: nat, bits: seq<bool>)
    | Sends(k: nat, index: nat, begin: nat, piece: seq<byte>)

  /** Which event can occur: the peer exists, pieces it speaks of exist, and a bit field comes first. */
  predicate Possible(d: Downloader, e: PeerEvent)
    reads d, d.downloads
  {
    match e
    case Joins => |d.downloads| + 1 < TOO_MANY
    case HasBits(k, bits) =>
      k < |d.downloads| && |bits| == d.numpieces && !d.downloads[k].interested && d.downloads[k].choked
      && d.downloads[k].activeRequests == [] && d.downloads[k].history == []
          && d.downloads[k].have == seq(|bits|, _ => false)
    case Has(k, index) => k < |d.downloads| && index < d.numpieces
    case _ => e.k < |d.downloads|
  }

  // ---- What an event means, on values ----

  datatype Snapshot = Snapshot(store: Store, peers: seq<Peer>, picks: Picks)

  ghost function Snap(d: Downloader): Snapshot
    requires d.storage.storage.Valid()
    reads d, d.downloads, d.storage, d.storage.storage, d.picker
  {
    Snapshot(d.storage.State(), d.Peers(), d.picker.State())
  }

  ghost predicate Can(peers: seq<Peer>, n: nat, e: PeerEvent) {
    match e
    case Joins => |peers| + 1 < TOO_MANY
    case HasBits(k, bits) => k < |peers| && |bits| == n
        && peers[k] == Peer(true, false, [], seq(|bits|, _ => false), [])
    case Has(k, index) => k < |peers| && index < n == |peers[k].have|
    case _ => e.k < |peers|
  }

  /** Who chokes us and who has what, after an event. */
  ghost function WiresAfter(peers: seq<Peer>, n: nat, e: PeerEvent): seq<(bool, seq<bool>)>
    requires Can(peers, n, e)
  {
    var w := Wires(peers);
    match e
    case Joins => w + [(true, seq(n, _ => false))]
    case Leaves(k) => Blocks.Without(w, k)
    case Chokes(k) => w[k := (true, w[k].1)]
    case Unchokes(k) => w[k := (false, w[k].1)]
    case Has(k, index) => w[k := (w[k].0, w[k].1[index := true])]
    case HasBits(k, bits) => w[k := (true, bits)]
    case Sends(_, _, _, _) => w
  }

  /** A block was taken, and after that nothing changed but what is requested. */
  ghost predicate Received(s: Store, s': Store, sha: seq<byte> -> seq<byte>, index: nat, begin: nat, piece: seq<byte>) {
    exists mid, s1, ok ::
        BlockArrives(s, mid, s1, sha, index, Blocks.Block(begin, |piece|), piece, ok) && Progress(s1, s')
        && OnlyRequests(s1, s')
  }

  /** The event is the arrival of the last block of a piece that turns out wrong. */
  ghost predicate Fails(s: Snapshot, sha: seq<byte> -> seq<byte>, e: PeerEvent) {
    && e.Sends? && e.k < |s.peers| && Request(e.index, e.begin, |e.piece|) in s.peers[e.k].active
    && Shape(s.store) && e.index < s.store.g.n
    && var b := Blocks.Block(e.begin, |e.piece|);
       Gathered(s.store, e.index, b) &&
       sha(Blocks.Assemble(All(s.store, e.index), s.store.arrived[e.index][b := e.piece])) != s.store.hashes[e.index]
  }

  /** Nobody is overlooked: before endgame, what can be requested from a peer is requested from it as far as the backlog
      allows or, if it chokes us, it knows of our interest. */
  ghost predicate Attended(s: Snapshot, backlog: nat) {
    s.store.endgame || AllHeeded(s.peers, backlog, s.store.inactive)
  }

  /** No peer is newly overlooked for any piece. Only if a piece turned out wrong, some may be for that piece, and for
      any piece the peer that sent it. Nothing that a peer has is overlooked right after it sent any other block, or
      joined. */
  ghost predicate Heedful(s: Snapshot, s': Snapshot, backlog: nat, sha: seq<byte> -> seq<byte>, e: PeerEvent)
    requires e.Leaves? ==> e.k < |s.peers|
  {
    s'.store.endgame || backlog == 0 ||
    match e
    case Joins =>
      && |s'.peers| == |s.peers| + 1 && Heeded(s'.peers[|s.peers|], backlog, s'.store.inactive)
      && AllHeed(s.peers, s'.peers[..|s.peers|], backlog, s.store.inactive, s'.store.inactive, {})
    case Leaves(k) =>
      AllHeed(Blocks.Without(s.peers, k), s'.peers, backlog, s.store.inactive, s'.store.inactive, {})
    case Sends(k, index, begin, piece) =>
      if Fails(s, sha, e) then Failed(s.peers, s'.peers, backlog, s.store.inactive, s'.store.inactive, k, index)
      else
        && AllHeed(s.peers, s'.peers, backlog, s.store.inactive, s'.store.inactive, {})
        && (k < |s.peers| && Request(index, begin, |piece|) in s.peers[k].active ==>
             Heeded(s'.peers[k], backlog, s'.store.inactive))
    case _ => AllHeed(s.peers, s'.peers, backlog, s.store.inactive, s'.store.inactive, {})
  }

  ghost function SceneOf(s: Snapshot): Scene {
    Scene(s.store, s.picks, Lines(s.peers))
  }

  /** Before endgame, only right choices are asked for: of a peer that does not choke us any more, and of one that sent
      a good block, whatever is best; of one that has one more piece, blocks of that; and of anybody, blocks of a piece
      that turned out wrong, and of those that a peer was asked for which chokes us or leaves. */
  ghost predicate AsksWell(s: Snapshot, s': Snapshot, n: nat, backlog: nat, sha: seq<byte> -> seq<byte>, e: PeerEvent)
    requires Can(s.peers, n, e)
  {
    s.store.endgame ||
    var v, v' := SceneOf(s), SceneOf(s');
    match e
    case Joins => s'.picks == s.picks
    case HasBits(k, bits) => s'.picks == s.picks.(num := s'.picks.num)
    case Unchokes(k) => AskedRightly(OnceUnchoked(v, k), v', Terms(Some(k), None, backlog))
    case Has(k, index) => AskedRightly(OnceHad(v, k, index), v', Terms(Some(k), Some([index]), backlog))
    case Chokes(k) => AskedRightly(OnceChoked(v, k), v', Terms(None, Some(PiecesOf(v.lines[k].active)), backlog))
    case Leaves(k) => AskedRightly(OnceLeft(v, k), v', Terms(None, Some(PiecesOf(v.lines[k].active)), backlog))
    case Sends(k, index, begin, piece) =>
      var r := Request(index, begin, |piece|);
      r in s.peers[k].active ==> exists mid, s1, ok ::
        && BlockArrives(s.store, mid, s1, sha, index, Blocks.Block(begin, |piece|), piece, ok)
        && AskedRightly(OnceComplete(OnceTaken(v, k, r, s1), index), v',
                        Terms(if ok then Some(k) else None, if ok then None else Some([index]), backlog))
  }

  /** From `s` to `s'` event `e` happens. An event that cannot occur, and a block that was not asked for, change
      nothing. */
  ghost predicate Event(s: Snapshot, s': Snapshot, n: nat, backlog: nat, sha: seq<byte> -> seq<byte>, e: PeerEvent) {
    if !Can(s.peers, n, e) then s' == s
    else
      && Progress(s.store, s'.store)
      && Wires(s'.peers) == WiresAfter(s.peers, n, e)
      && (if !e.Sends? then OnlyRequests(s.store, s'.store)
          else if Request(e.index, e.begin, |e.piece|) in s.peers[e.k].active
          then Received(s.store, s'.store, sha, e.index, e.begin, e.piece) else s' == s)
      && Heedful(s, s', backlog, sha, e)
      && AsksWell(s, s', n, backlog, sha, e)
  }

  /** From one snapshot to the next, the events happen one after the other. */
  ghost predicate Traced(trace: seq<Snapshot>, events: seq<PeerEvent>, n: nat, backlog: nat,
                         sha: seq<byte> -> seq<byte>)
  {
    |trace| == |events| + 1 && forall i | 0 <= i < |events| :: Event(trace[i], trace[i + 1], n, backlog, sha, events[i])
  }

  lemma WiresAre(peers: seq<Peer>, w: seq<(bool, seq<bool>)>)
    requires |peers| == |w| && forall i | 0 <= i < |w| :: (peers[i].choked, peers[i].have) == w[i]
    ensures Wires(peers) == w
  {
  }

  predicate SameWire(p: Peer, q: Peer) {
    p.choked == q.choked && p.have == q.have
  }

  lemma WiresWithout(peers: seq<Peer>, peers': seq<Peer>, k: nat)
    requires k < |peers| == |peers'| + 1
    requires forall i | 0 <= i < |peers'| :: SameWire(peers'[i], peers[if i < k then i else i + 1])
    ensures Wires(peers') == Blocks.Without(Wires(peers), k)
  {
    forall i | 0 <= i < |peers'| ensures Wires(peers')[i] == Blocks.Without(Wires(peers), k)[i] {
      assert SameWire(peers'[i], peers[if i < k then i else i + 1]);
    }
  }

  // ---- Events ----

  /** One event. */
  method Happen(d: Downloader, e: PeerEvent)
    requires d.Valid() && d.storage.storage.Valid()
    modifies d, d.downloads, d.picker, d.storage, d.storage.storage
    ensures d.Valid() && d.storage.storage.Valid() && Progress(old(d.storage.State()), d.storage.State())
    ensures forall i | 0 <= i < |d.downloads| :: d.downloads[i] in old(d.downloads) || fresh(d.downloads[i])
    ensures Event(old(Snap(d)), Snap(d), d.numpieces, d.backlog, d.storage.sha, e)
  {
    hide Downloader.Valid, Downloader.Peers, StorageWrapper.Valid, StorageWrapper.State, Storage.Valid, Progress, Shape,
      Inv, BlockArrives, Wires;
    Facts(d);
    CanIsPossible(d, e);
    if !Possible(d, e) {
      return;
    }
    if e.Sends? {
      Takes(d, e.k, e.index, e.begin, e.piece);
    } else {
      Tells(d, e);
    }
    Facts(d);
  }

  /** A block arrives from peer `k`. */
  method Takes(d: Downloader, k: nat, index: nat, begin: nat, piece: seq<byte>)
    requires d.Valid() && d.storage.storage.Valid() && k < |d.downloads|
    modifies d, d.downloads, d.picker, d.storage, d.storage.storage
    ensures d.Valid() && d.storage.storage.Valid() && d.downloads == old(d.downloads)
    ensures Event(old(Snap(d)), Snap(d), d.numpieces, d.backlog, d.storage.sha, Sends(k, index, begin, piece))
  {
    hide AskedRightly, OnceTaken, OnceComplete, Downloader.Rightly, Lines, AllHeed, Failed, Downloader.Heeding,
      Downloader.FailedSoon, SingleDownload.Sated, Fails, Heedful, Downloader.Valid, Downloader.Peers,
      StorageWrapper.Valid, StorageWrapper.State, Storage.Valid, Progress, Shape, Inv, BlockArrives, Wires;
    Facts(d);
    PeersAre(d);
    ghost var was := Snap(d);
    StateIs(d);
    Unchoking(d, k);
    var r, ok, mid, s1 := d.downloads[k].GotPiece(index, begin, piece, k);
    Facts(d);
    PeersAre(d);
    WiresKept(old(d.Peers()), d.Peers());
    TakenHeedfully(d, was, mid, s1, k, index, begin, piece, ok);
    if Request(index, begin, |piece|) in was.peers[k].active && !was.store.endgame {
      d.RightlyIs(OnceComplete(OnceTaken(SceneOf(was), k, Request(index, begin, |piece|), s1), index),
                  if ok then Some(k) else None, if ok then None else Some([index]));
    }
  }

  lemma Unchoking(d: Downloader, k: nat)
    requires d.Valid() && k < |d.downloads|
    ensures Inv(d.storage.State(), d.storage.sha) && (d.downloads[k].activeRequests != [] ==> !d.downloads[k].choked)
  {
    hide Downloader.Peers, Downloader.Wired, Swarming, StorageWrapper.Valid, PiecePicker.Valid, Progress, Shape, Inv;
    d.ValidOK();
    d.ValidFacts(d.storage.endgame, k);
    PeerHave(d.downloads[k].State(), d.numpieces, d.backlog);
  }

  /** Whether a piece turns out wrong is known from what has arrived before, and its hash. */
  lemma FailsIf(was: Snapshot, mid: Store, s1: Store, sha: seq<byte> -> seq<byte>, k: nat, index: nat, begin: nat,
                piece: seq<byte>, ok: bool)
    requires Inv(was.store, sha) && k < |was.peers| && Request(index, begin, |piece|) in was.peers[k].active
    requires BlockArrives(was.store, mid, s1, sha, index, Blocks.Block(begin, |piece|), piece, ok)
    ensures ok <==> !Fails(was, sha, Sends(k, index, begin, piece))
  {
    hide Inv, BlockArrives, Shape, DataOf, All, Blocks.Assemble, Gathered;
    Verdict(was.store, mid, s1, sha, index, Blocks.Block(begin, |piece|), piece, ok);
    ArrivesFacts(was.store, mid, s1, sha, index, Blocks.Block(begin, |piece|), piece, ok);
  }

  /** What the arrival of a block means for everybody's attention. */
  lemma TakenHeedfully(d: Downloader, was: Snapshot, mid: Store, s1: Store, k: nat, index: nat, begin: nat,
                       piece: seq<byte>, ok: bool)
    requires d.storage.storage.Valid() && Inv(was.store, d.storage.sha) && k < |was.peers| == |d.downloads|
    requires d.downloads[k].downloader == d && (was.peers[k].active != [] ==> !d.downloads[k].choked)
    requires Request(index, begin, |piece|) in was.peers[k].active ==>
      BlockArrives(was.store, mid, s1, d.storage.sha, index, Blocks.Block(begin, |piece|), piece, ok)
    requires (Request(index, begin, |piece|) in was.peers[k].active ==> ok) ==>
      d.Heeding(was.peers, was.store.inactive, {})
    requires Request(index, begin, |piece|) in was.peers[k].active && ok && !d.storage.endgame ==>
      d.downloads[k].Sated(None)
    requires Request(index, begin, |piece|) in was.peers[k].active && !ok ==>
      d.FailedSoon(was.peers, was.store.inactive, k, index)
    ensures Heedful(was, Snap(d), d.backlog, d.storage.sha, Sends(k, index, begin, piece))
  {
    hide AllHeed, Failed, Downloader.Peers, Inv, BlockArrives, Shape, DataOf, Fails, Heeded, SingleDownload.Sated;
    StateIs(d);
    PeersAre(d);
    if Request(index, begin, |piece|) in was.peers[k].active {
      FailsIf(was, mid, s1, d.storage.sha, k, index, begin, piece, ok);
      if ok && !d.storage.endgame { SatedHeeded(d.downloads[k]); }
    } else {
      NotAskedFor(was, d.storage.sha, k, index, begin, piece);
    }
  }

  lemma SatedHeeded(e: SingleDownload)
    requires e.Sated(None) && !e.choked
    ensures Heeded(e.State(), e.downloader.backlog, e.downloader.storage.inactive)
  {
  }

  lemma NotAskedFor(s: Snapshot, sha: seq<byte> -> seq<byte>, k: nat, index: nat, begin: nat, piece: seq<byte>)
    requires k < |s.peers| && Request(index, begin, |piece|) !in s.peers[k].active
    ensures !Fails(s, sha, Sends(k, index, begin, piece))
  {
  }

  lemma WiresKept(peers: seq<Peer>, peers': seq<Peer>)
    requires |peers'| == |peers|
    requires forall i | 0 <= i < |peers| :: peers'[i].choked == peers[i].choked && peers'[i].have == peers[i].have
    ensures Wires(peers') == Wires(peers)
  {
  }

  lemma PeersAre(d: Downloader)
    ensures |d.Peers()| == |d.downloads| && forall i | 0 <= i < |d.downloads| :: d.Peers()[i] == d.downloads[i].State()
  {
  }

  lemma CanIsPossible(d: Downloader, e: PeerEvent)
    requires d.Valid()
    ensures Possible(d, e) <==> Can(d.Peers(), d.numpieces, e)
  {
    hide Downloader.Valid, Downloader.Peers;
    PeersAre(d);
    if e.Has? && e.k < |d.downloads| { HaveLength(d, e.k); }
  }

  /** In this run no piece turned out wrong. */
  ghost predicate NoneFails(trace: seq<Snapshot>, events: seq<PeerEvent>, sha: seq<byte> -> seq<byte>) {
    forall i | 0 <= i < |events| && i < |trace| :: !Fails(trace[i], sha, events[i])
  }

  ghost predicate AllAttended(trace: seq<Snapshot>, backlog: nat) {
    forall i | 0 <= i < |trace| :: Attended(trace[i], backlog)
  }

  lemma StateIs(d: Downloader)
    requires d.storage.storage.Valid()
    ensures d.storage.State().inactive == d.storage.inactive && d.storage.State().endgame == d.storage.endgame
  {
  }

  lemma WellAsked(d: Downloader, was: Snapshot, e: PeerEvent)
    requires d.storage.storage.Valid() && Can(was.peers, d.numpieces, e)
    requires e.Unchokes? || e.Has? || e.Chokes? || e.Leaves?
    requires e.Unchokes? ==> d.Rightly(OnceUnchoked(SceneOf(was), e.k), Some(e.k), None)
    requires e.Has? ==> d.Rightly(OnceHad(SceneOf(was), e.k, e.index), Some(e.k), Some([e.index]))
    requires e.Chokes? && !was.store.endgame ==>
      d.Rightly(OnceChoked(SceneOf(was), e.k), None, Some(PiecesOf(was.peers[e.k].active)))
    requires e.Leaves? && !was.store.endgame ==>
      d.Rightly(OnceLeft(SceneOf(was), e.k), None, Some(PiecesOf(was.peers[e.k].active)))
    ensures AsksWell(was, Snap(d), d.numpieces, d.backlog, d.storage.sha, e)
  {
    hide AskedRightly, Lines, GivenBack, PiecesOf, OnceLeft, OnceChoked, OnceUnchoked, OnceHad, Downloader.Peers,
      StorageWrapper.State, Storage.Valid;
    if e.Chokes? || e.Leaves? { assert SceneOf(was).lines[e.k].active == was.peers[e.k].active; }
  }

  /** A peer joins. */
  method TellJoins(d: Downloader)
    requires d.Valid() && d.storage.storage.Valid() && Can(d.Peers(), d.numpieces, Joins)
    modifies d, d.downloads, d.picker, d.storage
    ensures d.Valid() && d.storage.storage.Valid() && Progress(old(d.storage.State()), d.storage.State())
    ensures forall i | 0 <= i < |d.downloads| :: d.downloads[i] in old(d.downloads) || fresh(d.downloads[i])
    ensures Wires(d.Peers()) == WiresAfter(old(d.Peers()), d.numpieces, Joins)
    ensures OnlyRequests(old(d.storage.State()), d.storage.State())
    ensures Heedful(old(Snap(d)), Snap(d), d.backlog, d.storage.sha, Joins)
    ensures AsksWell(old(Snap(d)), Snap(d), d.numpieces, d.backlog, d.storage.sha, Joins)
  {
    hide AskedRightly, Downloader.Rightly, Lines, GivenBack, PiecesOf, OnceLeft, OnceChoked, OnceUnchoked, OnceHad,
      AllHeed, Heeded, OnlyRequests, Downloader.Valid, Downloader.Peers, StorageWrapper.Valid, StorageWrapper.State,
      Storage.Valid, Progress, Shape, Inv;
    ghost var was := Snap(d);
    StateIs(d);
    Facts(d);
    PeersAre(d);
    ghost var after := WiresAfter(d.Peers(), d.numpieces, Joins);
    ghost var s0 := d.storage.State();
    var c := d.MakeDownload();
    assert d.storage.State() == s0;
    Facts(d);
    PeersAre(d);
    NothingHappened(was.peers, d.backlog, d.storage.inactive, {});
    NewIsHeeded(c.State(), d.backlog, d.storage.inactive);
    assert d.Peers() == was.peers + [c.State()] && d.Peers()[..|was.peers|] == was.peers;
    StateIs(d);
    d.storage.RequestsOnly();
    WiresAre(d.Peers(), after);
  }

  /** A peer leaves. */
  method TellLeaves(d: Downloader, k: nat)
    requires d.Valid() && d.storage.storage.Valid() && Can(d.Peers(), d.numpieces, Leaves(k))
    modifies d, d.downloads, d.picker, d.storage
    ensures d.Valid() && d.storage.storage.Valid() && Progress(old(d.storage.State()), d.storage.State())
    ensures forall i | 0 <= i < |d.downloads| :: d.downloads[i] in old(d.downloads) || fresh(d.downloads[i])
    ensures Wires(d.Peers()) == WiresAfter(old(d.Peers()), d.numpieces, Leaves(k))
    ensures OnlyRequests(old(d.storage.State()), d.storage.State())
    ensures Heedful(old(Snap(d)), Snap(d), d.backlog, d.storage.sha, Leaves(k))
    ensures AsksWell(old(Snap(d)), Snap(d), d.numpieces, d.backlog, d.storage.sha, Leaves(k))
  {
    hide AsksWell, AskedRightly, Downloader.Rightly, Lines, GivenBack, PiecesOf, OnceLeft, OnceChoked, OnceUnchoked,
      OnceHad, AllHeed, Heeded, OnlyRequests, Downloader.Valid, Downloader.Peers, StorageWrapper.Valid,
      StorageWrapper.State, Storage.Valid, Progress, Shape, Inv;
    ghost var was := Snap(d);
    StateIs(d);
    Facts(d);
    PeersAre(d);
    d.downloads[k].Disconnected(k);
    assert SceneOf(was).lines[k].active == was.peers[k].active;
    WellAsked(d, was, Leaves(k));
    PeersAre(d);
    forall i | 0 <= i < |d.Peers()|
      ensures SameWire(d.Peers()[i], was.peers[if i < k then i else i + 1])
    {
      assert d.downloads[i] == old(d.downloads)[if i < k then i else i + 1];
    }
    WiresWithout(was.peers, d.Peers(), k);
    Facts(d);
    StateIs(d);
    d.storage.RequestsOnly();
  }

  /** A peer chokes us. */
  method TellChokes(d: Downloader, k: nat)
    requires d.Valid() && d.storage.storage.Valid() && Can(d.Peers(), d.numpieces, Chokes(k))
    modifies d, d.downloads, d.picker, d.storage
    ensures d.Valid() && d.storage.storage.Valid() && Progress(old(d.storage.State()), d.storage.State())
    ensures forall i | 0 <= i < |d.downloads| :: d.downloads[i] in old(d.downloads) || fresh(d.downloads[i])
    ensures Wires(d.Peers()) == WiresAfter(old(d.Peers()), d.numpieces, Chokes(k))
    ensures OnlyRequests(old(d.storage.State()), d.storage.State())
    ensures Heedful(old(Snap(d)), Snap(d), d.backlog, d.storage.sha, Chokes(k))
    ensures AsksWell(old(Snap(d)), Snap(d), d.numpieces, d.backlog, d.storage.sha, Chokes(k))
  {
    hide AsksWell, AskedRightly, Downloader.Rightly, Lines, GivenBack, PiecesOf, OnceLeft, OnceChoked, OnceUnchoked,
      OnceHad, AllHeed, Heeded, OnlyRequests, Downloader.Valid, Downloader.Peers, StorageWrapper.Valid,
      StorageWrapper.State, Storage.Valid, Progress, Shape, Inv;
    ghost var was := Snap(d);
    StateIs(d);
    Facts(d);
    PeersAre(d);
    ghost var after := WiresAfter(d.Peers(), d.numpieces, Chokes(k));
    d.downloads[k].GotChoke(k);
    assert SceneOf(was).lines[k].active == was.peers[k].active;
    WellAsked(d, was, Chokes(k));
    Facts(d);
    PeersAre(d);
    StateIs(d);
    d.storage.RequestsOnly();
    WiresAre(d.Peers(), after);
  }

  /** A peer does not choke us any more. */
  method TellUnchokes(d: Downloader, k: nat)
    requires d.Valid() && d.storage.storage.Valid() && Can(d.Peers(), d.numpieces, Unchokes(k))
    modifies d, d.downloads, d.picker, d.storage
    ensures d.Valid() && d.storage.storage.Valid() && Progress(old(d.storage.State()), d.storage.State())
    ensures forall i | 0 <= i < |d.downloads| :: d.downloads[i] in old(d.downloads) || fresh(d.downloads[i])
    ensures Wires(d.Peers()) == WiresAfter(old(d.Peers()), d.numpieces, Unchokes(k))
    ensures OnlyRequests(old(d.storage.State()), d.storage.State())
    ensures Heedful(old(Snap(d)), Snap(d), d.backlog, d.storage.sha, Unchokes(k))
    ensures AsksWell(old(Snap(d)), Snap(d), d.numpieces, d.backlog, d.storage.sha, Unchokes(k))
  {
    hide AsksWell, AskedRightly, Downloader.Rightly, Lines, GivenBack, PiecesOf, OnceLeft, OnceChoked, OnceUnchoked,
      OnceHad, AllHeed, Heeded, OnlyRequests, Downloader.Valid, Downloader.Peers, StorageWrapper.Valid,
      StorageWrapper.State, Storage.Valid, Progress, Shape, Inv;
    ghost var was := Snap(d);
    StateIs(d);
    Facts(d);
    PeersAre(d);
    ghost var after := WiresAfter(d.Peers(), d.numpieces, Unchokes(k));
    d.downloads[k].GotUnchoke(k);
    WellAsked(d, was, Unchokes(k));
    Facts(d);
    PeersAre(d);
    StateIs(d);
    d.storage.RequestsOnly();
    WiresAre(d.Peers(), after);
  }

  /** A peer announces a piece. */
  method TellHas(d: Downloader, k: nat, index: nat)
    requires d.Valid() && d.storage.storage.Valid() && Can(d.Peers(), d.numpieces, Has(k, index))
    modifies d, d.downloads, d.picker, d.storage
    ensures d.Valid() && d.storage.storage.Valid() && Progress(old(d.storage.State()), d.storage.State())
    ensures forall i | 0 <= i < |d.downloads| :: d.downloads[i] in old(d.downloads) || fresh(d.downloads[i])
    ensures Wires(d.Peers()) == WiresAfter(old(d.Peers()), d.numpieces, Has(k, index))
    ensures OnlyRequests(old(d.storage.State()), d.storage.State())
    ensures Heedful(old(Snap(d)), Snap(d), d.backlog, d.storage.sha, Has(k, index))
    ensures AsksWell(old(Snap(d)), Snap(d), d.numpieces, d.backlog, d.storage.sha, Has(k, index))
  {
    hide AsksWell, AskedRightly, Downloader.Rightly, Lines, GivenBack, PiecesOf, OnceLeft, OnceChoked, OnceUnchoked,
      OnceHad, AllHeed, Heeded, OnlyRequests, Downloader.Valid, Downloader.Peers, StorageWrapper.Valid,
      StorageWrapper.State, Storage.Valid, Progress, Shape, Inv;
    ghost var was := Snap(d);
    StateIs(d);
    Facts(d);
    PeersAre(d);
    ghost var after := WiresAfter(d.Peers(), d.numpieces, Has(k, index));
    d.downloads[k].GotHave(index, k);
    WellAsked(d, was, Has(k, index));
    Facts(d);
    PeersAre(d);
    StateIs(d);
    d.storage.RequestsOnly();
    WiresAre(d.Peers(), after);
  }

  /** A peer tells what it has. */
  method TellBits(d: Downloader, k: nat, bits: seq<bool>)
    requires d.Valid() && d.storage.storage.Valid() && Can(d.Peers(), d.numpieces, HasBits(k, bits))
    modifies d, d.downloads, d.picker, d.storage
    ensures d.Valid() && d.storage.storage.Valid() && Progress(old(d.storage.State()), d.storage.State())
    ensures forall i | 0 <= i < |d.downloads| :: d.downloads[i] in old(d.downloads) || fresh(d.downloads[i])
    ensures Wires(d.Peers()) == WiresAfter(old(d.Peers()), d.numpieces, HasBits(k, bits))
    ensures OnlyRequests(old(d.storage.State()), d.storage.State())
    ensures Heedful(old(Snap(d)), Snap(d), d.backlog, d.storage.sha, HasBits(k, bits))
    ensures AsksWell(old(Snap(d)), Snap(d), d.numpieces, d.backlog, d.storage.sha, HasBits(k, bits))
  {
    hide AskedRightly, Downloader.Rightly, Lines, GivenBack, PiecesOf, OnceLeft, OnceChoked, OnceUnchoked, OnceHad,
      AllHeed, Heeded, OnlyRequests, Downloader.Valid, Downloader.Peers, StorageWrapper.Valid, StorageWrapper.State,
      Storage.Valid, Progress, Shape, Inv;
    ghost var was := Snap(d);
    StateIs(d);
    Facts(d);
    PeersAre(d);
    ghost var after := WiresAfter(d.Peers(), d.numpieces, HasBits(k, bits));
    ghost var s0 := d.storage.State();
    d.downloads[k].GotHaveBitfield(bits, k);
    assert d.storage.State() == s0;
    Facts(d);
    PeersAre(d);
    StateIs(d);
    d.storage.RequestsOnly();
    WiresAre(d.Peers(), after);
  }

  /** One event other than the arrival of a block. */
  method Tells(d: Downloader, e: PeerEvent)
    requires d.Valid() && d.storage.storage.Valid() && !e.Sends? && Can(d.Peers(), d.numpieces, e)
    modifies d, d.downloads, d.picker, d.storage
    ensures d.Valid() && d.storage.storage.Valid() && Progress(old(d.storage.State()), d.storage.State())
    ensures forall i | 0 <= i < |d.downloads| :: d.downloads[i] in old(d.downloads) || fresh(d.downloads[i])
    ensures Wires(d.Peers()) == WiresAfter(old(d.Peers()), d.numpieces, e)
    ensures OnlyRequests(old(d.storage.State()), d.storage.State())
    ensures Heedful(old(Snap(d)), Snap(d), d.backlog, d.storage.sha, e)
    ensures AsksWell(old(Snap(d)), Snap(d), d.numpieces, d.backlog, d.storage.sha, e)
  {
    hide *;
    match e {
      case Joins => TellJoins(d);
      case Leaves(k) => TellLeaves(d, k);
      case Chokes(k) => TellChokes(d, k);
      case Unchokes(k) => TellUnchokes(d, k);
      case Has(k, index) => TellHas(d, k, index);
      case HasBits(k, bits) => TellBits(d, k, bits);
    }
  }

  lemma HaveLength(d: Downloader, k: nat)
    requires d.Valid() && k < |d.downloads|
    ensures |d.downloads[k].have| == d.numpieces
  {
    hide Downloader.Peers, Swarming, StorageWrapper.Valid, PiecePicker.Valid, Progress, Shape, Inv;
    d.ValidFacts(d.storage.endgame, k);
  }

  lemma Facts(d: Downloader)
    requires d.Valid()
    ensures d.storage.storage.Valid() && Progress(d.storage.State(), d.storage.State())
    ensures NoDup(d.downloads) && forall i | 0 <= i < |d.downloads| :: d.downloads[i].downloader == d
  {
    hide Downloader.Peers, Swarming, StorageWrapper.Valid, PiecePicker.Valid, Progress, Shape, Inv;
    d.WiredOK();
    ProgressRefl(d.storage.State());
  }

  /** The pieces that are already there are complete for the picker. */
  method MakePicker(w: StorageWrapper, cutoff: nat) returns (picker: PiecePicker)
    requires w.Valid()
    ensures fresh(picker) && picker.Valid() && picker.numpieces == w.g.n == |picker.num| == |w.have|
    ensures forall i | 0 <= i < |w.have| :: picker.num[i] == if w.have[i] then None else Some(0)
    ensures picker.cutoff == cutoff && picker.started == picker.seedstarted == []
  {
    hide StorageWrapper.Valid, PiecePicker.Valid, Storage.Valid, Shape, Inv, NoDup;
    w.Inner();
    var all: seq<nat> := seq(w.g.n, i requires 0 <= i => i);
    var scrambled := Shuffle(all);
    picker := new PiecePicker(w.g.n, cutoff, scrambled);
    for i := 0 to w.g.n
      invariant picker.Valid() && |picker.num| == w.g.n
      invariant forall j | 0 <= j < w.g.n :: picker.num[j] == if j < i && w.have[j] then None else Some(0)
      invariant picker.started == picker.seedstarted == []
    {
      if w.have[i] {
        picker.Complete(i);
      }
    }
  }

  // ---- What peers are asked for ----

  /** A request for a block that is outstanding: one of those its piece is cut into, and the piece is still missing. */
  ghost predicate Proper(s: Store, r: Request) {
    && Shape(s) && r.index < s.g.n && !s.have[r.index]
    && Blocks.Block(r.begin, r.length) in s.active[r.index] && Blocks.Block(r.begin, r.length) in All(s, r.index)
    && 0 < r.length <= s.requestSize
  }

  ghost predicate ProperPeer(s: Store, p: Peer, backlog: nat) {
    && |p.active| <= backlog && NoDup(p.active)
    && (p.choked ==> p.active == []) && (p.active != [] ==> p.interested)
    && forall r | r in p.active :: Proper(s, r) && HasPiece(p, r)
  }

  /** Every peer is asked only for blocks that are outstanding and that it has, for no more at a time than `backlog`,
      only while it does not choke us and knows of our interest; and before endgame no two for the same block. */
  ghost predicate Orderly(s: Snapshot, sha: seq<byte> -> seq<byte>, requestSize: nat, backlog: nat) {
    && s.store.requestSize == requestSize && Inv(s.store, sha)
    && (s.store.endgame ==> forall i | 0 <= i < |s.store.inactive| :: !Blocks.HasRequests(s.store.inactive[i]))
    && (forall i | 0 <= i < |s.peers| :: ProperPeer(s.store, s.peers[i], backlog))
    && (!s.store.endgame ==> Exclusive(s.peers, s.store.active))
    && Counted(s.peers, s.picks.num, s.store.have) && PicksOK(s.picks)
    && (!s.store.endgame && backlog > 0 ==> AllWithReason(s.peers, s.store.inactive))
  }

  /** We are interested only in peers that are asked for something or have something to ask for. */
  ghost predicate AllWithReason(peers: seq<Peer>, inactive: seq<Blocks.Inactive>) {
    forall i | 0 <= i < |peers| && peers[i].interested && peers[i].active == [] :: Offers(peers[i], inactive)
  }

  lemma WithReason(peers: seq<Peer>, backlog: nat, inactive: seq<Blocks.Inactive>, all: seq<Request>)
    requires Contented(peers, backlog, inactive, all, false, -1) && backlog > 0
    ensures AllWithReason(peers, inactive)
  {
    forall i | 0 <= i < |peers| && peers[i].interested && peers[i].active == [] ensures Offers(peers[i], inactive) {
      assert Swarms.Content(peers[i], backlog, inactive, all, false);
    }
  }

  ghost predicate AllOrderly(trace: seq<Snapshot>, sha: seq<byte> -> seq<byte>, requestSize: nat, backlog: nat) {
    forall i | 0 <= i < |trace| :: Orderly(trace[i], sha, requestSize, backlog)
  }

  lemma ValidOrderly(d: Downloader)
    requires d.Valid() && d.storage.storage.Valid()
    ensures Orderly(Snap(d), d.storage.sha, d.storage.requestSize, d.backlog)
  {
    hide Downloader.Wired, Downloader.Peers, StorageWrapper.Valid, PiecePicker.Valid, Contented, Inv, Counted, PeerOK,
      Shape, ProperPeer, Exclusive, Covered, AllWithReason, PicksOK;
    d.WiredOK();
    d.picker.StateOK();
    var s, peers := d.storage.State(), d.Peers();
    forall i | 0 <= i < |peers| ensures ProperPeer(s, peers[i], d.backlog) {
      AskedProperly(peers, s, d.storage.sha, d.numpieces, d.backlog, d.allRequests, i);
    }
    if !d.storage.endgame && d.backlog > 0 {
      WithReason(peers, d.backlog, d.storage.inactive, d.allRequests);
    }
  }

  lemma AskedProperly(peers: seq<Peer>, s: Store, sha: seq<byte> -> seq<byte>, n: nat, backlog: nat,
                      all: seq<Request>, i: nat)
    requires Inv(s, sha) && s.g.n == n && i < |peers| && PeerOK(peers[i], n, backlog)
    requires Shared(peers, s.active, all, s.endgame)
    ensures ProperPeer(s, peers[i], backlog)
  {
    hide Inv, NoDup, All;
    InvShape(s, sha);
    forall r | r in peers[i].active ensures Proper(s, r) && HasPiece(peers[i], r) {
      assert Holds(peers, i, r);
      assert Outstanding(s.active, r);
      var b := Blocks.Block(r.begin, r.length);
      ActiveBlock(s, sha, r.index, b);
      NotHadYet(s, sha, r.index, b);
      AllTiles(s, r.index);
      Blocks.TilesFacts(All(s, r.index), 0, s.g.PieceLen(r.index));
    }
  }

  /** Any events, in any order. */
  method HappenAll(d: Downloader, events: seq<PeerEvent>) returns (ghost trace: seq<Snapshot>)
    requires d.Valid() && d.storage.storage.Valid()
    modifies d, d.downloads, d.picker, d.storage, d.storage.storage
    ensures d.Valid() && d.storage.storage.Valid() && Progress(old(d.storage.State()), d.storage.State())
    ensures Traced(trace, events, d.numpieces, d.backlog, d.storage.sha) && |trace| == |events| + 1
    ensures trace[0] == old(Snap(d)) && trace[|events|] == Snap(d)
    ensures AllOrderly(trace, d.storage.sha, d.storage.requestSize, d.backlog)
  {
    hide Downloader.Valid, StorageWrapper.Valid, StorageWrapper.State, Storage.Valid, Progress, Shape, Event, Snap,
      Orderly, AllOrderly, Traced;
    Facts(d);
    ghost var s0 := d.storage.State();
    trace := [Snap(d)];
    ValidOrderly(d);
    TraceBegins(Snap(d), d.numpieces, d.storage.sha, d.storage.requestSize, d.backlog);
    for n := 0 to |events|
      invariant d.Valid() && d.storage.storage.Valid() && Progress(s0, d.storage.State())
      invariant forall i | 0 <= i < |d.downloads| :: d.downloads[i] in old(d.downloads) || fresh(d.downloads[i])
      invariant |trace| == n + 1 && trace[0] == old(Snap(d)) && trace[n] == Snap(d)
      invariant Traced(trace, events[..n], d.numpieces, d.backlog, d.storage.sha)
      invariant AllOrderly(trace, d.storage.sha, d.storage.requestSize, d.backlog)
    {
      ghost var s1 := d.storage.State();
      Happen(d, events[n]);
      ProgressTrans(s0, s1, d.storage.State());
      ValidOrderly(d);
      TraceGoesOn(trace, events, n, d.numpieces, d.storage.sha, d.storage.requestSize, d.backlog, Snap(d));
      trace := trace + [Snap(d)];
    }
    assert events[..|events|] == events;
  }

  lemma TraceBegins(s: Snapshot, n: nat, sha: seq<byte> -> seq<byte>, requestSize: nat, backlog: nat)
    requires Orderly(s, sha, requestSize, backlog)
    ensures Traced([s], [], n, backlog, sha) && AllOrderly([s], sha, requestSize, backlog)
  {
    hide Orderly;
  }

  lemma TraceGoesOn(trace: seq<Snapshot>, events: seq<PeerEvent>, m: nat, n: nat, sha: seq<byte> -> seq<byte>,
                    requestSize: nat, backlog: nat, s: Snapshot)
    requires m < |events| && Traced(trace, events[..m], n, backlog, sha) && AllOrderly(trace, sha, requestSize, backlog)
    requires Event(trace[m], s, n, backlog, sha, events[m]) && Orderly(s, sha, requestSize, backlog)
    ensures Traced(trace + [s], events[..m + 1], n, backlog, sha) && AllOrderly(trace + [s], sha, requestSize, backlog)
  {
    hide Orderly, Event;
  }

  // ---- Whole downloads ----

  /** Object `w` is the download of `entries` to `disk` with these parameters. None of this ever changes. */
  ghost predicate DownloadOf(w: StorageWrapper, entries: seq<Entry>, disk: Files, requestSize: nat,
                             hashes: seq<seq<byte>>, pieceSize: nat, sha: seq<byte> -> seq<byte>)
  {
    && w.storage.ranges == RangesOf(entries, |entries|) && w.storage.total == TotalLength(entries, |entries|)
    && Opened(entries, disk, w.storage.asOpened) && Noted(entries, disk, w.storage.tops, |entries|)
    && w.g == Geometry(|hashes|, pieceSize, w.storage.total)
    && w.requestSize == requestSize && w.pieceSize == pieceSize
    && w.hashes == hashes && w.sha == sha && w.checkHashes
  }

  /** Before the first event: no peers, the files as opened, and the slots that were on disk searched. */
  ghost predicate AtFirst(s: Snapshot, w: StorageWrapper, sha: seq<byte> -> seq<byte>) {
    && s.peers == [] && Shape(s.store) && s.store.g == w.g
    && s.store.flat == View(w.storage.ranges, w.storage.total, w.storage.asOpened)
    && Searched(s.store, sha, w.Pre(), w.g.n) && OnlyMoved(s.store, w.Pre()) && Inv(s.store, sha)
    && s.store.hashes == w.hashes
    && NothingStarted(s.store) && s.picks.started == s.picks.seedstarted == []
  }

  /** Opens the storage, and starts a downloader on it. */
  method Start(entries: seq<Entry>, disk: Files, requestSize: nat, hashes: seq<seq<byte>>, pieceSize: nat,
               sha: seq<byte> -> seq<byte>, cutoff: nat, backlog: nat) returns (r: Opening, d: Option<Downloader>)
    requires Distinct(entries) && 0 < requestSize && 0 < pieceSize
    ensures r == TotalTooSmall <==> TotalLength(entries, |entries|) <= pieceSize * (|hashes| - 1)
    ensures r == TotalTooBig <==> TotalLength(entries, |entries|) > pieceSize * |hashes| && r != TotalTooSmall
    ensures r.Ready? <==> d.Some?
    ensures d.Some? ==>
      && d.value.Valid() && d.value.storage.storage.Valid() && d.value.storage == r.wrapper && d.value.downloads == []
      && fresh(d.value) && fresh(d.value.storage) && fresh(d.value.picker) && fresh(d.value.storage.storage)
      && DownloadOf(r.wrapper, entries, disk, requestSize, hashes, pieceSize, sha)
      && d.value.numpieces == |hashes| && d.value.backlog == backlog && d.value.picker.cutoff == cutoff
      && AtFirst(Snap(d.value), r.wrapper, sha) && Snap(d.value).picks.cutoff == cutoff
  {
    hide StorageWrapper.Valid, PiecePicker.Valid, Downloader.Valid, Shape, Inv, Searched, OnlyMoved, RangesOf,
      TotalLength, Opened, Noted;
    var storage := new Storage(entries, disk);
    r := StorageWrapper.Open(storage, requestSize, hashes, pieceSize, true, sha);
    d := None;
    if r.Ready? {
      r.wrapper.Inner();
      var picker := MakePicker(r.wrapper, cutoff);
      var downloader := new Downloader(r.wrapper, picker, backlog, r.wrapper.g.n);
      Facts(downloader);
      d := Some(downloader);
    }
  }

  /** A download from the files on disk to the end of a run. Whatever happened: the invariants hold, peers were only
      asked for what they should be, and files that are not of the torrent are as they were; and once nothing is left,
      `finished` has been called exactly once and the files hold all pieces in order, each with its expected hash, and
      nothing else. */
  method Download(entries: seq<Entry>, disk: Files, requestSize: nat, hashes: seq<seq<byte>>, pieceSize: nat,
                  sha: seq<byte> -> seq<byte>, cutoff: nat, backlog: nat, events: seq<PeerEvent>)
      returns (r: Opening, d: Option<Downloader>, ghost trace: seq<Snapshot>)
    requires Distinct(entries) && 0 < requestSize && 0 < pieceSize
    ensures r == TotalTooSmall <==> TotalLength(entries, |entries|) <= pieceSize * (|hashes| - 1)
    ensures r == TotalTooBig <==> TotalLength(entries, |entries|) > pieceSize * |hashes| && r != TotalTooSmall
    ensures r.Ready? <==> d.Some?
    ensures d.Some? ==>
      && d.value.Valid() && d.value.storage == r.wrapper && r.wrapper.Valid() && r.wrapper.storage.Valid()
      && DownloadOf(r.wrapper, entries, disk, requestSize, hashes, pieceSize, sha)
      && d.value.numpieces == |hashes| && d.value.backlog == backlog && d.value.picker.cutoff == cutoff
    ensures d.Some? ==>
      && |trace| == |events| + 1 && Traced(trace, events, |hashes|, backlog, sha)
      && AtFirst(trace[0], r.wrapper, sha) && trace[0].picks.cutoff == cutoff && trace[|events|] == Snap(d.value)
      && AllOrderly(trace, sha, requestSize, backlog)
    ensures d.Some? && NoneFails(trace, events, sha) ==> AllAttended(trace, backlog)
    ensures d.Some? ==> Untouched(entries, disk, r.wrapper.storage.files)
    ensures d.Some? && r.wrapper.amountLeft == 0 ==>
      && r.wrapper.finishedCalls == 1 && Assembled(r.wrapper, hashes, sha)
      && FilesHold(entries, r.wrapper.storage.Flat(), r.wrapper.storage.files)
  {
    hide StorageWrapper.Valid, StorageWrapper.State, Downloader.Valid, Downloader.Peers, Progress, Shape, TotalLength,
      Event, Opened, Noted, Orderly, AllOrderly, NoneFails, AllAttended, Traced, AtFirst, Untouched, FilesHold,
      RangesOf, Assembled, Snap;
    trace := [];
    r, d := Start(entries, disk, requestSize, hashes, pieceSize, sha, cutoff, backlog);
    if d.Some? {
      PeersAre(d.value);
      trace := HappenAll(d.value, events);
      AtTheEnd(d.value);
      if NoneFails(trace, events, sha) {
        NoPeersAtFirst(trace[0], r.wrapper, sha);
        NobodyOverlooked(trace, events, |hashes|, backlog, sha);
      }
      OnDisk(r.wrapper, entries, disk, requestSize, hashes, pieceSize, sha);
    }
  }

  lemma OnDisk(w: StorageWrapper, entries: seq<Entry>, disk: Files, requestSize: nat, hashes: seq<seq<byte>>,
               pieceSize: nat, sha: seq<byte> -> seq<byte>)
    requires w.Valid() && Distinct(entries) && DownloadOf(w, entries, disk, requestSize, hashes, pieceSize, sha)
    ensures w.storage.Valid() && Untouched(entries, disk, w.storage.files)
    ensures w.amountLeft == 0 ==> FilesHold(entries, w.storage.Flat(), w.storage.files)
  {
    hide Inv, RangesOf, TotalLength, Opened, Noted, Untouched, FilesHold, Consistent, OnlyGrown;
    var s := w.storage;
    assert Consistent(s.ranges, s.begins, s.total, s.tops, s.files);
    StillUntouched(entries, disk, s.asOpened, s.files);
    if w.amountLeft == 0 {
      Complete(w.State(), w.sha);
      w.AllPresentIfFull();
      HeldIfPresent(entries, disk, s.asOpened, s.begins, s.tops, s.files);
    }
  }

  lemma NoPeersAtFirst(s: Snapshot, w: StorageWrapper, sha: seq<byte> -> seq<byte>)
    requires AtFirst(s, w, sha)
    ensures s.peers == []
  {
  }

  /** As long as no piece turns out wrong, nobody is overlooked, whatever happens. */
  lemma NobodyOverlooked(trace: seq<Snapshot>, events: seq<PeerEvent>, n: nat, backlog: nat,
                         sha: seq<byte> -> seq<byte>)
    requires Traced(trace, events, n, backlog, sha) && trace[0].peers == [] && NoneFails(trace, events, sha)
    ensures AllAttended(trace, backlog)
  {
    hide Fails, Attended, Event;
    forall i | 0 <= i < |trace| ensures Attended(trace[i], backlog) {
      NotYetOverlooked(trace, events, n, backlog, sha, i);
    }
  }

  /** Up to the first piece that turns out wrong. */
  lemma {:induction false} NotYetOverlooked(trace: seq<Snapshot>, events: seq<PeerEvent>, n: nat, backlog: nat,
                                            sha: seq<byte> -> seq<byte>, i: nat)
    requires Traced(trace, events, n, backlog, sha) && trace[0].peers == [] && i < |trace|
    requires forall j | 0 <= j < i :: !Fails(trace[j], sha, events[j])
    ensures Attended(trace[i], backlog)
  {
    hide Fails, Event;
    if i > 0 {
      NotYetOverlooked(trace, events, n, backlog, sha, i - 1);
      assert Event(trace[i - 1], trace[i - 1 + 1], n, backlog, sha, events[i - 1]);
      StillAttended(trace[i - 1], trace[i], n, backlog, sha, events[i - 1]);
    }
  }

  /** An event other than the failure of a piece. */
  lemma StillAttended(s: Snapshot, s': Snapshot, n: nat, backlog: nat, sha: seq<byte> -> seq<byte>, e: PeerEvent)
    requires Event(s, s', n, backlog, sha, e) && !Fails(s, sha, e) && Attended(s, backlog)
    ensures Attended(s', backlog)
  {
    hide AllHeed, AllHeeded, Heeded, Fails, Received, OnlyRequests, Wires, Shape, DataOf, AsksWell;
    if Can(s.peers, n, e) && !s'.store.endgame && backlog > 0 {
      match e
      case Joins =>
        Kept(s.peers, s'.peers[..|s.peers|], backlog, s.store.inactive, s'.store.inactive);
        OneMoreHeeded(s'.peers, backlog, s'.store.inactive);
      case Leaves(k) =>
        KeptWithout(s.peers, k, backlog, s.store.inactive);
        Kept(Blocks.Without(s.peers, k), s'.peers, backlog, s.store.inactive, s'.store.inactive);
      case _ =>
        Kept(s.peers, s'.peers, backlog, s.store.inactive, s'.store.inactive);
    } else if backlog == 0 {
      NoBacklog(s'.peers, s'.store.inactive);
    }
  }

  /** When a piece turns out wrong, the sender and those that choked us decide whether anybody is overlooked. */
  lemma FailureDecides(s: Snapshot, s': Snapshot, n: nat, requestSize: nat, backlog: nat, sha: seq<byte> -> seq<byte>,
                       e: PeerEvent)
    requires Orderly(s, sha, requestSize, backlog) && Event(s, s', n, backlog, sha, e) && Fails(s, sha, e)
    requires Attended(s, backlog) && !s'.store.endgame && backlog > 0
    ensures e.k < |s.peers| == |s'.peers|
    ensures Attended(s', backlog) <==> Spared(s.peers, s'.peers[e.k], backlog, s'.store.inactive, e.index)
  {
    hide AllHeeded, Received, Spared, Inv, Shape, DataOf, Failed, Wires, Gathered, AsksWell, PicksOK, Counted;
    assert ProperPeer(s.store, s.peers[e.k], backlog);
    SameNumber(s.peers, s'.peers);
    AfterFailure(s.peers, s'.peers, backlog, s.store.inactive, s'.store.inactive, e.k, e.index);
  }

  lemma SameNumber(peers: seq<Peer>, peers': seq<Peer>)
    requires Wires(peers) == Wires(peers')
    ensures |peers| == |peers'|
  {
    assert |Wires(peers)| == |peers| && |Wires(peers')| == |peers'|;
  }

  lemma AtTheEnd(d: Downloader)
    requires d.Valid()
    ensures d.storage.Valid() && d.storage.storage.Valid()
    ensures d.storage.checkHashes && d.storage.amountLeft == 0 && d.storage.g.n == |d.storage.hashes| ==>
      d.storage.finishedCalls == 1 && Assembled(d.storage, d.storage.hashes, d.storage.sha)
  {
    hide Downloader.Peers, Swarming, PiecePicker.Valid, Shape, Inv, StorageWrapper.Valid;
    d.WiredOK();
    var w := d.storage;
    if w.checkHashes && w.amountLeft == 0 {
      Complete(w.State(), w.sha);
      AllChecked(w.State(), w.sha);
    }
  }

  /** The bytes of `flat` are pieces with the given hashes, in order. */
  ghost predicate Matches(flat: seq<byte>, g: Geometry, hashes: seq<seq<byte>>, sha: seq<byte> -> seq<byte>) {
    forall i: nat | i < |hashes| :: MatchesAt(flat, g, i, hashes[i], sha)
  }

  ghost predicate MatchesAt(flat: seq<byte>, g: Geometry, i: nat, hash: seq<byte>, sha: seq<byte> -> seq<byte>) {
    0 <= g.Begin(i) <= g.End(i) <= |flat| && sha(flat[g.Begin(i)..g.End(i)]) == hash
  }

  /** The files, seen as one, are the pieces in order. */
  ghost predicate Assembled(w: StorageWrapper, hashes: seq<seq<byte>>, sha: seq<byte> -> seq<byte>)
    requires w.storage.Valid()
    reads w.storage
  {
    Matches(w.storage.Flat(), w.g, hashes, sha)
  }
}
