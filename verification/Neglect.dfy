/** Whom the program may overlook once a piece has turned out wrong, and a run in which it does. */
module Neglect {
  import opened Attention
  import opened Basics
  import opened Blocks
  import opened Choosing
  import opened PiecePickers
  import opened Pieces
  import opened Sessions
  import opened Slots
  import opened Stores
  import opened Swarms

  // ---- Only for a reason ----

  /** For which pieces each peer may be overlooked: those that turned out wrong while it choked us and did not know of
      our interest; and a peer that sent the last block of such a piece for all it had then, until it sends another
      block. */
  ghost function Blamed(s: Snapshot, n: nat, sha: seq<byte> -> Digest, e: PeerEvent, b: seq<set<nat>>): seq<set<nat>>
    requires |b| == |s.peers|
  {
    if !Can(s.peers, n, e) then b
    else match e
      case Joins => b + [{}]
      case Leaves(k) => Without(b, k)
      case Sends(k, index, begin, piece) =>
        if Fails(s, sha, e) then
          seq(|b|, j requires 0 <= j < |b| =>
            if j == k then Had(s.peers[j])
            else if s.peers[j].choked && !s.peers[j].interested then b[j] + {index} else b[j])
        else if Request(index, begin, |piece|) in s.peers[k].active then b[k := {}] else b
      case _ => b
  }

  ghost function Had(p: Peer): set<nat> {
    set h: nat | h < |p.have| && p.have[h]
  }

  /** Nobody is overlooked but for these pieces. */
  ghost predicate Excused(s: Snapshot, backlog: nat, b: seq<set<nat>>) {
    && |b| == |s.peers|
    && (s.store.endgame || backlog == 0 || forall j | 0 <= j < |b| ::
        ExcusedAt(s.peers[j], backlog, s.store.inactive, b[j]))
  }

  ghost predicate ExcusedAt(p: Peer, backlog: nat, inactive: seq<Inactive>, b: set<nat>) {
    forall h: nat | h !in b :: AnsweredTo(p, backlog, inactive, h)
  }

  ghost function Blames(trace: seq<Snapshot>, events: seq<PeerEvent>, n: nat, sha: seq<byte> -> Digest,
                        m: nat): seq<set<nat>>
    requires m < |trace| == |events| + 1
  {
    if m == 0 then []
    else
      var b := Blames(trace, events, n, sha, m - 1);
      if |b| == |trace[m - 1].peers| then Blamed(trace[m - 1], n, sha, events[m - 1], b) else b
  }

  /** In every run, whoever is overlooked before endgame is so because a piece turned out wrong. */
  lemma {:induction false} OnlyForAReason(trace: seq<Snapshot>, events: seq<PeerEvent>, n: nat, backlog: nat,
                                          sha: seq<byte> -> Digest, m: nat)
    requires Traced(trace, events, n, backlog, sha) && trace[0].peers == [] && m < |trace|
    ensures Excused(trace[m], backlog, Blames(trace, events, n, sha, m))
  {
    hide Sessions.Event, Blamed, ExcusedAt;
    if m > 0 {
      OnlyForAReason(trace, events, n, backlog, sha, m - 1);
      assert Sessions.Event(trace[m - 1], trace[m - 1 + 1], n, backlog, sha, events[m - 1]);
      StillExcused(trace[m - 1], trace[m], n, backlog, sha, events[m - 1], Blames(trace, events, n, sha, m - 1));
    }
  }

  lemma StillExcused(s: Snapshot, s': Snapshot, n: nat, backlog: nat, sha: seq<byte> -> Digest, e: PeerEvent,
                     b: seq<set<nat>>)
    requires Sessions.Event(s, s', n, backlog, sha, e) && Excused(s, backlog, b)
    ensures Excused(s', backlog, Blamed(s, n, sha, e, b))
  {
    hide AnsweredTo, Fails, Received, OnlyRequests, Wires, Shape, DataOf, ExcusedAt, Heeds, Heeded, Failed, AsksWell;
    if Can(s.peers, n, e) {
      PeersAfter(s.peers, s'.peers, n, e);
      var b' := Blamed(s, n, sha, e, b);
      if !s'.store.endgame && backlog > 0 {
        forall j | 0 <= j < |b'| ensures ExcusedAt(s'.peers[j], backlog, s'.store.inactive, b'[j]) {
          match e
          case Joins =>
            if j < |b| { ExcuseKept(s.peers[j], s'.peers[j], backlog, s.store.inactive, s'.store.inactive, b[j]); }
            else { NeedsNoExcuse(s'.peers[j], backlog, s'.store.inactive, {}); }
          case Leaves(k) =>
            var i := if j < k then j else j + 1;
            assert Without(s.peers, k)[j] == s.peers[i];
            ExcuseKept(s.peers[i], s'.peers[j], backlog, s.store.inactive, s'.store.inactive, b[i]);
          case Sends(k, index, begin, piece) =>
            if Fails(s, sha, e) {
              AfterFailing(s, s', backlog, b, k, index, j);
            } else if j == k && Request(index, begin, |piece|) in s.peers[k].active {
              NeedsNoExcuse(s'.peers[j], backlog, s'.store.inactive, {});
            } else {
              ExcuseKept(s.peers[j], s'.peers[j], backlog, s.store.inactive, s'.store.inactive, b[j]);
            }
          case _ =>
            ExcuseKept(s.peers[j], s'.peers[j], backlog, s.store.inactive, s'.store.inactive, b[j]);
        }
      }
    }
  }

  lemma PeersAfter(peers: seq<Peer>, peers': seq<Peer>, n: nat, e: PeerEvent)
    requires Can(peers, n, e) && Wires(peers') == WiresAfter(peers, n, e)
    ensures |peers'| == if e.Joins? then |peers| + 1 else if e.Leaves? then |peers| - 1 else |peers|
    ensures e.Sends? ==>
      forall j | 0 <= j < |peers| :: peers'[j].choked == peers[j].choked && peers'[j].have == peers[j].have
  {
    assert |Wires(peers')| == |peers'|;
    if e.Sends? {
      forall j | 0 <= j < |peers| ensures peers'[j].choked == peers[j].choked && peers'[j].have == peers[j].have {
        WireAt(peers, peers', j);
      }
    }
  }

  lemma ExcuseKept(p: Peer, p': Peer, backlog: nat, before: seq<Inactive>, now: seq<Inactive>, b: set<nat>)
    requires ExcusedAt(p, backlog, before, b) && Heeds(p, p', backlog, before, now, {}) && backlog > 0
    ensures ExcusedAt(p', backlog, now, b)
  {
    hide AnsweredTo;
  }

  lemma NeedsNoExcuse(p: Peer, backlog: nat, now: seq<Inactive>, b: set<nat>)
    requires Heeded(p, backlog, now)
    ensures ExcusedAt(p, backlog, now, b)
  {
    hide AnsweredTo;
  }

  lemma AfterFailing(s: Snapshot, s': Snapshot, backlog: nat, b: seq<set<nat>>, k: nat, i: nat, j: nat)
    requires Failed(s.peers, s'.peers, backlog, s.store.inactive, s'.store.inactive, k, i) && backlog > 0
    requires j < |b| == |s.peers| && ExcusedAt(s.peers[j], backlog, s.store.inactive, b[j])
    requires s'.peers[j].choked == s.peers[j].choked && s'.peers[j].have == s.peers[j].have
    ensures ExcusedAt(s'.peers[j], backlog, s'.store.inactive,
                      if j == k then Had(s.peers[j])
                      else if s.peers[j].choked && !s.peers[j].interested then b[j] + {i} else b[j])
  {
    var p, p' := s.peers[j], s'.peers[j];
    assert FailedAt(p, p', backlog, s'.store.inactive, i);
    if j != k {
      assert Heeds(p, p', backlog, s.store.inactive, s'.store.inactive, {i});
    }
  }

  // ---- A run in which somebody is overlooked ----

  // There are two pieces of two blocks each, blocks are of one byte, and no peer is asked for more than one at a time.
  // Two peers come that have piece 0; piece 1 nobody has. The first peer does not choke us any more, is asked for one
  // block of piece 0 after the other, and sends wrong bytes.

  const FIRST := Block(0, 1)
  const SECOND := Block(1, 1)
  const ASKED := Request(0, 0, 1)
  const NEXT := Request(0, 1, 1)

  function Happenings(): seq<PeerEvent> {
    [Joins, HasBits(0, [true, false]), Joins, HasBits(1, [true, false]), Unchokes(0), Sends(0, 0, 0, [9]),
     Sends(0, 0, 1, [9])]
  }

  /** Nothing is there yet. */
  ghost function Empty(hashes: seq<Digest>): Store {
    Store(Geometry(2, 2, 4), 1, hashes, true, [0, 0, 0, 0], map[], [0, 1], [Fresh, Fresh], [0, 0], [{}, {}],
          [map[], map[]], [false, false], [true, true], 4, 4, false, 0)
  }

  /** The first block of piece 0 is requested. */
  ghost function Started1(s: Store): Store {
    s.(inactive := [Started([SECOND]), Fresh], numactive := [1, 0], active := [{FIRST}, {}], amountInactive := 3)
  }

  /** Piece 0 gets the first hole, which is filled up. */
  ghost function Housed(s: Store): Store {
    s.(flat := [0xFF, 0xFF, 0, 0], places := map[0 := 0], holes := [1])
  }

  /** Its first block has come. */
  ghost function Half(s: Store): Store {
    s.(flat := [9, 0xFF, 0, 0], numactive := [0, 0], active := [{}, {}], arrived := [map[FIRST := [9]], map[]])
  }

  /** The second block is requested. */
  ghost function Started2(s: Store): Store {
    s.(inactive := [Started([]), Fresh], numactive := [1, 0], active := [{SECOND}, {}], amountInactive := 2)
  }

  /** Piece 0 has come as a whole, and is started over. */
  ghost function Restarted(s: Store): Store {
    s.(flat := [9, 9, 0, 0], inactive := [Fresh, Fresh], numactive := [0, 0], active := [{}, {}],
       arrived := [map[], map[]], amountInactive := 4)
  }

  ghost function S1(hashes: seq<Digest>): Store { Started1(Empty(hashes)) }
  ghost function S2(hashes: seq<Digest>): Store { Half(Housed(S1(hashes))) }
  ghost function S3(hashes: seq<Digest>): Store { Started2(S2(hashes)) }
  ghost function S4(hashes: seq<Digest>): Store { Restarted(S3(hashes)) }
  ghost function S5(hashes: seq<Digest>): Store { Started1(S4(hashes)) }

  lemma EmptyInv(hashes: seq<Digest>, sha: seq<byte> -> Digest)
    requires |hashes| == 2
    ensures Inv(Empty(hashes), sha) && NothingStarted(Empty(hashes))
  {
    var s := Empty(hashes);
    EmptyLaid();
    EmptyCounts(hashes);
    hide Laid, Sums;
    assert Shape(s);
    assert PieceInv(PieceOf(s, 0), sha) && PieceInv(PieceOf(s, 1), sha);
  }

  lemma EmptyLaid()
    ensures Laid(Geometry(2, 2, 4), map[], [0, 1])
  {
  }

  lemma EmptyCounts(hashes: seq<Digest>)
    requires |hashes| == 2
    ensures Shape(Empty(hashes)) && Sums(Empty(hashes))
  {
  }

  lemma TwoBlocks(s: Store)
    requires Shape(s) && s.g == Geometry(2, 2, 4) && s.requestSize == 1
    ensures All(s, 0) == [FIRST, SECOND]
  {
    assert Cut(0, 2, 1) == [Block(0, 1)] + Cut(1, 2, 1);
  }

  lemma AsksFirst(s: Store, sha: seq<byte> -> Digest)
    requires Shape(s) && s.g == Geometry(2, 2, 4) && s.requestSize == 1 && !s.endgame && s.amountInactive == 4
    requires s.inactive == [Fresh, Fresh] && s.numactive == [0, 0] && s.active == [{}, {}]
    ensures BlockRequested(s, Started1(s), sha, 0, 0, FIRST)
  {
    TwoBlocks(s);
    assert Without([FIRST, SECOND], 0) == [SECOND];
    assert s.active[0] + {FIRST} == {FIRST};
  }

  lemma AsksSecond(hashes: seq<Digest>, sha: seq<byte> -> Digest)
    requires Shape(S2(hashes))
    ensures BlockRequested(S2(hashes), S3(hashes), sha, 0, 0, SECOND)
  {
    assert Without([SECOND], 0) == [];
    assert S2(hashes).active[0] + {SECOND} == {SECOND};
  }

  lemma FirstComes(hashes: seq<Digest>, sha: seq<byte> -> Digest)
    requires Shape(S1(hashes))
    ensures BlockArrives(S1(hashes), Housed(S1(hashes)), S2(hashes), sha, 0, FIRST, [9], true)
  {
    hide Shape, PlacedAs, CanStore, Wrote, Good, Checked;
    FirstHoused(hashes);
    FirstWritten(hashes);
  }

  lemma FirstWritten(hashes: seq<Digest>)
    requires Shape(Housed(S1(hashes)))
    ensures CanStore(Housed(S1(hashes)), 0, FIRST, [9]) && Wrote(Housed(S1(hashes)), 0, FIRST, [9]) == S2(hashes)
  {
    hide Shape;
    var mid := Housed(S1(hashes));
    SameShape(mid, S2(hashes));
    assert Splice(mid.flat, 0, [9]) == [9, 0xFF, 0, 0];
    assert mid.active[0] - {FIRST} == {};
    assert mid.arrived[0][FIRST := [9]] == map[FIRST := [9]];
    assert mid.g.PieceLen(0) == 2 && mid.g.Begin(0) == 0;
    assert Wrote(mid, 0, FIRST, [9]) == S2(hashes);
  }

  lemma SameShape(s: Store, s': Store)
    requires Shape(s) && s'.g == s.g && s'.places == s.places && s'.requestSize == s.requestSize
    requires |s'.flat| == |s.flat| && s'.hashes == s.hashes && s'.have == s.have && s'.waschecked == s.waschecked
    requires |s'.inactive| == |s'.numactive| == |s'.active| == |s'.arrived| == s.g.n
    ensures Shape(s') && s'.g.Sound() && s.g.PieceLen(0) == s'.g.PieceLen(0)
  {
    hide Fits;
  }

  lemma FirstHoused(hashes: seq<Digest>)
    requires Shape(S1(hashes))
    ensures Shape(Housed(S1(hashes))) && PlacedAs(S1(hashes), Housed(S1(hashes)), 0)
  {
    var s, mid := S1(hashes), Housed(S1(hashes));
    assert s.holes[1..] == [1];
    assert [0, 0, 0, 0][..0] + [0xFF, 0xFF] + [0, 0, 0, 0][2..] == [0xFF, 0xFF, 0, 0];
    assert Filled(s.g, s.flat, s.places, 0, 0, [0xFF, 0xFF], mid.flat, mid.places);
  }

  lemma SecondComes(hashes: seq<Digest>, sha: seq<byte> -> Digest)
    requires Shape(S3(hashes)) && sha([9, 9]) != hashes[0]
    ensures BlockArrives(S3(hashes), S3(hashes), S4(hashes), sha, 0, SECOND, [9], false)
    ensures Gathered(S3(hashes), 0, SECOND)
    ensures sha(Assemble(All(S3(hashes), 0), S3(hashes).arrived[0][SECOND := [9]])) != hashes[0]
  {
    var s := S3(hashes);
    TwoBlocks(s);
    Nines(s.arrived[0][SECOND := [9]]);
    hide Assemble;
    var w := Wrote(s, 0, SECOND, [9]);
    assert [9, 0xFF, 0, 0][..1] + [9] + [9, 0xFF, 0, 0][2..] == [9, 9, 0, 0];
    assert w.active[0] == {};
    assert Data(s.g, w.flat, s.places, 0) == [9, 9];
  }

  lemma Nines(got: map<Block, seq<byte>>)
    requires FIRST in got && SECOND in got && got[FIRST] == got[SECOND] == [9]
    ensures Assemble([FIRST, SECOND], got) == [9, 9]
  {
    assert Assemble([FIRST, SECOND], got) == got[FIRST] + Assemble([SECOND], got);
    assert [SECOND][1..] == [];
    assert Assemble([SECOND], got) == got[SECOND] + Assemble([], got) == [9];
    assert [FIRST, SECOND][1..] == [SECOND];
  }

  /** The stores of the run have the invariant, and take nothing back. */
  lemma StoresOK(hashes: seq<Digest>, sha: seq<byte> -> Digest)
    requires |hashes| == 2 && sha([9, 9]) != hashes[0]
    ensures Inv(Empty(hashes), sha) && Inv(S1(hashes), sha) && Inv(S3(hashes), sha) && Inv(S5(hashes), sha)
    ensures Progress(Empty(hashes), S1(hashes))
    ensures BlockArrives(S1(hashes), Housed(S1(hashes)), S2(hashes), sha, 0, FIRST, [9], true)
    ensures Progress(S2(hashes), S3(hashes)) && Progress(S1(hashes), S3(hashes))
    ensures Shape(S2(hashes)) && Shape(S4(hashes))
    ensures BlockArrives(S3(hashes), S3(hashes), S4(hashes), sha, 0, SECOND, [9], false)
    ensures Progress(S4(hashes), S5(hashes)) && Progress(S3(hashes), S5(hashes))
  {
    hide Inv, Progress, BlockArrives, BlockRequested;
    var s0, s1, s2, s3, s4, s5 :=
      Empty(hashes), S1(hashes), S2(hashes), S3(hashes), S4(hashes), S5(hashes);
    EmptyInv(hashes, sha);
    InvShape(s0, sha);
    AsksFirst(s0, sha);
    RequestedFacts(s0, s1, sha, 0, 0, FIRST);
    FirstComes(hashes, sha);
    ArrivesFacts(s1, Housed(s1), s2, sha, 0, FIRST, [9], true);
    AsksSecond(hashes, sha);
    RequestedFacts(s2, s3, sha, 0, 0, SECOND);
    ProgressTrans(s1, s2, s3);
    SecondComes(hashes, sha);
    ArrivesFacts(s3, s3, s4, sha, 0, SECOND, [9], false);
    AsksFirst(s4, sha);
    RequestedFacts(s4, s5, sha, 0, 0, FIRST);
    ProgressTrans(s3, s4, s5);
  }

  // ---- The peers of the run ----

  ghost function Newcomer(): Peer { Peer(true, false, [], [false, false], []) }

  ghost function Interesting(): Peer { Peer(true, true, [], [true, false], [ToldInterested]) }

  /** The second peer, when no block of piece 0 can be requested any more. */
  ghost function Dropped(): Peer { Peer(true, false, [], [true, false], [ToldInterested, ToldNotInterested]) }

  ghost function Sender1(): Peer { Peer(false, true, [ASKED], [true, false], [ToldInterested, ToldRequest(ASKED)]) }

  ghost function Sender2(): Peer {
    Peer(false, true, [NEXT], [true, false], Sender1().history + [HeardPiece(ASKED)] + [ToldRequest(NEXT)])
  }

  ghost function Sender3(): Peer {
    Peer(false, true, [ASKED], [true, false], Sender2().history + [HeardPiece(NEXT)] + [ToldRequest(ASKED)])
  }

  /** The picker, when `h` peers have piece 0. Rarest pieces are chosen from the beginning. */
  ghost function Counts(h: nat, started: seq<nat>): Picks {
    Picks([Some(h), Some(0)], 0, 0, [0, 1], started, [])
  }

  ghost function Course(hashes: seq<Digest>): seq<Snapshot> {
    [Snapshot(Empty(hashes), [], Counts(0, [])),
     Snapshot(Empty(hashes), [Newcomer()], Counts(0, [])),
     Snapshot(Empty(hashes), [Interesting()], Counts(1, [])),
     Snapshot(Empty(hashes), [Interesting(), Newcomer()], Counts(1, [])),
     Snapshot(Empty(hashes), [Interesting(), Interesting()], Counts(2, [])),
     Snapshot(S1(hashes), [Sender1(), Interesting()], Counts(2, [0])),
     Snapshot(S3(hashes), [Sender2(), Dropped()], Counts(2, [0])),
     Snapshot(S5(hashes), [Sender3(), Dropped()], Counts(2, [0]))]
  }

  /** The number of peers with piece 0 is counted. */
  lemma CountsOK(peers: seq<Peer>, started: seq<nat>)
    requires |peers| <= 2 && (started == [] || started == [0])
    requires forall j | 0 <= j < |peers| :: |peers[j].have| == 2 && !peers[j].have[1]
    ensures Counted(peers, Counts(With0(peers), started).num, [false, false]) && PicksOK(Counts(With0(peers), started))
  {
    var num := Counts(With0(peers), started).num;
    assert Completed(num, 2) == Completed(num, 1) == Completed(num, 0);
    assert Holders(peers, 0, 0) == Holders(peers, 0, 1) == 0;
    if |peers| > 0 { assert Holders(peers, 1, 1) == 0; }
    if |peers| > 1 { assert Holders(peers, 2, 1) == 0; }
    assert num[0] == Some(Holders(peers, |peers|, 0)) && num[1] == Some(Holders(peers, |peers|, 1));
  }

  ghost function With0(peers: seq<Peer>): nat {
    if peers == [] then 0
    else if |peers| == 1 then Has0(peers[0])
    else Has0(peers[0]) + Has0(peers[1])
  }

  ghost function Has0(p: Peer): nat {
    if p.have != [] && p.have[0] then 1 else 0
  }

  /** Nobody is asked for anything. */
  lemma IdleOrderly(hashes: seq<Digest>, sha: seq<byte> -> Digest, peers: seq<Peer>)
    requires |hashes| == 2
    requires |peers| <= 2 && forall j | 0 <= j < |peers| :: peers[j] == Newcomer() || peers[j] == Interesting()
    ensures Orderly(Snapshot(Empty(hashes), peers, Counts(With0(peers), [])), sha, 1, 1)
  {
    EmptyInv(hashes, sha);
    CountsOK(peers, []);
    hide Inv, Counted, PicksOK;
    forall j | 0 <= j < |peers| && peers[j].interested ensures Offers(peers[j], Empty(hashes).inactive) {
      assert OffersPiece(peers[j], Empty(hashes).inactive, 0);
    }
    assert forall i: nat, r: Request :: !Holds(peers, i, r);
    assert forall r: Request :: !Outstanding(Empty(hashes).active, r);
  }

  /** The first peer is asked for the one outstanding block `r`; the second one chokes us. */
  lemma AskingOrderly(s: Store, sha: seq<byte> -> Digest, p: Peer, other: Peer, r: Request)
    requires Inv(s, sha) && s.g == Geometry(2, 2, 4) && s.requestSize == 1 && !s.endgame && s.have == [false, false]
    requires (r == ASKED || r == NEXT) && s.active == [{Block(r.begin, 1)}, {}]
    requires p.active == [r] && !p.choked && p.interested && p.have == [true, false]
    requires other.active == [] && other.choked && other.have == [true, false]
    requires other.interested ==> Offers(other, s.inactive)
    ensures Orderly(Snapshot(s, [p, other], Counts(2, [0])), sha, 1, 1)
  {
    InvShape(s, sha);
    TwoBlocks(s);
    CountsOK([p, other], [0]);
    hide Inv, Counted, PicksOK;
    assert Block(r.begin, 1) in All(s, 0);
    forall i: nat, q: Request ensures Holds([p, other], i, q) <==> i == 0 && q == r {
    }
    forall q: Request ensures Outstanding(s.active, q) <==> q == r {
    }
    assert Holds([p, other], 0, r);
  }

  lemma CourseOrderly(hashes: seq<Digest>, sha: seq<byte> -> Digest)
    requires |hashes| == 2 && sha([9, 9]) != hashes[0]
    ensures AllOrderly(Course(hashes), sha, 1, 1)
  {
    hide Inv, Orderly, Progress, BlockArrives;
    StoresOK(hashes, sha);
    IdleOrderly(hashes, sha, []);
    IdleOrderly(hashes, sha, [Newcomer()]);
    IdleOrderly(hashes, sha, [Interesting()]);
    IdleOrderly(hashes, sha, [Interesting(), Newcomer()]);
    IdleOrderly(hashes, sha, [Interesting(), Interesting()]);
    assert OffersPiece(Interesting(), S1(hashes).inactive, 0);
    AskingOrderly(S1(hashes), sha, Sender1(), Interesting(), ASKED);
    AskingOrderly(S3(hashes), sha, Sender2(), Dropped(), NEXT);
    AskingOrderly(S5(hashes), sha, Sender3(), Dropped(), ASKED);
  }

  // ---- The events of the run ----

  lemma HeededIf(p: Peer, now: seq<Inactive>)
    requires |p.have| == |now| == 2 && !p.have[1]
    requires p.have[0] && HasRequests(now[0]) ==> if p.choked then p.interested else |p.active| >= 1
    ensures Heeded(p, 1, now)
  {
  }

  lemma AllHeedIf(peers: seq<Peer>, peers': seq<Peer>, before: seq<Inactive>, now: seq<Inactive>)
    requires |peers'| == |peers| && forall j | 0 <= j < |peers| :: Heeded(peers'[j], 1, now)
    ensures AllHeed(peers, peers', 1, before, now, {})
  {
    hide AnsweredTo;
  }

  lemma Joining(hashes: seq<Digest>, sha: seq<byte> -> Digest, peers: seq<Peer>, picks: Picks)
    requires |hashes| == 2 && |peers| <= 1
    ensures Sessions.Event(Snapshot(Empty(hashes), peers, picks), Snapshot(Empty(hashes), peers + [Newcomer()], picks),
                           2, 1, sha, Joins)
  {
    hide Shape, DataOf;
    var peers' := peers + [Newcomer()];
    EmptyInv(hashes, sha);
    InvShape(Empty(hashes), sha);
    ProgressRefl(Empty(hashes));
    HeededIf(Newcomer(), Empty(hashes).inactive);
    assert peers'[..|peers|] == peers;
    NothingHappened(peers, 1, Empty(hashes).inactive, {});
    assert [false, false] == seq(2, _ => false);
    var w := WiresAfter(peers, 2, Joins);
    forall j | 0 <= j < |peers'| ensures (peers'[j].choked, peers'[j].have) == w[j] {
      if j < |peers| { assert peers'[j] == peers[j] && w[j] == Wires(peers)[j]; }
    }
    WiresAre(peers', w);
  }

  lemma Telling(hashes: seq<Digest>, sha: seq<byte> -> Digest, peers: seq<Peer>, k: nat)
    requires |hashes| == 2 && k < |peers| && peers[k] == Newcomer()
    requires forall j | 0 <= j < |peers| && j != k :: peers[j] == Interesting()
    ensures Sessions.Event(Snapshot(Empty(hashes), peers, Counts(|peers| - 1, [])),
                           Snapshot(Empty(hashes), peers[k := Interesting()], Counts(|peers|, [])),
                           2, 1, sha, HasBits(k, [true, false]))
  {
    hide Shape, DataOf;
    var peers' := peers[k := Interesting()];
    EmptyInv(hashes, sha);
    InvShape(Empty(hashes), sha);
    ProgressRefl(Empty(hashes));
    HeededIf(Interesting(), Empty(hashes).inactive);
    AllHeedIf(peers, peers', Empty(hashes).inactive, Empty(hashes).inactive);
    WiresAre(peers', WiresAfter(peers, 2, HasBits(k, [true, false])));
  }

  /** A block of piece 0 is asked of the first peer, which has no other piece. */
  lemma AsksFor0(v: Scene, s': Store, peers: seq<Peer>, p: Peer, b: Block, sha: seq<byte> -> Digest, t: Terms)
    requires v.lines == Lines(peers) && |peers| == 2 && peers[0].have == [true, false] && !peers[0].choked
    requires peers[0].active == [] && !v.store.endgame && BlockRequested(v.store, s', sha, 0, 0, b)
    requires v.picks == Counts(2, []) || v.picks == Counts(2, [0])
    requires LineOf(p) == Line(false, [true, false], [Request(0, b.begin, b.length)])
    requires t.backlog == 1 && (t == Terms(Some(0), None, 1) || t == Terms(None, Some([0]), 1))
    ensures AskedRightly(v, Scene(s', Counts(2, [0]), Lines([p, peers[1]])), t)
  {
    assert forall i | WantedFrom(v, 0, i) :: i == 0;
    assert WantedFrom(v, 0, 0);
    assert StartedFor(v, 0) == v.picks.started by { assert !peers[0].have[1]; }
    assert v.picks.started == [0] ==> StartedWanted(v, 0, 0);
    assert [0][0] == 0 as nat;
    assert Right(v, 0, 0, t.indices);
    hide Right, BlockRequested, Led, Stands;
    TurnMade(v, s', Counts(2, [0]), peers, p, 0, 0, 0, b, sha, t);
    assert peers[0 := p] == [p, peers[1]];
    NothingAsked(Scene(s', Counts(2, [0]), Lines([p, peers[1]])), t);
  }

  lemma Unchoking(hashes: seq<Digest>, sha: seq<byte> -> Digest)
    requires |hashes| == 2 && sha([9, 9]) != hashes[0]
    ensures Sessions.Event(Course(hashes)[4], Course(hashes)[5], 2, 1, sha, Unchokes(0))
  {
    hide Inv, Progress, BlockArrives, AsksWell, Shape;
    var peers, peers' := [Interesting(), Interesting()], [Sender1(), Interesting()];
    StoresOK(hashes, sha);
    HeededIf(Sender1(), S1(hashes).inactive);
    HeededIf(Interesting(), S1(hashes).inactive);
    AllHeedIf(peers, peers', Empty(hashes).inactive, S1(hashes).inactive);
    WiresAre(peers', WiresAfter(peers, 2, Unchokes(0)));
    UnchokingAsks(hashes, sha);
  }

  lemma UnchokingAsks(hashes: seq<Digest>, sha: seq<byte> -> Digest)
    requires |hashes| == 2
    ensures AsksWell(Course(hashes)[4], Course(hashes)[5], 2, 1, sha, Unchokes(0))
  {
    hide AskedRightly, BlockRequested, Inv;
    EmptyInv(hashes, sha);
    InvShape(Empty(hashes), sha);
    AsksFirst(Empty(hashes), sha);
    var v, peers := OnceUnchoked(SceneOf(Course(hashes)[4]), 0), [Interesting().(choked := false), Interesting()];
    assert v.lines == Lines(peers);
    AsksFor0(v, S1(hashes), peers, Sender1(), FIRST, sha, Terms(Some(0), None, 1));
  }

  lemma SendingFirst(hashes: seq<Digest>, sha: seq<byte> -> Digest)
    requires |hashes| == 2 && sha([9, 9]) != hashes[0]
    ensures !Fails(Course(hashes)[5], sha, Sends(0, 0, 0, [9]))
    ensures Sessions.Event(Course(hashes)[5], Course(hashes)[6], 2, 1, sha, Sends(0, 0, 0, [9]))
  {
    hide Inv, Progress, BlockArrives, AsksWell, Shape;
    var peers, peers' := [Sender1(), Interesting()], [Sender2(), Dropped()];
    var e := Sends(0, 0, 0, [9]);
    StoresOK(hashes, sha);
    FailsIf(Course(hashes)[5], Housed(S1(hashes)), S2(hashes), sha, 0, 0, 0, [9], true);
    HeededIf(Sender2(), S3(hashes).inactive);
    HeededIf(Dropped(), S3(hashes).inactive);
    AllHeedIf(peers, peers', S1(hashes).inactive, S3(hashes).inactive);
    WiresAre(peers', WiresAfter(peers, 2, e));
    assert Received(S1(hashes), S3(hashes), sha, 0, 0, [9]);
    SendingFirstAsks(hashes, sha);
  }

  lemma SendingFirstAsks(hashes: seq<Digest>, sha: seq<byte> -> Digest)
    requires BlockArrives(S1(hashes), Housed(S1(hashes)), S2(hashes), sha, 0, FIRST, [9], true)
    requires Shape(S2(hashes))
    ensures AsksWell(Course(hashes)[5], Course(hashes)[6], 2, 1, sha, Sends(0, 0, 0, [9]))
  {
    hide AskedRightly, BlockRequested, BlockArrives, Shape;
    AsksSecond(hashes, sha);
    var v := OnceComplete(OnceTaken(SceneOf(Course(hashes)[5]), 0, ASKED, S2(hashes)), 0);
    var peers := [Sender1().(active := []), Interesting()];
    assert v.lines == Lines(peers) by { assert Removed([ASKED], ASKED) == []; }
    AsksFor0(v, S3(hashes), peers, Sender2(), SECOND, sha, Terms(Some(0), None, 1));
    assert Lines([Sender2(), peers[1]]) == Lines([Sender2(), Dropped()]);
  }

  lemma SendingSecond(hashes: seq<Digest>, sha: seq<byte> -> Digest)
    requires |hashes| == 2 && sha([9, 9]) != hashes[0]
    ensures Fails(Course(hashes)[6], sha, Sends(0, 0, 1, [9]))
    ensures Sessions.Event(Course(hashes)[6], Course(hashes)[7], 2, 1, sha, Sends(0, 0, 1, [9]))
  {
    hide Inv, Progress, BlockArrives, AsksWell, Shape;
    var peers, peers' := [Sender2(), Dropped()], [Sender3(), Dropped()];
    var e := Sends(0, 0, 1, [9]);
    StoresOK(hashes, sha);
    FailsIf(Course(hashes)[6], S3(hashes), S4(hashes), sha, 0, 0, 1, [9], false);
    HeededIf(Sender3(), S5(hashes).inactive);
    assert Failed(peers, peers', 1, S3(hashes).inactive, S5(hashes).inactive, 0, 0) by {
      assert Heeds(Dropped(), Dropped(), 1, S3(hashes).inactive, S5(hashes).inactive, {0});
    }
    WiresAre(peers', WiresAfter(peers, 2, e));
    assert Received(S3(hashes), S5(hashes), sha, 0, 1, [9]);
    SendingSecondAsks(hashes, sha);
  }

  lemma SendingSecondAsks(hashes: seq<Digest>, sha: seq<byte> -> Digest)
    requires BlockArrives(S3(hashes), S3(hashes), S4(hashes), sha, 0, SECOND, [9], false)
    requires Shape(S4(hashes))
    ensures AsksWell(Course(hashes)[6], Course(hashes)[7], 2, 1, sha, Sends(0, 0, 1, [9]))
  {
    hide AskedRightly, BlockRequested, BlockArrives, Shape;
    AsksFirst(S4(hashes), sha);
    var v := OnceComplete(OnceTaken(SceneOf(Course(hashes)[6]), 0, NEXT, S4(hashes)), 0);
    var peers := [Sender2().(active := []), Dropped()];
    assert v.lines == Lines(peers) by { assert Removed([NEXT], NEXT) == []; }
    AsksFor0(v, S5(hashes), peers, Sender3(), FIRST, sha, Terms(None, Some([0]), 1));
  }

  lemma NoSends(s: Snapshot, sha: seq<byte> -> Digest, e: PeerEvent)
    requires !e.Sends?
    ensures !Fails(s, sha, e)
  {
  }

  /** A run after which somebody is overlooked. Nobody is before. When the second block is requested, nothing is left
      to ask the second peer for, and it loses our interest. Then the piece turns out wrong; both its blocks are
      wanted again, but the second peer is told nothing. */
  lemma FailureOverlooks(hashes: seq<Digest>, sha: seq<byte> -> Digest)
    requires |hashes| == 2 && sha([9, 9]) != hashes[0]
    ensures Traced(Course(hashes), Happenings(), 2, 1, sha) && AllOrderly(Course(hashes), sha, 1, 1)
    ensures Course(hashes)[0].peers == [] && NothingStarted(Course(hashes)[0].store)
    ensures (forall i | 0 <= i < 7 :: Attended(Course(hashes)[i], 1)) && Fails(Course(hashes)[6], sha, Happenings()[6])
    ensures !Course(hashes)[7].store.endgame && !Attended(Course(hashes)[7], 1)
  {
    hide Orderly, Fails, Sessions.Event, AllOrderly;
    CourseOrderly(hashes, sha);
    Joining(hashes, sha, [], Counts(0, []));
    Telling(hashes, sha, [Newcomer()], 0);
    Joining(hashes, sha, [Interesting()], Counts(1, []));
    Telling(hashes, sha, [Interesting(), Newcomer()], 1);
    Unchoking(hashes, sha);
    SendingFirst(hashes, sha);
    SendingSecond(hashes, sha);
    var run := Course(hashes);
    assert [] + [Newcomer()] == [Newcomer()] && [Interesting()] + [Newcomer()] == [Interesting(), Newcomer()];
    assert [Newcomer()][0 := Interesting()] == [Interesting()];
    assert [Interesting(), Newcomer()][1 := Interesting()] == [Interesting(), Interesting()];
    forall i | 0 <= i < 7 ensures Sessions.Event(run[i], run[i + 1], 2, 1, sha, Happenings()[i]) {
      assert i == 0 || i == 1 || i == 2 || i == 3 || i == 4 || i == 5 || i == 6;
    }
    NoSends(run[0], sha, Joins); NoSends(run[1], sha, Happenings()[1]); NoSends(run[2], sha, Joins);
    NoSends(run[3], sha, Happenings()[3]); NoSends(run[4], sha, Happenings()[4]);
    forall i | 0 <= i < 7 ensures Attended(run[i], 1) {
      NotYetOverlooked(run, Happenings(), 2, 1, sha, i);
    }
    assert OffersPiece(Dropped(), S5(hashes).inactive, 0) && !AnsweredTo(Dropped(), 1, S5(hashes).inactive, 0);
    assert run[7].peers[1] == Dropped() && !Heeded(Dropped(), 1, S5(hashes).inactive);
  }
}
