/** Which peer was asked for which block, as one value. */
module Swarms {
  import opened Basics
  import opened Blocks

  datatype Request = Request(index: nat, begin: nat, length: nat)

  /** What happened on one connection that concerns requests. */
  datatype Message =
    | ToldInterested
    | ToldNotInterested
    | ToldRequest(r: Request)
    | ToldCancel(r: Request)
    | HeardChoke
    | HeardPiece(r: Request)

  datatype Peer = Peer(choked: bool, interested: bool, active: seq<Request>, have: seq<bool>, history: seq<Message>)

  // ---- The other side's view ----

  /** The requests that the peer has reason to serve: those sent and neither cancelled, answered nor choked away. */
  ghost function Pending(h: seq<Message>): seq<Request> {
    if h == [] then [] else Heard(Pending(h[..|h| - 1]), h[|h| - 1])
  }

  ghost function Heard(before: seq<Request>, e: Message): seq<Request> {
    match e
    case ToldRequest(r) => before + [r]
    case ToldCancel(r) => Removed(before, r)
    case HeardPiece(r) => Removed(before, r)
    case HeardChoke => []
    case ToldInterested => before
    case ToldNotInterested => before
  }

  /** Whether the peer was last told that we are interested. */
  ghost predicate Announced(h: seq<Message>) {
    if h == [] then false
    else if h[|h| - 1] == ToldInterested then true
    else if h[|h| - 1] == ToldNotInterested then false
    else Announced(h[..|h| - 1])
  }

  lemma Told(h: seq<Message>, e: Message)
    ensures Announced(h + [e])
         == if e == ToldInterested then true else if e == ToldNotInterested then false else Announced(h)
    ensures Pending(h + [e]) == Heard(Pending(h), e)
  {
    assert (h + [e])[..|h|] == h;
  }

  function Sends(rs: seq<Request>): (e: seq<Message>)
    ensures |e| == |rs|
  {
    if rs == [] then [] else Sends(rs[..|rs| - 1]) + [ToldRequest(rs[|rs| - 1])]
  }

  lemma {:induction false} ToldAll(h: seq<Message>, rs: seq<Request>)
    ensures Announced(h + Sends(rs)) == Announced(h) && Pending(h + Sends(rs)) == Pending(h) + rs
  {
    if rs == [] {
      assert h + Sends(rs) == h;
    } else {
      var front, last := rs[..|rs| - 1], rs[|rs| - 1];
      ToldAll(h, front);
      Told(h + Sends(front), ToldRequest(last));
      assert h + Sends(rs) == (h + Sends(front)) + [ToldRequest(last)];
      assert Pending(h) + rs == (Pending(h) + front) + [last];
    }
  }

  // ---- One peer ----

  /** A peer is asked for at most `backlog` blocks, each once, and only of pieces it has; only while it does not choke
      us and knows we are interested. Both sides agree on what is asked for. */
  ghost predicate PeerOK(p: Peer, n: nat, backlog: nat) {
    && |p.have| == n
    && NoDup(p.active)
    && |p.active| <= backlog
    && (p.choked ==> p.active == [])
    && (p.active != [] ==> p.interested)
    && (forall r | r in p.active :: r.index < n && p.have[r.index])
    && Pending(p.history) == p.active
    && Announced(p.history) == p.interested
  }

  lemma NoDupAppend<T>(a: seq<T>, b: seq<T>)
    requires NoDup(a) && NoDup(b) && forall x | x in a :: x !in b
    ensures NoDup(a + b)
  {
    var c := a + b;
    forall i, j | 0 <= i < j < |c| ensures c[i] != c[j] {
      if i < |a| <= j { assert c[i] in a && c[j] in b; }
    }
  }

  lemma PeerHave(p: Peer, n: nat, backlog: nat)
    requires PeerOK(p, n, backlog)
    ensures |p.have| == n && |p.active| <= backlog && (p.choked ==> p.active == []) && (p.active != [] ==> p.interested)
  {
  }

  lemma LoseInterest(p: Peer, n: nat, backlog: nat)
    requires PeerOK(p, n, backlog) && p.active == []
    ensures PeerOK(p.(interested := false, history := p.history + [ToldNotInterested]), n, backlog)
  {
    Told(p.history, ToldNotInterested);
  }

  lemma ShowInterest(p: Peer, n: nat, backlog: nat)
    requires PeerOK(p, n, backlog)
    ensures PeerOK(p.(interested := true, history := p.history + [ToldInterested]), n, backlog)
  {
    Told(p.history, ToldInterested);
  }

  /** Asking for more blocks. */
  lemma Ask(p: Peer, n: nat, backlog: nat, want: seq<Request>)
    requires PeerOK(p, n, backlog) && !p.choked && (want != [] ==> p.interested) && |p.active| + |want| <= backlog
    requires NoDup(want)
    requires forall r | r in want :: r.index < n && p.have[r.index] && r !in p.active
    ensures PeerOK(p.(active := p.active + want, history := p.history + Sends(want)), n, backlog)
  {
    ToldAll(p.history, want);
    NoDupAppend(p.active, want);
  }

  /** The peer chokes us: it forgets what it was asked for, and so do we. */
  lemma Choke(p: Peer, n: nat, backlog: nat)
    requires PeerOK(p, n, backlog)
    ensures PeerOK(p.(choked := true, active := [], history := p.history + [HeardChoke]), n, backlog)
  {
    Told(p.history, HeardChoke);
  }

  /** A block is no longer asked for: it arrived, or was cancelled. */
  lemma Settle(p: Peer, n: nat, backlog: nat, r: Request, e: Message)
    requires PeerOK(p, n, backlog) && r in p.active && (e == HeardPiece(r) || e == ToldCancel(r))
    ensures PeerOK(p.(active := Removed(p.active, r), history := p.history + [e]), n, backlog)
  {
    Told(p.history, e);
    RemovedFacts(p.active, r);
  }

  lemma RemovedFrom(p: Peer, n: nat, backlog: nat, r: Request)
    requires PeerOK(p, n, backlog) && r in p.active
    ensures r !in Removed(p.active, r) && !p.choked
  {
    RemovedFacts(p.active, r);
  }

  lemma Unchoke(p: Peer, n: nat, backlog: nat)
    requires PeerOK(p, n, backlog)
    ensures PeerOK(p.(choked := false), n, backlog)
  {
  }

  /** The peer announces a piece. */
  lemma Announce(p: Peer, n: nat, backlog: nat, i: nat)
    requires PeerOK(p, n, backlog) && i < n
    ensures PeerOK(p.(have := p.have[i := true]), n, backlog)
  {
  }

  // ---- All peers ----

  /** `active` is the storage's record of outstanding blocks. */
  ghost predicate Outstanding(active: seq<set<Block>>, r: Request) {
    r.index < |active| && Block(r.begin, r.length) in active[r.index]
  }

  ghost predicate Holds(peers: seq<Peer>, i: nat, r: Request) {
    i < |peers| && r in peers[i].active
  }

  ghost predicate Held(peers: seq<Peer>, r: Request) {
    exists i: nat :: Holds(peers, i, r)
  }

  /** Before endgame: every outstanding block is asked of exactly one peer, and no other block is. */
  ghost predicate Exclusive(peers: seq<Peer>, active: seq<set<Block>>) {
    && (forall i: nat, r: Request | Holds(peers, i, r) :: Outstanding(active, r))
    && (forall i: nat, j: nat, r: Request | Holds(peers, i, r) && Holds(peers, j, r) :: i == j)
    && (forall r: Request | Outstanding(active, r) :: Held(peers, r))
  }

  /** In endgame: `all` lists the outstanding blocks, each once, and peers are asked for nothing else. */
  ghost predicate Covered(peers: seq<Peer>, active: seq<set<Block>>, all: seq<Request>) {
    && NoDup(all)
    && (forall r: Request :: r in all <==> Outstanding(active, r))
    && (forall i: nat, r: Request | Holds(peers, i, r) :: r in all)
  }

  ghost predicate Shared(peers: seq<Peer>, active: seq<set<Block>>, all: seq<Request>, endgame: bool) {
    if endgame then Covered(peers, active, all) else Exclusive(peers, active)
  }

  ghost predicate PeersOK(peers: seq<Peer>, n: nat, backlog: nat) {
    forall i | 0 <= i < |peers| :: PeerOK(peers[i], n, backlog)
  }

  /** How many of the first `k` peers have piece `i`. */
  ghost function Holders(peers: seq<Peer>, k: nat, i: nat): nat
    requires k <= |peers|
  {
    if k == 0 then 0
    else Holders(peers, k - 1, i) + if i < |peers[k - 1].have| && peers[k - 1].have[i] then 1 else 0
  }

  /** The picker's counts: None for complete pieces, the number of holders for the others. */
  ghost predicate Counted(peers: seq<Peer>, num: seq<Option<nat>>, have: seq<bool>) {
    && |num| == |have|
    && forall i | 0 <= i < |num| :: num[i] == if have[i] then None else Some(Holders(peers, |peers|, i))
  }

  /** Who chokes us, and who has what. */
  ghost function Wires(peers: seq<Peer>): seq<(bool, seq<bool>)> {
    seq(|peers|, i requires 0 <= i < |peers| => (peers[i].choked, peers[i].have))
  }

  lemma SameWire(peers: seq<Peer>, k: nat, p: Peer)
    requires k < |peers| && p.choked == peers[k].choked && p.have == peers[k].have
    ensures Wires(peers[k := p]) == Wires(peers)
  {
  }

  lemma WireAt(peers: seq<Peer>, peers': seq<Peer>, k: nat)
    requires Wires(peers') == Wires(peers) && k < |peers|
    ensures |peers'| == |peers| && peers'[k].choked == peers[k].choked && peers'[k].have == peers[k].have
  {
    assert Wires(peers')[k] == Wires(peers)[k];
  }

  // ---- Steps ----

  function Take(active: seq<set<Block>>, r: Request): seq<set<Block>>
    requires r.index < |active|
  {
    active[r.index := active[r.index] + {Block(r.begin, r.length)}]
  }

  function Drop(active: seq<set<Block>>, r: Request): seq<set<Block>>
    requires r.index < |active|
  {
    active[r.index := active[r.index] - {Block(r.begin, r.length)}]
  }

  lemma OutstandingTake(active: seq<set<Block>>, r: Request)
    requires r.index < |active|
    ensures forall q: Request :: Outstanding(Take(active, r), q) <==> Outstanding(active, q) || q == r
  {
  }

  lemma OutstandingDrop(active: seq<set<Block>>, r: Request)
    requires r.index < |active|
    ensures forall q: Request :: Outstanding(Drop(active, r), q) <==> Outstanding(active, q) && q != r
  {
  }

  /** A new outstanding block is asked of peer `k`. */
  lemma TakeExclusive(peers: seq<Peer>, active: seq<set<Block>>, k: nat, r: Request, p: Peer)
    requires Exclusive(peers, active) && k < |peers| && r.index < |active| && !Outstanding(active, r)
    requires p.active == peers[k].active + [r]
    ensures Exclusive(peers[k := p], Take(active, r))
  {
    hide Take;
    OutstandingTake(active, r);
    var peers' := peers[k := p];
    forall i: nat, q: Request ensures Holds(peers', i, q) <==> Holds(peers, i, q) || (i == k && q == r) {
    }
    forall q: Request | Outstanding(Take(active, r), q) ensures Held(peers', q) {
      if q == r {
        assert Holds(peers', k, r);
      } else {
        var i: nat :| Holds(peers, i, q);
        assert Holds(peers', i, q);
      }
    }
  }

  /** A block that peer `k` was asked for is not outstanding any more. */
  lemma DropExclusive(peers: seq<Peer>, active: seq<set<Block>>, k: nat, r: Request, p: Peer)
    requires Exclusive(peers, active) && k < |peers| && r in peers[k].active
    requires forall q: Request :: q in p.active <==> q in peers[k].active && q != r
    ensures r.index < |active| && Exclusive(peers[k := p], Drop(active, r))
  {
    hide Drop;
    assert Holds(peers, k, r);
    OutstandingDrop(active, r);
    var peers' := peers[k := p];
    forall i: nat, q: Request ensures Holds(peers', i, q) <==> Holds(peers, i, q) && !(i == k && q == r) {
    }
    forall q: Request | Outstanding(Drop(active, r), q) ensures Held(peers', q) {
      var i: nat :| Holds(peers, i, q);
      assert Holds(peers', i, q);
    }
  }

  /** Peers may change in everything but what they are asked for. */
  lemma SameRequests(peers: seq<Peer>, peers': seq<Peer>, active: seq<set<Block>>, all: seq<Request>, endgame: bool)
    requires |peers'| == |peers| && forall i | 0 <= i < |peers| :: peers'[i].active == peers[i].active
    requires Shared(peers, active, all, endgame)
    ensures Shared(peers', active, all, endgame)
  {
    forall i: nat, r: Request ensures Holds(peers', i, r) <==> Holds(peers, i, r) {
    }
    if !endgame {
      forall r: Request | Outstanding(active, r) ensures Held(peers', r) {
        var i: nat :| Holds(peers, i, r);
        assert Holds(peers', i, r);
      }
    }
  }

  /** A peer that is asked for nothing may come or go. */
  lemma IdleExclusive(peers: seq<Peer>, active: seq<set<Block>>, p: Peer)
    requires p.active == []
    ensures Exclusive(peers + [p], active) <==> Exclusive(peers, active)
  {
    var peers' := peers + [p];
    forall i: nat, r: Request ensures Holds(peers', i, r) <==> Holds(peers, i, r) {
    }
    forall r: Request ensures Held(peers', r) <==> Held(peers, r) {
      if i: nat :| Holds(peers', i, r) { assert Holds(peers, i, r); }
      if i: nat :| Holds(peers, i, r) { assert Holds(peers', i, r); }
    }
  }

  // ---- Endgame ----

  /** In endgame a peer may be asked for anything that is outstanding. */
  lemma CoveredUpdate(peers: seq<Peer>, active: seq<set<Block>>, all: seq<Request>, k: nat, p: Peer)
    requires Covered(peers, active, all) && k < |peers| && forall r | r in p.active :: r in all
    ensures Covered(peers[k := p], active, all)
  {
    var peers' := peers[k := p];
    forall i: nat, r: Request | Holds(peers', i, r) ensures r in all {
      if i != k { assert Holds(peers, i, r); }
    }
  }

  /** The blocks of `all` that a peer has and is not asked for yet. */
  function Wanted(all: seq<Request>, have: seq<bool>, active: seq<Request>): (w: seq<Request>)
    requires forall r | r in all :: r.index < |have|
    ensures forall r :: r in w <==> r in all && have[r.index] && r !in active
    ensures NoDup(all) ==> NoDup(w)
  {
    if all == [] then []
    else
      var w := Wanted(all[..|all| - 1], have, active);
      var r := all[|all| - 1];
      assert all == all[..|all| - 1] + [r];
      if have[r.index] && r !in active then w + [r] else w
  }

  // ---- The switch to endgame ----

  ghost function AllActive(peers: seq<Peer>, k: nat): seq<Request>
    requires k <= |peers|
  {
    if k == 0 then [] else AllActive(peers, k - 1) + peers[k - 1].active
  }

  lemma {:induction false} AllActiveFacts(peers: seq<Peer>, active: seq<set<Block>>, k: nat)
    requires Exclusive(peers, active) && k <= |peers| && forall i | 0 <= i < |peers| :: NoDup(peers[i].active)
    ensures NoDup(AllActive(peers, k))
    ensures forall r: Request :: r in AllActive(peers, k) <==> exists i: nat :: i < k && Holds(peers, i, r)
  {
    if k > 0 {
      AllActiveFacts(peers, active, k - 1);
      var before := AllActive(peers, k - 1);
      forall r: Request | r in before ensures r !in peers[k - 1].active {
        var last: nat, i: nat :| last == k - 1 && i < last && Holds(peers, i, r);
        assert Holds(peers, last, r) <==> r in peers[last].active;
      }
      NoDupAppend(before, peers[k - 1].active);
      forall r: Request ensures r in AllActive(peers, k) <==> exists i: nat :: i < k && Holds(peers, i, r) {
        if r in peers[k - 1].active { assert Holds(peers, k - 1, r); }
        if r in before {
          var i: nat :| i < k - 1 && Holds(peers, i, r);
          assert i < k && Holds(peers, i, r);
        }
      }
    }
  }

  /** When endgame starts, the outstanding blocks are those the peers were asked for. */
  lemma StartEndgame(peers: seq<Peer>, active: seq<set<Block>>)
    requires Exclusive(peers, active) && forall i | 0 <= i < |peers| :: NoDup(peers[i].active)
    ensures Covered(peers, active, AllActive(peers, |peers|))
  {
    AllActiveFacts(peers, active, |peers|);
    forall i: nat, r: Request | Holds(peers, i, r) ensures r in AllActive(peers, |peers|) {
    }
    forall r: Request | Outstanding(active, r) ensures r in AllActive(peers, |peers|) {
      var i: nat :| Holds(peers, i, r);
      assert i < |peers| && Holds(peers, i, r);
    }
  }

  // ---- Counting holders ----

  lemma {:induction false} HoldersUpdate(peers: seq<Peer>, k: nat, i: nat, j: nat, p: Peer)
    requires k <= |peers| && j < |peers|
    ensures Holders(peers[j := p], k, i) == Holders(peers, k, i) + if j < k then
      (if i < |p.have| && p.have[i] then 1 else 0) - (if i < |peers[j].have| && peers[j].have[i] then 1 else 0) else 0
  {
    if k > 0 {
      HoldersUpdate(peers, k - 1, i, j, p);
    }
  }

  lemma {:induction false} HoldersSame(peers: seq<Peer>, peers': seq<Peer>, k: nat, i: nat)
    requires k <= |peers| && k <= |peers'| && forall j | 0 <= j < k :: peers'[j].have == peers[j].have
    ensures Holders(peers', k, i) == Holders(peers, k, i) <= k
  {
    if k > 0 {
      HoldersSame(peers, peers', k - 1, i);
    }
  }

  lemma {:induction false} HoldersWithout(peers: seq<Peer>, k: nat, j: nat, i: nat)
    requires j < k <= |peers|
    ensures Holders(Without(peers, j), k - 1, i)
         == Holders(peers, k, i) - if i < |peers[j].have| && peers[j].have[i] then 1 else 0
  {
    if j == k - 1 {
      HoldersSame(peers, Without(peers, j), j, i);
    } else {
      HoldersWithout(peers, k - 1, j, i);
    }
  }

  // ---- Whole swarm ----

  /** `p` after being told of our interest, if it was not. */
  function Keen(p: Peer): Peer {
    if p.interested then p else p.(interested := true, history := p.history + [ToldInterested])
  }

  function AskedFor(p: Peer, r: Request): Peer {
    var q := Keen(p);
    q.(active := q.active + [r], history := q.history + [ToldRequest(r)])
  }

  /** What holds of all peers before endgame. */
  ghost predicate Swarming(peers: seq<Peer>, n: nat, backlog: nat, active: seq<set<Block>>, all: seq<Request>,
                           endgame: bool, num: seq<Option<nat>>, have: seq<bool>)
  {
    && PeersOK(peers, n, backlog)
    && Shared(peers, active, all, endgame)
    && Counted(peers, num, have)
  }

  lemma PeerFacts(peers: seq<Peer>, n: nat, backlog: nat, active: seq<set<Block>>, all: seq<Request>, endgame: bool,
                  num: seq<Option<nat>>, have: seq<bool>, k: nat)
    requires Swarming(peers, n, backlog, active, all, endgame, num, have) && k < |peers|
    ensures PeerOK(peers[k], n, backlog) && |peers[k].have| == n && |peers[k].active| <= backlog
    ensures peers[k].choked ==> peers[k].active == []
    ensures |num| == |have| && forall i | 0 <= i < |num| :: num[i] == None <==> have[i]
  {
  }

  lemma CountedSame(peers: seq<Peer>, peers': seq<Peer>, num: seq<Option<nat>>, have: seq<bool>)
    requires Counted(peers, num, have) && |peers'| == |peers|
    requires forall j | 0 <= j < |peers| :: peers'[j].have == peers[j].have
    ensures Counted(peers', num, have)
  {
    forall i | 0 <= i < |num| ensures Holders(peers', |peers'|, i) == Holders(peers, |peers|, i) {
      HoldersSame(peers, peers', |peers|, i);
    }
  }

  /** One more block is outstanding, and asked of peer `k`. */
  lemma AskStep(peers: seq<Peer>, n: nat, backlog: nat, active: seq<set<Block>>, all: seq<Request>,
                num: seq<Option<nat>>, have: seq<bool>, k: nat, r: Request)
    requires Swarming(peers, n, backlog, active, all, false, num, have) && k < |peers| && !peers[k].choked
    requires r.index < |active| && r.index < n && !Outstanding(active, r) && |peers[k].active| < backlog
    requires |peers[k].have| == n && peers[k].have[r.index]
    ensures Swarming(peers[k := AskedFor(peers[k], r)], n, backlog, Take(active, r), all, false, num, have)
  {
    hide Take, Exclusive, Counted, Outstanding;
    var p := AskedFor(peers[k], r);
    assert r !in peers[k].active by { NotAsked(peers, active, k, r); }
    TakeExclusive(peers, active, k, r, p);
    CountedSame(peers, peers[k := p], num, have);
    PeerAsked(peers[k], n, backlog, r);
  }

  lemma NotAsked(peers: seq<Peer>, active: seq<set<Block>>, k: nat, r: Request)
    requires Exclusive(peers, active) && k < |peers| && !Outstanding(active, r)
    ensures r !in peers[k].active
  {
    assert Holds(peers, k, r) <==> r in peers[k].active;
  }

  lemma PeerAsked(p: Peer, n: nat, backlog: nat, r: Request)
    requires PeerOK(p, n, backlog) && !p.choked && |p.active| < backlog && r.index < n && p.have[r.index]
    requires r !in p.active
    ensures PeerOK(AskedFor(p, r), n, backlog)
  {
    ShowInterest(p, n, backlog);
    Ask(Keen(p), n, backlog, [r]);
    assert Sends([r]) == [ToldRequest(r)];
  }

  /** A peer changes in what is not shared. */
  lemma PeerStep(peers: seq<Peer>, n: nat, backlog: nat, active: seq<set<Block>>, all: seq<Request>, endgame: bool,
                 num: seq<Option<nat>>, have: seq<bool>, k: nat, p: Peer)
    requires Swarming(peers, n, backlog, active, all, endgame, num, have) && k < |peers|
    requires PeerOK(p, n, backlog) && p.active == peers[k].active && p.have == peers[k].have
    ensures Swarming(peers[k := p], n, backlog, active, all, endgame, num, have)
  {
    hide Shared, Counted, PeerOK;
    SameRequests(peers, peers[k := p], active, all, endgame);
    CountedSame(peers, peers[k := p], num, have);
  }

  /** In endgame, a peer is asked for some of what is outstanding. */
  lemma FixStep(peers: seq<Peer>, n: nat, backlog: nat, active: seq<set<Block>>, all: seq<Request>,
                num: seq<Option<nat>>, have: seq<bool>, k: nat, p: Peer)
    requires Swarming(peers, n, backlog, active, all, true, num, have) && k < |peers|
    requires PeerOK(p, n, backlog) && p.have == peers[k].have
    requires forall r | r in p.active :: r in peers[k].active || r in all
    ensures Swarming(peers[k := p], n, backlog, active, all, true, num, have)
  {
    hide Counted, PeerOK;
    forall r | r in p.active ensures r in all {
      assert r in peers[k].active ==> Holds(peers, k, r);
    }
    CoveredUpdate(peers, active, all, k, p);
    CountedSame(peers, peers[k := p], num, have);
  }

  /** In endgame, what is listed is outstanding, and so about existing pieces. */
  lemma AllInRange(peers: seq<Peer>, n: nat, backlog: nat, active: seq<set<Block>>, all: seq<Request>,
                   num: seq<Option<nat>>, have: seq<bool>)
    requires Swarming(peers, n, backlog, active, all, true, num, have)
    ensures NoDup(all) && forall r | r in all :: r.index < |active|
  {
  }

  lemma EndgameStep(peers: seq<Peer>, n: nat, backlog: nat, active: seq<set<Block>>, all: seq<Request>,
                    num: seq<Option<nat>>, have: seq<bool>)
    requires Swarming(peers, n, backlog, active, all, false, num, have)
    ensures Swarming(peers, n, backlog, active, AllActive(peers, |peers|), true, num, have)
  {
    hide Counted;
    StartEndgame(peers, active);
  }

  ghost predicate AllBelow(l: seq<nat>, n: nat) {
    forall i | i in l :: i < n
  }

  lemma AllBelowNone(n: nat)
    ensures AllBelow([], n)
  {
  }

  lemma AllBelowAppend(l: seq<nat>, n: nat, i: nat)
    requires AllBelow(l, n) && i < n
    ensures AllBelow(l + [i], n)
  {
  }

  // ---- Blocks that are given back, or arrive ----

  /** A list of requests shrinks from the front. */
  lemma DropFirst(l: seq<Request>)
    requires NoDup(l) && l != []
    ensures NoDup(l[1..]) && forall q :: q in l[1..] <==> q in l && q != l[0]
  {
    assert l == [l[0]] + l[1..];
  }

  lemma ChokeStep(peers: seq<Peer>, n: nat, backlog: nat, active': seq<set<Block>>, all: seq<Request>,
                  endgame: bool, num: seq<Option<nat>>, have: seq<bool>, k: nat)
    requires k < |peers| && PeersOK(peers, n, backlog) && Counted(peers, num, have)
    requires Shared(peers[k := peers[k].(active := [])], active', all, endgame)
    ensures Swarming(peers[k := peers[k].(choked := true, active := [], history := peers[k].history + [HeardChoke])],
                     n, backlog, active', all, endgame, num, have)
  {
    hide Shared, Counted, PeerOK;
    var p := peers[k].(choked := true, active := [], history := peers[k].history + [HeardChoke]);
    Choke(peers[k], n, backlog);
    CountedSame(peers, peers[k := p], num, have);
    var q := peers[k].(active := []);
    assert peers[k := q][k := p] == peers[k := p];
    SameRequests(peers[k := q], peers[k := p], active', all, endgame);
  }

  lemma HeldOutstanding(peers: seq<Peer>, active: seq<set<Block>>, k: nat, r: Request)
    requires Exclusive(peers, active) && k < |peers| && r in peers[k].active
    ensures Outstanding(active, r)
  {
    assert Holds(peers, k, r);
  }

  /** In endgame a peer may drop what it was asked for. */
  lemma CoveredWithout(peers: seq<Peer>, active: seq<set<Block>>, all: seq<Request>, k: nat)
    requires Covered(peers, active, all) && k < |peers|
    ensures Covered(peers[k := peers[k].(active := [])], active, all)
    ensures Covered(Without(peers, k), active, all)
  {
    CoveredUpdate(peers, active, all, k, peers[k].(active := []));
    var rest := Without(peers, k);
    forall i: nat, r: Request | Holds(rest, i, r) ensures r in all {
      assert Holds(peers, if i < k then i else i + 1, r);
    }
  }

  /** The order of the peers does not matter. */
  lemma MoveLast(peers: seq<Peer>, active: seq<set<Block>>, k: nat)
    requires Exclusive(peers, active) && k < |peers|
    ensures Exclusive(Without(peers, k) + [peers[k]], active)
  {
    var peers' := Without(peers, k) + [peers[k]];
    var n := |peers|;
    forall i: nat, r: Request | Holds(peers', i, r)
      ensures Holds(peers, if i == n - 1 then k else if i < k then i else i + 1, r)
    {
    }
    forall r: Request | Outstanding(active, r) ensures Held(peers', r) {
      var i: nat :| Holds(peers, i, r);
      assert Holds(peers', if i == k then n - 1 else if i < k then i else i - 1, r);
    }
  }

  lemma CountedWithout(peers: seq<Peer>, num: seq<Option<nat>>, num': seq<Option<nat>>, have: seq<bool>, k: nat)
    requires Counted(peers, num, have) && k < |peers| && |peers[k].have| == |num| == |num'|
    requires forall i | 0 <= i < |num| :: num[i].Some? && peers[k].have[i] ==> num[i].value > 0
    requires forall i | 0 <= i < |num| ::
      num'[i] == if num[i].Some? && peers[k].have[i] then Some((num[i].value - 1) as nat) else num[i]
    ensures Counted(Without(peers, k), num', have)
  {
    forall i | 0 <= i < |num|
      ensures num'[i] == if have[i] then None else Some(Holders(Without(peers, k), |Without(peers, k)|, i))
    {
      HoldersWithout(peers, |peers|, k, i);
    }
  }

  lemma {:induction false} HolderCounts(peers: seq<Peer>, n: nat, k: nat, i: nat)
    requires k < n <= |peers| && i < |peers[k].have| && peers[k].have[i]
    ensures Holders(peers, n, i) > 0
  {
    if k < n - 1 {
      HolderCounts(peers, n - 1, k, i);
    }
  }

  lemma {:induction false} HoldersAtMost(peers: seq<Peer>, n: nat, i: nat)
    requires n <= |peers|
    ensures Holders(peers, n, i) <= n
  {
    if n > 0 {
      HoldersAtMost(peers, n - 1, i);
    }
  }

  lemma CountedMore(peers: seq<Peer>, num: seq<Option<nat>>, have: seq<bool>, k: nat, i: nat, p: Peer)
    requires Counted(peers, num, have) && k < |peers| && i < |num| && |peers[k].have| == |num|
    requires !peers[k].have[i] && p.have == peers[k].have[i := true]
    ensures Counted(peers[k := p], if num[i].Some? then num[i := Some(num[i].value + 1)] else num, have)
    ensures num[i].Some? ==> num[i].value < |peers|
  {
    forall j | 0 <= j < |num|
        ensures Holders(peers[k := p], |peers|, j) == Holders(peers, |peers|, j) + if j == i then 1 else 0 {
      HoldersUpdate(peers, |peers|, j, k, p);
    }
    HoldersUpdate(peers, |peers|, i, k, p);
    HoldersAtMost(peers[k := p], |peers|, i);
  }

  lemma CountedComplete(peers: seq<Peer>, num: seq<Option<nat>>, have: seq<bool>, i: nat)
    requires Counted(peers, num, have) && i < |num|
    ensures Counted(peers, num[i := None], have[i := true])
  {
  }

  /** As `Covered`, but peers may still be asked for `q`, which has just arrived. */
  ghost predicate CoveredBut(peers: seq<Peer>, active: seq<set<Block>>, all: seq<Request>, q: Request) {
    && NoDup(all)
    && (forall r: Request :: r in all <==> Outstanding(active, r))
    && (forall i: nat, r: Request | Holds(peers, i, r) :: r in all || r == q)
  }

  /** What holds of all peers just after block `q` has arrived from one of them. */
  ghost predicate Settling(peers: seq<Peer>, n: nat, backlog: nat, active: seq<set<Block>>, all: seq<Request>,
                           endgame: bool, num: seq<Option<nat>>, have: seq<bool>, q: Request)
  {
    && PeersOK(peers, n, backlog)
    && (if endgame then CoveredBut(peers, active, all, q) else Exclusive(peers, active))
    && Counted(peers, num, have)
  }

  lemma PieceStep(peers: seq<Peer>, n: nat, backlog: nat, active: seq<set<Block>>, all: seq<Request>, endgame: bool,
                  num: seq<Option<nat>>, have: seq<bool>, k: nat, q: Request, p: Peer)
    requires Swarming(peers, n, backlog, active, all, endgame, num, have) && k < |peers| && q in peers[k].active
    requires p == peers[k].(active := Removed(peers[k].active, q), history := peers[k].history + [HeardPiece(q)])
    ensures q.index < |active| && q.index < n && Outstanding(active, q)
    ensures Settling(peers[k := p], n, backlog, Drop(active, q), if endgame then Removed(all, q) else all, endgame, num,
                     have, q)
    ensures endgame ==> q in all && q !in Removed(all, q)
  {
    hide Counted, Drop;
    assert PeerOK(peers[k], n, backlog) && Holds(peers, k, q);
    Settle(peers[k], n, backlog, q, HeardPiece(q));
    RemovedFacts(peers[k].active, q);
    CountedSame(peers, peers[k := p], num, have);
    hide PeerOK;
    var peers' := peers[k := p];
    if endgame {
      RemovedFacts(all, q);
      OutstandingDrop(active, q);
      forall i: nat, r: Request | Holds(peers', i, r) ensures r in Removed(all, q) || r == q {
        assert Holds(peers, i, r);
      }
    } else {
      DropExclusive(peers, active, k, q, p);
    }
  }

  /** One more block is listed again. */
  lemma RelistStep(peers: seq<Peer>, active: seq<set<Block>>, all: seq<Request>, q: Request, r: Request)
    requires CoveredBut(peers, active, all, q) && r.index < |active| && !Outstanding(active, r)
    ensures CoveredBut(peers, Take(active, r), all + [r], q)
  {
    hide Take;
    OutstandingTake(active, r);
    NoDupAppend(all, [r]);
  }

  /** Another peer is not asked for `q` any more. */
  lemma CancelStep(peers: seq<Peer>, n: nat, backlog: nat, active: seq<set<Block>>, all: seq<Request>,
                   num: seq<Option<nat>>, have: seq<bool>, q: Request, k: nat, p: Peer)
    requires Settling(peers, n, backlog, active, all, true, num, have, q) && k < |peers|
    requires PeerOK(p, n, backlog) && p.have == peers[k].have
    requires forall r | r in p.active :: (r in peers[k].active && r != q) || r in all
    ensures Settling(peers[k := p], n, backlog, active, all, true, num, have, q)
  {
    hide Counted, PeerOK;
    CountedSame(peers, peers[k := p], num, have);
    var peers' := peers[k := p];
    forall i: nat, r: Request | Holds(peers', i, r) ensures r in all || r == q {
      if i != k || r in peers[k].active { assert Holds(peers, i, r); }
    }
  }

  lemma SettlingFacts(peers: seq<Peer>, n: nat, backlog: nat, active: seq<set<Block>>, all: seq<Request>, endgame: bool,
                      num: seq<Option<nat>>, have: seq<bool>, q: Request, k: nat)
    requires Settling(peers, n, backlog, active, all, endgame, num, have, q) && k < |peers|
    ensures PeerOK(peers[k], n, backlog)
    ensures endgame ==> NoDup(all) && forall r | r in all :: r.index < |active|
    ensures |num| == |have| && forall i | 0 <= i < |num| :: num[i] == None <==> have[i]
  {
    hide PeerOK;
  }

  lemma SettlingCounts(peers: seq<Peer>, n: nat, backlog: nat, active: seq<set<Block>>, all: seq<Request>,
                       endgame: bool, num: seq<Option<nat>>, have: seq<bool>, q: Request)
    requires Settling(peers, n, backlog, active, all, endgame, num, have, q)
    ensures |num| == |have| && forall i | 0 <= i < |num| :: num[i] == None <==> have[i]
  {
  }

  lemma SettlingComplete(peers: seq<Peer>, n: nat, backlog: nat, active: seq<set<Block>>, all: seq<Request>,
                         endgame: bool, num: seq<Option<nat>>, have: seq<bool>, q: Request, i: nat)
    requires Settling(peers, n, backlog, active, all, endgame, num, have, q) && i < |num| && i < |have|
    ensures Settling(peers, n, backlog, active, all, endgame, num[i := None], have[i := true], q)
  {
    hide PeerOK, CoveredBut, Exclusive;
    CountedComplete(peers, num, have, i);
  }

  lemma SettlingTake(peers: seq<Peer>, n: nat, backlog: nat, active: seq<set<Block>>, all: seq<Request>,
                     num: seq<Option<nat>>, have: seq<bool>, q: Request, r: Request)
    requires Settling(peers, n, backlog, active, all, true, num, have, q) && r.index < |active|
    requires !Outstanding(active, r)
    ensures Settling(peers, n, backlog, Take(active, r), all + [r], true, num, have, q)
  {
    hide PeerOK, CoveredBut, Counted, Take;
    RelistStep(peers, active, all, q, r);
  }

  lemma SettlingListed(peers: seq<Peer>, n: nat, backlog: nat, active: seq<set<Block>>, all: seq<Request>,
                       num: seq<Option<nat>>, have: seq<bool>, q: Request)
    requires Settling(peers, n, backlog, active, all, true, num, have, q) && Outstanding(active, q)
    ensures Swarming(peers, n, backlog, active, all, true, num, have)
  {
    hide PeerOK, Counted;
  }

  /** When no peer is asked for `q`, or it is listed again, everything is in order. */
  lemma Settled(peers: seq<Peer>, n: nat, backlog: nat, active: seq<set<Block>>, all: seq<Request>, endgame: bool,
                num: seq<Option<nat>>, have: seq<bool>, q: Request)
    requires Settling(peers, n, backlog, active, all, endgame, num, have, q)
    requires endgame ==> q in all || forall i | 0 <= i < |peers| :: q !in peers[i].active
    ensures Swarming(peers, n, backlog, active, all, endgame, num, have)
  {
    hide Counted, PeerOK;
  }

  // ---- Peers coming and going ----

  lemma LeaveShared(peers: seq<Peer>, active: seq<set<Block>>, all: seq<Request>, endgame: bool, k: nat)
    requires Shared(peers, active, all, endgame) && k < |peers|
    ensures Shared(Without(peers, k) + [peers[k]], active, all, endgame)
  {
    if endgame {
      var peers' := Without(peers, k) + [peers[k]];
      forall i: nat, r: Request | Holds(peers', i, r) ensures r in all {
        assert Holds(peers, if i == |peers| - 1 then k else if i < k then i else i + 1, r);
      }
    } else {
      MoveLast(peers, active, k);
    }
  }

  lemma IdleShared(peers: seq<Peer>, active: seq<set<Block>>, all: seq<Request>, endgame: bool, p: Peer)
    requires p.active == []
    ensures Shared(peers + [p], active, all, endgame) <==> Shared(peers, active, all, endgame)
  {
    var peers' := peers + [p];
    forall i: nat, r: Request ensures Holds(peers', i, r) <==> Holds(peers, i, r) {
    }
    if !endgame { IdleExclusive(peers, active, p); }
  }

  /** A peer has left: its blocks were let go, and its pieces are not counted any more. */
  lemma LeaveStep(peers: seq<Peer>, n: nat, backlog: nat, active: seq<set<Block>>, all: seq<Request>, endgame: bool,
                  num: seq<Option<nat>>, num': seq<Option<nat>>, have: seq<bool>, k: nat)
    requires k < |peers| && PeersOK(peers, n, backlog) && Counted(peers, num, have) && |num| == |num'| == n
    requires Shared(Without(peers, k) + [peers[k].(active := [])], active, all, endgame)
    requires |peers[k].have| == n && forall i | 0 <= i < n :: num'[i] == Uncounted(num[i], peers[k].have[i])
    ensures Swarming(Without(peers, k), n, backlog, active, all, endgame, num', have)
  {
    hide Shared, PeerOK;
    IdleShared(Without(peers, k), active, all, endgame, peers[k].(active := []));
    forall i | 0 <= i < n && num[i].Some? && peers[k].have[i] ensures num[i].value > 0 {
      HolderCounts(peers, |peers|, k, i);
    }
    CountedWithout(peers, num, num', have, k);
  }

  /** The count of a piece after a peer left that had it, or did not. */
  ghost function Uncounted(c: Option<nat>, had: bool): Option<nat> {
    if had && c.Some? && c.value > 0 then Some(c.value - 1) else c
  }

  lemma NumLength(peers: seq<Peer>, num: seq<Option<nat>>, have: seq<bool>)
    requires Counted(peers, num, have)
    ensures |num| == |have|
  {
  }

  lemma CountPositive(peers: seq<Peer>, num: seq<Option<nat>>, have: seq<bool>, k: nat, i: nat)
    requires Counted(peers, num, have) && k < |peers| && i < |num| && i < |peers[k].have| && peers[k].have[i]
    ensures num[i] != Some(0)
  {
    HolderCounts(peers, |peers|, k, i);
  }

  /** Without peers, nothing is counted, and nothing may be outstanding. */
  lemma NobodyYet(n: nat, backlog: nat, active: seq<set<Block>>, num: seq<Option<nat>>, have: seq<bool>)
    requires |num| == |have| && forall i | 0 <= i < |num| :: num[i] == if have[i] then None else Some(0)
    requires forall i | 0 <= i < |active| :: active[i] == {}
    ensures Swarming([], n, backlog, active, [], false, num, have)
  {
    assert Exclusive([], active);
  }

  /** A new peer has nothing and is asked for nothing. */
  lemma JoinStep(peers: seq<Peer>, n: nat, backlog: nat, active: seq<set<Block>>, all: seq<Request>, endgame: bool,
                 num: seq<Option<nat>>, have: seq<bool>, p: Peer)
    requires Swarming(peers, n, backlog, active, all, endgame, num, have)
    requires p == Peer(true, false, [], p.have, []) && |p.have| == n && forall i | 0 <= i < n :: !p.have[i]
    ensures Swarming(peers + [p], n, backlog, active, all, endgame, num, have)
  {
    hide Shared;
    IdleShared(peers, active, all, endgame, p);
    forall i | 0 <= i < |num| ensures Holders(peers + [p], |peers| + 1, i) == Holders(peers, |peers|, i) {
      HoldersSame(peers, peers + [p], |peers|, i);
    }
  }

  // ---- Interest, and being asked for enough ----

  /** The peer has a piece of which a block can be requested. */
  ghost predicate Offers(p: Peer, inactive: seq<Inactive>) {
    exists i: nat :: OffersPiece(p, inactive, i)
  }

  ghost predicate OffersPiece(p: Peer, inactive: seq<Inactive>, i: nat) {
    i < |p.have| && i < |inactive| && p.have[i] && HasRequests(inactive[i])
  }

  /** The peer has a block that is listed in endgame. */
  ghost predicate OffersListed(p: Peer, all: seq<Request>) {
    exists r :: r in all && HasPiece(p, r)
  }

  ghost predicate HasPiece(p: Peer, r: Request) {
    r.index < |p.have| && p.have[r.index]
  }

  /** Before endgame we are interested in a peer only with reason: it is asked for something or could be. In endgame we
      are interested exactly in the peers that have something that is listed, and those that do not choke us are asked
      for all of it, as far as the backlog allows. */
  ghost predicate Content(p: Peer, backlog: nat, inactive: seq<Inactive>, all: seq<Request>, endgame: bool) {
    backlog > 0 ==>
      if endgame then
        && (p.interested <==> OffersListed(p, all))
        && (!p.choked && |p.active| < backlog ==> forall r | r in all && HasPiece(p, r) :: r in p.active)
      else
        p.interested && p.active == [] ==> Offers(p, inactive)
  }

  /** All peers but `skip`. */
  ghost predicate Contented(peers: seq<Peer>, backlog: nat, inactive: seq<Inactive>, all: seq<Request>, endgame: bool,
                            skip: int) {
    forall i | 0 <= i < |peers| && i != skip :: Content(peers[i], backlog, inactive, all, endgame)
  }

  /** The first `n` peers, in endgame. */
  ghost predicate ContentUpTo(peers: seq<Peer>, backlog: nat, inactive: seq<Inactive>, all: seq<Request>, n: nat) {
    n <= |peers| && forall i | 0 <= i < n :: Content(peers[i], backlog, inactive, all, true)
  }

  lemma ContentOneMore(peers: seq<Peer>, backlog: nat, inactive: seq<Inactive>, all: seq<Request>, n: nat, p: Peer)
    requires ContentUpTo(peers, backlog, inactive, all, n) && n < |peers| && Content(p, backlog, inactive, all, true)
    ensures ContentUpTo(peers[n := p], backlog, inactive, all, n + 1)
  {
    hide Content;
  }

  lemma ContentAll(peers: seq<Peer>, backlog: nat, inactive: seq<Inactive>, all: seq<Request>)
    ensures ContentUpTo(peers, backlog, inactive, all, |peers|) <==> Contented(peers, backlog, inactive, all, true, -1)
    ensures ContentUpTo(peers, backlog, inactive, all, 0)
  {
    hide Content;
  }

  /** Pieces that lost their last block that could be requested are among `lost`. */
  ghost predicate LostAmong(before: seq<Inactive>, now: seq<Inactive>, lost: seq<nat>) {
    |before| == |now| && forall i | 0 <= i < |now| && HasRequests(before[i]) && !HasRequests(now[i]) :: i in lost
  }

  /** A peer that has none of the lost pieces has as much to offer as before. */
  lemma StillOffers(p: Peer, before: seq<Inactive>, now: seq<Inactive>, lost: seq<nat>)
    requires LostAmong(before, now, lost) && Offers(p, before)
    requires forall l | l in lost :: l < |p.have| && !p.have[l]
    ensures Offers(p, now)
  {
    var i: nat :| OffersPiece(p, before, i);
    assert OffersPiece(p, now, i);
  }

  /** Not yet reconsidered peers, from `n` on, were in order before the requests; the others are now. */
  ghost predicate Reconsidered(peers: seq<Peer>, backlog: nat, before: seq<Inactive>, now: seq<Inactive>,
                               all: seq<Request>, n: nat) {
    && n <= |peers|
    && (forall i | 0 <= i < n :: Content(peers[i], backlog, now, all, false))
    && (forall i | n <= i < |peers| ::
        Content(peers[i], backlog, now, all, false) || Content(peers[i], backlog, before, all, false))
  }

  lemma ReconsideredOne(peers: seq<Peer>, backlog: nat, before: seq<Inactive>, now: seq<Inactive>, all: seq<Request>,
                        n: nat, p: Peer)
    requires Reconsidered(peers, backlog, before, now, all, n) && n < |peers| && Content(p, backlog, now, all, false)
    ensures Reconsidered(peers[n := p], backlog, before, now, all, n + 1)
  {
    hide Content;
  }

  lemma ReconsideredAll(peers: seq<Peer>, backlog: nat, before: seq<Inactive>, now: seq<Inactive>, all: seq<Request>)
    ensures Reconsidered(peers, backlog, before, now, all, |peers|) ==> Contented(peers, backlog, now, all, false, -1)
  {
    hide Content;
  }

  /** Peer `k` is in order now; the others were before. */
  lemma ReconsiderFrom(peers: seq<Peer>, backlog: nat, before: seq<Inactive>, now: seq<Inactive>, all: seq<Request>,
                       k: nat)
    requires Contented(peers, backlog, before, all, false, k)
    requires k < |peers| ==> Content(peers[k], backlog, now, all, false)
    ensures Reconsidered(peers, backlog, before, now, all, 0)
  {
    hide Content;
  }

  /** One peer changed. */
  lemma ContentUpdate(peers: seq<Peer>, backlog: nat, inactive: seq<Inactive>, all: seq<Request>, endgame: bool,
                      skip: int, k: nat, p: Peer)
    requires Contented(peers, backlog, inactive, all, endgame, skip) && k < |peers|
    ensures k == skip ==> Contented(peers[k := p], backlog, inactive, all, endgame, skip)
    ensures Content(p, backlog, inactive, all, endgame) ==>
      Contented(peers[k := p], backlog, inactive, all, endgame, if k == skip then -1 else skip)
  {
    hide Content;
  }

  lemma ContentBut(peers: seq<Peer>, backlog: nat, inactive: seq<Inactive>, all: seq<Request>, endgame: bool, k: nat)
    requires Contented(peers, backlog, inactive, all, endgame, -1)
    ensures Contented(peers, backlog, inactive, all, endgame, k)
    ensures k < |peers| ==> Content(peers[k], backlog, inactive, all, endgame)
  {
    hide Content;
  }

  /** What could be requested still can be. */
  ghost predicate MoreToRequest(inactive: seq<Inactive>, inactive': seq<Inactive>) {
    |inactive'| == |inactive| && forall i | 0 <= i < |inactive| && HasRequests(inactive[i]) :: HasRequests(inactive'[i])
  }

  lemma ContentMore(peers: seq<Peer>, backlog: nat, inactive: seq<Inactive>, inactive': seq<Inactive>,
                    all: seq<Request>, skip: int)
    requires Contented(peers, backlog, inactive, all, false, skip) && MoreToRequest(inactive, inactive')
    ensures Contented(peers, backlog, inactive', all, false, skip)
  {
    forall i | 0 <= i < |peers| && i != skip ensures Content(peers[i], backlog, inactive', all, false) {
      assert Content(peers[i], backlog, inactive, all, false);
      if j: nat :| OffersPiece(peers[i], inactive, j) { assert OffersPiece(peers[i], inactive', j); }
    }
  }

  /** A peer gives back what it was asked for. */
  lemma ContentGivesBack(p: Peer, p': Peer, backlog: nat, inactive: seq<Inactive>, inactive': seq<Inactive>,
                         all: seq<Request>)
    requires Content(p, backlog, inactive, all, false) && MoreToRequest(inactive, inactive')
    requires p'.have == p.have && p'.interested == p.interested
    requires forall r | r in p.active :: HasPiece(p, r) && r.index < |inactive'| && HasRequests(inactive'[r.index])
    ensures Content(p', backlog, inactive', all, false)
  {
    if p.active != [] {
      assert p.active[0] in p.active && OffersPiece(p', inactive', p.active[0].index);
    } else if j: nat :| OffersPiece(p, inactive, j) {
      assert OffersPiece(p', inactive', j);
    }
  }

  /** In endgame a peer that was asked for nothing but what is listed may forget that while it chokes us. */
  lemma ContentChoked(p: Peer, p': Peer, backlog: nat, inactive: seq<Inactive>, all: seq<Request>)
    requires Content(p, backlog, inactive, all, true)
    requires p'.have == p.have && p'.interested == p.interested && p'.choked
    ensures Content(p', backlog, inactive, all, true)
  {
    forall r ensures HasPiece(p', r) <==> HasPiece(p, r) {
    }
  }

  /** A peer that has nothing listed cannot be asked for too little. */
  lemma ContentIdle(p: Peer, p': Peer, backlog: nat, inactive: seq<Inactive>, all: seq<Request>, endgame: bool)
    requires Content(p, backlog, inactive, all, endgame) && !p.interested
    requires p'.have == p.have && !p'.interested && p'.active == p.active
    ensures Content(p', backlog, inactive, all, endgame)
  {
    forall r ensures HasPiece(p', r) <==> HasPiece(p, r) {
    }
  }

  /** A peer that is asked for as much as the backlog allows. */
  lemma ContentFull(p: Peer, n: nat, backlog: nat, inactive: seq<Inactive>, all: seq<Request>, endgame: bool)
    requires PeerOK(p, n, backlog) && |p.active| == backlog && (endgame ==> forall r | r in p.active :: r in all)
    ensures Content(p, backlog, inactive, all, endgame)
  {
    if backlog > 0 && endgame {
      assert p.active[0] in p.active && HasPiece(p, p.active[0]);
    }
  }

  /** A peer leaves. */
  lemma ContentWithout(peers: seq<Peer>, backlog: nat, inactive: seq<Inactive>, all: seq<Request>, endgame: bool,
                       k: nat)
    requires Contented(peers, backlog, inactive, all, endgame, k) && k < |peers|
    ensures Contented(Without(peers, k), backlog, inactive, all, endgame, -1)
  {
    hide Content;
    var rest := Without(peers, k);
    forall i | 0 <= i < |rest| ensures Content(rest[i], backlog, inactive, all, endgame) {
      assert rest[i] == peers[if i < k then i else i + 1];
    }
  }

  /** A peer gets one more piece. */
  lemma ContentHas(p: Peer, backlog: nat, inactive: seq<Inactive>, all: seq<Request>, i: nat)
    requires Content(p, backlog, inactive, all, false) && i < |p.have|
    ensures Content(p.(have := p.have[i := true]), backlog, inactive, all, false)
  {
    if j: nat :| OffersPiece(p, inactive, j) { assert OffersPiece(p.(have := p.have[i := true]), inactive, j); }
  }

  /** What a peer can be asked for in endgame, and what it is asked for, is what it has that is listed. */
  lemma WantedOffers(p: Peer, n: nat, backlog: nat, all: seq<Request>)
    requires PeerOK(p, n, backlog) && (forall r | r in p.active :: r in all) && forall r | r in all :: r.index < n
    ensures OffersListed(p, all) <==> p.active != [] || Wanted(all, p.have, p.active) != []
    ensures forall r :: r in Wanted(all, p.have, p.active) <==> r in all && HasPiece(p, r) && r !in p.active
  {
    hide Wanted;
    var want := Wanted(all, p.have, p.active);
    if want != [] { assert want[0] in want && HasPiece(p, want[0]); }
    if p.active != [] { assert p.active[0] in p.active && HasPiece(p, p.active[0]); }
  }

  /** A peer that was asked for as much of that as the backlog allows is in order. */
  lemma ContentAsked(p: Peer, p': Peer, n: nat, backlog: nat, inactive: seq<Inactive>, all: seq<Request>,
                     want: seq<Request>)
    requires PeerOK(p, n, backlog) && PeerOK(p', n, backlog)
    requires (forall r | r in p.active :: r in all) && forall r | r in all :: r.index < n
    requires forall r :: r in want <==> r in Wanted(all, p.have, p.active)
    requires p'.have == p.have && p'.interested == (p.active != [] || want != [])
    requires p'.choked || p'.active == p.active + want[..Min(|want|, backlog - |p.active|)]
    ensures Content(p', backlog, inactive, all, true)
  {
    WantedOffers(p, n, backlog, all);
    hide Wanted, PeerOK;
    var wanted := Wanted(all, p.have, p.active);
    if want != [] { assert want[0] in want; }
    if wanted != [] { assert wanted[0] in wanted; }
    forall r ensures HasPiece(p', r) <==> HasPiece(p, r) {
    }
    if !p'.choked && |p'.active| < backlog {
      assert want[..|want|] == want;
    }
  }

  /** In endgame peers are asked only for what is listed. */
  lemma ActiveListed(peers: seq<Peer>, n: nat, backlog: nat, active: seq<set<Block>>, all: seq<Request>,
                     num: seq<Option<nat>>, have: seq<bool>, k: nat)
    requires Swarming(peers, n, backlog, active, all, true, num, have) && k < |peers|
    ensures forall r | r in peers[k].active :: r in all
  {
    forall r | r in peers[k].active ensures r in all {
      assert Holds(peers, k, r);
    }
  }

  /** When no piece lost its last block to ask for, all peers are in order as before. */
  lemma NoneLost(peers: seq<Peer>, backlog: nat, before: seq<Inactive>, now: seq<Inactive>, all: seq<Request>)
    requires LostAmong(before, now, []) && Reconsidered(peers, backlog, before, now, all, 0)
    ensures Contented(peers, backlog, now, all, false, -1)
  {
    forall i | 0 <= i < |peers| ensures Content(peers[i], backlog, now, all, false) {
      if j: nat :| OffersPiece(peers[i], before, j) { assert OffersPiece(peers[i], now, j); }
    }
  }

  /** Nothing was taken yet. */
  lemma TakenNone(inactive: seq<Inactive>)
    ensures MoreToRequest(inactive, inactive) && LostAmong(inactive, inactive, [])
  {
  }

  /** A block of piece `i` was taken. */
  lemma TakenOne(before: seq<Inactive>, now: seq<Inactive>, after: seq<Inactive>, lost: seq<nat>, i: nat)
    requires MoreToRequest(now, before) && LostAmong(before, now, lost)
    requires i < |now| == |after| && after == now[i := after[i]] && HasRequests(now[i])
    ensures MoreToRequest(after, before)
    ensures LostAmong(before, after, if HasRequests(after[i]) then lost else lost + [i])
  {
  }

  /** A peer that is asked for something, or is not interesting, is in order before endgame. */
  lemma QuietContent(p: Peer, backlog: nat, inactive: seq<Inactive>, all: seq<Request>)
    requires p.active != [] || !p.interested
    ensures Content(p, backlog, inactive, all, false)
  {
  }

  ghost predicate Requestable(inactive: seq<Inactive>, i: nat) {
    i < |inactive| && HasRequests(inactive[i])
  }

  lemma PeerHolds(p: Peer, n: nat, backlog: nat)
    requires PeerOK(p, n, backlog)
    ensures forall r | r in p.active :: HasPiece(p, r) && r.index < n
  {
  }

  /** A peer chokes us, and what it was asked for was let go: everything is still in order. */
  lemma ContentReleased(peers: seq<Peer>, k: nat, p: Peer, backlog: nat, before: seq<Inactive>, now: seq<Inactive>,
                        all: seq<Request>, endgame: bool)
    requires Contented(peers, backlog, before, all, endgame, -1) && k < |peers| && MoreToRequest(before, now)
    requires p.have == peers[k].have && p.interested == peers[k].interested && p.choked
    requires if endgame then now == before
             else forall r | r in peers[k].active :: HasPiece(peers[k], r) && Requestable(now, r.index)
    ensures Contented(peers[k := p], backlog, now, all, endgame, -1)
  {
    hide Content, MoreToRequest;
    if endgame {
      ContentChoked(peers[k], p, backlog, now, all);
    } else {
      ContentGivesBack(peers[k], p, backlog, before, now, all);
      ContentMore(peers, backlog, before, now, all, -1);
    }
    ContentUpdate(peers, backlog, now, all, endgame, -1, k, p);
  }

  /** A peer has one more piece. */
  lemma ContentGrows(peers: seq<Peer>, backlog: nat, inactive: seq<Inactive>, all: seq<Request>, endgame: bool, k: nat,
                     i: nat, p: Peer)
    requires Contented(peers, backlog, inactive, all, endgame, -1) && k < |peers| && i < |peers[k].have|
    requires p == peers[k].(have := peers[k].have[i := true])
    ensures Contented(peers[k := p], backlog, inactive, all, endgame, k)
    ensures !endgame || all == [] ==> Contented(peers[k := p], backlog, inactive, all, endgame, -1)
  {
    ContentBut(peers, backlog, inactive, all, endgame, k);
    if !endgame {
      ContentHas(peers[k], backlog, inactive, all, i);
    }
    assert all == [] && endgame ==> Content(p, backlog, inactive, all, endgame);
    hide Content;
    ContentUpdate(peers, backlog, inactive, all, endgame, k, k, p);
  }

  lemma NoneListed(peers: seq<Peer>, active: seq<set<Block>>, all: seq<Request>)
    requires Covered(peers, active, all) && forall i: nat | i < |active| :: active[i] == {}
    ensures all == []
  {
    assert forall r: Request :: !Outstanding(active, r);
    NoMembers(all);
  }

  lemma NoMembers<T>(l: seq<T>)
    ensures (exists x :: x in l) || l == []
  {
    if l != [] { assert l[0] in l; }
  }

  /** A peer that chokes us and is asked for nothing is in order if we are interested exactly with reason. */
  lemma ContentNew(p: Peer, backlog: nat, inactive: seq<Inactive>, all: seq<Request>, endgame: bool)
    requires p.choked && p.active == []
    requires p.interested == if endgame then OffersListed(p, all) else Offers(p, inactive)
    ensures Content(p, backlog, inactive, all, endgame)
  {
  }

  /** A peer that has no piece, or when nothing is listed. */
  lemma ContentSilent(p: Peer, backlog: nat, inactive: seq<Inactive>, all: seq<Request>, endgame: bool)
    requires !p.interested && p.choked && p.active == [] && (endgame ==> all == [])
    ensures Content(p, backlog, inactive, all, endgame)
  {
  }

  /** Only piece `i` changed, and not to having nothing to request. */
  lemma MoreOf(before: seq<Inactive>, after: seq<Inactive>, i: nat)
    requires i < |before| == |after| && after == before[i := after[i]]
    requires (HasRequests(before[i]) ==> HasRequests(after[i]))
    ensures MoreToRequest(before, after)
  {
  }

  /** In endgame it does not matter what can be requested. */
  lemma ContentEndgame(peers: seq<Peer>, backlog: nat, inactive: seq<Inactive>, inactive': seq<Inactive>,
                       all: seq<Request>, skip: int)
    requires Contented(peers, backlog, inactive, all, true, skip)
    ensures Contented(peers, backlog, inactive', all, true, skip)
  {
    forall i | 0 <= i < |peers| && i != skip ensures Content(peers[i], backlog, inactive', all, true) {
      assert Content(peers[i], backlog, inactive, all, true);
    }
  }

  /** `all` is `all0` without `q`. */
  ghost predicate ListedBut(all0: seq<Request>, all: seq<Request>, q: Request) {
    forall r :: r in all <==> r in all0 && r != q
  }

  /** A block that arrived from another peer is not listed any more: a peer that was in order and is not asked for that
      block still is, unless we are interested and it chokes us. */
  lemma ContentCancelled(p: Peer, n: nat, backlog: nat, inactive: seq<Inactive>, all0: seq<Request>, all: seq<Request>,
                         q: Request)
    requires PeerOK(p, n, backlog) && Content(p, backlog, inactive, all0, true) && ListedBut(all0, all, q)
    requires forall r | r in p.active :: r in all
    requires p.interested ==> !p.choked
    ensures Content(p, backlog, inactive, all, true)
  {
    if backlog > 0 && p.interested {
      if |p.active| < backlog {
        var r :| r in all0 && HasPiece(p, r);
        assert r in p.active;
      } else {
        assert p.active[0] in p.active && HasPiece(p, p.active[0]);
      }
    }
  }

  /** The first `n` peers are in order for `all`, the others for `all0`; peer `skip` may be neither. */
  ghost predicate Cancelling(peers: seq<Peer>, backlog: nat, inactive: seq<Inactive>, all0: seq<Request>,
                             all: seq<Request>, n: nat, skip: nat)
  {
    forall i | 0 <= i < |peers| && i != skip :: Content(peers[i], backlog, inactive, if i < n then all else all0, true)
  }

  lemma CancellingEnds(peers: seq<Peer>, backlog: nat, inactive: seq<Inactive>, all0: seq<Request>, all: seq<Request>,
                       skip: nat)
    ensures Contented(peers, backlog, inactive, all0, true, skip) ==>
      Cancelling(peers, backlog, inactive, all0, all, 0, skip)
    ensures Cancelling(peers, backlog, inactive, all0, all, |peers|, skip) ==>
      Contented(peers, backlog, inactive, all, true, skip)
  {
    hide Content;
  }

  lemma CancellingNext(peers: seq<Peer>, backlog: nat, inactive: seq<Inactive>, all0: seq<Request>, all: seq<Request>,
                       n: nat, skip: nat, p: Peer)
    requires Cancelling(peers, backlog, inactive, all0, all, n, skip) && n < |peers|
    requires n == skip || Content(p, backlog, inactive, all, true)
    ensures Cancelling(peers[n := p], backlog, inactive, all0, all, n + 1, skip)
  {
    hide Content;
  }

  lemma CancellingAt(peers: seq<Peer>, backlog: nat, inactive: seq<Inactive>, all0: seq<Request>, all: seq<Request>,
                     n: nat, skip: nat)
    requires Cancelling(peers, backlog, inactive, all0, all, n, skip) && n < |peers| && n != skip
    ensures Content(peers[n], backlog, inactive, all0, true)
  {
    hide Content;
  }

  lemma SettlingActive(peers: seq<Peer>, n: nat, backlog: nat, active: seq<set<Block>>, all: seq<Request>,
                       num: seq<Option<nat>>, have: seq<bool>, q: Request, k: nat)
    requires Settling(peers, n, backlog, active, all, true, num, have, q) && k < |peers|
    ensures forall r | r in peers[k].active :: r in all || r == q
  {
    forall r | r in peers[k].active ensures r in all || r == q {
      assert Holds(peers, k, r);
    }
  }

  /** A peer that has a piece of which blocks can be requested is in order before endgame. */
  lemma ContentOffers(p: Peer, backlog: nat, inactive: seq<Inactive>, all: seq<Request>, i: nat)
    requires OffersPiece(p, inactive, i)
    ensures Content(p, backlog, inactive, all, false)
  {
  }

  lemma ContentLeaves(peers: seq<Peer>, k: nat, backlog: nat, before: seq<Inactive>, now: seq<Inactive>,
                      all: seq<Request>, endgame: bool)
    requires Contented(peers, backlog, before, all, endgame, -1) && k < |peers| && MoreToRequest(before, now)
    requires endgame ==> now == before
    ensures Contented(Without(peers, k), backlog, now, all, endgame, -1)
  {
    hide Content, MoreToRequest;
    ContentBut(peers, backlog, before, all, endgame, k);
    if !endgame { ContentMore(peers, backlog, before, now, all, k); }
    ContentWithout(peers, backlog, now, all, endgame, k);
  }

  /** What happened to one peer does not matter to the others, nor does more to request. */
  lemma OthersStay(peers: seq<Peer>, peers': seq<Peer>, backlog: nat, before: seq<Inactive>, now: seq<Inactive>,
                   all: seq<Request>, endgame: bool, k: nat)
    requires Contented(peers, backlog, before, all, endgame, -1) && MoreToRequest(before, now)
    requires |peers'| == |peers| && forall i | 0 <= i < |peers| && i != k :: peers'[i] == peers[i]
    ensures Contented(peers', backlog, now, all, endgame, k)
  {
    hide Content, MoreToRequest;
    ContentBut(peers, backlog, before, all, endgame, k);
    if endgame {
      ContentEndgame(peers, backlog, before, now, all, k);
    } else {
      ContentMore(peers, backlog, before, now, all, k);
    }
    forall i | 0 <= i < |peers'| && i != k ensures Content(peers'[i], backlog, now, all, endgame) {
      assert Content(peers[i], backlog, now, all, endgame);
    }
  }

  /** If piece `i` can be requested from the peer, it is asked for as much as the backlog allows or, if it chokes us,
      knows of our interest. */
  ghost predicate AnsweredTo(p: Peer, backlog: nat, inactive: seq<Inactive>, i: nat) {
    OffersPiece(p, inactive, i) ==> if p.choked then p.interested else |p.active| >= backlog
  }

  /** When less can be requested, a peer that does not choke us and is asked for the same is still asked for enough. */
  lemma AnswerStands(p: Peer, p': Peer, backlog: nat, inactive: seq<Inactive>, inactive': seq<Inactive>, i: nat)
    requires AnsweredTo(p, backlog, inactive, i) && MoreToRequest(inactive', inactive)
    requires p'.have == p.have && p'.active == p.active && !p.choked && !p'.choked
    ensures AnsweredTo(p', backlog, inactive', i)
  {
  }

  lemma WithoutLast<T>(l: seq<T>, k: nat, x: T)
    requires k < |l|
    ensures |Without(l, k) + [l[k]]| == |l| && (Without(l, k) + [l[k]])[|l| - 1] == l[k]
    ensures (Without(l, k) + [l[k]])[|l| - 1 := x] == Without(l, k) + [x]
  {
  }

  /** The count of a piece goes up when a peer announces it. */
  lemma HaveStep(peers: seq<Peer>, n: nat, backlog: nat, active: seq<set<Block>>, all: seq<Request>, endgame: bool,
                 num: seq<Option<nat>>, have: seq<bool>, k: nat, i: nat, p: Peer)
    requires Swarming(peers, n, backlog, active, all, endgame, num, have) && k < |peers| && i < n == |num|
    requires |peers[k].have| == n
    requires !peers[k].have[i] && p == peers[k].(have := peers[k].have[i := true])
    ensures Swarming(peers[k := p], n, backlog, active, all, endgame,
                     if num[i].Some? then num[i := Some(num[i].value + 1)] else num, have)
    ensures num[i].Some? ==> num[i].value < |peers|
  {
    hide Counted, Shared, PeerOK;
    Announce(peers[k], n, backlog, i);
    CountedMore(peers, num, have, k, i, p);
    SameRequests(peers, peers[k := p], active, all, endgame);
  }
}
