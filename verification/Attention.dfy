/** Whether peers are overlooked before endgame: what can be requested from a peer is requested from it as far as the
    backlog allows or, while it chokes us, it knows of our interest. */
module Attention {
  import opened Basics
  import opened Blocks
  import opened Swarms

  /** Nothing that the peer has is overlooked. */
  ghost predicate Heeded(p: Peer, backlog: nat, inactive: seq<Inactive>) {
    forall i: nat :: AnsweredTo(p, backlog, inactive, i)
  }

  /** Nobody is overlooked. */
  ghost predicate AllHeeded(peers: seq<Peer>, backlog: nat, inactive: seq<Inactive>) {
    backlog > 0 ==> forall k | 0 <= k < |peers| :: Heeded(peers[k], backlog, inactive)
  }

  /** From `p` to `p'` no piece is newly overlooked but for those in `skip`. */
  ghost predicate Heeds(p: Peer, p': Peer, backlog: nat, before: seq<Inactive>, now: seq<Inactive>, skip: set<nat>) {
    backlog > 0 ==> forall i: nat | i !in skip && AnsweredTo(p, backlog, before, i) :: AnsweredTo(p', backlog, now, i)
  }

  ghost predicate AllHeed(peers: seq<Peer>, peers': seq<Peer>, backlog: nat, before: seq<Inactive>, now: seq<Inactive>,
                          skip: set<nat>)
  {
    |peers'| == |peers| && forall k | 0 <= k < |peers| :: Heeds(peers[k], peers'[k], backlog, before, now, skip)
  }

  /** All peers but `k`. */
  ghost predicate OthersHeed(peers: seq<Peer>, peers': seq<Peer>, backlog: nat, before: seq<Inactive>,
                             now: seq<Inactive>, skip: set<nat>, k: nat)
  {
    |peers'| == |peers| &&
    forall j | 0 <= j < |peers| && j != k :: Heeds(peers[j], peers'[j], backlog, before, now, skip)
  }

  lemma NothingHappened(peers: seq<Peer>, backlog: nat, inactive: seq<Inactive>, skip: set<nat>)
    ensures AllHeed(peers, peers, backlog, inactive, inactive, skip)
  {
  }

  lemma OneAfterTheOther(a: seq<Peer>, b: seq<Peer>, c: seq<Peer>, backlog: nat, ia: seq<Inactive>, ib: seq<Inactive>,
                         ic: seq<Inactive>, skip: set<nat>)
    requires AllHeed(a, b, backlog, ia, ib, skip) && AllHeed(b, c, backlog, ib, ic, {})
    ensures AllHeed(a, c, backlog, ia, ic, skip)
  {
    hide AnsweredTo;
  }

  /** One peer changed. */
  lemma OneHeeds(peers: seq<Peer>, k: nat, p: Peer, backlog: nat, before: seq<Inactive>, now: seq<Inactive>,
                 skip: set<nat>)
    requires k < |peers| && AllHeed(peers, peers, backlog, before, now, skip)
    requires Heeds(peers[k], p, backlog, before, now, skip)
    ensures AllHeed(peers, peers[k := p], backlog, before, now, skip)
  {
    hide Heeds;
  }

  /** Less can be requested. */
  lemma FewerToHeed(peers: seq<Peer>, backlog: nat, before: seq<Inactive>, now: seq<Inactive>, skip: set<nat>)
    requires MoreToRequest(now, before)
    ensures AllHeed(peers, peers, backlog, before, now, skip)
  {
  }

  /** More can be requested, but only of the pieces in `gained`. */
  lemma MoreToHeed(peers: seq<Peer>, backlog: nat, before: seq<Inactive>, now: seq<Inactive>, gained: seq<nat>)
    requires LostAmong(now, before, gained)
    ensures AllHeed(peers, peers, backlog, before, now, set i | i in gained)
  {
  }

  /** A block of piece `i` was stored. Only if the piece turned out wrong, more of it can be requested. */
  lemma StoredToHeed(peers: seq<Peer>, backlog: nat, before: seq<Inactive>, now: seq<Inactive>, i: nat, ok: bool)
    requires i < |before| == |now| && now == before[i := now[i]]
    requires ok ==> (HasRequests(now[i]) <==> HasRequests(before[i]))
    ensures AllHeed(peers, peers, backlog, before, now, if ok then {} else {i})
  {
  }

  /** The peer is asked for no less than before, does not choke us, and less can be requested. */
  lemma AskedHeeds(p: Peer, p': Peer, backlog: nat, before: seq<Inactive>, now: seq<Inactive>)
    requires MoreToRequest(now, before)
    requires p'.have == p.have && p'.choked == p.choked && |p'.active| >= |p.active|
    requires p.choked ==> p'.interested == p.interested || p'.interested
    ensures Heeds(p, p', backlog, before, now, {})
  {
  }

  /** We lost interest in a peer because it has nothing to ask for. */
  lemma DroppedHeeds(p: Peer, p': Peer, backlog: nat, inactive: seq<Inactive>)
    requires p'.have == p.have && p'.choked == p.choked && p'.active == p.active
    requires p'.interested == p.interested || |p'.active| >= backlog || forall i: nat :: !OffersPiece(p', inactive, i)
    requires p'.choked ==> p'.active == []
    ensures Heeds(p, p', backlog, inactive, inactive, {})
  {
  }

  /** A peer that was asked for something, or that nothing was overlooked of, begins to choke us. */
  lemma ChokedHeeds(p: Peer, p': Peer, backlog: nat, before: seq<Inactive>, now: seq<Inactive>, gained: seq<nat>)
    requires LostAmong(now, before, gained) && (p.active != [] ==> p.interested)
    requires p'.have == p.have && p'.interested == p.interested && p'.choked
    ensures Heeds(p, p', backlog, before, now, set i | i in gained)
  {
  }

  /** A peer that we are not interested in does not choke us any more. */
  lemma UnchokedHeeds(p: Peer, p': Peer, backlog: nat, inactive: seq<Inactive>)
    requires p.choked && !p.interested && p'.have == p.have
    ensures Heeds(p, p', backlog, inactive, inactive, {})
  {
  }

  /** A peer that chokes us and that we are interested in exactly if it has something to ask for. */
  lemma InterestHeeds(p: Peer, backlog: nat, inactive: seq<Inactive>)
    requires p.choked && (p.interested <==> Offers(p, inactive))
    ensures Heeded(p, backlog, inactive)
  {
  }

  lemma HeededHeeds(p: Peer, p': Peer, backlog: nat, inactive: seq<Inactive>)
    requires Heeded(p', backlog, inactive)
    ensures Heeds(p, p', backlog, inactive, inactive, {})
  {
    hide AnsweredTo;
  }

  /** What was passed over at first was made up for. */
  lemma MadeUp(peers: seq<Peer>, peers': seq<Peer>, backlog: nat, before: seq<Inactive>, now: seq<Inactive>,
               skip: set<nat>)
    requires AllHeed(peers, peers', backlog, before, now, skip)
    requires forall k, i: nat | 0 <= k < |peers'| && i in skip :: AnsweredTo(peers'[k], backlog, now, i)
    ensures AllHeed(peers, peers', backlog, before, now, {})
  {
    hide AnsweredTo;
  }

  /** Nothing that peer `k` has is overlooked now, and for the others all is as it was. */
  lemma AllButOne(peers: seq<Peer>, peers': seq<Peer>, backlog: nat, before: seq<Inactive>, now: seq<Inactive>, k: nat)
    requires OthersHeed(peers, peers', backlog, before, now, {}, k) && k < |peers|
    requires Heeded(peers'[k], backlog, now)
    ensures AllHeed(peers, peers', backlog, before, now, {})
  {
    hide AnsweredTo;
  }

  lemma OthersAfter(a: seq<Peer>, b: seq<Peer>, c: seq<Peer>, backlog: nat, ia: seq<Inactive>, ib: seq<Inactive>,
                    ic: seq<Inactive>, skip: set<nat>, k: nat)
    requires OthersHeed(a, b, backlog, ia, ib, skip, k) && AllHeed(b, c, backlog, ib, ic, {})
    ensures OthersHeed(a, c, backlog, ia, ic, skip, k)
  {
    hide AnsweredTo;
  }

  /** Only peer `k` changed. */
  lemma OthersSame(peers: seq<Peer>, k: nat, p: Peer, backlog: nat, before: seq<Inactive>, now: seq<Inactive>,
                   skip: set<nat>)
    requires k < |peers| && AllHeed(peers, peers, backlog, before, now, skip)
    ensures OthersHeed(peers, peers[k := p], backlog, before, now, skip, k)
  {
    hide Heeds;
  }

  /** Peer `k` has one more piece, and that one is not overlooked. */
  lemma OneMorePiece(p: Peer, p': Peer, p'': Peer, backlog: nat, before: seq<Inactive>, now: seq<Inactive>, i: nat)
    requires i < |p.have| && p' == p.(have := p.have[i := true]) && Heeds(p', p'', backlog, before, now, {})
    requires AnsweredTo(p'', backlog, now, i)
    ensures Heeds(p, p'', backlog, before, now, {})
  {
    forall j: nat | j != i && AnsweredTo(p, backlog, before, j) ensures AnsweredTo(p', backlog, before, j) {
    }
    hide AnsweredTo;
  }

  lemma Kept(peers: seq<Peer>, peers': seq<Peer>, backlog: nat, before: seq<Inactive>, now: seq<Inactive>)
    requires AllHeed(peers, peers', backlog, before, now, {}) && AllHeeded(peers, backlog, before)
    ensures AllHeeded(peers', backlog, now)
  {
    hide AnsweredTo;
  }

  lemma OneMoreHeeded(peers: seq<Peer>, backlog: nat, inactive: seq<Inactive>)
    requires peers != [] && AllHeeded(peers[..|peers| - 1], backlog, inactive)
    requires Heeded(peers[|peers| - 1], backlog, inactive)
    ensures AllHeeded(peers, backlog, inactive)
  {
    hide Heeded;
    forall k | 0 <= k < |peers| && k < |peers| - 1 ensures peers[k] == peers[..|peers| - 1][k] {
    }
  }

  lemma NoBacklog(peers: seq<Peer>, inactive: seq<Inactive>)
    ensures AllHeeded(peers, 0, inactive)
  {
  }

  lemma NewIsHeeded(p: Peer, backlog: nat, inactive: seq<Inactive>)
    requires forall i | 0 <= i < |p.have| :: !p.have[i]
    ensures Heeded(p, backlog, inactive)
  {
  }

  lemma KeptWithout(peers: seq<Peer>, k: nat, backlog: nat, inactive: seq<Inactive>)
    requires AllHeeded(peers, backlog, inactive) && k < |peers|
    ensures AllHeeded(Without(peers, k), backlog, inactive)
  {
    hide AnsweredTo;
  }

  // ---- After a piece turned out wrong ----

  /** No peer that chokes us was newly told of our interest. */
  ghost predicate Quiet(peers: seq<Peer>, peers': seq<Peer>) {
    |peers'| == |peers| && forall k | 0 <= k < |peers| && peers'[k].choked && peers'[k].interested ::
        peers[k].interested
  }

  lemma QuietTwice(a: seq<Peer>, b: seq<Peer>, c: seq<Peer>)
    requires Quiet(a, b) && Quiet(b, c) && Wires(b) == Wires(c)
    ensures Quiet(a, c)
  {
    forall k | 0 <= k < |a| ensures b[k].choked == c[k].choked { WireAt(b, c, k); }
  }

  lemma NothingTold(peers: seq<Peer>)
    ensures Quiet(peers, peers)
  {
  }

  lemma QuietOne(peers: seq<Peer>, k: nat, p: Peer)
    requires k < |peers| && (p.choked && p.interested ==> peers[k].interested)
    ensures Quiet(peers, peers[k := p]) && Quiet(peers, peers)
  {
  }

  /** From `peers` to `peers'` peer `k` sent the last block of piece `i`, which turned out wrong. Other peers are newly
      overlooked at most for that piece; it was offered to those that do not choke us, and to no other that did not know
      of our interest. */
  ghost predicate Failed(peers: seq<Peer>, peers': seq<Peer>, backlog: nat, before: seq<Inactive>, now: seq<Inactive>,
                         k: nat, i: nat)
  {
    && OthersHeed(peers, peers', backlog, before, now, {i}, k)
    && forall j | 0 <= j < |peers'| :: FailedAt(peers[j], peers'[j], backlog, now, i)
  }

  ghost predicate FailedAt(p: Peer, p': Peer, backlog: nat, now: seq<Inactive>, i: nat) {
    if !p'.choked then AnsweredTo(p', backlog, now, i)
    else (p'.interested ==> p.interested) && (p.interested ==> AnsweredTo(p', backlog, now, i))
  }

  /** `a` to `b`: the block came from peer `k`. `b` to `c`: the piece was offered. */
  lemma FailedSince(a: seq<Peer>, b: seq<Peer>, c: seq<Peer>, backlog: nat, before: seq<Inactive>, mid: seq<Inactive>,
                    now: seq<Inactive>, k: nat, i: nat)
    requires k < |a| && OthersHeed(a, b, backlog, before, mid, {i}, k) && AllHeed(b, c, backlog, mid, now, {})
    requires b == a[k := b[k]] && Wires(b) == Wires(c) && !b[k].choked && Quiet(b, c) && backlog > 0
    requires forall j | 0 <= j < |c| && !c[j].choked :: AnsweredTo(c[j], backlog, now, i)
    ensures Failed(a, c, backlog, before, now, k, i)
  {
    OthersAfter(a, b, c, backlog, before, mid, now, {i}, k);
    forall j | 0 <= j < |c| ensures FailedAt(a[j], c[j], backlog, now, i) {
      WireAt(b, c, j);
      if c[j].choked && a[j].interested {
        assert j != k && b[j] == a[j] && AnsweredTo(b[j], backlog, mid, i);
        assert Heeds(b[j], c[j], backlog, mid, now, {});
      }
    }
  }

  /** Whether anybody is overlooked after that, if nobody was before: only if a block of the piece is left that some
      peer had which chokes us and did not know of our interest, or if the sender is asked for less than it could be. */
  lemma AfterFailure(peers: seq<Peer>, peers': seq<Peer>, backlog: nat, before: seq<Inactive>, now: seq<Inactive>,
                     k: nat, i: nat)
    requires AllHeeded(peers, backlog, before) && Failed(peers, peers', backlog, before, now, k, i)
    requires Wires(peers') == Wires(peers) && k < |peers| && backlog > 0 && !peers[k].choked
    ensures AllHeeded(peers', backlog, now) <==> Spared(peers, peers'[k], backlog, now, i)
  {
    hide AnsweredTo, Wires;
    forall j | 0 <= j < |peers| ensures peers'[j].choked == peers[j].choked && peers'[j].have == peers[j].have {
      WireAt(peers, peers', j);
    }
    if AllHeeded(peers', backlog, now) {
      assert Heeded(peers'[k], backlog, now);
      SenderServed(peers'[k], backlog, now);
      forall j | 0 <= j < |peers| && peers[j].choked && OffersPiece(peers[j], now, i) ensures peers[j].interested {
        assert Heeded(peers'[j], backlog, now) && AnsweredTo(peers'[j], backlog, now, i);
        ToldIfAnswered(peers'[j], backlog, now, i);
        assert FailedAt(peers[j], peers'[j], backlog, now, i);
      }
    }
    if Spared(peers, peers'[k], backlog, now, i) {
      SenderServed(peers'[k], backlog, now);
      forall j, h: nat | 0 <= j < |peers'| && j != k ensures AnsweredTo(peers'[j], backlog, now, h) {
        if h != i {
          assert Heeded(peers[j], backlog, before) && Heeds(peers[j], peers'[j], backlog, before, now, {i});
          assert AnsweredTo(peers[j], backlog, before, h);
        } else {
          assert FailedAt(peers[j], peers'[j], backlog, now, i);
          AnsweredUnlessOffered(peers[j], peers'[j], backlog, now, i);
        }
      }
    }
  }

  /** The sender is served, and nobody who chokes us and has a block of piece `i` to offer lacks knowledge of our
      interest. */
  ghost predicate Spared(peers: seq<Peer>, sender: Peer, backlog: nat, now: seq<Inactive>, i: nat) {
    && (|sender.active| >= backlog || !Offers(sender, now))
    && forall j | 0 <= j < |peers| && peers[j].choked && OffersPiece(peers[j], now, i) :: peers[j].interested
  }

  lemma SenderServed(p: Peer, backlog: nat, now: seq<Inactive>)
    requires !p.choked
    ensures Heeded(p, backlog, now) <==> |p.active| >= backlog || !Offers(p, now)
  {
    if i: nat :| OffersPiece(p, now, i) {
      if |p.active| < backlog { assert !AnsweredTo(p, backlog, now, i); }
    }
  }

  lemma ToldIfAnswered(p: Peer, backlog: nat, now: seq<Inactive>, i: nat)
    requires AnsweredTo(p, backlog, now, i) && OffersPiece(p, now, i)
    ensures p.choked ==> p.interested
  {
  }

  lemma AnsweredUnlessOffered(p: Peer, p': Peer, backlog: nat, now: seq<Inactive>, i: nat)
    requires p'.have == p.have
    ensures OffersPiece(p, now, i) || AnsweredTo(p', backlog, now, i)
  {
  }
}
