/** Asking peers for blocks. */
module Downloaders {
  import opened Attention
  import opened Basics
  import opened Blocks
  import opened Choosing
  import opened PiecePickers
  import Storages
  import opened Stores
  import opened StorageWrappers
  import opened Swarms

  /** random.shuffle: any ordering of the elements. */
  method Shuffle<T(==)>(s: seq<T>) returns (r: seq<T>)
    ensures multiset(r) == multiset(s) && |r| == |s|
    ensures forall x :: x in r <==> x in s
    ensures NoDup(s) ==> NoDup(r)
  {
    r := [];
    var rest := s;
    while rest != []
      invariant multiset(r + rest) == multiset(s)
      decreases |rest|
    {
      var k :| 0 <= k < |rest|;
      assert rest == rest[..k] + [rest[k]] + rest[k + 1..];
      r := r + [rest[k]];
      rest := rest[..k] + rest[k + 1..];
    }
    assert r + rest == r;
    SameElements(r, s);
  }

  predicate AllTrue(have: seq<bool>) {
    forall i | 0 <= i < |have| :: have[i]
  }

  class SingleDownload {
    const downloader: Downloader
    var choked: bool
    var interested: bool
    var activeRequests: seq<Request>
    var have: seq<bool>
    var exampleInterest: Option<nat>
    /** What was sent on, and received from, the connection. */
    var history: seq<Message>
    /** Whether we closed the connection. */
    var closed: bool

    constructor (downloader: Downloader)
      ensures this.downloader == downloader && State() == Peer(true, false, [], have, [])
      ensures have == seq(downloader.numpieces, _ => false) && exampleInterest == None && !closed
    {
      this.downloader := downloader;
      choked, interested, activeRequests := true, false, [];
      have := seq(downloader.numpieces, _ => false);
      exampleInterest := None;
      history, closed := [], false;
    }

    ghost function State(): Peer
      reads this
    {
      Peer(choked, interested, activeRequests, have, history)
    }

    /** In endgame: asks for what is outstanding elsewhere, as far as the backlog allows. */
    method FixDownloadEndgame()
      requires PeerOK(State(), downloader.numpieces, downloader.backlog)
      requires NoDup(downloader.allRequests) && forall r | r in downloader.allRequests :: r.index < downloader.numpieces
      requires forall r | r in activeRequests :: r in downloader.allRequests
      modifies this`interested, this`activeRequests, this`history
      ensures PeerOK(State(), downloader.numpieces, downloader.backlog)
      ensures Content(State(), downloader.backlog, downloader.storage.inactive, downloader.allRequests, true)
      ensures forall r | r in activeRequests :: r in old(activeRequests) || r in downloader.allRequests
      ensures forall r | r in old(activeRequests) :: r in activeRequests
      ensures var want := Wanted(downloader.allRequests, have, old(activeRequests));
        && interested == (old(activeRequests) != [] || want != [])
        && |activeRequests| == if choked then 0 else Min(downloader.backlog, |old(activeRequests)| + |want|)
    {
      hide PeerOK, NoDup, Wanted, Sends, Content;
      ghost var p0 := State();
      PeerHave(p0, downloader.numpieces, downloader.backlog);
      var want := Wanted(downloader.allRequests, have, activeRequests);
      if interested && activeRequests == [] && want == [] {
        interested := false;
        history := history + [ToldNotInterested];
        LoseInterest(p0, downloader.numpieces, downloader.backlog);
        ContentAsked(p0, State(), downloader.numpieces, downloader.backlog, downloader.storage.inactive,
                     downloader.allRequests, want);
        return;
      }
      if !interested && want != [] {
        interested := true;
        history := history + [ToldInterested];
        ShowInterest(p0, downloader.numpieces, downloader.backlog);
      }
      ghost var p1 := State();
      if choked {
        ContentAsked(p0, p1, downloader.numpieces, downloader.backlog, downloader.storage.inactive,
                     downloader.allRequests, want);
        return;
      }
      want := Shuffle(want);
      ghost var all := want;
      want := want[..Min(|want|, downloader.backlog - |activeRequests|)];
      Ask(p1, downloader.numpieces, downloader.backlog, want);
      activeRequests := activeRequests + want;
      history := history + Sends(want);
      ContentAsked(p0, State(), downloader.numpieces, downloader.backlog, downloader.storage.inactive,
                   downloader.allRequests, all);
    }

    /** In endgame, block `q` came from another peer: this one is not asked for it any more, but for other blocks. */
    method CancelFor(q: Request, ghost all0: seq<Request>)
      requires PeerOK(State(), downloader.numpieces, downloader.backlog)
      requires NoDup(downloader.allRequests) && ListedBut(all0, downloader.allRequests, q)
      requires forall r | r in downloader.allRequests :: r.index < downloader.numpieces
      requires forall r | r in activeRequests :: r in downloader.allRequests || r == q
      requires Content(State(), downloader.backlog, downloader.storage.inactive, all0, true)
      modifies this`interested, this`activeRequests, this`history
      ensures PeerOK(State(), downloader.numpieces, downloader.backlog) && q !in activeRequests
      ensures Content(State(), downloader.backlog, downloader.storage.inactive, downloader.allRequests, true)
      ensures forall r | r in activeRequests :: (r in old(activeRequests) && r != q) || r in downloader.allRequests
    {
      hide PeerOK, NoDup, Content;
      PeerHave(State(), downloader.numpieces, downloader.backlog);
      if interested && choked {
        FixDownloadEndgame();
      } else if interested && q in activeRequests {
        RemovedFrom(State(), downloader.numpieces, downloader.backlog, q);
        Settle(State(), downloader.numpieces, downloader.backlog, q, ToldCancel(q));
        RemovedSubset(activeRequests, q);
        activeRequests, history := Removed(activeRequests, q), history + [ToldCancel(q)];
        FixDownloadEndgame();
      } else {
        ContentCancelled(State(), downloader.numpieces, downloader.backlog, downloader.storage.inactive, all0,
                         downloader.allRequests, q);
      }
    }

    /** `_want`, for the states of this peer and of the storage at the time of the call. */
    function Want(): nat -> bool
      reads this, downloader, downloader.storage
    {
      var hv, ia := have, downloader.storage.inactive;
      (i: nat) => i < |hv| && i < |ia| && hv[i] && HasRequests(ia[i])
    }

    /** One turn of the loop in `_request_more`: asks for the next block of piece `interest`. */
    method AskFor(interest: nat, ghost indices: Option<seq<nat>>, ghost k: nat)
      requires downloader.ValidAs(false) && k < |downloader.downloads| && downloader.downloads[k] == this
      requires !choked && |activeRequests| < downloader.backlog && Want()(interest)
      requires downloader.storage.storage.Valid() && !downloader.storage.endgame
      requires Right(downloader.SceneNow(), k, interest, indices)
      modifies this`interested, this`exampleInterest, this`activeRequests, this`history
      modifies downloader.storage`inactive, downloader.storage`numactive, downloader.storage`amountInactive
      modifies downloader.storage`endgame, downloader.storage`active
      modifies downloader.picker`started, downloader.picker`seedstarted
      ensures downloader.ValidAs(false) && |activeRequests| == |old(activeRequests)| + 1 && interested
      ensures interest < |old(downloader.storage.inactive)| == |downloader.storage.inactive|
      ensures downloader.storage.inactive
        == old(downloader.storage.inactive)[interest := downloader.storage.inactive[interest]]
      ensures HasRequests(old(downloader.storage.inactive)[interest])
      ensures Progress(old(downloader.storage.State()), downloader.storage.State())
      ensures downloader.storage.endgame ==> old(downloader.storage.endgame) || downloader.NothingToRequest()
      ensures downloader.storage.storage.Valid()
      ensures Led(old(downloader.SceneNow()), downloader.SceneNow(), Terms(Some(k), indices, downloader.backlog))
    {
      hide Downloader.Wired, Downloader.Peers, Swarming, StorageWrapper.Valid, Storages.Storage.Valid,
        PiecePicker.Valid, Progress, BlockRequested, Shape, Inv, NoDup, Wires, Led, Right;
      downloader.WiredFacts(interest, k);
      ghost var s0, peers0, v0 := downloader.storage.State(), downloader.Peers(), downloader.SceneNow();
      PeerFacts(peers0, downloader.numpieces, downloader.backlog, downloader.storage.active, downloader.allRequests,
                false, downloader.picker.num, downloader.storage.have, k);
      var b, bk := downloader.storage.NewRequest(interest);
      downloader.picker.Requested(interest, AllTrue(have));
      ghost var r := Request(interest, b.begin, b.length);
      RequestedFacts(s0, downloader.storage.State(), downloader.storage.sha, interest, bk, b);
      AskStep(peers0, downloader.numpieces, downloader.backlog, s0.active, downloader.allRequests,
              downloader.picker.num, downloader.storage.have, k, r);
      downloader.StillWired();
      assert downloader.storage.State().active == Take(s0.active, r);
      label L:
      Send(interest, b);
      downloader.OnePeer@L(k);
      TurnMade(v0, downloader.storage.State(), downloader.picker.State(), peers0, State(), k, interest, bk, b,
               downloader.storage.sha, Terms(Some(k), indices, downloader.backlog));
    }

    /** Tells the peer of our interest, if it does not know, and asks it for block `b`. */
    method Send(interest: nat, b: Block)
      modifies this`interested, this`exampleInterest, this`activeRequests, this`history
      ensures State() == AskedFor(old(State()), Request(interest, b.begin, b.length))
      ensures exampleInterest == Some(interest)
    {
      var r := Request(interest, b.begin, b.length);
      assert history + [ToldInterested] + [ToldRequest(r)] == history + ([ToldInterested] + [ToldRequest(r)]);
      interested, exampleInterest, activeRequests, history := true, Some(interest), activeRequests + [r],
        history + (if interested then [] else [ToldInterested]) + [ToldRequest(r)];
    }

    /** The loop of `_request_more`: asks for blocks until the backlog is full or nothing more is wanted. Returns the
        pieces of which the last unrequested block was taken. */
    method AskForMore(indices: Option<seq<nat>>, ghost k: nat) returns (lost: seq<nat>)
      requires downloader.ValidAs(false) && k < |downloader.downloads| && downloader.downloads[k] == this && !choked
      requires downloader.storage.storage.Valid() && !downloader.storage.endgame
      requires indices.Some? ==> AllBelow(indices.value, downloader.numpieces)
      modifies this`interested, this`exampleInterest, this`activeRequests, this`history
      modifies downloader.storage`inactive, downloader.storage`numactive, downloader.storage`amountInactive
      modifies downloader.storage`endgame, downloader.storage`active
      modifies downloader.picker`started, downloader.picker`seedstarted
      ensures downloader.ValidAs(false) && AllBelow(lost, downloader.numpieces)
      ensures Progress(old(downloader.storage.State()), downloader.storage.State())
      ensures downloader.storage.endgame ==> downloader.NothingToRequest()
      ensures MoreToRequest(downloader.storage.inactive, old(downloader.storage.inactive))
      ensures LostAmong(old(downloader.storage.inactive), downloader.storage.inactive, lost)
      ensures Sated(indices) && |activeRequests| >= |old(activeRequests)|
      ensures downloader.storage.storage.Valid()
      ensures Led(old(downloader.SceneNow()), downloader.SceneNow(), Terms(Some(k), indices, downloader.backlog))
    {
      hide Downloader.Peers, Downloader.Wired, Swarming, StorageWrapper.Valid, Storages.Storage.Valid,
        PiecePicker.Valid, Progress, Shape, Inv, PiecePicker.NextIs, AllBelow, Wires, SingleDownload.Sated, LostAmong,
        MoreToRequest, Led, Right, Downloader.SceneNow, FirstWanted, StorageWrapper.State, Downloader.ValidAs,
        SingleDownload.Want, Downloader.NothingToRequest;
      lost := [];
      AllBelowNone(downloader.numpieces);
      downloader.ValidFacts(false, k);
      ghost var s0, before := downloader.storage.State(), downloader.storage.inactive;
      ProgressRefl(s0);
      TakenNone(before);
      ghost var v0, t := downloader.SceneNow(), Terms(Some(k), indices, downloader.backlog);
      NothingAsked(v0, t);
      while |activeRequests| < downloader.backlog
        invariant downloader.ValidAs(false) && !choked && |have| == downloader.numpieces
        invariant |activeRequests| >= |old(activeRequests)|
        invariant AllBelow(lost, downloader.numpieces)
        invariant Progress(s0, downloader.storage.State())
        invariant downloader.storage.endgame ==> downloader.NothingToRequest()
        invariant downloader.storage.storage.Valid() && Led(v0, downloader.SceneNow(), t)
        invariant MoreToRequest(downloader.storage.inactive, before)
        invariant LostAmong(before, downloader.storage.inactive, lost)
        decreases downloader.backlog - |activeRequests|
      {
        ghost var s1, now, v1 := downloader.storage.State(), downloader.storage.inactive, downloader.SceneNow();
        var interest := ChooseInterest(indices, k);
        if interest == None {
          NothingToAsk(indices, k);
          return;
        }
        StillBefore(interest.value);
        AskFor(interest.value, indices, k);
        LedOn(v0, v1, downloader.SceneNow(), t);
        downloader.ValidFacts(false, k);
        ProgressTrans(s0, s1, downloader.storage.State());
        TakenOne(before, now, downloader.storage.inactive, lost, interest.value);
        if !downloader.storage.DoIHaveRequests(interest.value) {
          AllBelowAppend(lost, downloader.numpieces, interest.value);
          lost := lost + [interest.value];
        }
      }
      Full(indices);
    }

    lemma StillBefore(interest: nat)
      requires Want()(interest) && (downloader.storage.endgame ==> downloader.NothingToRequest())
      ensures !downloader.storage.endgame
    {
    }

    /** The peer is asked for as much as the backlog allows, or cannot be asked for more (of the given pieces). */
    ghost predicate Sated(indices: Option<seq<nat>>)
      reads this, downloader, downloader.storage
    {
      |activeRequests| >= downloader.backlog ||
      forall i: nat | indices.Some? ==> i in indices.value :: !OffersPiece(State(), downloader.storage.inactive, i)
    }

    lemma Full(indices: Option<seq<nat>>)
      requires |activeRequests| >= downloader.backlog
      ensures Sated(indices)
    {
    }

    /** If no piece was chosen, none can be asked for. */
    lemma NothingToAsk(indices: Option<seq<nat>>, k: nat)
      requires downloader.ValidAs(false) && k < |downloader.downloads| && downloader.downloads[k] == this
      requires if indices.Some? then forall i | i in indices.value :: !Want()(i)
               else downloader.picker.NextIs(Want(), AllTrue(have), None)
      ensures Sated(indices)
    {
      hide Downloader.Peers, Downloader.Wired, Swarming, StorageWrapper.Valid, Storages.Storage.Valid,
        PiecePicker.Valid, Shape, Inv;
      downloader.ValidFacts(false, k);
      WantedCounted(k);
      downloader.picker.Scrambled();
    }

    /** What is wanted is what can be asked for, and is counted by the picker. */
    lemma WantedCounted(k: nat)
      requires downloader.ValidAs(false) && k < |downloader.downloads| && downloader.downloads[k] == this
      ensures forall i: nat :: Want()(i) <==> OffersPiece(State(), downloader.storage.inactive, i)
      ensures forall i: nat | Want()(i) ::
        i < downloader.numpieces == |downloader.picker.num| && downloader.picker.num[i].Some?
            && 0 < downloader.picker.num[i].value < TOO_MANY
    {
      hide Downloader.Peers, Downloader.Wired, Swarming, StorageWrapper.Valid, Storages.Storage.Valid,
        PiecePicker.Valid, Shape, Inv;
      forall i: nat | Want()(i)
        ensures i < downloader.numpieces == |downloader.picker.num|
        ensures downloader.picker.num[i].Some? && 0 < downloader.picker.num[i].value < TOO_MANY
      {
        downloader.Countable(k, i);
      }
    }

    /** What is wanted from this peer, as one value tells. */
    lemma WantedIs(k: nat)
      requires downloader.storage.storage.Valid() && k < |downloader.downloads| && downloader.downloads[k] == this
      ensures forall i: nat :: WantedFrom(downloader.SceneNow(), k, i) <==> Want()(i)
      ensures StartedFor(downloader.SceneNow(), k)
        == if AllTrue(have) then downloader.picker.seedstarted else downloader.picker.started
    {
      hide Downloader.Peers;
      downloader.PeersAre();
    }

    /** The picker's choice is the right one. */
    lemma ChoiceIsRight(interest: nat, k: nat)
      requires downloader.ValidAs(false) && k < |downloader.downloads| && downloader.downloads[k] == this
      requires downloader.storage.storage.Valid() && downloader.picker.Valid()
      requires downloader.picker.NextIs(Want(), AllTrue(have), Some(interest))
      ensures Chosen(downloader.SceneNow(), k, interest)
    {
      hide Downloader.Peers, Downloader.Wired, Swarming, StorageWrapper.Valid, Storages.Storage.Valid,
        PiecePicker.Valid, Shape, Inv;
      WantedCounted(k);
      WantedIs(k);
      downloader.picker.Scrambled();
      hide WantedFrom, SingleDownload.Want, Downloader.ValidAs, StartedFor;
      ghost var v, s, num := downloader.SceneNow(), StartedFor(downloader.SceneNow(), k), downloader.picker.num;
      assert forall p: nat | Want()(p) :: HoldersOf(v, p) == num[p].value;
      if p: nat :| StartedWanted(v, k, p) {
        assert p in s && Want()(p) && num[p].value < TOO_MANY;
        assert interest in s;
      } else {
        forall p: nat | p in s ensures !Want()(p) {
          assert !StartedWanted(v, k, p);
        }
      }
    }

    /** What was done to interest does not matter to what can be asked for. */
    twostate lemma StillSated(indices: Option<seq<nat>>)
      requires old(Sated(indices)) && activeRequests == old(activeRequests) && have == old(have)
      requires downloader.storage.inactive == old(downloader.storage.inactive)
      ensures Sated(indices)
    {
      forall i: nat ensures OffersPiece(State(), downloader.storage.inactive, i)
          <==> old(OffersPiece(State(), downloader.storage.inactive, i)) {
      }
    }

    // ---- Events ----

    /** The first part of `_letgo`: everything this peer was asked for is to be requested again. `ps` are the peers
        among which the outstanding blocks are shared out, this one at `k`. */
    method GiveBack(ghost ps: seq<Peer>, ghost k: nat) returns (lost: seq<nat>)
      requires downloader.storage.Valid() && downloader.storage.g.n == downloader.numpieces
      requires downloader.storage.storage.Valid()
      requires k < |ps| && ps[k].active == activeRequests && NoDup(activeRequests)
      requires Exclusive(ps, downloader.storage.active)
      modifies downloader.storage`inactive, downloader.storage`numactive, downloader.storage`amountInactive
      modifies downloader.storage`active
      ensures downloader.storage.Valid() && AllBelow(lost, downloader.numpieces)
      ensures Exclusive(ps[k := ps[k].(active := [])], downloader.storage.active)
      ensures Progress(old(downloader.storage.State()), downloader.storage.State())
      ensures MoreToRequest(old(downloader.storage.inactive), downloader.storage.inactive)
      ensures LostAmong(downloader.storage.inactive, old(downloader.storage.inactive), lost)
      ensures forall r | r in activeRequests :: r.index in lost && Requestable(downloader.storage.inactive, r.index)
      ensures downloader.storage.storage.Valid()
      ensures downloader.storage.State() == GivenBack(old(downloader.storage.State()), activeRequests)
      ensures lost == PiecesOf(activeRequests)
    {
      hide StorageWrapper.Valid, Storages.Storage.Valid, Progress, Shape, Inv, Exclusive, AllBelow, NoDup, Without,
        GivenBack, Returned, PiecesOf;
      lost := [];
      NoneGivenBack(downloader.storage.State());
      AllBelowNone(downloader.numpieces);
      downloader.storage.Inner();
      ghost var s0 := downloader.storage.State();
      ProgressRefl(s0);
      ghost var rest := activeRequests;
      assert ps[k := ps[k].(active := activeRequests)] == ps;
      for m := 0 to |activeRequests|
        invariant downloader.storage.Valid() && AllBelow(lost, downloader.numpieces) && NoDup(rest)
        invariant rest == activeRequests[m..] && Exclusive(ps[k := ps[k].(active := rest)], downloader.storage.active)
        invariant downloader.storage.storage.Valid() && Progress(s0, downloader.storage.State())
        invariant MoreToRequest(old(downloader.storage.inactive), downloader.storage.inactive)
        invariant LostAmong(downloader.storage.inactive, old(downloader.storage.inactive), lost)
        invariant forall j | 0 <= j < m ::
          activeRequests[j].index in lost && Requestable(downloader.storage.inactive, activeRequests[j].index)
        invariant downloader.storage.State() == GivenBack(s0, activeRequests[..m])
        invariant lost == PiecesOf(activeRequests[..m])
      {
        var r := activeRequests[m];
        OneGivenBack(s0, activeRequests, m);
        ghost var s1, peers := downloader.storage.State(), ps[k := ps[k].(active := rest)];
        assert rest[0] == r && rest[1..] == activeRequests[m + 1..];
        DropFirst(rest);
        HeldOutstanding(peers, s1.active, k, r);
        DropExclusive(peers, s1.active, k, r, ps[k].(active := rest[1..]));
        assert peers[k := ps[k].(active := rest[1..])] == ps[k := ps[k].(active := rest[1..])];
        downloader.storage.Inner();
        LostFacts(s1, downloader.storage.sha, r.index, Block(r.begin, r.length));
        downloader.storage.RequestLost(r.index, r.begin, r.length);
        LostIsReturned(s1, r);
        ProgressTrans(s0, s1, downloader.storage.State());
        if r.index !in lost {
          AllBelowAppend(lost, downloader.numpieces, r.index);
          lost := lost + [r.index];
        }
        rest := rest[1..];
        assert downloader.storage.State().active == Drop(s1.active, r);
        downloader.storage.Inner();
      }
      assert activeRequests[..|activeRequests|] == activeRequests;
    }

    /** `_letgo` up to the point where other peers are asked: this peer is asked for nothing any more. */
    method LetGo(ghost ps: seq<Peer>, ghost k: nat) returns (lost: seq<nat>)
      requires downloader.storage.Valid() && downloader.storage.g.n == downloader.numpieces
      requires downloader.storage.storage.Valid()
      requires k < |ps| && ps[k].active == activeRequests && NoDup(activeRequests)
      requires Shared(ps, downloader.storage.active, downloader.allRequests, downloader.storage.endgame)
      modifies this`activeRequests
      modifies downloader.storage`inactive, downloader.storage`numactive, downloader.storage`amountInactive
      modifies downloader.storage`active
      ensures activeRequests == [] && downloader.storage.Valid() && AllBelow(lost, downloader.numpieces)
      ensures Shared(ps[k := ps[k].(active := [])], downloader.storage.active, downloader.allRequests,
                     downloader.storage.endgame)
      ensures Progress(old(downloader.storage.State()), downloader.storage.State())
      ensures MoreToRequest(old(downloader.storage.inactive), downloader.storage.inactive)
      ensures LostAmong(downloader.storage.inactive, old(downloader.storage.inactive), lost)
      ensures downloader.storage.endgame ==>
        downloader.storage.inactive == old(downloader.storage.inactive) && lost == []
      ensures !downloader.storage.endgame ==>
        forall r | r in old(activeRequests) :: r.index in lost && Requestable(downloader.storage.inactive, r.index)
      ensures downloader.storage.storage.Valid()
      ensures !downloader.storage.endgame ==>
        && downloader.storage.State() == GivenBack(old(downloader.storage.State()), old(activeRequests))
        && lost == PiecesOf(old(activeRequests))
    {
      hide StorageWrapper.Valid, Storages.Storage.Valid, Progress, Shape, Inv, Exclusive, Covered, NoDup, AllBelow,
        GivenBack, PiecesOf;
      NoneGivenBack(downloader.storage.State());
      lost := [];
      AllBelowNone(downloader.numpieces);
      downloader.storage.Inner();
      ProgressRefl(downloader.storage.State());
      if activeRequests == [] {
        assert ps[k := ps[k].(active := [])] == ps;
        return;
      }
      if downloader.storage.endgame {
        CoveredWithout(ps, downloader.storage.active, downloader.allRequests, k);
        activeRequests := [];
        return;
      }
      lost := GiveBack(ps, k);
      activeRequests := [];
    }

    /** The peer chokes us: what it was asked for goes to others. */
    method GotChoke(ghost k: nat)
      requires downloader.Valid() && k < |downloader.downloads| && downloader.downloads[k] == this
      modifies downloader`allRequests, this`choked
      modifies downloader.downloads`interested, downloader.downloads`exampleInterest
      modifies downloader.downloads`activeRequests, downloader.downloads`history
      modifies downloader.storage`inactive, downloader.storage`numactive, downloader.storage`amountInactive
      modifies downloader.storage`endgame, downloader.storage`active
      modifies downloader.picker`started, downloader.picker`seedstarted
      ensures downloader.Valid() && downloader.downloads == old(downloader.downloads) && choked
      ensures Progress(old(downloader.storage.State()), downloader.storage.State())
      ensures forall d, r | d in downloader.downloads && r in old(activeRequests) && !old(choked) :: d.Answered(r.index)
      ensures downloader.Heeding(old(downloader.Peers()), old(downloader.storage.inactive), {})
      ensures !old(downloader.storage.endgame) ==>
        downloader.Rightly(OnceChoked(old(downloader.SceneNow()), k), None, Some(PiecesOf(old(activeRequests))))
    {
      hide Downloader.Rightly, OnceChoked, PiecesOf, AllHeed, Downloader.Heeding, StorageWrapper.State,
        Downloader.Peers, Downloader.Wired, StorageWrapper.Valid, Storages.Storage.Valid, PiecePicker.Valid, Progress,
        Shape, Inv, PeerOK, Shared, Counted, Wires, Content, Contented, SingleDownload.Answered;
      downloader.ValidFacts(downloader.storage.endgame, k);
      ghost var s0, ps0, before := downloader.storage.State(), downloader.Peers(), downloader.storage.inactive;
      ProgressRefl(s0);
      downloader.NothingNewly();
      ChokedAlready(k);
      if !choked {
        var lost := TurnChoked(k);
        ghost var s1, ps1, now := downloader.storage.State(), downloader.Peers(), downloader.storage.inactive;
        label L:
        downloader.Reassign(lost);
        downloader.HeedingSince(ps0, ps1, before, now, set i | i in lost);
        downloader.AllMadeUp(ps0, before, lost);
        downloader.Replied(lost, old(activeRequests));
        downloader.StillUnchoked@L(k);
        ProgressTrans(s0, s1, downloader.storage.State());
      }
    }

    /** A peer that chokes us already has nothing to give back. */
    lemma ChokedAlready(k: nat)
      requires downloader.Valid() && k < |downloader.downloads| && downloader.downloads[k] == this
      ensures downloader.storage.storage.Valid()
      ensures choked ==> downloader.Rightly(OnceChoked(downloader.SceneNow(), k), None, Some(PiecesOf(activeRequests)))
    {
      hide Downloader.Peers, Downloader.Wired, StorageWrapper.Valid, Storages.Storage.Valid, PiecePicker.Valid, Shape,
        Inv, PeerOK, Shared, Counted, Wires, Contented, GivenBack, AskedRightly;
      downloader.ValidFacts(downloader.storage.endgame, k);
      PeerHave(State(), downloader.numpieces, downloader.backlog);
      NoneGivenBack(downloader.storage.State());
      if choked {
        ghost var v := downloader.SceneNow();
        assert v.lines[k] == LineOf(State()) && OnceChoked(v, k) == v;
        downloader.RightlyNothing(None, Some(PiecesOf(activeRequests)));
      }
    }

    /** The first part of `got_choke`. */
    method TurnChoked(ghost k: nat) returns (lost: seq<nat>)
      requires downloader.Valid() && k < |downloader.downloads| && downloader.downloads[k] == this
      modifies this`choked, this`history, this`activeRequests
      modifies downloader.storage`inactive, downloader.storage`numactive, downloader.storage`amountInactive
      modifies downloader.storage`active
      ensures downloader.Valid() && choked && AllBelow(lost, downloader.numpieces)
      ensures Progress(old(downloader.storage.State()), downloader.storage.State())
      ensures !downloader.storage.endgame ==> forall r | r in old(activeRequests) :: r.index in lost
      ensures AllHeed(old(downloader.Peers()), downloader.Peers(), downloader.backlog, old(downloader.storage.inactive),
                      downloader.storage.inactive, set i | i in lost)
      ensures downloader.storage.storage.Valid()
      ensures !downloader.storage.endgame ==>
        downloader.SceneNow() == OnceChoked(old(downloader.SceneNow()), k) && lost == PiecesOf(old(activeRequests))
    {
      hide Downloader.Valid, Downloader.ValidBut, StorageWrapper.State, Downloader.Peers, Downloader.Wired,
        StorageWrapper.Valid, Storages.Storage.Valid, PiecePicker.Valid, Progress, Shape, Inv, PeerOK, Shared, Counted,
        Wires, Content, Contented, MoreToRequest, AllHeed, Heeds, LostAmong, GivenBack, PiecesOf;
      downloader.Opened(-1);
      downloader.ValidFacts(downloader.storage.endgame, k);
      ghost var ps, before := downloader.Peers(), downloader.storage.inactive;
      PeerHave(State(), downloader.numpieces, downloader.backlog);
      PeerHolds(State(), downloader.numpieces, downloader.backlog);
      choked, history := true, history + [HeardChoke];
      lost := LetGo(ps, k);
      ChokeStep(ps, downloader.numpieces, downloader.backlog, downloader.storage.active, downloader.allRequests,
                downloader.storage.endgame, downloader.picker.num, downloader.storage.have, k);
      downloader.OnePeer(k);
      LinesUpdate(ps, k, State());
      ContentReleased(ps, k, State(), downloader.backlog, before, downloader.storage.inactive, downloader.allRequests,
                      downloader.storage.endgame);
      downloader.Closed(-1);
      MoreToHeed(ps, downloader.backlog, before, downloader.storage.inactive, lost);
      ChokedHeeds(ps[k], State(), downloader.backlog, before, downloader.storage.inactive, lost);
      OneHeeds(ps, k, State(), downloader.backlog, before, downloader.storage.inactive, set i | i in lost);
    }

    method GotUnchoke(ghost k: nat)
      requires downloader.Valid() && k < |downloader.downloads| && downloader.downloads[k] == this
      modifies downloader`allRequests, this`choked
      modifies downloader.downloads`interested, downloader.downloads`exampleInterest
      modifies downloader.downloads`activeRequests, downloader.downloads`history
      modifies downloader.storage`inactive, downloader.storage`numactive, downloader.storage`amountInactive
      modifies downloader.storage`endgame, downloader.storage`active
      modifies downloader.picker`started, downloader.picker`seedstarted
      ensures downloader.Valid() && downloader.downloads == old(downloader.downloads) && !choked
      ensures Progress(old(downloader.storage.State()), downloader.storage.State())
      ensures old(choked && interested) && !downloader.storage.endgame ==> Sated(None)
      ensures downloader.Heeding(old(downloader.Peers()), old(downloader.storage.inactive), {})
      ensures downloader.Rightly(OnceUnchoked(old(downloader.SceneNow()), k), Some(k), None)
    {
      hide Downloader.Rightly, AskedRightly, AllHeed, Heeds, OthersHeed, Heeded, Downloader.Heeding, Downloader.Valid,
        Downloader.ValidBut, StorageWrapper.State, Downloader.Peers, Downloader.Wired, Swarming, StorageWrapper.Valid,
        Storages.Storage.Valid, PiecePicker.Valid, Progress, Shape, Inv, PeerOK, Wires, Content, Contented,
        SingleDownload.Sated, MoreToRequest;
      downloader.Opened(-1);
      downloader.ValidFacts(downloader.storage.endgame, k);
      ProgressRefl(downloader.storage.State());
      downloader.NothingNewly();
      ghost var v0 := downloader.SceneNow();
      assert v0.lines[k] == LineOf(State());
      if !choked {
        assert OnceUnchoked(v0, k) == v0;
      }
      downloader.RightlyNothing(Some(k), None);
      if choked {
        ghost var ps, before := downloader.Peers(), downloader.storage.inactive;
        Unchoke(State(), downloader.numpieces, downloader.backlog);
        ContentBut(ps, downloader.backlog, downloader.storage.inactive, downloader.allRequests,
                   downloader.storage.endgame, k);
        choked := false;
        PeerStep(ps, downloader.numpieces, downloader.backlog, downloader.storage.active, downloader.allRequests,
                 downloader.storage.endgame, downloader.picker.num, downloader.storage.have, k, State());
        downloader.OnePeer(k);
        LinesUpdate(ps, k, State());
        assert downloader.SceneNow() == OnceUnchoked(v0, k);
        downloader.RightlyNothing(Some(k), None);
        ghost var ps1 := downloader.Peers();
        NothingHappened(ps, downloader.backlog, before, {});
        ContentUpdate(ps, downloader.backlog, downloader.storage.inactive, downloader.allRequests,
                      downloader.storage.endgame, k, k, State());
        if interested {
          downloader.Closed(k);
          label L:
          RequestMore(None, k);
          downloader.StillUnchoked@L(k);
          OthersSame(ps, k, ps1[k], downloader.backlog, before, before, {});
          downloader.FinallySated(ps, ps1, before, before, k);
        } else {
          UnchokedHeeds(ps[k], State(), downloader.backlog, before);
          OneHeeds(ps, k, State(), downloader.backlog, before, before, {});
          downloader.HeedingSame(ps, before);
          ContentIdle(ps[k], State(), downloader.backlog, downloader.storage.inactive, downloader.allRequests,
                      downloader.storage.endgame);
          downloader.Closed(-1);
        }
      }
    }

    /** The peer has one more piece. */
    method GotHave(index: nat, ghost k: nat)
      requires downloader.Valid() && k < |downloader.downloads| && downloader.downloads[k] == this
      requires index < downloader.numpieces
      modifies downloader`allRequests, this`have, this`closed
      modifies downloader.downloads`interested, downloader.downloads`exampleInterest
      modifies downloader.downloads`activeRequests, downloader.downloads`history
      modifies downloader.storage`inactive, downloader.storage`numactive, downloader.storage`amountInactive
      modifies downloader.storage`endgame, downloader.storage`active
      modifies downloader.picker`started, downloader.picker`seedstarted
      modifies downloader.picker`interests, downloader.picker`pos, downloader.picker`num
      ensures downloader.Valid() && downloader.downloads == old(downloader.downloads)
      ensures have == old(have)[index := true]
      ensures Progress(old(downloader.storage.State()), downloader.storage.State())
      ensures !old(have)[index] ==> Answered(index)
      ensures closed == (old(closed) || (!old(have)[index] && AllTrue(downloader.storage.have) && AllTrue(have)))
      ensures downloader.Heeding(old(downloader.Peers()), old(downloader.storage.inactive), {})
      ensures downloader.Rightly(OnceHad(old(downloader.SceneNow()), k, index), Some(k), Some([index]))
    {
      hide Downloader.Rightly, Downloader.Heeding, StorageWrapper.State, Downloader.Peers, Downloader.Wired, Swarming,
        StorageWrapper.Valid, Storages.Storage.Valid, PiecePicker.Valid, Progress, Shape, Inv, PeerOK, Completed, Wires,
        Content, Contented, SingleDownload.Answered;
      downloader.StorageOK(downloader.storage.endgame);
      downloader.ValidFacts(downloader.storage.endgame, k);
      ProgressRefl(downloader.storage.State());
      ghost var ps, before := downloader.Peers(), downloader.storage.inactive;
      downloader.NothingNewly();
      assert downloader.SceneNow().lines[k] == LineOf(State());
      if have[index] {
        assert have[index := true] == have;
        downloader.RightlyNothing(Some(k), Some([index]));
        return;
      }
      CountHave(index, k);
      ghost var ps1 := downloader.Peers();
      Respond(index, k);
      downloader.HaveHeeding(ps, ps1, before, k, index);
    }

    /** Before endgame, if the piece can still be requested from this peer, the peer is asked for as much as the backlog
        allows or, if it chokes us, knows of our interest. */
    ghost predicate Answered(index: nat)
      reads this, downloader, downloader.storage
    {
      downloader.storage.endgame || AnsweredTo(State(), downloader.backlog, downloader.storage.inactive, index)
    }

    lemma SatedAnswered(indices: Option<seq<nat>>)
      requires !choked && (!downloader.storage.endgame ==> Sated(indices))
      ensures forall i: nat | indices.Some? ==> i in indices.value :: Answered(i)
    {
    }

    /** The last part of `got_have`: there may now be something to ask this peer for. */
    method Respond(index: nat, ghost k: nat)
      requires downloader.ValidBut(k) && k < |downloader.downloads| && downloader.downloads[k] == this
      requires !downloader.storage.endgame || downloader.allRequests == [] ==> downloader.Valid()
      requires index < downloader.numpieces && downloader.storage.storage.Valid() && index < |have| && have[index]
      modifies downloader`allRequests, this`closed
      modifies downloader.downloads`interested, downloader.downloads`exampleInterest
      modifies downloader.downloads`activeRequests, downloader.downloads`history
      modifies downloader.storage`inactive, downloader.storage`numactive, downloader.storage`amountInactive
      modifies downloader.storage`endgame, downloader.storage`active
      modifies downloader.picker`started, downloader.picker`seedstarted
      ensures downloader.Valid() && downloader.downloads == old(downloader.downloads) && have == old(have)
      ensures Progress(old(downloader.storage.State()), downloader.storage.State())
      ensures Answered(index) && closed == (old(closed) || (AllTrue(downloader.storage.have) && AllTrue(have)))
      ensures downloader.Heeding(old(downloader.Peers()), old(downloader.storage.inactive), {})
      ensures downloader.Rightly(old(downloader.SceneNow()), Some(k), Some([index]))
    {
      hide Downloader.Rightly, Downloader.Heeding, Downloader.Valid, Downloader.ValidBut, StorageWrapper.State,
        Downloader.Peers, Downloader.Wired, Swarming, StorageWrapper.Valid, Storages.Storage.Valid, PiecePicker.Valid,
        Progress, Shape, Inv, PeerOK, Completed, Wires, Content, Contented, MoreToRequest;
      downloader.ValidButOK(k);
      var complete := downloader.picker.AmIComplete();
      if complete && AllTrue(have) {
        ProgressRefl(downloader.storage.State());
        CloseDone(k);
        downloader.NothingNewly();
        downloader.RightlyNothing(Some(k), Some([index]));
        return;
      }
      RespondTo(index, k);
    }

    /** This peer and we have everything: there is nothing to ask for, and the connection is closed. */
    method CloseDone(ghost k: nat)
      requires downloader.ValidBut(k) && k < |downloader.downloads| && downloader.downloads[k] == this
      requires !downloader.storage.endgame || downloader.allRequests == [] ==> downloader.Valid()
      requires |downloader.picker.num| == downloader.numpieces
      requires forall p | 0 <= p < downloader.numpieces :: downloader.picker.num[p] == None
      modifies this`closed
      ensures downloader.Valid() && closed && downloader.NothingToRequest() && AllTrue(downloader.storage.have)
      ensures downloader.Peers() == old(downloader.Peers())
      ensures downloader.storage.endgame ==> downloader.allRequests == []
    {
      hide Downloader.Valid, Downloader.ValidBut, StorageWrapper.State, Downloader.Peers, Downloader.Wired, Swarming,
        StorageWrapper.Valid, Storages.Storage.Valid, PiecePicker.Valid, Wires, Content, Contented;
      downloader.Opened(k);
      if downloader.storage.endgame { downloader.NothingListed(); }
      downloader.NothingLeft(downloader.storage.endgame);
      Close(k);
    }

    method RespondTo(index: nat, ghost k: nat)
      requires downloader.ValidBut(k) && k < |downloader.downloads| && downloader.downloads[k] == this
      requires !downloader.storage.endgame || downloader.allRequests == [] ==> downloader.Valid()
      requires index < downloader.numpieces && downloader.storage.storage.Valid() && index < |have| && have[index]
      modifies downloader`allRequests
      modifies downloader.downloads`interested, downloader.downloads`exampleInterest
      modifies downloader.downloads`activeRequests, downloader.downloads`history
      modifies downloader.storage`inactive, downloader.storage`numactive, downloader.storage`amountInactive
      modifies downloader.storage`endgame, downloader.storage`active
      modifies downloader.picker`started, downloader.picker`seedstarted
      ensures downloader.Valid() && downloader.downloads == old(downloader.downloads)
      ensures Progress(old(downloader.storage.State()), downloader.storage.State())
      ensures Answered(index) && downloader.Heeding(old(downloader.Peers()), old(downloader.storage.inactive), {})
      ensures downloader.Rightly(old(downloader.SceneNow()), Some(k), Some([index]))
    {
      hide Downloader.Rightly, Led, Grows, AllHeed, Heeds, Downloader.Heeding, Downloader.Valid, Downloader.ValidBut,
        StorageWrapper.State, Downloader.Peers, Downloader.Wired, Swarming, StorageWrapper.Valid,
        Storages.Storage.Valid, PiecePicker.Valid, Progress, Shape, Inv, PeerOK, Completed, Wires, Content, Contented,
        MoreToRequest;
      downloader.Opened(k);
      downloader.ValidFacts(downloader.storage.endgame, k);
      ProgressRefl(downloader.storage.State());
      ghost var ps, before, v0 := downloader.Peers(), downloader.storage.inactive, downloader.SceneNow();
      downloader.NothingNewly();
      downloader.RightlyNothing(Some(k), Some([index]));
      NothingAsked(v0, Terms(Some(k), Some([index]), downloader.backlog));
      if downloader.storage.endgame {
        downloader.Fix(this, k);
        downloader.RightlyStands(v0, v0, ps, Some(k), Some([index]));
        ContentUpdate(ps, downloader.backlog, downloader.storage.inactive, downloader.allRequests, true, k, k, State());
        downloader.Closed(-1);
        downloader.OverIsFine(ps, before, {});
      } else if downloader.storage.DoIHaveRequests(index) {
        if !choked {
          AllBelowNone(downloader.numpieces);
          AllBelowAppend([], downloader.numpieces, index);
          assert [] + [index] == [index];
          RequestMore(Some([index]), k);
          SatedAnswered(Some([index]));
        } else if !interested {
          AskForIt(index, k);
          GrowsIf(ps, k, State());
          downloader.RightlyStands(v0, v0, ps, Some(k), Some([index]));
          NothingHappened(ps, downloader.backlog, before, {});
          AskedHeeds(ps[k], State(), downloader.backlog, before, before);
          OneHeeds(ps, k, State(), downloader.backlog, before, before, {});
          downloader.HeedingSame(ps, before);
        }
      }
    }

    /** A peer that chokes us has something that can be requested: we are interested. */
    method AskForIt(index: nat, ghost k: nat)
      requires downloader.ValidBut(k) && k < |downloader.downloads| && downloader.downloads[k] == this
      requires !downloader.storage.endgame && OffersPiece(State(), downloader.storage.inactive, index)
      modifies this`interested, this`history
      ensures downloader.Valid() && interested && downloader.SameWires()
      ensures downloader.Peers() == old(downloader.Peers())[k := State()] && State().active == old(State()).active
    {
      hide Downloader.Valid, Downloader.ValidBut, StorageWrapper.State, Downloader.Peers, Downloader.Wired, Swarming,
        StorageWrapper.Valid, Storages.Storage.Valid, PiecePicker.Valid, Shape, Inv, PeerOK, Wires, Contented;
      ghost var ps := downloader.Peers();
      downloader.Opened(k);
      downloader.ValidFacts(false, k);
      downloader.Interest(this, k);
      assert OffersPiece(State(), downloader.storage.inactive, index);
      ContentUpdate(ps, downloader.backlog, downloader.storage.inactive, downloader.allRequests, false, k, k, State());
      downloader.Closed(-1);
    }

    method CountHave(index: nat, ghost k: nat)
      requires downloader.Valid() && k < |downloader.downloads| && downloader.downloads[k] == this
      requires index < downloader.numpieces == |have| && !have[index]
      modifies this`have, downloader.picker`interests, downloader.picker`pos, downloader.picker`num
      ensures downloader.ValidBut(k) && have == old(have)[index := true]
      ensures !downloader.storage.endgame || downloader.allRequests == [] ==> downloader.Valid()
      ensures k < |old(downloader.Peers())| && old(downloader.Peers())[k] == old(State())
      ensures downloader.Peers() == old(downloader.Peers())[k := old(State()).(have := old(have)[index := true])]
      ensures downloader.storage.storage.Valid()
      ensures downloader.SceneNow() == OnceHad(old(downloader.SceneNow()), k, index)
    {
      hide OnceHad, Downloader.SceneNow, Downloader.Valid, Downloader.ValidBut, Downloader.Peers, Downloader.Wired,
        Swarming, StorageWrapper.Valid, Storages.Storage.Valid, PiecePicker.Valid, Contented;
      downloader.Opened(-1);
      ghost var ps := downloader.Peers();
      NoteHave(index, k);
      downloader.StorageOK(downloader.storage.endgame);
      downloader.AfterHave(k, index, ps);
    }

    /** The piece is noted here and counted by the picker. */
    method NoteHave(index: nat, ghost k: nat)
      requires downloader.ValidAs(downloader.storage.endgame)
      requires k < |downloader.downloads| && downloader.downloads[k] == this
      requires index < downloader.numpieces == |have| && !have[index]
      modifies this`have, downloader.picker`interests, downloader.picker`pos, downloader.picker`num
      ensures downloader.ValidAs(downloader.storage.endgame)
      ensures k < |old(downloader.Peers())| && old(downloader.Peers())[k] == old(State())
      ensures State() == old(State()).(have := old(have)[index := true])
      ensures downloader.Peers() == old(downloader.Peers())[k := State()]
      ensures downloader.SceneNow() == OnceHad(old(downloader.SceneNow()), k, index)
    {
      hide StorageWrapper.State, Downloader.Peers, Downloader.Wired, StorageWrapper.Valid, Storages.Storage.Valid,
        PiecePicker.Valid, Swarming, Wires, Shape, Inv, PeerOK, OnceHad, Lines;
      downloader.ValidFacts(downloader.storage.endgame, k);
      ghost var ps, v0 := downloader.Peers(), downloader.SceneNow();
      have := have[index := true];
      HaveStep(ps, downloader.numpieces, downloader.backlog, downloader.storage.active, downloader.allRequests,
               downloader.storage.endgame, downloader.picker.num, downloader.storage.have, k, index, State());
      downloader.picker.GotHave(index);
      downloader.OnePeer(k);
      OnceHadIs(v0, downloader.SceneNow(), ps, k, State(), index);
    }

    /** `connection.close()`, as far as this class can tell. */
    method Close(ghost k: nat)
      requires downloader.Valid() && k < |downloader.downloads| && downloader.downloads[k] == this
      modifies this`closed
      ensures downloader.Valid() && closed && downloader.SameWires() && downloader.Peers() == old(downloader.Peers())
    {
      hide Downloader.Peers, Downloader.Wired, Swarming, StorageWrapper.Valid, Storages.Storage.Valid,
        PiecePicker.Valid, Wires, Content, Contented;
      downloader.StorageOK(downloader.storage.endgame);
      closed := true;
      downloader.StillWired();
    }

    /** The peer's bitfield, which can only be its first message. We are interested exactly in a peer that has something
        to ask for. */
    method GotHaveBitfield(bits: seq<bool>, ghost k: nat)
      requires downloader.Valid() && k < |downloader.downloads| && downloader.downloads[k] == this
      requires |bits| == downloader.numpieces && State() == Peer(true, false, [], seq(|bits|, _ => false), [])
      modifies this`have, this`interested, this`history, this`closed
      modifies downloader.picker`interests, downloader.picker`pos, downloader.picker`num
      ensures downloader.Valid() && have == bits
      ensures interested <==> if downloader.storage.endgame then OffersListed(State(), downloader.allRequests)
                                                            else Offers(State(), downloader.storage.inactive)
      ensures closed == (old(closed) || (AllTrue(downloader.storage.have) && AllTrue(bits)))
      ensures downloader.Heeding(old(downloader.Peers()), old(downloader.storage.inactive), {})
    {
      hide AllHeed, Heeds, Downloader.Heeding, Downloader.Valid, Downloader.ValidBut, StorageWrapper.State,
        Downloader.Peers, Downloader.Wired, Swarming, StorageWrapper.Valid, Storages.Storage.Valid, PiecePicker.Valid,
        PeerOK, Shared, Counted, Wires, Content, Contented;
      downloader.Opened(-1);
      downloader.ValidOK();
      CountBitfield(bits, k);
      Meet(k);
      downloader.Opened(-1);
      downloader.ValidFacts(downloader.storage.endgame, k);
      downloader.OnePeer(k);
      downloader.GreetedHeeds(old(downloader.Peers()), k);
    }

    /** What follows once the peer's pieces are noted. */
    method Meet(ghost k: nat)
      requires downloader.ValidBut(k) && k < |downloader.downloads| && downloader.downloads[k] == this
      requires choked && activeRequests == [] && !interested
      requires !downloader.storage.endgame || downloader.allRequests == [] ==> downloader.Valid()
      modifies this`interested, this`history, this`closed
      ensures downloader.Valid()
      ensures interested <==> if downloader.storage.endgame then OffersListed(State(), downloader.allRequests)
                                                            else Offers(State(), downloader.storage.inactive)
      ensures closed == (old(closed) || (AllTrue(downloader.storage.have) && AllTrue(have)))
    {
      hide Downloader.Valid, Downloader.ValidBut, StorageWrapper.State, Downloader.Peers, Downloader.Wired, Swarming,
        StorageWrapper.Valid, Storages.Storage.Valid, PiecePicker.Valid, PeerOK, Shared, Counted, Wires, Content,
        Contented;
      downloader.Opened(k);
      downloader.ValidFacts(downloader.storage.endgame, k);
      var complete := downloader.picker.AmIComplete();
      if complete && AllTrue(have) {
        CloseDone(k);
      } else {
        Greet(k);
      }
    }

    /** The last part of `got_have_bitfield`: is there anything to ask this peer for? */
    method Greet(ghost k: nat)
      requires downloader.ValidBut(k) && k < |downloader.downloads| && downloader.downloads[k] == this
      requires choked && activeRequests == [] && !interested
      modifies this`interested, this`history
      ensures downloader.Valid()
      ensures interested <==> if downloader.storage.endgame then OffersListed(State(), downloader.allRequests)
                                                            else Offers(State(), downloader.storage.inactive)
    {
      hide StorageWrapper.State, Downloader.Peers, Downloader.Wired, Swarming, StorageWrapper.Valid,
        Storages.Storage.Valid, PiecePicker.Valid, PeerOK, Shared, Counted, Wires, Content, Contented;
      downloader.ValidFacts(downloader.storage.endgame, k);
      if downloader.storage.endgame {
        AllInRange(downloader.Peers(), downloader.numpieces, downloader.backlog, downloader.storage.active,
                   downloader.allRequests, downloader.picker.num, downloader.storage.have);
        for m := 0 to |downloader.allRequests|
          invariant forall j | 0 <= j < m :: !HasPiece(State(), downloader.allRequests[j])
        {
          assert downloader.allRequests[m] in downloader.allRequests;
          if have[downloader.allRequests[m].index] {
            assert HasPiece(State(), downloader.allRequests[m]);
            ShowInterestIn(k);
            return;
          }
        }
      }
      for i := 0 to |have|
        invariant forall j: nat | j < i :: !OffersPiece(State(), downloader.storage.inactive, j)
      {
        if have[i] && downloader.storage.DoIHaveRequests(i) {
          assert OffersPiece(State(), downloader.storage.inactive, i);
          ShowInterestIn(k);
          return;
        }
      }
      Greeted(k);
    }

    /** A new peer is told of our interest: it has something to ask for. */
    method ShowInterestIn(ghost k: nat)
      requires downloader.ValidBut(k) && k < |downloader.downloads| && downloader.downloads[k] == this
      requires choked && activeRequests == []
      requires if downloader.storage.endgame then OffersListed(State(), downloader.allRequests)
                                             else Offers(State(), downloader.storage.inactive)
      modifies this`interested, this`history
      ensures downloader.Valid() && interested
      ensures if downloader.storage.endgame then OffersListed(State(), downloader.allRequests)
                                            else Offers(State(), downloader.storage.inactive)
    {
      hide StorageWrapper.State, Downloader.Peers, Downloader.Wired, Swarming, StorageWrapper.Valid,
        Storages.Storage.Valid, PiecePicker.Valid, PeerOK, Shared, Counted, Wires, Content, Contented;
      ghost var ps := downloader.Peers();
      downloader.ValidFacts(downloader.storage.endgame, k);
      label L:
      downloader.Interest(this, k);
      SameOffers@L();
      ContentUpdate(ps, downloader.backlog, downloader.storage.inactive, downloader.allRequests,
                    downloader.storage.endgame, k, k, State());
      downloader.ValidFacts(downloader.storage.endgame, k);
      Greeted(k);
    }

    /** What a peer has to offer does not depend on interest. */
    twostate lemma SameOffers()
      requires have == old(have) && downloader.storage.inactive == old(downloader.storage.inactive)
      requires downloader.allRequests == old(downloader.allRequests)
      ensures OffersListed(State(), downloader.allRequests) == old(OffersListed(State(), downloader.allRequests))
      ensures Offers(State(), downloader.storage.inactive) == old(Offers(State(), downloader.storage.inactive))
    {
      forall r ensures HasPiece(State(), r) == old(HasPiece(State(), r)) {
      }
      forall i: nat ensures OffersPiece(State(), downloader.storage.inactive, i)
          == old(OffersPiece(State(), downloader.storage.inactive, i)) {
      }
    }

    /** A peer that chokes us is in order when we are interested exactly with reason. */
    lemma Greeted(k: nat)
      requires downloader.ValidBut(k) && k < |downloader.downloads| && downloader.downloads[k] == this
      requires choked && activeRequests == []
      requires interested == if downloader.storage.endgame then OffersListed(State(), downloader.allRequests)
                                                           else Offers(State(), downloader.storage.inactive)
      ensures downloader.Valid()
    {
      hide Content, Offers, OffersListed, Downloader.Sound, Contented;
      ContentNew(State(), downloader.backlog, downloader.storage.inactive, downloader.allRequests,
                 downloader.storage.endgame);
      downloader.PutInOrder(k);
    }

    method CountBitfield(bits: seq<bool>, ghost k: nat)
      requires downloader.Valid() && k < |downloader.downloads| && downloader.downloads[k] == this
      requires |bits| == downloader.numpieces && State() == Peer(true, false, [], seq(|bits|, _ => false), [])
      modifies this`have, downloader.picker`interests, downloader.picker`pos, downloader.picker`num
      ensures downloader.ValidBut(k) && State() == Peer(true, false, [], bits, [])
      ensures downloader.storage.endgame && downloader.allRequests == [] ==> downloader.Valid()
      ensures !downloader.storage.endgame ==> downloader.Valid()
    {
      hide Downloader.NothingToRequest, Downloader.SameWires, Downloader.Valid, Downloader.ValidBut,
        StorageWrapper.State, Downloader.Peers, Downloader.Wired, StorageWrapper.Valid, Storages.Storage.Valid,
        PiecePicker.Valid, Counted, Shared, Wires, Content, Contented;
      downloader.Opened(-1);
      downloader.StorageOK(downloader.storage.endgame);
      downloader.ValidFacts(downloader.storage.endgame, k);
      ghost var ps, p := downloader.Peers(), State();
      assert ps[k := p] == ps;
      have := bits;
      for i := 0 to |have|
        invariant have == bits && downloader.picker.Valid() && |downloader.picker.num| == downloader.numpieces
        invariant p == Peer(true, false, [], p.have, []) && |p.have| == |bits|
        invariant forall j | 0 <= j < |bits| :: p.have[j] == (j < i && bits[j])
        invariant Counted(ps[k := p], downloader.picker.num, downloader.storage.have)
      {
        if have[i] {
          ghost var p' := p.(have := p.have[i := true]);
          CountedMore(ps[k := p], downloader.picker.num, downloader.storage.have, k, i, p');
          assert ps[k := p][k := p'] == ps[k := p'];
          downloader.picker.GotHave(i);
          p := p';
        }
      }
      assert p.have == bits;
      SameRequests(ps, ps[k := p], downloader.storage.active, downloader.allRequests, downloader.storage.endgame);
      downloader.OnePeer(k);
      ContentBut(ps, downloader.backlog, downloader.storage.inactive, downloader.allRequests,
                 downloader.storage.endgame, k);
      ContentUpdate(ps, downloader.backlog, downloader.storage.inactive, downloader.allRequests,
                    downloader.storage.endgame, k, k, p);
      downloader.Closed(k);
      if downloader.storage.endgame ==> downloader.allRequests == [] {
        ContentSilent(p, downloader.backlog, downloader.storage.inactive, downloader.allRequests,
                      downloader.storage.endgame);
        downloader.Closed(-1);
      }
    }

    /** The connection is gone: its pieces are not counted any more, and what it was asked for goes to others. */
    method Disconnected(ghost k: nat)
      requires downloader.Valid() && k < |downloader.downloads| && downloader.downloads[k] == this
      modifies downloader`downloads
      modifies downloader`allRequests
      modifies downloader.downloads`interested, downloader.downloads`exampleInterest
      modifies downloader.downloads`activeRequests, downloader.downloads`history
      modifies downloader.storage`inactive, downloader.storage`numactive, downloader.storage`amountInactive
      modifies downloader.storage`endgame, downloader.storage`active
      modifies downloader.picker`started, downloader.picker`seedstarted
      modifies downloader.picker`interests, downloader.picker`pos, downloader.picker`num
      ensures downloader.Valid() && downloader.downloads == Blocks.Without(old(downloader.downloads), k)
      ensures Progress(old(downloader.storage.State()), downloader.storage.State())
      ensures forall d, r | d in downloader.downloads && r in old(activeRequests) :: d.Answered(r.index)
      ensures k < |old(downloader.Peers())| && downloader.Heeding(Blocks.Without(old(downloader.Peers()), k),
                                                                  old(downloader.storage.inactive), {})
      ensures !old(downloader.storage.endgame) ==>
        downloader.Rightly(OnceLeft(old(downloader.SceneNow()), k), None, Some(PiecesOf(old(activeRequests))))
    {
      hide Downloader.Rightly, OnceLeft, PiecesOf, AllHeed, Downloader.Heeding, StorageWrapper.State, Downloader.Peers,
        Downloader.Wired, Swarming, StorageWrapper.Valid, Storages.Storage.Valid, PiecePicker.Valid, Progress, Shape,
        Inv, Wires, Content, Contented, SingleDownload.Answered;
      downloader.StorageOK(downloader.storage.endgame);
      ghost var s0, ps0, before := downloader.storage.State(), downloader.Peers(), downloader.storage.inactive;
      var lost := Leave(k);
      ghost var s1, ps1, now := downloader.storage.State(), downloader.Peers(), downloader.storage.inactive;
      downloader.Reassign(lost);
      downloader.HeedingSince(Blocks.Without(ps0, k), ps1, before, now, set i | i in lost);
      downloader.AllMadeUp(Blocks.Without(ps0, k), before, lost);
      downloader.Replied(lost, old(activeRequests));
      ProgressTrans(s0, s1, downloader.storage.State());
    }

    /** The first part of `disconnected`. */
    method Leave(ghost k: nat) returns (lost: seq<nat>)
      requires downloader.Valid() && k < |downloader.downloads| && downloader.downloads[k] == this
      modifies downloader`downloads, this`activeRequests
      modifies downloader.storage`inactive, downloader.storage`numactive, downloader.storage`amountInactive
      modifies downloader.storage`active
      modifies downloader.picker`interests, downloader.picker`pos, downloader.picker`num
      ensures downloader.Valid() && downloader.downloads == Blocks.Without(old(downloader.downloads), k)
      ensures downloader.storage.storage.Valid() && AllBelow(lost, downloader.numpieces)
      ensures Progress(old(downloader.storage.State()), downloader.storage.State())
      ensures !downloader.storage.endgame ==> forall r | r in old(activeRequests) :: r.index in lost
      ensures k < |old(downloader.Peers())|
      ensures AllHeed(Blocks.Without(old(downloader.Peers()), k), downloader.Peers(), downloader.backlog,
                      old(downloader.storage.inactive), downloader.storage.inactive, set i | i in lost)
      ensures !downloader.storage.endgame ==>
        downloader.SceneNow() == OnceLeft(old(downloader.SceneNow()), k) && lost == PiecesOf(old(activeRequests))
    {
      hide GivenBack, PiecesOf, Downloader.Valid, Downloader.ValidBut, StorageWrapper.State, Downloader.Peers,
        Downloader.Wired, StorageWrapper.Valid, Storages.Storage.Valid, PiecePicker.Valid, Progress, Shape, Inv, PeerOK,
        Shared, Counted, Wires, Content, Contented, MoreToRequest, Blocks.Without, AllHeed, LostAmong;
      downloader.Opened(-1);
      downloader.StorageOK(downloader.storage.endgame);
      downloader.ValidFacts(downloader.storage.endgame, k);
      ghost var ps, num0, before := downloader.Peers(), downloader.picker.num, downloader.storage.inactive;
      PeerHave(State(), downloader.numpieces, downloader.backlog);
      var at := downloader.IndexOf(this);
      assert at == k;
      downloader.downloads := Blocks.Without(downloader.downloads, at);
      UncountPieces(ps, k);
      WithoutLast(ps, k, ps[k]);
      LeaveShared(ps, downloader.storage.active, downloader.allRequests, downloader.storage.endgame, k);
      lost := LetGo(Blocks.Without(ps, k) + [ps[k]], |ps| - 1);
      WithoutLast(ps, k, ps[k].(active := []));
      LeaveStep(ps, downloader.numpieces, downloader.backlog, downloader.storage.active, downloader.allRequests,
                downloader.storage.endgame, num0, downloader.picker.num, downloader.storage.have, k);
      downloader.OneLess(k);
      LinesWithout(ps, k);
      assert downloader.picker.num == OnceLeft(old(downloader.SceneNow()), k).picks.num;
      ContentLeaves(ps, k, downloader.backlog, before, downloader.storage.inactive, downloader.allRequests,
                    downloader.storage.endgame);
      downloader.Closed(-1);
      MoreToHeed(downloader.Peers(), downloader.backlog, before, downloader.storage.inactive, lost);
    }

    method UncountPieces(ghost ps: seq<Peer>, ghost k: nat)
      requires downloader.picker.Valid() && downloader.picker.numpieces == |have| == |downloader.storage.have|
      requires Counted(ps, downloader.picker.num, downloader.storage.have) && k < |ps| && ps[k].have == have
      modifies downloader.picker`interests, downloader.picker`pos, downloader.picker`num
      ensures downloader.picker.Valid() && |downloader.picker.num| == |old(downloader.picker.num)| == |have|
      ensures forall i | 0 <= i < |have| ::
        downloader.picker.num[i] == Uncounted(old(downloader.picker.num)[i], have[i])
    {
      hide PiecePicker.Valid, Counted;
      NumLength(ps, downloader.picker.num, downloader.storage.have);
      for i := 0 to |have|
        invariant downloader.picker.Valid() && |downloader.picker.num| == |have|
        invariant forall j | 0 <= j < i :: downloader.picker.num[j] == Uncounted(old(downloader.picker.num)[j], have[j])
        invariant forall j | i <= j < |have| :: downloader.picker.num[j] == old(downloader.picker.num)[j]
      {
        if have[i] {
          CountPositive(ps, old(downloader.picker.num), downloader.storage.have, k, i);
          downloader.picker.LostHave(i);
        }
      }
    }

    /** A block arrives. A block that was not asked for is ignored. Otherwise the storage takes it (state `s1`), it is
        no longer asked of anybody, and the picker is told if that completes a piece; a piece that turned out wrong is
        asked for again. The result tells whether the piece is complete. */
    method GotPiece(index: nat, begin: nat, piece: seq<byte>, ghost k: nat)
        returns (r: bool, ghost ok: bool, ghost mid: Store, ghost s1: Store)
      requires downloader.Valid() && k < |downloader.downloads| && downloader.downloads[k] == this
      modifies downloader`allRequests, downloader.storage`endgame
      modifies downloader.downloads`interested, downloader.downloads`exampleInterest
      modifies downloader.downloads`activeRequests, downloader.downloads`history, downloader.downloads`closed
      modifies downloader.storage`inactive, downloader.storage`numactive, downloader.storage`amountInactive
      modifies downloader.storage`active, downloader.storage`places, downloader.storage`holes
      modifies downloader.storage`amountLeft
      modifies downloader.storage`have, downloader.storage`waschecked, downloader.storage`finishedCalls
      modifies downloader.storage`flunked, downloader.storage`arrived, downloader.storage.storage
      modifies downloader.picker`interests, downloader.picker`pos, downloader.picker`num, downloader.picker`numgot
      modifies downloader.picker`started, downloader.picker`seedstarted
      ensures downloader.Valid() && downloader.downloads == old(downloader.downloads)
      ensures Request(index, begin, |piece|) !in old(activeRequests) ==>
        !r && s1 == downloader.storage.State() == old(downloader.storage.State())
            && downloader.Peers() == old(downloader.Peers())
      ensures Request(index, begin, |piece|) in old(activeRequests) ==>
        && BlockArrives(old(downloader.storage.State()), mid, s1, downloader.storage.sha, index, Block(begin, |piece|),
            piece, ok)
        && Progress(s1, downloader.storage.State()) && OnlyRequests(s1, downloader.storage.State())
        && (r <==> index < |s1.have| && s1.have[index])
      ensures Progress(old(downloader.storage.State()), downloader.storage.State())
      ensures Request(index, begin, |piece|) in old(activeRequests) && ok && !downloader.storage.endgame ==> Sated(None)
      ensures Request(index, begin, |piece|) in old(activeRequests) && !ok ==>
        && (forall d | d in downloader.downloads && !d.choked :: d.Answered(index))
        && (!old(downloader.storage.endgame) ==> downloader.picker.LastAmongEquals(index))
      ensures forall d | d in downloader.downloads ::
        d.closed == (old(d.closed) || (ok && AllTrue(downloader.storage.have) && AllTrue(d.have)))
      ensures (Request(index, begin, |piece|) in old(activeRequests) ==> ok) ==>
        downloader.Heeding(old(downloader.Peers()), old(downloader.storage.inactive), {})
      ensures Request(index, begin, |piece|) in old(activeRequests) && !ok ==>
        downloader.FailedSoon(old(downloader.Peers()), old(downloader.storage.inactive), k, index)
      ensures Request(index, begin, |piece|) in old(activeRequests) && !old(downloader.storage.endgame) ==>
        downloader.RightlySent(old(downloader.SceneNow()), k, Request(index, begin, |piece|), s1, ok)
      ensures Request(index, begin, |piece|) !in old(activeRequests) ==>
        downloader.SceneNow() == old(downloader.SceneNow())
    {
      hide Downloader.RightlySent, Downloader.Heeding, Downloader.FailedSoon, Downloader.Valid, Downloader.Peers,
        Downloader.Wired, Swarming, Settling, StorageWrapper.Valid, Storages.Storage.Valid, PiecePicker.Valid, Progress,
        Shape, Inv, PeerOK, BlockArrives, Wires, Content, Contented, SingleDownload.Sated, SingleDownload.Answered,
        Downloader.OthersInOrder;
      downloader.ValidOK();
      downloader.NothingNewly();
      r, ok, mid, s1 := false, false, downloader.storage.State(), downloader.storage.State();
      if Request(index, begin, |piece|) !in activeRequests {
        ProgressRefl(s1);
        return;
      }
      r, ok, mid, s1 := Receive(index, begin, piece, k);
    }

    /** A block that was asked for arrives. */
    method Receive(index: nat, begin: nat, piece: seq<byte>, ghost k: nat)
        returns (r: bool, ghost ok: bool, ghost mid: Store, ghost s1: Store)
      requires downloader.Valid() && k < |downloader.downloads| && downloader.downloads[k] == this
      requires Request(index, begin, |piece|) in activeRequests
      modifies downloader`allRequests, downloader.storage`endgame
      modifies downloader.downloads`interested, downloader.downloads`exampleInterest
      modifies downloader.downloads`activeRequests, downloader.downloads`history, downloader.downloads`closed
      modifies downloader.storage`inactive, downloader.storage`numactive, downloader.storage`amountInactive
      modifies downloader.storage`active, downloader.storage`places, downloader.storage`holes
      modifies downloader.storage`amountLeft
      modifies downloader.storage`have, downloader.storage`waschecked, downloader.storage`finishedCalls
      modifies downloader.storage`flunked, downloader.storage`arrived, downloader.storage.storage
      modifies downloader.picker`interests, downloader.picker`pos, downloader.picker`num, downloader.picker`numgot
      modifies downloader.picker`started, downloader.picker`seedstarted
      ensures downloader.Valid() && downloader.downloads == old(downloader.downloads)
      ensures BlockArrives(old(downloader.storage.State()), mid, s1, downloader.storage.sha, index,
                           Block(begin, |piece|), piece, ok)
      ensures Progress(s1, downloader.storage.State()) && (r <==> index < |s1.have| && s1.have[index])
      ensures OnlyRequests(s1, downloader.storage.State())
      ensures Progress(old(downloader.storage.State()), downloader.storage.State())
      ensures ok && !downloader.storage.endgame ==> Sated(None)
      ensures !ok ==> forall d | d in downloader.downloads && !d.choked :: d.Answered(index)
      ensures !ok && !old(downloader.storage.endgame) ==> downloader.picker.LastAmongEquals(index)
      ensures forall d | d in downloader.downloads ::
        d.closed == (old(d.closed) || (ok && AllTrue(downloader.storage.have) && AllTrue(d.have)))
      ensures if ok then downloader.Heeding(old(downloader.Peers()), old(downloader.storage.inactive), {})
              else downloader.FailedSoon(old(downloader.Peers()), old(downloader.storage.inactive), k, index)
      ensures !old(downloader.storage.endgame) ==>
        downloader.RightlySent(old(downloader.SceneNow()), k, Request(index, begin, |piece|), s1, ok)
    {
      hide Downloader.Rightly, Downloader.SceneNow, OnceTaken, OnceComplete, OnlyRequests, AllHeed, OthersHeed,
        Downloader.Heeding, Downloader.FailedSoon, Downloader.Valid, Downloader.Peers, Downloader.Wired, Swarming,
        Settling, StorageWrapper.Valid, Storages.Storage.Valid, PiecePicker.Valid, Progress, Shape, Inv, PeerOK,
        BlockArrives, Wires, Content, Contented, SingleDownload.Sated, SingleDownload.Answered,
        Downloader.OthersInOrder;
      downloader.ValidOK();
      ghost var ps0, before := downloader.Peers(), downloader.storage.inactive;
      ghost var s0, all0 := downloader.storage.State(), downloader.allRequests;
      var good;
      good, mid := Consume(index, begin, piece, k);
      downloader.WiredOK();
      ok, s1 := good, downloader.storage.State();
      ArrivesFacts(s0, mid, s1, downloader.storage.sha, index, Block(begin, |piece|), piece, ok);
      r := FollowUp(good, index, Request(index, begin, |piece|), k, s0.have, all0, ps0, before);
      downloader.ValidOK();
      ProgressTrans(s0, s1, downloader.storage.State());
    }

    /** What follows from a block that arrived, when it is no longer asked of this peer. */
    method FollowUp(good: bool, index: nat, q: Request, ghost k: nat, ghost have0: seq<bool>,
                    ghost all0: seq<Request>, ghost ps0: seq<Peer>, ghost before: seq<Inactive>) returns (r: bool)
      requires downloader.Wired() && index < downloader.numpieces && q.index == index
      requires k < |downloader.downloads| && downloader.downloads[k] == this && q !in activeRequests && !choked
      requires downloader.storage.storage.Valid() && Shape(downloader.storage.State())
      requires Settling(downloader.Peers(), downloader.numpieces, downloader.backlog, downloader.storage.active,
                        downloader.allRequests, downloader.storage.endgame, downloader.picker.num, have0, q)
      requires |have0| == downloader.numpieces == |downloader.storage.arrived| && !have0[index]
      requires good ==> downloader.storage.have == have0 || downloader.storage.have == have0[index := true]
      requires !good ==> downloader.storage.have == have0 && downloader.storage.arrived[index] == map[]
      requires index < downloader.storage.g.n && Block(q.begin, q.length) in All(downloader.storage.State(), index)
      requires downloader.OthersInOrder(k, q, all0, good)
      requires k < |ps0| && downloader.Peers() == ps0[k := State()]
      requires OthersHeed(ps0, downloader.Peers(), downloader.backlog, before, downloader.storage.inactive,
                          if good then {} else {index}, k)
      requires !good && !downloader.storage.endgame ==> OffersPiece(State(), downloader.storage.inactive, index)
      modifies downloader`allRequests, downloader.storage`endgame
      modifies downloader.downloads`interested, downloader.downloads`exampleInterest
      modifies downloader.downloads`activeRequests, downloader.downloads`history, downloader.downloads`closed
      modifies downloader.storage`inactive, downloader.storage`numactive, downloader.storage`amountInactive
      modifies downloader.storage`active
      modifies downloader.picker`interests, downloader.picker`pos, downloader.picker`num, downloader.picker`numgot
      modifies downloader.picker`started, downloader.picker`seedstarted
      ensures downloader.Valid() && downloader.downloads == old(downloader.downloads)
      ensures r <==> index < |downloader.storage.have| && downloader.storage.have[index]
      ensures Progress(old(downloader.storage.State()), downloader.storage.State())
      ensures good && !downloader.storage.endgame ==> Sated(None)
      ensures downloader.SameWires()
      ensures OnlyRequests(old(downloader.storage.State()), downloader.storage.State())
      ensures if good then downloader.Heeding(ps0, before, {}) else downloader.FailedSoon(ps0, before, k, index)
      ensures !good ==> forall d | d in downloader.downloads && !d.choked :: d.Answered(index)
      ensures !good && !old(downloader.storage.endgame) ==> downloader.picker.LastAmongEquals(index)
      ensures forall d | d in downloader.downloads ::
        d.closed == (old(d.closed) || (good && AllTrue(downloader.storage.have) && AllTrue(d.have)))
      ensures !old(downloader.storage.endgame) ==>
        downloader.Rightly(OnceComplete(old(downloader.SceneNow()), index), if good then Some(k) else None,
                           if good then None else Some([index]))
    {
      hide Downloader.Rightly, OnlyRequests, Downloader.Heeding, Downloader.Quietly, Downloader.FailedSoon, AllHeed,
        OthersHeed, Downloader.Valid, Downloader.ValidBut, StorageWrapper.State, Downloader.Peers, Downloader.Wired,
        Swarming, Settling, StorageWrapper.Valid, Storages.Storage.Valid, PiecePicker.Valid, Progress, Shape, Inv,
        PeerOK, Wires, All, Content, Contented, SingleDownload.Sated, SingleDownload.Answered, Downloader.OthersInOrder;
      r := false;
      ghost var ps1, now := downloader.Peers(), downloader.storage.inactive;
      downloader.WiredOK();
      if good {
        r := Succeed(index, q, k, have0, all0);
        downloader.StillUnchoked(k);
        downloader.FinallySated(ps0, ps1, before, now, k);
      } else {
        downloader.Incomplete(index);
        downloader.AskAgain(index, q, k, all0);
        downloader.FailedNow(ps0, ps1, before, now, k, index);
      }
      downloader.ValidOK();
      downloader.storage.RequestsOnly();
    }

    /** The block was good. */
    method Succeed(index: nat, q: Request, ghost k: nat, ghost have0: seq<bool>, ghost all0: seq<Request>)
        returns (r: bool)
      requires downloader.Wired() && index < downloader.numpieces
      requires k < |downloader.downloads| && downloader.downloads[k] == this && q !in activeRequests && !choked
      requires downloader.storage.storage.Valid() && Shape(downloader.storage.State())
      requires Settling(downloader.Peers(), downloader.numpieces, downloader.backlog, downloader.storage.active,
                        downloader.allRequests, downloader.storage.endgame, downloader.picker.num, have0, q)
      requires |have0| == downloader.numpieces && !have0[index]
      requires downloader.storage.have == have0 || downloader.storage.have == have0[index := true]
      requires downloader.OthersInOrder(k, q, all0, true)
      modifies downloader`allRequests, downloader.storage`endgame
      modifies downloader.downloads`interested, downloader.downloads`exampleInterest
      modifies downloader.downloads`activeRequests, downloader.downloads`history, downloader.downloads`closed
      modifies downloader.storage`inactive, downloader.storage`numactive, downloader.storage`amountInactive
      modifies downloader.storage`active
      modifies downloader.picker`interests, downloader.picker`pos, downloader.picker`num, downloader.picker`numgot
      modifies downloader.picker`started, downloader.picker`seedstarted
      ensures downloader.Valid() && downloader.SameWires()
      ensures index < |downloader.storage.have| && r == downloader.storage.have[index]
      ensures downloader.storage.storage.Valid()
      ensures Progress(old(downloader.storage.State()), downloader.storage.State())
      ensures !downloader.storage.endgame ==> Sated(None)
      ensures downloader.Heeding(old(downloader.Peers()), old(downloader.storage.inactive), {})
      ensures forall d | d in downloader.downloads ::
        d.closed == (old(d.closed) || (AllTrue(downloader.storage.have) && AllTrue(d.have)))
      ensures !old(downloader.storage.endgame) ==>
        downloader.Rightly(OnceComplete(old(downloader.SceneNow()), index), Some(k), None)
    {
      hide Downloader.Rightly, Downloader.SceneNow, OnceComplete, Downloader.Heeding, AllHeed, Downloader.Valid,
        Downloader.ValidBut, StorageWrapper.State, Downloader.Peers, Downloader.Wired, Swarming, Settling,
        StorageWrapper.Valid, Storages.Storage.Valid, PiecePicker.Valid, Progress, Shape, Inv, PeerOK, Wires, All,
        Content, Contented, SingleDownload.Sated, SingleDownload.Answered, Downloader.OthersInOrder;
      ghost var ps, before, over := downloader.Peers(), downloader.storage.inactive, downloader.storage.endgame;
      downloader.WiredOK();
      downloader.Finish(index, q, this, k, have0, all0);
      downloader.HeedingIs(ps, before, {});
      ghost var ps1 := downloader.Peers();
      downloader.StillUnchoked(k);
      r := CarryOn(index, k);
      downloader.ValidOK();
      if over { downloader.OverIsFine(ps, before, {}); } else { downloader.HeedingSince(ps, ps1, before, before, {}); }
    }

    /** The last part of `got_piece`: asks for more, and tells whether piece `index` is there. */
    method CarryOn(index: nat, ghost k: nat) returns (r: bool)
      requires downloader.ValidBut(k) && k < |downloader.downloads| && downloader.downloads[k] == this && !choked
      requires index < downloader.numpieces
      modifies downloader`allRequests
      modifies downloader.downloads`interested, downloader.downloads`exampleInterest
      modifies downloader.downloads`activeRequests, downloader.downloads`history, downloader.downloads`closed
      modifies downloader.storage`inactive, downloader.storage`numactive, downloader.storage`amountInactive
      modifies downloader.storage`endgame, downloader.storage`active
      modifies downloader.picker`started, downloader.picker`seedstarted
      ensures downloader.Valid() && downloader.downloads == old(downloader.downloads)
      ensures index < |downloader.storage.have| && r == downloader.storage.have[index]
      ensures Progress(old(downloader.storage.State()), downloader.storage.State())
      ensures !downloader.storage.endgame ==> Sated(None)
      ensures downloader.SameWires()
      ensures downloader.Heeding(old(downloader.Peers()), old(downloader.storage.inactive), {})
      ensures old(downloader.storage.endgame) ==> downloader.storage.endgame
      ensures forall d | d in downloader.downloads ::
        d.closed == (old(d.closed) || (AllTrue(downloader.storage.have) && AllTrue(d.have)))
      ensures downloader.Rightly(old(downloader.SceneNow()), Some(k), None)
    {
      hide AskedRightly, Downloader.Valid, Downloader.ValidBut, Downloader.Peers, Downloader.Wired, Swarming,
        StorageWrapper.Valid, Storages.Storage.Valid, PiecePicker.Valid, Progress, Shape, Inv, Wires, Content,
        Contented, SingleDownload.Sated;
      downloader.ValidButOK(k);
      RequestMore(None, k);
      downloader.EndgameStays(old(downloader.storage.State()), downloader.storage.State());
      downloader.HeedingIs(old(downloader.Peers()), old(downloader.storage.inactive), {});
      label L:
      downloader.CloseSeeds();
      downloader.HeedingAgain(old(downloader.Peers()), old(downloader.storage.inactive), {});
      if !downloader.storage.endgame { StillSated@L(None); }
      r := downloader.storage.have[index];
    }

    /** The block is no longer asked of this peer, and the storage takes it. */
    method Consume(index: nat, begin: nat, piece: seq<byte>, ghost k: nat) returns (ok: bool, ghost mid: Store)
      requires downloader.Valid() && k < |downloader.downloads| && downloader.downloads[k] == this
      requires Request(index, begin, |piece|) in activeRequests
      modifies this`activeRequests, this`history, downloader`allRequests
      modifies downloader.storage`inactive, downloader.storage`numactive, downloader.storage`amountInactive
      modifies downloader.storage`active, downloader.storage`places, downloader.storage`holes
      modifies downloader.storage`amountLeft
      modifies downloader.storage`have, downloader.storage`waschecked, downloader.storage`finishedCalls
      modifies downloader.storage`flunked, downloader.storage`arrived, downloader.storage.storage
      ensures downloader.Wired() && index < downloader.numpieces && downloader.downloads == old(downloader.downloads)
      ensures BlockArrives(old(downloader.storage.State()), mid, downloader.storage.State(), downloader.storage.sha,
                           index, Block(begin, |piece|), piece, ok)
      ensures Settling(downloader.Peers(), downloader.numpieces, downloader.backlog, downloader.storage.active,
                       downloader.allRequests, downloader.storage.endgame, downloader.picker.num,
                       old(downloader.storage.have), Request(index, begin, |piece|))
      ensures Request(index, begin, |piece|) !in activeRequests && !choked && index < |have| && have[index]
      ensures downloader.OthersInOrder(k, Request(index, begin, |piece|), old(downloader.allRequests), ok)
      ensures k < |old(downloader.Peers())| && downloader.Peers() == old(downloader.Peers())[k := State()]
      ensures OthersHeed(old(downloader.Peers()), downloader.Peers(), downloader.backlog,
                         old(downloader.storage.inactive), downloader.storage.inactive, if ok then {} else {index}, k)
      ensures downloader.storage.storage.Valid() && k < |old(downloader.SceneNow()).lines|
      ensures downloader.SceneNow() ==
        OnceTaken(old(downloader.SceneNow()), k, Request(index, begin, |piece|), downloader.storage.State())
    {
      hide AllHeed, OthersHeed, Downloader.Valid, Downloader.ValidBut, Downloader.OthersInOrder, Downloader.Peers,
        Downloader.Wired, Swarming, Settling, StorageWrapper.Valid, Storages.Storage.Valid, PiecePicker.Valid, Progress,
        Shape, Inv, BlockArrives, Wires, Contented, ListedBut, Outstanding;
      downloader.Opened(-1);
      downloader.ValidFacts(downloader.storage.endgame, k);
      ghost var ps, s0, all0 := downloader.Peers(), downloader.storage.State(), downloader.allRequests;
      ghost var q := Request(index, begin, |piece|);
      Forget(index, begin, |piece|, k);
      downloader.WiredOK();
      IsOutstanding(downloader.storage.active, q);
      ok, mid := downloader.Stored(index, begin, piece);
      StoredToHeed(ps, downloader.backlog, s0.inactive, downloader.storage.inactive, index, ok);
      OthersSame(ps, k, State(), downloader.backlog, s0.inactive, downloader.storage.inactive,
                 if ok then {} else {index});
      downloader.OthersAre(k, q, all0, ok, s0.inactive, ps);
      downloader.WiredOK();
      LinesUpdate(ps, k, State());
    }

    lemma IsOutstanding(active: seq<set<Block>>, q: Request)
      requires Outstanding(active, q)
      ensures q.index < |active| && Block(q.begin, q.length) in active[q.index]
    {
    }

    /** The block is not asked of this peer any more, and in endgame not listed. */
    method Forget(index: nat, begin: nat, length: nat, ghost k: nat)
      requires downloader.ValidAs(downloader.storage.endgame)
      requires k < |downloader.downloads| && downloader.downloads[k] == this
      requires Request(index, begin, length) in activeRequests
      modifies this`activeRequests, this`history, downloader`allRequests
      ensures downloader.Wired() && index < downloader.numpieces && downloader.storage.storage.Valid()
      ensures k < |old(downloader.Peers())| && downloader.Peers() == old(downloader.Peers())[k := State()]
      ensures Outstanding(downloader.storage.active, Request(index, begin, length))
      ensures index < |downloader.storage.active|
      ensures Settling(downloader.Peers(), downloader.numpieces, downloader.backlog,
                       Drop(downloader.storage.active, Request(index, begin, length)), downloader.allRequests,
                       downloader.storage.endgame, downloader.picker.num, downloader.storage.have,
                       Request(index, begin, length))
      ensures Request(index, begin, length) !in activeRequests && !choked && index < |have| && have[index]
      ensures activeRequests == Removed(old(activeRequests), Request(index, begin, length)) && have == old(have)
      ensures old(!choked)
      ensures if downloader.storage.endgame
              then ListedBut(old(downloader.allRequests), downloader.allRequests, Request(index, begin, length))
              else downloader.allRequests == old(downloader.allRequests)
    {
      hide Downloader.Peers, Downloader.Wired, Swarming, Settling, StorageWrapper.Valid, Storages.Storage.Valid,
        PiecePicker.Valid, Shape, Inv, PeerOK, NoDup, Wires, Drop, Outstanding;
      downloader.ValidFacts(downloader.storage.endgame, k);
      ghost var ps, all0 := downloader.Peers(), downloader.allRequests;
      var q := Request(index, begin, length);
      PeerHave(State(), downloader.numpieces, downloader.backlog);
      PeerHolds(State(), downloader.numpieces, downloader.backlog);
      RemovedFrom(State(), downloader.numpieces, downloader.backlog, q);
      PieceStep(ps, downloader.numpieces, downloader.backlog, downloader.storage.active, downloader.allRequests,
                downloader.storage.endgame, downloader.picker.num, downloader.storage.have, k, q,
                State().(active := Removed(activeRequests, q), history := history + [HeardPiece(q)]));
      activeRequests, history := Removed(activeRequests, q), history + [HeardPiece(q)];
      if downloader.storage.endgame {
        AllInRange(ps, downloader.numpieces, downloader.backlog, downloader.storage.active, all0, downloader.picker.num,
                   downloader.storage.have);
        RemovedFacts(all0, q);
        downloader.allRequests := Removed(downloader.allRequests, q);
      }
      downloader.OnePeer(k);
    }

    /** `_request_more`: for this unchoked peer, and with what that means for the others. With `indices`, only blocks of
        those pieces are asked for. */
    method RequestMore(indices: Option<seq<nat>>, ghost k: nat)
      requires downloader.ValidBut(k) && k < |downloader.downloads| && downloader.downloads[k] == this && !choked
      requires indices.Some? ==> AllBelow(indices.value, downloader.numpieces)
      modifies downloader`allRequests
      modifies downloader.downloads`interested, downloader.downloads`exampleInterest
      modifies downloader.downloads`activeRequests, downloader.downloads`history
      modifies downloader.storage`inactive, downloader.storage`numactive, downloader.storage`amountInactive
      modifies downloader.storage`endgame, downloader.storage`active
      modifies downloader.picker`started, downloader.picker`seedstarted
      ensures downloader.Valid() && downloader.SameWires()
      ensures downloader.Heeding(old(downloader.Peers()), old(downloader.storage.inactive), {})
      ensures downloader.Quietly(old(downloader.Peers()))
      ensures Progress(old(downloader.storage.State()), downloader.storage.State())
      ensures MoreToRequest(downloader.storage.inactive, old(downloader.storage.inactive))
      ensures !downloader.storage.endgame ==> Sated(indices) && downloader.SameRequestsBut(this)
      ensures downloader.Rightly(old(downloader.SceneNow()), Some(k), indices)
    {
      hide Downloader.Valid, Downloader.ValidBut, StorageWrapper.State, Downloader.Peers, Downloader.Wired, Swarming,
        StorageWrapper.Valid, Storages.Storage.Valid, PiecePicker.Valid, Progress, Shape, Inv, PiecePicker.NextIs,
        Wires, Content, Contented, SingleDownload.Sated, MoreToRequest, LostAmong, Reconsidered, PeerOK, AllHeed, Quiet,
        Led, AskedRightly, Grows, Downloader.Rightly;
      downloader.Opened(k);
      downloader.ValidFacts(downloader.storage.endgame, k);
      ProgressRefl(downloader.storage.State());
      ghost var ps, before := downloader.Peers(), downloader.storage.inactive;
      TakenNone(before);
      NothingHappened(ps, downloader.backlog, before, {});
      NothingTold(ps);
      downloader.RightlyNothing(Some(k), indices);
      if |activeRequests| == downloader.backlog {
        Full(indices);
        downloader.FullInOrder(k);
        return;
      }
      if downloader.storage.endgame {
        ghost var v0 := downloader.SceneNow();
        NothingAsked(v0, Terms(Some(k), indices, downloader.backlog));
        downloader.Fix(this, k);
        downloader.RightlyStands(v0, v0, ps, Some(k), indices);
        ContentUpdate(ps, downloader.backlog, before, downloader.allRequests, true, k, k, State());
        downloader.Closed(-1);
        return;
      }
      AskNormally(indices, k);
    }

    /** `_request_more` before endgame. */
    method AskNormally(indices: Option<seq<nat>>, ghost k: nat)
      requires downloader.ValidBut(k) && k < |downloader.downloads| && downloader.downloads[k] == this && !choked
      requires !downloader.storage.endgame && downloader.storage.storage.Valid()
      requires indices.Some? ==> AllBelow(indices.value, downloader.numpieces)
      modifies downloader`allRequests
      modifies downloader.downloads`interested, downloader.downloads`exampleInterest
      modifies downloader.downloads`activeRequests, downloader.downloads`history
      modifies downloader.storage`inactive, downloader.storage`numactive, downloader.storage`amountInactive
      modifies downloader.storage`endgame, downloader.storage`active
      modifies downloader.picker`started, downloader.picker`seedstarted
      ensures downloader.Valid() && downloader.SameWires()
      ensures downloader.Heeding(old(downloader.Peers()), old(downloader.storage.inactive), {})
      ensures downloader.Quietly(old(downloader.Peers()))
      ensures Progress(old(downloader.storage.State()), downloader.storage.State())
      ensures MoreToRequest(downloader.storage.inactive, old(downloader.storage.inactive))
      ensures !downloader.storage.endgame ==> Sated(indices) && downloader.SameRequestsBut(this)
      ensures downloader.Rightly(old(downloader.SceneNow()), Some(k), indices)
    {
      hide Downloader.Valid, Downloader.ValidBut, StorageWrapper.State, Downloader.Peers, Downloader.Wired, Swarming,
        StorageWrapper.Valid, Storages.Storage.Valid, PiecePicker.Valid, Progress, Shape, Inv, PiecePicker.NextIs,
        Wires, Content, Contented, SingleDownload.Sated, MoreToRequest, LostAmong, Reconsidered, PeerOK, AllHeed, Quiet,
        Led, AskedRightly, Grows, Downloader.Rightly;
      ghost var ps, before, v0 := downloader.Peers(), downloader.storage.inactive, downloader.SceneNow();
      downloader.Opened(k);
      var lost := AskAlone(indices, k);
      ghost var ps1, now, v1 := downloader.Peers(), downloader.storage.inactive, downloader.SceneNow();
      label L:
      AskedInOrder(ps, before, lost, indices, k);
      downloader.SameActive@L();
      downloader.RightlyStands(v0, v1, ps1, Some(k), indices);
      downloader.HeedingSince(ps, ps1, before, now, {});
      downloader.QuietlySince(ps, ps1);
    }

    /** `AskForMore`, and that it does not concern the other peers. */
    method AskAlone(indices: Option<seq<nat>>, ghost k: nat) returns (lost: seq<nat>)
      requires downloader.ValidAs(false) && k < |downloader.downloads| && downloader.downloads[k] == this && !choked
      requires downloader.storage.storage.Valid() && !downloader.storage.endgame
      requires indices.Some? ==> AllBelow(indices.value, downloader.numpieces)
      modifies this`interested, this`exampleInterest, this`activeRequests, this`history
      modifies downloader.storage`inactive, downloader.storage`numactive, downloader.storage`amountInactive
      modifies downloader.storage`endgame, downloader.storage`active
      modifies downloader.picker`started, downloader.picker`seedstarted
      ensures downloader.ValidAs(false) && AllBelow(lost, downloader.numpieces)
      ensures Progress(old(downloader.storage.State()), downloader.storage.State())
      ensures downloader.storage.endgame ==> downloader.NothingToRequest()
      ensures downloader.storage.storage.Valid()
      ensures Led(old(downloader.SceneNow()), downloader.SceneNow(), Terms(Some(k), indices, downloader.backlog))
      ensures MoreToRequest(downloader.storage.inactive, old(downloader.storage.inactive))
      ensures LostAmong(old(downloader.storage.inactive), downloader.storage.inactive, lost)
      ensures Sated(indices) && downloader.SameWires() && k < |old(downloader.Peers())|
      ensures downloader.Peers() == old(downloader.Peers())[k := State()]
      ensures AllHeed(old(downloader.Peers()), downloader.Peers(), downloader.backlog, old(downloader.storage.inactive),
                      downloader.storage.inactive, {})
      ensures Quiet(old(downloader.Peers()), downloader.Peers())
    {
      hide StorageWrapper.State, Downloader.Peers, Downloader.Wired, Swarming, StorageWrapper.Valid,
        Storages.Storage.Valid, PiecePicker.Valid, Progress, Shape, Inv, Wires, SingleDownload.Sated, MoreToRequest,
        LostAmong, PeerOK, AllHeed, Heeds, Quiet, Led, Downloader.SceneNow;
      ghost var ps, before := downloader.Peers(), downloader.storage.inactive;
      lost := AskForMore(indices, k);
      downloader.ValidFacts(false, k);
      downloader.OnePeer(k);
      FewerToHeed(ps, downloader.backlog, before, downloader.storage.inactive, {});
      AskedHeeds(ps[k], State(), downloader.backlog, before, downloader.storage.inactive);
      QuietOne(ps, k, State());
      OneHeeds(ps, k, State(), downloader.backlog, before, downloader.storage.inactive, {});
    }

    /** The piece to ask for next: the picker's choice, or the first of the given ones that can be asked for. */
    method ChooseInterest(indices: Option<seq<nat>>, ghost k: nat) returns (interest: Option<nat>)
      requires downloader.ValidAs(false) && k < |downloader.downloads| && downloader.downloads[k] == this
      requires indices.Some? ==> AllBelow(indices.value, downloader.numpieces)
      ensures interest.Some? ==> Want()(interest.value) && interest.value < downloader.numpieces
      ensures indices == None ==> downloader.picker.NextIs(Want(), AllTrue(have), interest)
      ensures indices.Some? && interest == None ==> forall i | i in indices.value :: !Want()(i)
      ensures downloader.storage.storage.Valid()
      ensures interest.Some? ==> Right(downloader.SceneNow(), k, interest.value, indices)
    {
      hide StorageWrapper.Valid, Storages.Storage.Valid, PiecePicker.Valid, PiecePicker.NextIs, Shape, Inv,
        Downloader.Wired, Downloader.SceneNow, WantedFrom, Chosen;
      downloader.WiredOK();
      WantedIs(k);
      if indices == None {
        interest := ChooseNext(k);
        if interest.Some? { ChoiceIsRight(interest.value, k); }
      } else {
        interest := None;
        for m := 0 to |indices.value|
          invariant forall j | 0 <= j < m :: !Want()(indices.value[j])
        {
          var i := indices.value[m];
          assert i in indices.value;
          if have[i] && downloader.storage.DoIHaveRequests(i) {
            return Some(i);
          }
        }
      }
    }

    /** The picker's choice. The picker does not fail, because there are not so many peers. */
    method ChooseNext(ghost k: nat) returns (interest: Option<nat>)
      requires downloader.ValidAs(false) && k < |downloader.downloads| && downloader.downloads[k] == this
      ensures downloader.picker.NextIs(Want(), AllTrue(have), interest)
      ensures interest.Some? ==> Want()(interest.value) && interest.value < downloader.numpieces
    {
      hide StorageWrapper.Valid, Storages.Storage.Valid, PiecePicker.NextIs, Shape, Inv, Swarming, Downloader.Wired,
        Downloader.Peers, PiecePicker.Fails, PiecePicker.Valid;
      downloader.ValidFacts(false, k);
      WantedCounted(k);
      downloader.picker.StartedSound();
      downloader.picker.NeverFails(if AllTrue(have) then downloader.picker.seedstarted else downloader.picker.started,
                                   Want());
      var raises;
      interest, raises := downloader.picker.Next(Want(), AllTrue(have));
      downloader.picker.NextFacts(Want(), AllTrue(have), interest);
    }

    /** The last part of `_request_more`, after this peer was asked for more: what that means for it and the others. */
    method AskedInOrder(ghost ps: seq<Peer>, ghost before: seq<Inactive>, lost: seq<nat>,
                        ghost indices: Option<seq<nat>>, ghost k: nat)
      requires downloader.ValidAs(false) && k < |downloader.downloads| && downloader.downloads[k] == this
      requires AllBelow(lost, downloader.numpieces) && LostAmong(before, downloader.storage.inactive, lost)
      requires k < |ps| && downloader.Peers() == ps[k := State()]
      requires Contented(ps, downloader.backlog, before, downloader.allRequests, false, k)
      requires downloader.storage.endgame ==> downloader.NothingToRequest()
      requires Sated(indices) && !choked
      modifies downloader`allRequests
      modifies downloader.downloads`interested, downloader.downloads`exampleInterest
      modifies downloader.downloads`activeRequests, downloader.downloads`history
      ensures downloader.Valid() && downloader.SameWires()
      ensures downloader.Heeding(old(downloader.Peers()), downloader.storage.inactive, {})
      ensures downloader.Quietly(old(downloader.Peers()))
      ensures !downloader.storage.endgame ==> Sated(indices)
      ensures !downloader.storage.endgame ==>
        forall d | d in downloader.downloads :: d.activeRequests == old(d.activeRequests)
      ensures Grows(old(downloader.Peers()), downloader.Peers())
    {
      hide Downloader.Peers, Downloader.Wired, Swarming, StorageWrapper.Valid, Storages.Storage.Valid,
        PiecePicker.Valid, Wires, Content, Contented, LostAmong, Reconsidered, PeerOK, AllHeed, Heeds, Quiet,
        SingleDownload.Sated, Downloader.ValidBut, Downloader.Valid, Grows;
      ghost var ps0 := downloader.Peers();
      downloader.PeersAre();
      AllGrow(ps0);
      NothingHappened(ps0, downloader.backlog, downloader.storage.inactive, {});
      NothingTold(ps0);
      if activeRequests == [] && interested {
        downloader.Disinterest(this, k);
        AskedHeeds(ps0[k], State(), downloader.backlog, downloader.storage.inactive, downloader.storage.inactive);
        QuietOne(ps0, k, State());
        OneHeeds(ps0, k, State(), downloader.backlog, downloader.storage.inactive, downloader.storage.inactive, {});
      }
      ghost var ps1 := downloader.Peers();
      downloader.StillGrown(ps0);
      QuietContent(State(), downloader.backlog, downloader.storage.inactive, downloader.allRequests);
      ContentUpdate(ps, downloader.backlog, before, downloader.allRequests, false, k, k, State());
      assert ps1 == ps[k := State()];
      ReconsiderFrom(ps1, downloader.backlog, before, downloader.storage.inactive, downloader.allRequests, k);
      downloader.AfterAsking(lost, before);
      downloader.HeedingSince(ps0, ps1, downloader.storage.inactive, downloader.storage.inactive, {});
      downloader.QuietlySince(ps0, ps1);
      GrowsTwice(ps0, ps1, downloader.Peers());
      downloader.StillUnchoked(k);
      if !downloader.storage.endgame {
        StillSated(indices);
      }
    }

    /** Whether the peer has one of the pieces. */
    method HasAny(lost: seq<nat>) returns (hit: bool)
      requires AllBelow(lost, |have|)
      ensures hit <==> exists l :: l in lost && l < |have| && have[l]
    {
      for m := 0 to |lost|
        invariant forall j | 0 <= j < m :: lost[j] < |have| && !have[lost[j]]
      {
        assert lost[m] in lost;
        if have[lost[m]] {
          return true;
        }
      }
      hit := false;
    }

    /** After other peers lost blocks to ask for: is there still something to want from this one? */
    method Reconsider(lost: seq<nat>, ghost before: seq<Inactive>, ghost k: nat)
      requires downloader.ValidAs(false) && k < |downloader.downloads| && downloader.downloads[k] == this
      requires AllBelow(lost, downloader.numpieces) && LostAmong(before, downloader.storage.inactive, lost)
      requires Content(State(), downloader.backlog, downloader.storage.inactive, downloader.allRequests, false)
            || Content(State(), downloader.backlog, before, downloader.allRequests, false)
      modifies this`interested, this`exampleInterest, this`history
      ensures PeerOK(State(), downloader.numpieces, downloader.backlog) && downloader.Example(exampleInterest, have)
      ensures Content(State(), downloader.backlog, downloader.storage.inactive, downloader.allRequests, false)
      ensures interested ==> old(interested)
      ensures old(interested) && !interested ==>
        activeRequests == [] && downloader.picker.NextIs(Want(), AllTrue(have), None)
      ensures Heeds(old(State()), State(), downloader.backlog, downloader.storage.inactive, downloader.storage.inactive,
                    {})
    {
      hide PeerOK, PiecePicker.Valid, StorageWrapper.Valid, Storages.Storage.Valid, PiecePicker.NextIs, Swarming,
        Downloader.Peers, Downloader.Wired, Downloader.ValidAs, LostAmong, Heeds, SingleDownload.Sated;
      downloader.ValidFacts(false, k);
      ghost var p := State();
      PeerHave(p, downloader.numpieces, downloader.backlog);
      DroppedHeeds(p, p, downloader.backlog, downloader.storage.inactive);
      if activeRequests != [] || !interested {
        return;
      }
      if exampleInterest != None && downloader.storage.DoIHaveRequests(exampleInterest.value) {
        assert OffersPiece(State(), downloader.storage.inactive, exampleInterest.value);
        return;
      }
      var hit := HasAny(lost);
      if !hit {
        if Offers(State(), before) { StillOffers(State(), before, downloader.storage.inactive, lost); }
        return;
      }
      ChooseAgain(k);
      if !interested { NothingOffered(); }
      DroppedHeeds(p, State(), downloader.backlog, downloader.storage.inactive);
    }

    lemma NothingOffered()
      requires Sated(None)
      ensures |activeRequests| >= downloader.backlog
           || forall i: nat :: !OffersPiece(State(), downloader.storage.inactive, i)
    {
    }

    /** We stay interested in this peer only if the picker finds something to ask it for. */
    method ChooseAgain(ghost k: nat)
      requires downloader.ValidAs(false) && k < |downloader.downloads| && downloader.downloads[k] == this
      requires activeRequests == [] && interested
      modifies this`interested, this`exampleInterest, this`history
      ensures PeerOK(State(), downloader.numpieces, downloader.backlog) && downloader.Example(exampleInterest, have)
      ensures Content(State(), downloader.backlog, downloader.storage.inactive, downloader.allRequests, false)
      ensures !interested ==> downloader.picker.NextIs(Want(), AllTrue(have), None)
      ensures interested || Sated(None)
    {
      hide PeerOK, PiecePicker.Valid, StorageWrapper.Valid, Storages.Storage.Valid, PiecePicker.NextIs, Swarming,
        Downloader.Peers, Downloader.Wired, Downloader.ValidAs;
      downloader.ValidFacts(false, k);
      LoseInterest(State(), downloader.numpieces, downloader.backlog);
      var interest := ChooseNext(k);
      if interest == None {
        NothingToAsk(None, k);
        label L:
        interested := false;
        history := history + [ToldNotInterested];
        StillSated@L(None);
      } else {
        assert OffersPiece(State(), downloader.storage.inactive, interest.value);
        exampleInterest := interest;
      }
    }
  }

  ghost function PeersOf(ds: seq<SingleDownload>): (r: seq<Peer>)
    reads ds
    ensures |r| == |ds| && forall i | 0 <= i < |ds| :: r[i] == ds[i].State()
  {
    if ds == [] then [] else PeersOf(ds[..|ds| - 1]) + [ds[|ds| - 1].State()]
  }

  class Downloader {
    const storage: StorageWrapper
    const picker: PiecePicker
    const backlog: nat
    const numpieces: nat
    var downloads: seq<SingleDownload>
    /** In endgame, all outstanding blocks. */
    var allRequests: seq<Request>

    /** The storage was just opened, and the picker knows which pieces are already there. */
    constructor (storage: StorageWrapper, picker: PiecePicker, backlog: nat, numpieces: nat)
      requires storage.Valid() && storage.storage.Valid() && NothingStarted(storage.State()) && !storage.endgame
      requires picker.Valid() && storage.g.n == picker.numpieces == numpieces == |picker.num| == |storage.have|
      requires forall i | 0 <= i < numpieces :: picker.num[i] == if storage.have[i] then None else Some(0)
      ensures Valid() && downloads == [] && this.storage == storage && this.picker == picker
      ensures this.backlog == backlog && this.numpieces == numpieces
    {
      hide StorageWrapper.Valid, Storages.Storage.Valid, PiecePicker.Valid;
      this.storage, this.picker, this.backlog, this.numpieces := storage, picker, backlog, numpieces;
      downloads, allRequests := [], [];
      new;
      storage.Inner();
      NobodyYet(numpieces, backlog, storage.active, picker.num, storage.have);
    }

    /** A new connection. */
    method MakeDownload() returns (d: SingleDownload)
      requires Valid() && |downloads| + 1 < TOO_MANY
      modifies this`downloads
      ensures Valid() && fresh(d) && downloads == old(downloads) + [d]
      ensures d.State() == Peer(true, false, [], seq(numpieces, _ => false), [])
    {
      hide Downloader.Wired, Downloader.Peers, Swarming, StorageWrapper.Valid, Storages.Storage.Valid,
        PiecePicker.Valid, Wires;
      StorageOK(storage.endgame);
      d := new SingleDownload(this);
      downloads := downloads + [d];
      JoinStep(old(Peers()), numpieces, backlog, storage.active, allRequests, storage.endgame, picker.num, storage.have,
               d.State());
      OneMore(d);
    }

    /** A peer joined. */
    twostate lemma OneMore(new d: SingleDownload)
      requires old(Wired()) && downloads == old(downloads) + [d] && d !in old(downloads) && |downloads| < TOO_MANY
      requires storage.Valid() && picker.Valid() && d.downloader == this && d.exampleInterest == None
      requires forall e | e in old(downloads) :: unchanged(e)
      ensures Wired() && Peers() == old(Peers()) + [d.State()]
    {
      hide StorageWrapper.Valid, Storages.Storage.Valid, PiecePicker.Valid, PeersOf;
      forall i | 0 <= i < |old(downloads)|
        ensures downloads[i].State() == old(Peers())[i] && Example(downloads[i].exampleInterest, downloads[i].have)
        ensures downloads[i].downloader == this
      {
        assert downloads[i] in old(downloads);
      }
    }

    // ---- Invariant ----

    ghost function Peers(): (r: seq<Peer>)
      reads this, downloads
      ensures |r| == |downloads| && forall i | 0 <= i < |downloads| :: r[i] == downloads[i].State()
    {
      PeersOf(downloads)
    }

    /** What choices depend on. */
    ghost function SceneNow(): (v: Scene)
      requires storage.storage.Valid()
      reads this, downloads, storage, storage.storage, picker
      ensures |v.lines| == |downloads|
    {
      Scene(storage.State(), picker.State(), Lines(Peers()))
    }

    ghost predicate Wired()
      reads this, downloads, storage, storage.storage, picker
    {
      && storage.Valid() && picker.Valid()
      && storage.g.n == picker.numpieces == numpieces
      && NoDup(downloads) && |downloads| < TOO_MANY
      && forall i | 0 <= i < |downloads| ::
          downloads[i].downloader == this && Example(downloads[i].exampleInterest, downloads[i].have)
    }

    /** An example of what a peer is interesting for is a piece that the peer has. */
    predicate Example(e: Option<nat>, have: seq<bool>) {
      e.Some? ==> e.value < numpieces && e.value < |have| && have[e.value]
    }

    /** The invariant, with the outstanding blocks shared out as before endgame or as in it. */
    ghost predicate ValidAs(endgame: bool)
      reads this, downloads, storage, storage.storage, picker
    {
      && Wired()
      && Swarming(Peers(), numpieces, backlog, storage.active, allRequests, endgame, picker.num, storage.have)
    }

    /** The invariant but for what concerns interest: in endgame nothing is left to request. */
    ghost predicate Sound()
      reads this, downloads, storage, storage.storage, picker
    {
      ValidAs(storage.endgame) && (storage.endgame ==> NothingToRequest())
    }

    /** Interest and requests are in order for all peers but `skip`. */
    ghost predicate InOrder(skip: int)
      reads this, downloads, storage
    {
      Contented(Peers(), backlog, storage.inactive, allRequests, storage.endgame, skip)
    }

    /** After block `q` has arrived from peer `k`: the others are in order, in endgame for what was listed before.
        Nothing else may be left to request in endgame, but the piece itself if it was not `good`. */
    ghost predicate OthersInOrder(k: nat, q: Request, all0: seq<Request>, good: bool)
      reads this, downloads, storage
    {
      if storage.endgame then
        && Contented(Peers(), backlog, storage.inactive, all0, true, k)
        && ListedBut(all0, allRequests, q)
        && (forall i | 0 <= i < |storage.inactive| && (good || i != q.index) :: !HasRequests(storage.inactive[i]))
      else
        InOrder(k)
    }

    /** Since there were peers `ps`, and `before` could be requested, no piece is newly overlooked but for those in
        `skip`. */
    ghost predicate Heeding(ps: seq<Peer>, before: seq<Inactive>, skip: set<nat>)
      reads this, downloads, storage
    {
      storage.endgame || AllHeed(ps, Peers(), backlog, before, storage.inactive, skip)
    }

    /** Since there were peers `ps`, no peer that chokes us was newly told of our interest. */
    ghost predicate Quietly(ps: seq<Peer>)
      reads this, downloads, storage
    {
      storage.endgame || Quiet(ps, Peers())
    }

    /** Since there were peers `ps`, and `before` could be requested, piece `i` turned out wrong, of which peer `k` had
        sent the last block. */
    ghost predicate FailedSoon(ps: seq<Peer>, before: seq<Inactive>, k: nat, i: nat)
      reads this, downloads, storage
    {
      storage.endgame || backlog == 0 || Failed(ps, Peers(), backlog, before, storage.inactive, k, i)
    }

    ghost predicate ValidBut(skip: int)
      reads this, downloads, storage, storage.storage, picker
    {
      Sound() && InOrder(skip)
    }

    ghost predicate Valid()
      reads this, downloads, storage, storage.storage, picker
    {
      ValidBut(-1)
    }

    /** Since `v`, nothing but right choices was asked for before endgame. */
    ghost predicate Rightly(v: Scene, asker: Option<nat>, indices: Option<seq<nat>>)
      reads this, downloads, storage, storage.storage, picker
    {
      storage.storage.Valid() && AskedRightly(v, SceneNow(), Terms(asker, indices, backlog))
    }

    /** After peer `k` sent block `r`: asks it for more; but if the piece turned out wrong, asks anybody for that. */
    ghost predicate RightlySent(v: Scene, k: nat, r: Request, s: Store, ok: bool)
      reads this, downloads, storage, storage.storage, picker
    {
      k < |v.lines| &&
      Rightly(OnceComplete(OnceTaken(v, k, r, s), r.index), if ok then Some(k) else None,
              if ok then None else Some([r.index]))
    }

    lemma Incomplete(i: nat)
      requires storage.storage.Valid() && i < |storage.have| && !storage.have[i]
      ensures OnceComplete(SceneNow(), i) == SceneNow()
    {
    }

    lemma RightlyNothing(asker: Option<nat>, indices: Option<seq<nat>>)
      requires storage.storage.Valid()
      ensures Rightly(SceneNow(), asker, indices)
    {
      hide Downloader.SceneNow, Led, AskedRightly;
      NothingAsked(SceneNow(), Terms(asker, indices, backlog));
    }

    lemma RightlyOn(v: Scene, v1: Scene, asker: Option<nat>, indices: Option<seq<nat>>)
      requires AskedRightly(v, v1, Terms(asker, indices, backlog)) && Rightly(v1, asker, indices)
      ensures Rightly(v, asker, indices)
    {
      hide Downloader.SceneNow, AskedRightly;
      AskedOn(v, v1, SceneNow(), Terms(asker, indices, backlog));
    }

    lemma RightlyIs(v: Scene, asker: Option<nat>, indices: Option<seq<nat>>)
      requires Rightly(v, asker, indices)
      ensures storage.storage.Valid() && AskedRightly(v, SceneNow(), Terms(asker, indices, backlog))
    {
    }

    /** Peers were told and may have been asked for what is listed in endgame, but nothing was chosen since `v1`. */
    lemma RightlyStands(v: Scene, v1: Scene, ps: seq<Peer>, asker: Option<nat>, indices: Option<seq<nat>>)
      requires Led(v, v1, Terms(asker, indices, backlog)) && storage.storage.Valid()
      requires v1.lines == Lines(ps) && v1.store == storage.State() && v1.picks == picker.State()
      requires Wires(Peers()) == Wires(ps) && Grows(ps, Peers())
      requires !storage.endgame ==> |Peers()| == |ps| && forall k | 0 <= k < |ps| :: Peers()[k].active == ps[k].active
      ensures Rightly(v, asker, indices)
    {
      hide Led, Downloader.Peers, Wires, Grows, Stands;
      StandsIf(v1, SceneNow(), ps, Peers());
    }

    lemma HeedingStill(a: seq<Peer>, b: seq<Peer>, before: seq<Inactive>, skip: set<nat>)
      requires storage.endgame || AllHeed(a, b, backlog, before, storage.inactive, skip)
      requires AllHeed(b, Peers(), backlog, storage.inactive, storage.inactive, {})
      ensures Heeding(a, before, skip)
    {
      hide AllHeed, Downloader.Peers;
      if !storage.endgame {
        OneAfterTheOther(a, b, Peers(), backlog, before, storage.inactive, storage.inactive, skip);
      }
    }

    /** The blocks that were let go have been asked for, or would be. */
    lemma AllMadeUp(ps: seq<Peer>, before: seq<Inactive>, lost: seq<nat>)
      requires Heeding(ps, before, set i | i in lost) && Responded(downloads, lost)
      requires forall d | d in downloads :: d.downloader == this
      ensures Heeding(ps, before, {})
    {
      hide AllHeed, AnsweredTo, Downloader.Peers;
      PeersAre();
      if !storage.endgame {
        forall k, i: nat | 0 <= k < |Peers()| && i in lost
            ensures AnsweredTo(Peers()[k], backlog, storage.inactive, i) {
          assert downloads[k].Answered(i);
        }
        MadeUp(ps, Peers(), backlog, before, storage.inactive, set i | i in lost);
      }
    }

    lemma GreetedHeeds(ps: seq<Peer>, k: nat)
      requires k < |ps| && k < |downloads| && Peers() == ps[k := downloads[k].State()] && downloads[k].choked
      requires !storage.endgame ==> (downloads[k].interested <==> Offers(downloads[k].State(), storage.inactive))
      ensures Heeding(ps, storage.inactive, {})
    {
      hide Downloader.Peers, Heeds, AnsweredTo;
      if !storage.endgame {
        InterestHeeds(downloads[k].State(), backlog, storage.inactive);
        NothingHappened(ps, backlog, storage.inactive, {});
        assert Heeds(ps[k], downloads[k].State(), backlog, storage.inactive, storage.inactive, {}) by {
          HeededHeeds(ps[k], downloads[k].State(), backlog, storage.inactive);
        }
        OneHeeds(ps, k, downloads[k].State(), backlog, storage.inactive, storage.inactive, {});
      }
    }

    lemma HeedingAgain(ps: seq<Peer>, before: seq<Inactive>, skip: set<nat>)
      requires storage.endgame || AllHeed(ps, Peers(), backlog, before, storage.inactive, skip)
      ensures Heeding(ps, before, skip)
    {
    }

    lemma FailedNow(a: seq<Peer>, b: seq<Peer>, before: seq<Inactive>, now: seq<Inactive>, k: nat, i: nat)
      requires k < |a| == |b| && OthersHeed(a, b, backlog, before, now, {i}, k) && Heeding(b, now, {}) && Quietly(b)
      requires b == a[k := b[k]] && !b[k].choked && Wires(Peers()) == Wires(b)
      requires forall d | d in downloads :: d.downloader == this && (!d.choked ==> d.Answered(i))
      ensures FailedSoon(a, before, k, i)
    {
      hide AllHeed, OthersHeed, Quiet, Wires, Failed, AnsweredTo, Downloader.Peers;
      PeersAre();
      if !storage.endgame && backlog > 0 {
        forall j | 0 <= j < |Peers()| && !Peers()[j].choked
            ensures AnsweredTo(Peers()[j], backlog, storage.inactive, i) {
          assert downloads[j].Answered(i);
        }
        FailedSince(a, b, Peers(), backlog, before, now, storage.inactive, k, i);
      }
    }

    /** From `a` to `b`, and from there on. If endgame had begun by then, there is nothing to say. */
    lemma GoesOn(a: seq<Peer>, b: seq<Peer>, before: seq<Inactive>, now: seq<Inactive>, over: bool)
      requires over || (AllHeed(a, b, backlog, before, now, {}) && Quiet(a, b))
      requires (over ==> storage.endgame) && Heeding(b, now, {}) && Quietly(b) && Wires(Peers()) == Wires(b)
      ensures Heeding(a, before, {}) && Quietly(a)
    {
      hide AllHeed, Quiet, Wires, Downloader.Peers;
      if !storage.endgame {
        OneAfterTheOther(a, b, Peers(), backlog, before, now, storage.inactive, {});
        QuietTwice(a, b, Peers());
      }
    }

    lemma QuietlySince(a: seq<Peer>, b: seq<Peer>)
      requires Quiet(a, b) && Quietly(b) && Wires(Peers()) == Wires(b)
      ensures Quietly(a)
    {
      hide Quiet, Wires, Downloader.Peers;
      if !storage.endgame { QuietTwice(a, b, Peers()); }
    }

    lemma HeedingSame(ps: seq<Peer>, before: seq<Inactive>)
      requires AllHeed(ps, Peers(), backlog, before, storage.inactive, {})
      ensures Heeding(ps, before, {})
    {
    }

    /** Peer `k` was asked for as much as possible after something happened to it. */
    lemma FinallySated(ps: seq<Peer>, ps1: seq<Peer>, before: seq<Inactive>, mid: seq<Inactive>, k: nat)
      requires OthersHeed(ps, ps1, backlog, before, mid, {}, k) && Heeding(ps1, mid, {}) && k < |ps|
      requires k < |downloads| && !downloads[k].choked && downloads[k].downloader == this
      requires !storage.endgame ==> downloads[k].Sated(None)
      ensures Heeding(ps, before, {})
    {
      hide AllHeed, OthersHeed, Downloader.Peers;
      PeersAre();
      if !storage.endgame {
        OthersAfter(ps, ps1, Peers(), backlog, before, mid, storage.inactive, {}, k);
        assert Heeded(Peers()[k], backlog, storage.inactive);
        AllButOne(ps, Peers(), backlog, before, storage.inactive, k);
      }
    }

    /** Peer `k` had one more piece, and that one was seen to. */
    lemma HaveHeeding(ps: seq<Peer>, ps1: seq<Peer>, before: seq<Inactive>, k: nat, i: nat)
      requires k < |ps| && i < |ps[k].have| && ps1 == ps[k := ps[k].(have := ps[k].have[i := true])]
      requires Heeding(ps1, before, {}) && k < |downloads|
      requires downloads[k].downloader == this && downloads[k].Answered(i)
      ensures Heeding(ps, before, {})
    {
      hide Heeds, AnsweredTo, Downloader.Peers;
      PeersAre();
      if !storage.endgame {
        forall j | 0 <= j < |ps| ensures Heeds(ps[j], Peers()[j], backlog, before, storage.inactive, {}) {
          assert Heeds(ps1[j], Peers()[j], backlog, before, storage.inactive, {});
          if j == k { OneMorePiece(ps[k], ps1[k], Peers()[k], backlog, before, storage.inactive, i); }
        }
      }
    }

    lemma NothingNewly()
      ensures Heeding(Peers(), storage.inactive, {})
    {
      hide Downloader.Peers;
      NothingHappened(Peers(), backlog, storage.inactive, {});
    }

    lemma HeedingIs(ps: seq<Peer>, before: seq<Inactive>, skip: set<nat>)
      requires Heeding(ps, before, skip)
      ensures storage.endgame || AllHeed(ps, Peers(), backlog, before, storage.inactive, skip)
    {
    }

    lemma QuietlyIs(ps: seq<Peer>)
      requires Quietly(ps)
      ensures storage.endgame || Quiet(ps, Peers())
    {
    }

    lemma OverIsFine(ps: seq<Peer>, before: seq<Inactive>, skip: set<nat>)
      requires storage.endgame
      ensures Heeding(ps, before, skip) && Quietly(ps)
    {
    }

    lemma HeedingSince(a: seq<Peer>, b: seq<Peer>, before: seq<Inactive>, now: seq<Inactive>, skip: set<nat>)
      requires AllHeed(a, b, backlog, before, now, skip) && Heeding(b, now, {})
      ensures Heeding(a, before, skip)
    {
      hide AllHeed, Downloader.Peers;
      if !storage.endgame { OneAfterTheOther(a, b, Peers(), backlog, before, now, storage.inactive, skip); }
    }

    ghost predicate NothingToRequest()
      reads storage
    {
      forall i | 0 <= i < |storage.inactive| :: !HasRequests(storage.inactive[i])
    }

    lemma ValidFacts(endgame: bool, k: nat)
      requires ValidAs(endgame) && k < |downloads|
      ensures storage.Valid() && picker.Valid() && storage.storage.Valid()
      ensures storage.g.n == picker.numpieces == numpieces
      ensures |storage.inactive| == |storage.active| == |storage.have| == numpieces && Shape(storage.State())
      ensures downloads[k].downloader == this && k < |Peers()| && Peers()[k] == downloads[k].State()
      ensures PeerOK(downloads[k].State(), numpieces, backlog) && |downloads[k].have| == numpieces
      ensures Example(downloads[k].exampleInterest, downloads[k].have)
      ensures |picker.num| == numpieces && forall i | 0 <= i < numpieces :: picker.num[i] == None <==> storage.have[i]
    {
      storage.Inner();
      PeerFacts(Peers(), numpieces, backlog, storage.active, allRequests, endgame, picker.num, storage.have, k);
    }

    lemma WiredFacts(i: nat, k: nat)
      requires Wired() && i < |storage.inactive| && k < |downloads|
      ensures storage.Valid() && picker.Valid() && storage.storage.Valid()
      ensures storage.g.n == picker.numpieces == numpieces
      ensures |storage.inactive| == |storage.active| == |storage.have| == numpieces
      ensures Inv(storage.State(), storage.sha) && (HasRequests(storage.inactive[i]) ==> !storage.have[i])
      ensures downloads[k].downloader == this && k < |Peers()| && Peers()[k] == downloads[k].State()
    {
      storage.Inner();
      InvShape(storage.State(), storage.sha);
      if HasRequests(storage.inactive[i]) {
        RequestableNotHad(storage.State(), storage.sha, i);
      }
    }

    /** No peer changed. */
    twostate lemma StillWired()
      requires old(Wired()) && downloads == old(downloads) && storage.Valid() && picker.Valid()
      requires forall d | d in downloads :: d.State() == old(d.State()) && d.exampleInterest == old(d.exampleInterest)
      ensures Wired() && Peers() == old(Peers())
    {
      hide StorageWrapper.Valid, Storages.Storage.Valid, PiecePicker.Valid, PeersOf;
      forall i | 0 <= i < |downloads|
        ensures downloads[i].State() == old(downloads[i].State())
        ensures Example(downloads[i].exampleInterest, downloads[i].have)
      {
        assert downloads[i] in downloads;
      }
    }

    /** Peer `k` left. */
    twostate lemma OneLess(k: nat)
      requires old(Wired()) && k < |old(downloads)| && downloads == Blocks.Without(old(downloads), k)
      requires storage.Valid() && picker.Valid()
      requires forall d | d in old(downloads) && d != old(downloads)[k] :: unchanged(d)
      ensures Wired() && Peers() == Blocks.Without(old(Peers()), k)
    {
      hide StorageWrapper.Valid, Storages.Storage.Valid, PiecePicker.Valid, PeersOf;
      forall i | 0 <= i < |downloads|
        ensures downloads[i].State() == old(Peers())[if i < k then i else i + 1]
        ensures Example(downloads[i].exampleInterest, downloads[i].have)
        ensures downloads[i].downloader == this
      {
        ghost var d := old(downloads)[if i < k then i else i + 1];
        assert d in old(downloads) && d != old(downloads)[k] && downloads[i] == d;
      }
      forall i | 0 <= i < |downloads| ensures Peers()[i] == Blocks.Without(old(Peers()), k)[i] {
      }
    }

    /** Only one peer changed, and what is not a peer is still in order. */
    twostate lemma OnePeer(k: nat)
      requires old(Wired()) && k < |downloads| && downloads == old(downloads) && storage.Valid() && picker.Valid()
      requires forall d | d in downloads && d != downloads[k] :: unchanged(d)
      requires Example(downloads[k].exampleInterest, downloads[k].have)
      ensures Wired() && Peers() == old(Peers())[k := downloads[k].State()]
      ensures downloads[k].choked == old(downloads[k].choked) && downloads[k].have == old(downloads[k].have) ==>
        SameWires()
    {
      hide StorageWrapper.Valid, Storages.Storage.Valid, PiecePicker.Valid, PeersOf, Wires;
      forall i | 0 <= i < |downloads| && i != k
        ensures downloads[i].State() == old(downloads[i].State())
        ensures Example(downloads[i].exampleInterest, downloads[i].have)
      {
        assert downloads[i] in downloads && downloads[i] != downloads[k];
      }
      forall i | 0 <= i < |downloads| ensures Peers()[i] == old(Peers())[k := downloads[k].State()][i] {
      }
      if downloads[k].choked == old(downloads[k].choked) && downloads[k].have == old(downloads[k].have) {
        SameWire(old(Peers()), k, downloads[k].State());
      }
    }

    twostate lemma StillUnchoked(k: nat)
      requires SameWires() && k < |downloads|
      ensures downloads[k].choked == old(downloads[k].choked) && downloads[k].have == old(downloads[k].have)
    {
      hide Wires;
      WireAt(old(Peers()), Peers(), k);
    }

    // ---- Steps on all peers ----

    /** Which peers there are, who chokes us and who has what is as before. */
    twostate predicate SameWires()
      reads this, downloads
    {
      downloads == old(downloads) && Wires(Peers()) == old(Wires(Peers()))
    }

    /** A piece that peer `k` has and that can be requested is counted. */
    lemma Countable(k: nat, i: nat)
      requires ValidAs(false) && k < |downloads| && i < |downloads[k].have| && downloads[k].have[i]
      requires i < |storage.inactive| && HasRequests(storage.inactive[i])
      ensures i < numpieces == |picker.num| == picker.numpieces && picker.num[i].Some?
      ensures 0 < picker.num[i].value < TOO_MANY
    {
      hide Downloader.Peers, PiecePicker.Valid, StorageWrapper.Valid, Storages.Storage.Valid, Inv, Shape, Shared,
        PeersOK;
      ValidFacts(false, k);
      WiredFacts(i, k);
      CountPositive(Peers(), picker.num, storage.have, k, i);
      HoldersAtMost(Peers(), |Peers()|, i);
    }

    /** Peers other than `d` are asked for the same as before. */
    twostate predicate SameRequestsBut(d: SingleDownload)
      reads this, downloads
    {
      downloads == old(downloads) && forall e | e in downloads && e != d :: e.activeRequests == old(e.activeRequests)
    }

    twostate lemma SameActive()
      requires downloads == old(downloads)
      requires !storage.endgame ==> forall d | d in downloads :: d.activeRequests == old(d.activeRequests)
      ensures |Peers()| == |old(Peers())|
      ensures !storage.endgame ==> forall k | 0 <= k < |Peers()| :: Peers()[k].active == old(Peers())[k].active
    {
      hide Downloader.Peers;
      forall k | 0 <= k < |downloads|
        ensures Peers()[k] == downloads[k].State() && old(Peers())[k] == old(downloads[k].State())
      {
      }
      assert forall k | 0 <= k < |downloads| :: downloads[k] in downloads;
    }

    lemma PutInOrder(k: nat)
      requires InOrder(k) && k < |downloads|
      requires Content(downloads[k].State(), backlog, storage.inactive, allRequests, storage.endgame)
      ensures InOrder(-1)
    {
      hide Content, Downloader.Peers, PeersOf;
      var ps := Peers();
      PeersAre();
      ContentUpdate(ps, backlog, storage.inactive, allRequests, storage.endgame, k, k, ps[k]);
      assert ps[k := ps[k]] == ps;
    }

    lemma PeersAre()
      ensures |Peers()| == |downloads| && forall i | 0 <= i < |downloads| :: Peers()[i] == downloads[i].State()
    {
    }

    /** Once everything is complete, nothing can be requested. */
    lemma NothingLeft(endgame: bool)
      requires ValidAs(endgame) && forall p | 0 <= p < numpieces :: p < |picker.num| && picker.num[p] == None
      ensures NothingToRequest() && AllTrue(storage.have)
    {
      hide Downloader.Peers, StorageWrapper.Valid, Storages.Storage.Valid, PiecePicker.Valid, Shape, Inv, PeersOK,
        Shared;
      StorageOK(endgame);
      storage.Inner();
      forall i: nat | i < |storage.inactive| ensures !HasRequests(storage.inactive[i]) {
        if HasRequests(storage.inactive[i]) { RequestableNotHad(storage.State(), storage.sha, i); }
      }
    }

    lemma EndgameAnswers()
      ensures storage.endgame && (forall d | d in downloads :: d.downloader == this) ==>
        forall d, i: nat | d in downloads :: d.Answered(i)
    {
    }

    lemma FullInOrder(k: nat)
      requires ValidBut(k) && k < |downloads| && |downloads[k].activeRequests| == backlog
      ensures Valid()
    {
      hide Downloader.Peers, Downloader.Wired, Swarming, StorageWrapper.Valid, Storages.Storage.Valid,
        PiecePicker.Valid, PeerOK, Content, Contented;
      ValidFacts(storage.endgame, k);
      if storage.endgame {
        ActiveListed(Peers(), numpieces, backlog, storage.active, allRequests, picker.num, storage.have, k);
      }
      ContentFull(downloads[k].State(), numpieces, backlog, storage.inactive, allRequests, storage.endgame);
      ContentUpdate(Peers(), backlog, storage.inactive, allRequests, storage.endgame, k, k, downloads[k].State());
      assert Peers()[k := downloads[k].State()] == Peers();
    }

    /** If nobody is asked for less. */
    lemma StillGrown(ps: seq<Peer>)
      requires |ps| == |downloads| && forall i | 0 <= i < |ps| :: downloads[i].activeRequests == ps[i].active
      ensures Grows(ps, Peers())
    {
      hide Downloader.Peers;
      PeersAre();
    }

    /** `fix_download_endgame` of one peer. */
    method Fix(d: SingleDownload, ghost k: nat)
      requires ValidAs(true) && k < |downloads| && downloads[k] == d
      modifies d`interested, d`activeRequests, d`history
      ensures ValidAs(true) && SameWires() && Peers() == old(Peers())[k := d.State()]
      ensures Content(d.State(), backlog, storage.inactive, allRequests, true)
      ensures Grows(old(Peers()), Peers())
    {
      hide Downloader.Wired, Downloader.Peers, Swarming, StorageWrapper.Valid, Storages.Storage.Valid,
        PiecePicker.Valid, PeerOK, Wires, Content, Grows;
      ValidFacts(true, k);
      ghost var peers0 := Peers();
      AllInRange(peers0, numpieces, backlog, storage.active, allRequests, picker.num, storage.have);
      ActiveListed(peers0, numpieces, backlog, storage.active, allRequests, picker.num, storage.have, k);
      d.FixDownloadEndgame();
      FixStep(peers0, numpieces, backlog, storage.active, allRequests, picker.num, storage.have, k, d.State());
      OnePeer(k);
      GrowsOne(peers0, k, d.State());
    }

    method FixAll()
      requires ValidAs(true)
      modifies downloads`interested, downloads`exampleInterest, downloads`activeRequests, downloads`history
      ensures ValidAs(true) && SameWires() && Grows(old(Peers()), Peers())
      ensures Contented(Peers(), backlog, storage.inactive, allRequests, true, -1)
    {
      hide Downloader.Wired, Downloader.Peers, Swarming, StorageWrapper.Valid, Storages.Storage.Valid,
        PiecePicker.Valid, Wires, Content, Contented, ContentUpTo, GrowsAt;
      ContentAll(Peers(), backlog, storage.inactive, allRequests);
      AllGrow(Peers());
      for i := 0 to |downloads|
        invariant ValidAs(true) && SameWires() && Grows(old(Peers()), Peers())
        invariant ContentUpTo(Peers(), backlog, storage.inactive, allRequests, i)
      {
        ghost var ps := Peers();
        Fix(downloads[i], i);
        GrowsTwice(old(Peers()), ps, Peers());
        ContentOneMore(ps, backlog, storage.inactive, allRequests, i, downloads[i].State());
      }
      ContentAll(Peers(), backlog, storage.inactive, allRequests);
    }

    method Disinterest(d: SingleDownload, ghost k: nat)
      requires ValidAs(false) && k < |downloads| && downloads[k] == d && d.activeRequests == []
      modifies d`interested, d`history
      ensures ValidAs(false) && !d.interested && SameWires() && Peers() == old(Peers())[k := d.State()]
    {
      hide Downloader.Wired, Downloader.Peers, Swarming, StorageWrapper.Valid, Storages.Storage.Valid,
        PiecePicker.Valid, PeerOK, Wires;
      ValidFacts(false, k);
      ghost var peers0 := Peers();
      LoseInterest(d.State(), numpieces, backlog);
      d.interested, d.history := false, d.history + [ToldNotInterested];
      PeerStep(peers0, numpieces, backlog, storage.active, allRequests, false, picker.num, storage.have, k, d.State());
      OnePeer(k);
    }

    method Interest(d: SingleDownload, ghost k: nat)
      requires ValidAs(storage.endgame) && k < |downloads| && downloads[k] == d
      modifies d`interested, d`history
      ensures ValidAs(storage.endgame) && d.interested && SameWires() && Peers() == old(Peers())[k := d.State()]
    {
      hide Downloader.Wired, Downloader.Peers, Swarming, StorageWrapper.Valid, Storages.Storage.Valid,
        PiecePicker.Valid, PeerOK, Wires;
      ValidFacts(storage.endgame, k);
      ghost var peers0 := Peers();
      ShowInterest(d.State(), numpieces, backlog);
      d.interested, d.history := true, d.history + [ToldInterested];
      PeerStep(peers0, numpieces, backlog, storage.active, allRequests, storage.endgame, picker.num, storage.have, k,
               d.State());
      OnePeer(k);
    }

    /** Once everything is complete, nothing is outstanding, and in endgame nothing is listed. */
    lemma NothingListed()
      requires ValidAs(true) && forall p | 0 <= p < numpieces :: p < |picker.num| && picker.num[p] == None
      ensures allRequests == []
    {
      hide Downloader.Peers, StorageWrapper.Valid, Storages.Storage.Valid, PiecePicker.Valid, Shape, Inv, PeersOK,
        Counted;
      StorageOK(true);
      storage.Inner();
      forall i: nat | i < |storage.active| ensures storage.active[i] == {} {
        HadQuiet(storage.State(), storage.sha, i);
      }
      NoneListed(Peers(), storage.active, allRequests);
    }

    method ReconsiderOne(d: SingleDownload, ghost k: nat, lost: seq<nat>, ghost before: seq<Inactive>)
      requires ValidAs(false) && k < |downloads| && downloads[k] == d && AllBelow(lost, numpieces)
      requires LostAmong(before, storage.inactive, lost)
      requires Content(d.State(), backlog, storage.inactive, allRequests, false)
            || Content(d.State(), backlog, before, allRequests, false)
      modifies d`interested, d`exampleInterest, d`history
      ensures ValidAs(false) && SameWires() && Peers() == old(Peers())[k := d.State()]
      ensures Content(d.State(), backlog, storage.inactive, allRequests, false)
      ensures k < |old(Peers())| && Heeds(old(Peers())[k], d.State(), backlog, storage.inactive, storage.inactive, {})
      ensures Quiet(old(Peers()), Peers())
    {
      hide Downloader.Peers, Swarming, StorageWrapper.Valid, Storages.Storage.Valid, PiecePicker.Valid, PeerOK, Wires,
        Content, LostAmong, Heeds, Quiet;
      ValidFacts(false, k);
      ghost var peers0 := Peers();
      d.Reconsider(lost, before, k);
      PeerStep(peers0, numpieces, backlog, storage.active, allRequests, false, picker.num, storage.have, k, d.State());
      OnePeer(k);
      QuietOne(peers0, k, d.State());
    }

    /** Peers whose pieces just lost their last block to ask for are reconsidered. */
    method ReconsiderAll(lost: seq<nat>, ghost before: seq<Inactive>)
      requires ValidAs(false) && AllBelow(lost, numpieces)
      requires LostAmong(before, storage.inactive, lost)
      requires Reconsidered(Peers(), backlog, before, storage.inactive, allRequests, 0)
      modifies downloads`interested, downloads`exampleInterest, downloads`activeRequests, downloads`history
      ensures ValidAs(false) && SameWires()
      ensures Contented(Peers(), backlog, storage.inactive, allRequests, false, -1)
      ensures forall i | 0 <= i < |downloads| :: downloads[i].activeRequests == old(downloads[i].activeRequests)
      ensures AllHeed(old(Peers()), Peers(), backlog, storage.inactive, storage.inactive, {})
      ensures Quiet(old(Peers()), Peers())
    {
      hide Downloader.Wired, Downloader.Peers, Swarming, StorageWrapper.Valid, Storages.Storage.Valid,
        PiecePicker.Valid, Wires, Content, LostAmong, Contented, AllHeed, Heeds, Quiet;
      NothingHappened(Peers(), backlog, storage.inactive, {});
      NothingTold(Peers());
      for i := 0 to |downloads|
        invariant ValidAs(false) && SameWires()
        invariant AllHeed(old(Peers()), Peers(), backlog, storage.inactive, storage.inactive, {})
        invariant Quiet(old(Peers()), Peers())
        invariant Reconsidered(Peers(), backlog, before, storage.inactive, allRequests, i)
        invariant forall i | 0 <= i < |downloads| :: downloads[i].activeRequests == old(downloads[i].activeRequests)
      {
        ghost var ps := Peers();
        ReconsiderOne(downloads[i], i, lost, before);
        ReconsideredOne(ps, backlog, before, storage.inactive, allRequests, i, downloads[i].State());
        NothingHappened(ps, backlog, storage.inactive, {});
        QuietTwice(old(Peers()), ps, Peers());
        OneHeeds(ps, i, downloads[i].State(), backlog, storage.inactive, storage.inactive, {});
        OneAfterTheOther(old(Peers()), ps, Peers(), backlog, storage.inactive, storage.inactive, storage.inactive, {});
      }
      ReconsideredAll(Peers(), backlog, before, storage.inactive, allRequests);
    }

    /** The second half of `_request_more`: what was just asked for may concern other peers. `before` is what could be
        requested when all peers but the one that was asked were in order. */
    method AfterAsking(lost: seq<nat>, ghost before: seq<Inactive>)
      requires ValidAs(false) && AllBelow(lost, numpieces) && (storage.endgame ==> NothingToRequest())
      requires LostAmong(before, storage.inactive, lost)
      requires Reconsidered(Peers(), backlog, before, storage.inactive, allRequests, 0)
      modifies this`allRequests, downloads`interested, downloads`exampleInterest, downloads`activeRequests
      modifies downloads`history
      ensures Valid() && SameWires() && Heeding(old(Peers()), storage.inactive, {})
      ensures Quietly(old(Peers())) && Grows(old(Peers()), Peers())
      ensures !storage.endgame ==>
        forall i | 0 <= i < |downloads| :: downloads[i].activeRequests == old(downloads[i].activeRequests)
    {
      hide Downloader.Wired, Downloader.Peers, Swarming, StorageWrapper.Valid, Storages.Storage.Valid,
        PiecePicker.Valid, Wires, Content, Contented, LostAmong, Reconsidered, AllHeed, Quiet, Grows;
      AllGrow(Peers());
      NothingHappened(Peers(), backlog, storage.inactive, {});
      NothingTold(Peers());
      if lost != [] {
        ReconsiderAll(lost, before);
      } else {
        NoneLost(Peers(), backlog, before, storage.inactive, allRequests);
      }
      StillGrown(old(Peers()));
      ghost var ps := Peers();
      if storage.endgame {
        SwitchToEndgame();
        GrowsTwice(old(Peers()), ps, Peers());
      }
    }

    /** The switch: what is outstanding is listed, and every peer may be asked for it. */
    method SwitchToEndgame()
      requires ValidAs(false)
      modifies this`allRequests, downloads`interested, downloads`exampleInterest, downloads`activeRequests
      modifies downloads`history
      ensures ValidAs(true) && SameWires() && Grows(old(Peers()), Peers())
      ensures Contented(Peers(), backlog, storage.inactive, allRequests, true, -1)
    {
      hide Swarming, StorageWrapper.Valid, Storages.Storage.Valid, PiecePicker.Valid, Wires, Content, Contented, Grows;
      EndgameStep(Peers(), numpieces, backlog, storage.active, allRequests, picker.num, storage.have);
      var all := [];
      for i := 0 to |downloads|
        invariant all == AllActive(Peers(), i) && Peers() == old(Peers()) && ValidAs(false)
      {
        all := all + downloads[i].activeRequests;
      }
      allRequests := all;
      StillWired();
      FixAll();
    }

    /** Every peer that does not choke us may be asked for blocks of the given pieces. */
    method SpreadOut(indices: seq<nat>)
      requires Valid() && AllBelow(indices, numpieces)
      modifies this`allRequests, downloads`interested, downloads`exampleInterest, downloads`activeRequests
      modifies downloads`history
      modifies storage`inactive, storage`numactive, storage`amountInactive, storage`endgame, storage`active
      modifies picker`started, picker`seedstarted
      ensures Valid() && SameWires() && Progress(old(storage.State()), storage.State())
      ensures Busy(indices) && Heeding(old(Peers()), old(storage.inactive), {}) && Quietly(old(Peers()))
      ensures Rightly(old(SceneNow()), None, Some(indices))
    {
      hide AskedRightly, Downloader.SceneNow, Downloader.Rightly, AllHeed, Quiet, Downloader.Heeding,
        StorageWrapper.State, Downloader.Valid, Downloader.Responded, Downloader.Busy, Downloader.Peers,
        Downloader.Wired, Swarming, StorageWrapper.Valid, Storages.Storage.Valid, PiecePicker.Valid, Progress, Shape,
        Inv, AllBelow, Wires, Content, Contented, SingleDownload.Answered, MoreToRequest;
      ValidOK();
      ghost var s0 := storage.State();
      ProgressRefl(s0);
      var ds := Unchoked();
      ds := Shuffle(ds);
      assert ds[..0] == [];
      NobodyResponded(indices);
      ghost var ps0, before, v0 := Peers(), storage.inactive, SceneNow();
      RightlyNothing(None, Some(indices));
      NothingNewly();
      NothingTold(ps0);
      for n := 0 to |ds|
        invariant Valid() && SameWires() && Progress(s0, storage.State())
        invariant Heeding(ps0, before, {}) && Quietly(ps0) && Rightly(v0, None, Some(indices))
        invariant forall d | d in ds :: d in downloads && !d.choked
        invariant forall d | d in downloads && !d.choked :: d in ds
        invariant Responded(ds[..n], indices) && (n == |ds| ==> ds[..n] == ds)
      {
        RightlyIs(v0, None, Some(indices));
        ghost var s1, ps1, now, over, v1 := storage.State(), Peers(), storage.inactive, storage.endgame, SceneNow();
        assert ds[n] in ds;
        HeedingIs(ps0, before, {});
        QuietlyIs(ps0);
        SpreadTo(ds, n, indices);
        RightlyOn(v0, v1, None, Some(indices));
        ProgressTrans(s0, s1, storage.State());
        GoesOn(ps0, ps1, before, now, over);
      }
      AllBusy(ds, indices);
    }

    /** One of the peers that do not choke us. */
    method SpreadTo(ds: seq<SingleDownload>, n: nat, indices: seq<nat>)
      requires Valid() && AllBelow(indices, numpieces) && n < |ds| && ds[n] in downloads
      requires Responded(ds[..n], indices) && forall d | d in ds :: d in downloads && !d.choked
      modifies this`allRequests, downloads`interested, downloads`exampleInterest, downloads`activeRequests
      modifies downloads`history
      modifies storage`inactive, storage`numactive, storage`amountInactive, storage`endgame, storage`active
      modifies picker`started, picker`seedstarted
      ensures Valid() && SameWires() && Progress(old(storage.State()), storage.State())
      ensures Responded(ds[..n + 1], indices) && Heeding(old(Peers()), old(storage.inactive), {})
      ensures Quietly(old(Peers())) && Rightly(old(SceneNow()), None, Some(indices))
      ensures old(storage.endgame) ==> storage.endgame
    {
      hide Downloader.Heeding, Downloader.Quietly, Downloader.Valid, Downloader.Peers, Downloader.Wired, Swarming,
        StorageWrapper.Valid, Storages.Storage.Valid, StorageWrapper.State, PiecePicker.Valid, Progress, Shape, Inv,
        AllBelow, Wires, Content, Contented, AnsweredTo, MoreToRequest, Downloader.Rightly;
      AskOne(ds[n], indices);
      forall e, i | e in ds[..n] && e != ds[n] && i in indices ensures e.downloader == this && e.Answered(i) {
        assert e in ds;
        assert old(e.Answered(i));
        if !storage.endgame {
          AnswerStands(old(e.State()), e.State(), backlog, old(storage.inactive), storage.inactive, i);
        }
      }
      OneMoreResponded(ds, n, indices);
    }

    method AskOne(d: SingleDownload, indices: seq<nat>)
      requires Valid() && AllBelow(indices, numpieces) && d in downloads && !d.choked
      modifies this`allRequests, downloads`interested, downloads`exampleInterest, downloads`activeRequests
      modifies downloads`history
      modifies storage`inactive, storage`numactive, storage`amountInactive, storage`endgame, storage`active
      modifies picker`started, picker`seedstarted
      ensures Valid() && SameWires() && Progress(old(storage.State()), storage.State())
      ensures MoreToRequest(storage.inactive, old(storage.inactive)) && (old(storage.endgame) ==> storage.endgame)
      ensures d.downloader == this && forall i | i in indices :: d.Answered(i)
      ensures !storage.endgame ==> SameRequestsBut(d)
      ensures Heeding(old(Peers()), old(storage.inactive), {}) && Quietly(old(Peers()))
      ensures Rightly(old(SceneNow()), None, Some(indices))
    {
      hide Downloader.Peers, Downloader.Wired, Swarming, StorageWrapper.Valid, Storages.Storage.Valid,
        PiecePicker.Valid, Progress, Shape, Inv, AllBelow, Wires, Content, Contented, AnsweredTo, MoreToRequest,
        AskedRightly, Downloader.SceneNow;
      ghost var k :| 0 <= k < |downloads| && downloads[k] == d;
      StorageOK(storage.endgame);
      ghost var s1 := storage.State();
      ContentBut(Peers(), backlog, storage.inactive, allRequests, storage.endgame, k);
      d.RequestMore(Some(indices), k);
      ByAnybody(old(SceneNow()), SceneNow(), Terms(Some(k), Some(indices), backlog));
      d.SatedAnswered(Some(indices));
      EndgameStays(s1, storage.State());
    }

    /** These peers are asked for blocks of the given pieces as far as that is possible. */
    ghost predicate Responded(ds: seq<SingleDownload>, indices: seq<nat>)
      reads this, storage, ds
    {
      forall d, i | d in ds && i in indices :: d.downloader == this && d.Answered(i)
    }

    lemma EndgameStays(s: Store, s': Store)
      requires Progress(s, s')
      ensures s.endgame ==> s'.endgame
    {
    }

    /** As `Responded`, for all peers that do not choke us. */
    ghost predicate Busy(indices: seq<nat>)
      reads this, storage, downloads
    {
      forall d, i | d in downloads && !d.choked && i in indices :: d.downloader == this && d.Answered(i)
    }

    lemma OneMoreResponded(ds: seq<SingleDownload>, n: nat, indices: seq<nat>)
      requires n < |ds| && ds[n].downloader == this && forall i | i in indices :: ds[n].Answered(i)
      requires forall e, i | e in ds[..n] && e != ds[n] && i in indices :: e.downloader == this && e.Answered(i)
      ensures Responded(ds[..n + 1], indices)
    {
      hide SingleDownload.Answered;
      assert ds[..n + 1] == ds[..n] + [ds[n]];
    }

    lemma NobodyResponded(indices: seq<nat>)
      ensures Responded([], indices)
    {
    }

    lemma AllBusy(ds: seq<SingleDownload>, indices: seq<nat>)
      requires Responded(ds, indices) && forall d | d in downloads && !d.choked :: d in ds
      ensures Busy(indices)
    {
      hide SingleDownload.Answered;
    }

    /** [d for d in downloads if not d.choked] */
    method Unchoked() returns (ds: seq<SingleDownload>)
      ensures forall d | d in ds :: d in downloads && !d.choked
      ensures forall d | d in downloads && !d.choked :: d in ds
    {
      ds := [];
      for i := 0 to |downloads|
        invariant forall d | d in ds :: d in downloads && !d.choked
        invariant forall j | 0 <= j < i && !downloads[j].choked :: downloads[j] in ds
      {
        if !downloads[i].choked {
          ds := ds + [downloads[i]];
        }
      }
    }

    /** The last part of `_letgo`: if any blocks were let go, of the pieces `lost`, they may be requested again. */
    method Reassign(lost: seq<nat>)
      requires Valid() && AllBelow(lost, numpieces)
      modifies this`allRequests, downloads`interested, downloads`exampleInterest, downloads`activeRequests
      modifies downloads`history
      modifies storage`inactive, storage`numactive, storage`amountInactive, storage`endgame, storage`active
      modifies picker`started, picker`seedstarted
      ensures Valid() && SameWires() && storage.storage.Valid() && Progress(old(storage.State()), storage.State())
      ensures Responded(downloads, lost) && forall d | d in downloads :: d.downloader == this
      ensures (old(storage.endgame) ==> storage.endgame) && Heeding(old(Peers()), old(storage.inactive), {})
      ensures Rightly(old(SceneNow()), None, Some(lost))
    {
      hide AskedRightly, Downloader.Rightly, AllHeed, Downloader.Heeding, Downloader.Valid, Downloader.Peers,
        Downloader.Wired, Swarming, StorageWrapper.Valid, Storages.Storage.Valid, PiecePicker.Valid, Progress, Shape,
        Inv, Wires, Content, Contented, SingleDownload.Answered, Downloader.Busy;
      ValidOK();
      ProgressRefl(storage.State());
      NothingNewly();
      RightlyNothing(None, Some(lost));
      if lost == [] {
        return;
      }
      SpreadOut(lost);
      EndgameStays(old(storage.State()), storage.State());
      RightlyIs(old(SceneNow()), None, Some(lost));
      ghost var ps, v1 := Peers(), SceneNow();
      HeedingIs(old(Peers()), old(storage.inactive), {});
      label L:
      RekindleAll(lost);
      SameActive@L();
      StillGrown(ps);
      NothingAsked(v1, Terms(None, Some(lost), backlog));
      RightlyStands(v1, v1, ps, None, Some(lost));
      RightlyOn(old(SceneNow()), v1, None, Some(lost));
      HeedingStill(old(Peers()), ps, old(storage.inactive), {});
      ValidOK();
    }

    /** The loop at the end of `_letgo`. */
    method RekindleAll(lost: seq<nat>)
      requires Valid() && AllBelow(lost, numpieces) && Busy(lost)
      modifies downloads`interested, downloads`history
      ensures Valid() && SameWires() && Responded(downloads, lost)
      ensures AllHeed(old(Peers()), Peers(), backlog, storage.inactive, storage.inactive, {})
    {
      hide AllHeed, Downloader.Valid, Downloader.Peers, Downloader.Wired, Downloader.Busy, Downloader.Responded,
        Downloader.RespondedUpTo, StorageWrapper.Valid, Storages.Storage.Valid, PiecePicker.Valid, Wires,
        SingleDownload.Answered;
      NoneResponded(lost);
      ghost var ps := Peers();
      NothingHappened(ps, backlog, storage.inactive, {});
      for n := 0 to |downloads|
        invariant Valid() && SameWires() && Busy(lost) && RespondedUpTo(n, lost)
        invariant AllHeed(ps, Peers(), backlog, storage.inactive, storage.inactive, {})
      {
        ghost var ps1 := Peers();
        RekindleNext(downloads[n], n, lost);
        OneAfterTheOther(ps, ps1, Peers(), backlog, storage.inactive, storage.inactive, storage.inactive, {});
      }
      AllResponded(lost);
    }

    /** The first `n` peers are asked, or know of our interest, as far as that is possible. */
    ghost predicate RespondedUpTo(n: nat, lost: seq<nat>)
      reads this, storage, downloads
    {
      && n <= |downloads| && (forall d | d in downloads :: d.downloader == this)
      && forall m, i | 0 <= m < n && i in lost :: downloads[m].Answered(i)
    }

    lemma NoneResponded(lost: seq<nat>)
      requires Valid()
      ensures RespondedUpTo(0, lost)
    {
      hide Downloader.Valid;
      ValidOK();
    }

    lemma AllResponded(lost: seq<nat>)
      requires RespondedUpTo(|downloads|, lost)
      ensures Responded(downloads, lost)
    {
      hide SingleDownload.Answered;
    }

    method RekindleNext(d: SingleDownload, ghost n: nat, lost: seq<nat>)
      requires Valid() && AllBelow(lost, numpieces) && Busy(lost) && n < |downloads| && downloads[n] == d
      requires RespondedUpTo(n, lost)
      modifies d`interested, d`history
      ensures Valid() && SameWires() && Busy(lost) && RespondedUpTo(n + 1, lost)
      ensures AllHeed(old(Peers()), Peers(), backlog, storage.inactive, storage.inactive, {})
    {
      hide AllHeed, Downloader.Valid, Downloader.Peers, Downloader.Wired, StorageWrapper.Valid, Storages.Storage.Valid,
        PiecePicker.Valid, Wires, AllBelow, SingleDownload.Answered;
      ValidOK();
      Rekindle(d, n, lost);
    }

    /** After the blocks `rs` were given back, of the pieces `lost`. */
    lemma Replied(lost: seq<nat>, rs: seq<Request>)
      requires Responded(downloads, lost) && forall d | d in downloads :: d.downloader == this
      requires !storage.endgame ==> forall r | r in rs :: r.index in lost
      ensures forall d, r | d in downloads && r in rs :: d.Answered(r.index)
    {
    }

    /** A peer that chokes us is told of our interest if it has one of the lost pieces. */
    method Rekindle(d: SingleDownload, ghost k: nat, lost: seq<nat>)
      requires Valid() && k < |downloads| && downloads[k] == d && AllBelow(lost, numpieces)
      modifies d`interested, d`history
      ensures Valid() && SameWires()
      ensures forall i | i in lost && (d.choked || old(d.Answered(i))) :: d.Answered(i)
      ensures AllHeed(old(Peers()), Peers(), backlog, storage.inactive, storage.inactive, {})
    {
      hide AllHeed, Heeds, Downloader.Peers, Downloader.Wired, Swarming, StorageWrapper.Valid, Storages.Storage.Valid,
        PiecePicker.Valid, PeerOK, Wires, Content, Contented;
      ValidFacts(storage.endgame, k);
      ghost var ps := Peers();
      NothingHappened(ps, backlog, storage.inactive, {});
      if d.choked && !d.interested {
        for m := 0 to |lost|
          invariant forall j | 0 <= j < m :: !OffersPiece(d.State(), storage.inactive, lost[j])
        {
          assert lost[m] in lost;
          if d.have[lost[m]] && storage.DoIHaveRequests(lost[m]) {
            ContentBut(ps, backlog, storage.inactive, allRequests, storage.endgame, k);
            d.AskForIt(lost[m], k);
            AskedHeeds(ps[k], d.State(), backlog, storage.inactive, storage.inactive);
            OneHeeds(ps, k, d.State(), backlog, storage.inactive, storage.inactive, {});
            return;
          }
        }
      }
    }

    lemma StorageOK(endgame: bool)
      requires ValidAs(endgame)
      ensures storage.Valid() && picker.Valid() && storage.storage.Valid()
      ensures storage.g.n == picker.numpieces == numpieces
      ensures |storage.inactive| == |storage.active| == |storage.have| == numpieces && Shape(storage.State())
      ensures NoDup(downloads) && |downloads| < TOO_MANY
      ensures forall i | 0 <= i < |downloads| :: downloads[i].downloader == this
      ensures |picker.num| == numpieces && forall i | 0 <= i < numpieces :: picker.num[i] == None <==> storage.have[i]
    {
      storage.Inner();
    }

    /** What the invariant consists of. */
    lemma Opened(skip: int)
      requires ValidBut(skip) || (skip == -1 && Valid())
      ensures ValidAs(storage.endgame) && (storage.endgame ==> NothingToRequest())
      ensures Contented(Peers(), backlog, storage.inactive, allRequests, storage.endgame, skip)
    {
      hide Downloader.Wired, Downloader.Peers, Swarming, Contented;
    }

    lemma Closed(skip: int)
      requires ValidAs(storage.endgame) && (storage.endgame ==> NothingToRequest())
      requires Contented(Peers(), backlog, storage.inactive, allRequests, storage.endgame, skip)
      ensures ValidBut(skip) && (skip == -1 ==> Valid())
    {
      hide Downloader.Wired, Downloader.Peers, Swarming, Contented;
    }

    /** Peer `k` has one more piece. */
    lemma AfterHave(k: nat, i: nat, ps: seq<Peer>)
      requires ValidAs(storage.endgame) && (storage.endgame ==> NothingToRequest())
      requires Contented(ps, backlog, storage.inactive, allRequests, storage.endgame, -1)
      requires k < |ps| && k < |downloads| && i < |ps[k].have| && Peers() == ps[k := downloads[k].State()]
      requires downloads[k].State() == ps[k].(have := ps[k].have[i := true])
      ensures ValidBut(k) && (!storage.endgame || allRequests == [] ==> Valid())
    {
      hide Downloader.Wired, Downloader.Peers, Swarming, Contented;
      ContentGrows(ps, backlog, storage.inactive, allRequests, storage.endgame, k, i, downloads[k].State());
    }

    /** The other peers after block `q` has arrived from peer `k`. Before that there were `ps`, all in order for what
        could be requested then. */
    lemma OthersAre(k: nat, q: Request, all0: seq<Request>, good: bool, before: seq<Inactive>, ps: seq<Peer>)
      requires Contented(ps, backlog, before, all0, storage.endgame, -1)
      requires k < |ps| && k < |downloads| && Peers() == ps[k := downloads[k].State()]
      requires if storage.endgame then ListedBut(all0, allRequests, q) else allRequests == all0
      requires q.index < |before| == |storage.inactive|
      requires storage.inactive == before[q.index := storage.inactive[q.index]]
      requires storage.endgame ==> forall i | 0 <= i < |before| :: !HasRequests(before[i])
      requires HasRequests(before[q.index]) ==> HasRequests(storage.inactive[q.index])
      requires good ==> (HasRequests(storage.inactive[q.index]) <==> HasRequests(before[q.index]))
      ensures OthersInOrder(k, q, all0, good)
    {
      hide Downloader.Peers, Contented, ListedBut;
      MoreOf(before, storage.inactive, q.index);
      OthersStay(ps, Peers(), backlog, before, storage.inactive, all0, storage.endgame, k);
    }

    /** The storage takes a block of which the peers know nothing any more. */
    method Stored(index: nat, begin: nat, piece: seq<byte>) returns (ok: bool, ghost mid: Store)
      requires Wired() && storage.storage.Valid() && Shape(storage.State())
      requires index < |storage.active| && Block(begin, |piece|) in storage.active[index]
      requires Settling(Peers(), numpieces, backlog, Drop(storage.active, Request(index, begin, |piece|)), allRequests,
                        storage.endgame, picker.num, storage.have, Request(index, begin, |piece|))
      modifies storage`inactive, storage`numactive, storage`amountInactive, storage`active, storage`places
      modifies storage`holes, storage`amountLeft, storage`have, storage`waschecked, storage`finishedCalls
      modifies storage`flunked, storage`arrived, storage.storage
      ensures Wired() && Peers() == old(Peers())
      ensures BlockArrives(old(storage.State()), mid, storage.State(), storage.sha, index, Block(begin, |piece|), piece,
                           ok)
      ensures Settling(Peers(), numpieces, backlog, storage.active, allRequests, storage.endgame, picker.num,
                       old(storage.have), Request(index, begin, |piece|))
      ensures |old(storage.inactive)| == |storage.inactive| && index < |storage.inactive|
      ensures storage.inactive == old(storage.inactive)[index := storage.inactive[index]]
      ensures !ok ==> storage.inactive[index] == Fresh
      ensures ok ==> (HasRequests(storage.inactive[index]) <==> HasRequests(old(storage.inactive)[index]))
    {
      hide Peers, Wired, Settling, StorageWrapper.Valid, Storages.Storage.Valid, PiecePicker.Valid, Progress, Shape,
        Inv, BlockArrives, All, HasRequests, Gathered;
      WiredOK();
      ghost var s0 := storage.State();
      storage.Inner();
      label L:
      ok, mid := storage.PieceCameIn(index, begin, piece);
      storage.Inner();
      ArrivesFacts(s0, mid, storage.State(), storage.sha, index, Block(begin, |piece|), piece, ok);
      StillWired@L();
    }

    /** What the storage and the picker promise at any time. */
    lemma ValidButOK(k: nat)
      requires ValidBut(k)
      ensures storage.Valid() && picker.Valid() && storage.storage.Valid()
      ensures Shape(storage.State()) && |picker.num| == numpieces == |storage.have| == storage.g.n == picker.numpieces
      ensures forall i | 0 <= i < numpieces :: picker.num[i] == None <==> storage.have[i]
    {
      hide Downloader.Wired, Downloader.Peers, Swarming, StorageWrapper.Valid, Storages.Storage.Valid,
        PiecePicker.Valid, Shape, Inv, Content, Contented;
      StorageOK(storage.endgame);
    }

    lemma ValidOK()
      requires Valid()
      ensures storage.Valid() && picker.Valid() && storage.storage.Valid()
      ensures storage.g.n == picker.numpieces == numpieces
      ensures Shape(storage.State()) && Inv(storage.State(), storage.sha) && |picker.num| == numpieces == |storage.have|
      ensures NoDup(downloads) && forall i | 0 <= i < |downloads| :: downloads[i].downloader == this
      ensures forall i | 0 <= i < numpieces :: picker.num[i] == None <==> storage.have[i]
    {
      hide Downloader.Wired, Downloader.Peers, Swarming, StorageWrapper.Valid, Storages.Storage.Valid,
        PiecePicker.Valid, Shape, Inv, Content, Contented;
      StorageOK(storage.endgame);
      storage.Inner();
    }

    /** list.index, by identity. */
    method IndexOf(d: SingleDownload) returns (at: nat)
      requires d in downloads
      ensures at < |downloads| && downloads[at] == d
    {
      at := 0;
      while downloads[at] != d
        invariant at < |downloads| && d !in downloads[..at]
        decreases |downloads| - at
      {
        at := at + 1;
      }
    }

    // ---- After a block arrived ----

    lemma WiredOK()
      requires Wired()
      ensures storage.Valid() && picker.Valid() && storage.storage.Valid()
      ensures storage.g.n == picker.numpieces == numpieces
      ensures |storage.inactive| == |storage.active| == |storage.have| == |storage.arrived| == numpieces
      ensures Shape(storage.State()) && Inv(storage.State(), storage.sha)
      ensures NoDup(downloads)
      ensures forall i | 0 <= i < |downloads| ::
        downloads[i].downloader == this && Example(downloads[i].exampleInterest, downloads[i].have)
    {
      storage.Inner();
    }

    /** In endgame, a piece that turned out wrong is requested again, block by block. */
    method Relist(index: nat, ghost q: Request)
      requires Wired() && storage.endgame && index < numpieces && q.index == index
      requires Settling(Peers(), numpieces, backlog, storage.active, allRequests, true, picker.num, storage.have, q)
      requires index < |storage.arrived| && storage.arrived[index] == map[]
      requires index < |storage.have| && !storage.have[index] && storage.storage.Valid() && Shape(storage.State())
      requires index < storage.g.n && Block(q.begin, q.length) in All(storage.State(), index)
      modifies this`allRequests, storage`inactive, storage`numactive, storage`amountInactive, storage`endgame
      modifies storage`active
      requires forall i | 0 <= i < |storage.inactive| && i != index :: !HasRequests(storage.inactive[i])
      ensures ValidAs(true) && storage.endgame && NothingToRequest() && Peers() == old(Peers())
      ensures Progress(old(storage.State()), storage.State())
    {
      hide Downloader.Wired, Downloader.Peers, Swarming, Settling, StorageWrapper.Valid, Storages.Storage.Valid,
        PiecePicker.Valid, Progress, Shape, Inv, All, BlockRequested, ToRequest, Wires;
      WiredOK();
      ghost var s0 := storage.State();
      ProgressRefl(s0);
      while storage.DoIHaveRequests(index)
        invariant Wired() && storage.endgame && Peers() == old(Peers()) && |storage.inactive| == numpieces
        invariant storage.storage.Valid() && Shape(storage.State()) && Progress(s0, storage.State())
        invariant Settling(Peers(), numpieces, backlog, storage.active, allRequests, true, picker.num, storage.have, q)
        invariant |storage.arrived| == numpieces && storage.arrived[index] == map[]
        invariant forall i | 0 <= i < |storage.inactive| && i != index :: !HasRequests(storage.inactive[i])
        invariant Block(q.begin, q.length) in All(storage.State(), index)
        decreases |ToRequest(storage.State(), index)|
      {
        WiredOK();
        ghost var s1 := storage.State();
        var b, bk := storage.NewRequest(index);
        RequestedFacts(s1, storage.State(), storage.sha, index, bk, b);
        var r := Request(index, b.begin, b.length);
        SettlingTake(Peers(), numpieces, backlog, s1.active, allRequests, picker.num, storage.have, q, r);
        allRequests := allRequests + [r];
        assert storage.State().active == Take(s1.active, r);
        StillWired();
        WiredOK();
        ProgressTrans(s0, s1, storage.State());
      }
      WiredOK();
      AllOutstanding(storage.State(), storage.sha, index);
      SettlingListed(Peers(), numpieces, backlog, storage.active, allRequests, picker.num, storage.have, q);
    }

    /** Before endgame, a piece that turned out wrong is put last among its equals and may be requested again. */
    method Retry(index: nat, ghost q: Request, ghost k: nat)
      requires Wired() && !storage.endgame && index < numpieces
      requires Settling(Peers(), numpieces, backlog, storage.active, allRequests, false, picker.num, storage.have, q)
      requires index < |storage.have| && !storage.have[index]
      requires InOrder(k) && k < |downloads| && OffersPiece(downloads[k].State(), storage.inactive, index)
      modifies this`allRequests, downloads`interested, downloads`exampleInterest, downloads`activeRequests
      modifies downloads`history
      modifies storage`inactive, storage`numactive, storage`amountInactive, storage`endgame, storage`active
      modifies picker`interests, picker`pos, picker`started, picker`seedstarted
      ensures Valid() && downloads == old(downloads)
      ensures Progress(old(storage.State()), storage.State())
      ensures forall d | d in downloads && !d.choked :: d.downloader == this && d.Answered(index)
      ensures picker.LastAmongEquals(index) && SameWires() && Heeding(old(Peers()), old(storage.inactive), {})
      ensures Quietly(old(Peers())) && Rightly(old(SceneNow()), None, Some([index]))
    {
      hide Downloader.Rightly, Downloader.Heeding, Downloader.Quietly, Downloader.Wired, Downloader.Peers, Swarming,
        Settling, StorageWrapper.Valid, Storages.Storage.Valid, PiecePicker.Valid, Progress, Shape, Inv, Wires, Content,
        Contented, SingleDownload.Answered;
      WiredOK();
      ContentOffers(downloads[k].State(), backlog, storage.inactive, allRequests, index);
      PutInOrder(k);
      SettlingCounts(Peers(), numpieces, backlog, storage.active, allRequests, false, picker.num, storage.have, q);
      Settled(Peers(), numpieces, backlog, storage.active, allRequests, false, picker.num, storage.have, q);
      picker.Bump(index);
      StillWired();
      AllBelowNone(numpieces);
      AllBelowAppend([], numpieces, index);
      assert [] + [index] == [index];
      SpreadOut([index]);
    }

    /** A piece turned out wrong. */
    method AskAgain(index: nat, ghost q: Request, ghost k: nat, ghost all0: seq<Request>)
      requires Wired() && index < numpieces && q.index == index
      requires Settling(Peers(), numpieces, backlog, storage.active, allRequests, storage.endgame, picker.num,
                        storage.have, q)
      requires index < |storage.arrived| && storage.arrived[index] == map[]
      requires index < |storage.have| && !storage.have[index] && storage.storage.Valid() && Shape(storage.State())
      requires index < storage.g.n && Block(q.begin, q.length) in All(storage.State(), index)
      requires OthersInOrder(k, q, all0, false) && k < |downloads|
      requires !storage.endgame ==> OffersPiece(downloads[k].State(), storage.inactive, index)
      modifies this`allRequests, downloads`interested, downloads`exampleInterest, downloads`activeRequests
      modifies downloads`history
      modifies storage`inactive, storage`numactive, storage`amountInactive, storage`endgame, storage`active
      modifies picker`interests, picker`pos, picker`started, picker`seedstarted
      ensures Valid() && downloads == old(downloads) && storage.storage.Valid() && storage.have == old(storage.have)
      ensures Progress(old(storage.State()), storage.State())
      ensures forall d | d in downloads && !d.choked :: d.downloader == this && d.Answered(index)
      ensures !old(storage.endgame) ==> picker.LastAmongEquals(index)
      ensures SameWires() && Heeding(old(Peers()), old(storage.inactive), {}) && Quietly(old(Peers()))
      ensures !old(storage.endgame) ==> Rightly(old(SceneNow()), None, Some([index]))
    {
      hide Downloader.Rightly, Downloader.Heeding, Downloader.Quietly, Downloader.Wired, Downloader.Peers, Swarming,
        Settling, StorageWrapper.Valid, Storages.Storage.Valid, PiecePicker.Valid, Progress, Shape, Inv, All, Wires,
        Content, Contented, SingleDownload.Answered;
      if storage.endgame {
        Relist(index, q);
        FixAll();
        StorageOK(true);
        EndgameAnswers();
        OverIsFine(old(Peers()), old(storage.inactive), {});
      } else {
        Retry(index, q, k);
        StorageOK(storage.endgame);
      }
    }

    /** The block was good: the picker learns of a complete piece, and in endgame nobody else is asked for the block. */
    method Finish(index: nat, q: Request, d: SingleDownload, ghost k: nat, ghost have0: seq<bool>,
                  ghost all0: seq<Request>)
      requires Wired() && index < numpieces && k < |downloads| && downloads[k] == d && q !in d.activeRequests
      requires Settling(Peers(), numpieces, backlog, storage.active, allRequests, storage.endgame, picker.num, have0, q)
      requires |have0| == numpieces && !have0[index] && (storage.have == have0 || storage.have == have0[index := true])
      requires OthersInOrder(k, q, all0, true)
      modifies downloads`interested, downloads`exampleInterest, downloads`activeRequests, downloads`history
      modifies picker`interests, picker`pos, picker`num, picker`started, picker`seedstarted, picker`numgot
      ensures ValidBut(k) && SameWires() && Heeding(old(Peers()), old(storage.inactive), {})
      ensures storage.storage.Valid() && (!storage.endgame ==> SceneNow() == OnceComplete(old(SceneNow()), index))
    {
      hide Downloader.Heeding, Downloader.Wired, Downloader.Peers, Swarming, Settling, StorageWrapper.Valid,
        Storages.Storage.Valid, PiecePicker.Valid, Shape, Inv, Wires, Content, Contented;
      WiredOK();
      NothingNewly();
      SettlingCounts(Peers(), numpieces, backlog, storage.active, allRequests, storage.endgame, picker.num, have0, q);
      if storage.have[index] {
        SettlingComplete(Peers(), numpieces, backlog, storage.active, allRequests, storage.endgame, picker.num, have0,
                         q, index);
        picker.Complete(index);
        StillWired();
      }
      if storage.endgame {
        CancelElsewhere(q, d, k, all0);
        OverIsFine(old(Peers()), storage.inactive, {});
      } else {
        HeedingAgain(old(Peers()), storage.inactive, {});
      }
      Settled(Peers(), numpieces, backlog, storage.active, allRequests, storage.endgame, picker.num, storage.have, q);
    }

    method CancelElsewhere(q: Request, d: SingleDownload, ghost k: nat, ghost all0: seq<Request>)
      requires Wired() && k < |downloads| && downloads[k] == d && q !in d.activeRequests
      requires ListedBut(all0, allRequests, q) && storage.endgame
      requires Settling(Peers(), numpieces, backlog, storage.active, allRequests, true, picker.num, storage.have, q)
      requires Contented(Peers(), backlog, storage.inactive, all0, true, k)
      modifies downloads`interested, downloads`exampleInterest, downloads`activeRequests, downloads`history
      ensures Wired() && SameWires() && forall i | 0 <= i < |downloads| :: q !in downloads[i].activeRequests
      ensures Settling(Peers(), numpieces, backlog, storage.active, allRequests, true, picker.num, storage.have, q)
      ensures Contented(Peers(), backlog, storage.inactive, allRequests, true, k)
    {
      hide Downloader.Wired, Downloader.Peers, Swarming, Settling, StorageWrapper.Valid, Storages.Storage.Valid,
        PiecePicker.Valid, Wires, Content, Contented, Cancelling, ListedBut;
      CancellingEnds(Peers(), backlog, storage.inactive, all0, allRequests, k);
      WiredOK();
      for i := 0 to |downloads|
        invariant Wired() && SameWires() && q !in d.activeRequests
        invariant forall j | 0 <= j < i :: q !in downloads[j].activeRequests
        invariant Settling(Peers(), numpieces, backlog, storage.active, allRequests, true, picker.num, storage.have, q)
        invariant Cancelling(Peers(), backlog, storage.inactive, all0, allRequests, i, k)
      {
        ghost var ps := Peers();
        if downloads[i] != d {
          CancellingAt(ps, backlog, storage.inactive, all0, allRequests, i, k);
          Cancel(downloads[i], i, q, all0);
        } else {
          assert i == k;
          assert ps[i := ps[i]] == ps;
        }
        CancellingNext(ps, backlog, storage.inactive, all0, allRequests, i, k, downloads[i].State());
      }
      CancellingEnds(Peers(), backlog, storage.inactive, all0, allRequests, k);
    }

    /** In endgame, a peer is not asked any more for a block that came from another one, but for other blocks. */
    method Cancel(d: SingleDownload, ghost i: nat, q: Request, ghost all0: seq<Request>)
      requires Wired() && i < |downloads| && downloads[i] == d && ListedBut(all0, allRequests, q)
      requires Settling(Peers(), numpieces, backlog, storage.active, allRequests, true, picker.num, storage.have, q)
      requires Content(d.State(), backlog, storage.inactive, all0, true)
      modifies d`interested, d`activeRequests, d`history
      ensures Wired() && q !in d.activeRequests && SameWires() && Peers() == old(Peers())[i := d.State()]
      ensures Settling(Peers(), numpieces, backlog, storage.active, allRequests, true, picker.num, storage.have, q)
      ensures Content(d.State(), backlog, storage.inactive, allRequests, true)
    {
      hide Downloader.Wired, Downloader.Peers, Swarming, Settling, StorageWrapper.Valid, Storages.Storage.Valid,
        PiecePicker.Valid, PeerOK, Wires, Content, NoDup, ListedBut;
      WiredOK();
      SettlingFacts(Peers(), numpieces, backlog, storage.active, allRequests, true, picker.num, storage.have, q, i);
      SettlingActive(Peers(), numpieces, backlog, storage.active, allRequests, picker.num, storage.have, q, i);
      ghost var ps := Peers();
      d.CancelFor(q, all0);
      CancelStep(ps, numpieces, backlog, storage.active, allRequests, picker.num, storage.have, q, i, d.State());
      OnePeer(i);
    }

    /** Once everything is complete, connections to other complete peers are closed. */
    method CloseSeeds()
      requires Valid()
      modifies downloads`closed
      ensures Valid() && SameWires() && Peers() == old(Peers())
      ensures forall d | d in downloads :: d.closed == (old(d.closed) || (AllTrue(storage.have) && AllTrue(d.have)))
    {
      hide Downloader.Valid, Downloader.Wired, Downloader.Peers, Swarming, StorageWrapper.Valid, Storages.Storage.Valid,
        PiecePicker.Valid, Wires, Content, Contented;
      ValidOK();
      var complete := picker.AmIComplete();
      if complete {
        for i := 0 to |downloads|
          invariant Valid() && SameWires() && Peers() == old(Peers())
          invariant forall j | 0 <= j < |downloads| ::
            downloads[j].closed == (old(downloads[j].closed) || (j < i && AllTrue(downloads[j].have)))
        {
          if AllTrue(downloads[i].have) {
            downloads[i].Close(i);
          }
        }
      }
    }
  }
}
