/** What is asked for next, in terms of what could be asked for at that moment. */
module Choosing {
  import opened Basics
  import opened Blocks
  import opened PiecePickers
  import opened Stores
  import opened Swarms

  /** A peer, but for interest and what was told. */
  datatype Line = Line(choked: bool, have: seq<bool>, active: seq<Request>)

  /** All that a choice depends on. */
  datatype Scene = Scene(store: Store, picks: Picks, lines: seq<Line>)

  ghost function LineOf(p: Peer): Line {
    Line(p.choked, p.have, p.active)
  }

  ghost function Lines(peers: seq<Peer>): (l: seq<Line>)
    ensures |l| == |peers| && forall i | 0 <= i < |peers| :: l[i] == LineOf(peers[i])
  {
    seq(|peers|, i requires 0 <= i < |peers| => LineOf(peers[i]))
  }

  // ---- The right choice ----

  /** Peer `k` has piece `i`, and not all blocks of it are requested yet. */
  ghost predicate WantedFrom(v: Scene, k: nat, i: nat)
    requires k < |v.lines|
  {
    && i < |v.lines[k].have| && v.lines[k].have[i] && i < |v.store.inactive|
    && match v.store.inactive[i] case Fresh => true case Started(l) => l != [] case Done => false
  }

  ghost function HoldersOf(v: Scene, i: nat): nat {
    if i < |v.picks.num| && v.picks.num[i].Some? then v.picks.num[i].value else 0
  }

  /** The started pieces; for a peer that has everything, those that such peers were asked for. */
  ghost function StartedFor(v: Scene, k: nat): seq<nat>
    requires k < |v.lines|
  {
    if forall j | 0 <= j < |v.lines[k].have| :: v.lines[k].have[j] then v.picks.seedstarted else v.picks.started
  }

  ghost predicate StartedWanted(v: Scene, k: nat, i: nat)
    requires k < |v.lines|
  {
    i in StartedFor(v, k) && WantedFrom(v, k, i)
  }

  /** Without anything given: of the wanted pieces that were started, one with the fewest holders; if there are none,
      the first wanted one in the scrambled order, until as many pieces as the cutoff says are complete; and then a
      wanted one with the fewest holders. */
  ghost predicate Chosen(v: Scene, k: nat, i: nat)
    requires k < |v.lines|
  {
    WantedFrom(v, k, i) &&
    if exists p :: StartedWanted(v, k, p) then
      StartedWanted(v, k, i) && forall p | StartedWanted(v, k, p) :: HoldersOf(v, i) <= HoldersOf(v, p)
    else if v.picks.numgot < v.picks.cutoff then
      FirstWanted(v, k, v.picks.scrambled, i)
    else
      forall p | WantedFrom(v, k, p) :: HoldersOf(v, i) <= HoldersOf(v, p)
  }

  ghost predicate FirstWanted(v: Scene, k: nat, l: seq<nat>, i: nat)
    requires k < |v.lines|
  {
    WantedFrom(v, k, i) && exists m :: 0 <= m < |l| && l[m] == i && forall j | 0 <= j < m :: !WantedFrom(v, k, l[j])
  }

  /** Of given pieces, the first that is wanted. */
  ghost predicate Right(v: Scene, k: nat, i: nat, indices: Option<seq<nat>>)
    requires k < |v.lines|
  {
    match indices
    case None => Chosen(v, k, i)
    case Some(l) => FirstWanted(v, k, l, i)
  }

  // ---- One request after the other ----

  datatype Query = Query(to: nat, r: Request)

  /** Who may be asked, for what, and how many blocks at a time. */
  datatype Terms = Terms(asker: Option<nat>, indices: Option<seq<nat>>, backlog: nat)

  /** The first unrequested block of piece `i`, and what is left once it is requested. */
  ghost predicate Took(s: Store, s': Store, i: nat, b: Block) {
    && Shape(s) && i < s.g.n && !s.endgame && HasRequests(s.inactive[i])
    && exists at: nat ::
        && at < |ToRequest(s, i)| && ToRequest(s, i)[at] == b && s' == Requested(s, i, at)
        && forall c | c in ToRequest(s, i) :: b.begin <= c.begin
  }

  function With(l: seq<nat>, i: nat): seq<nat> {
    if i in l then l else l + [i]
  }

  /** Peer `k`, which does not choke us, is asked for block `r`, the first one of the right piece. */
  ghost predicate Turn(v: Scene, v': Scene, k: nat, r: Request, t: Terms) {
    && k < |v.lines| && (t.asker.Some? ==> k == t.asker.value)
    && !v.lines[k].choked && |v.lines[k].active| < t.backlog
    && Right(v, k, r.index, t.indices)
    && Took(v.store, v'.store, r.index, Block(r.begin, r.length))
    && v'.lines == v.lines[k := v.lines[k].(active := v.lines[k].active + [r])]
    && v'.picks == v.picks.(
         started := With(v.picks.started, r.index),
         seedstarted := if forall j | 0 <= j < |v.lines[k].have| :: v.lines[k].have[j]
                        then With(v.picks.seedstarted, r.index) else v.picks.seedstarted)
  }

  lemma LinesUpdate(peers: seq<Peer>, k: nat, p: Peer)
    requires k < |peers|
    ensures Lines(peers[k := p]) == Lines(peers)[k := LineOf(p)]
  {
  }

  lemma TurnMade(v: Scene, s': Store, picks': Picks, peers: seq<Peer>, p: Peer, k: nat, i: nat, at: nat, b: Block,
                 sha: seq<byte> -> seq<byte>, t: Terms)
    requires k < |peers| && v.lines == Lines(peers) && (t.asker.Some? ==> k == t.asker.value)
    requires !v.store.endgame && BlockRequested(v.store, s', sha, i, at, b)
    requires !peers[k].choked && |peers[k].active| < t.backlog && Right(v, k, i, t.indices)
    requires LineOf(p) == LineOf(peers[k]).(active := peers[k].active + [Request(i, b.begin, b.length)])
    requires picks' == v.picks.(
      started := With(v.picks.started, i),
      seedstarted := if forall j | 0 <= j < |peers[k].have| :: peers[k].have[j] then With(v.picks.seedstarted, i)
                     else v.picks.seedstarted)
    ensures Led(v, Scene(s', picks', Lines(peers[k := p])), t)
  {
    hide Right, HasRequests, ToRequest, Requested, Shape;
    LinesUpdate(peers, k, p);
    OneTurn(v, k, Request(i, b.begin, b.length), Scene(s', picks', Lines(peers[k := p])), t);
  }

  // ---- Blocks that are given back ----

  ghost function Returned(s: Store, r: Request): Store {
    if Shape(s) && r.index < s.g.n && s.inactive[r.index].Started? && 0 < s.numactive[r.index] then
      var b := Block(r.begin, r.length);
      s.(inactive := s.inactive[r.index := Started(s.inactive[r.index].l + [b])],
         numactive := s.numactive[r.index := s.numactive[r.index] - 1],
         active := s.active[r.index := s.active[r.index] - {b}], amountInactive := s.amountInactive + b.length)
    else s
  }

  /** The requests are given up, and may be made again. */
  ghost function GivenBack(s: Store, rs: seq<Request>): Store {
    if rs == [] then s else Returned(GivenBack(s, rs[..|rs| - 1]), rs[|rs| - 1])
  }

  /** Which pieces they are for, each once, in order. */
  ghost function PiecesOf(rs: seq<Request>): seq<nat> {
    if rs == [] then [] else With(PiecesOf(rs[..|rs| - 1]), rs[|rs| - 1].index)
  }

  lemma NoneGivenBack(s: Store)
    ensures GivenBack(s, []) == s && PiecesOf([]) == []
  {
  }

  lemma OneGivenBack(s: Store, rs: seq<Request>, m: nat)
    requires m < |rs|
    ensures GivenBack(s, rs[..m + 1]) == Returned(GivenBack(s, rs[..m]), rs[m])
    ensures PiecesOf(rs[..m + 1]) == With(PiecesOf(rs[..m]), rs[m].index)
  {
    assert rs[..m + 1][..m] == rs[..m];
  }

  lemma LostIsReturned(s: Store, r: Request)
    requires Shape(s) && r.index < s.g.n && s.inactive[r.index].Started? && 0 < s.numactive[r.index]
    ensures Lost(s, r.index, Block(r.begin, r.length)) == Returned(s, r)
  {
  }

  // ---- What happens before peers are asked ----

  /** Peer `k` chokes us. */
  ghost function OnceChoked(v: Scene, k: nat): Scene
    requires k < |v.lines|
  {
    var line := v.lines[k];
    Scene(GivenBack(v.store, line.active), v.picks, v.lines[k := Line(true, line.have, [])])
  }

  /** Peer `k` does not choke us any more. */
  ghost function OnceUnchoked(v: Scene, k: nat): Scene
    requires k < |v.lines|
  {
    v.(lines := v.lines[k := v.lines[k].(choked := false)])
  }

  /** Peer `k` leaves, with what it has. */
  ghost function OnceLeft(v: Scene, k: nat): Scene
    requires k < |v.lines|
  {
    var line, num := v.lines[k], v.picks.num;
    Scene(GivenBack(v.store, line.active),
          v.picks.(num := seq(|num|, i requires 0 <= i < |num| =>
            if i < |line.have| && line.have[i] && num[i].Some? && 0 < num[i].value then Some((num[i].value - 1) as nat)
            else num[i])),
          Blocks.Without(v.lines, k))
  }

  /** Peer `k` gets a piece that it did not have. */
  ghost function OnceHad(v: Scene, k: nat, i: nat): Scene
    requires k < |v.lines|
  {
    var line, num := v.lines[k], v.picks.num;
    if i < |line.have| && line.have[i] then v
    else
      v.(lines := if i < |line.have| then v.lines[k := line.(have := line.have[i := true])] else v.lines,
         picks := if i < |num| && num[i].Some? then v.picks.(num := num[i := Some(num[i].value + 1)]) else v.picks)
  }

  lemma OnceHadIs(v: Scene, v': Scene, peers: seq<Peer>, k: nat, p: Peer, i: nat)
    requires k < |peers| && v.lines == Lines(peers) && v'.lines == Lines(peers[k := p]) && v'.store == v.store
    requires i < |peers[k].have| && !peers[k].have[i] && p == peers[k].(have := peers[k].have[i := true])
    requires i < |v.picks.num| && v'.picks ==
      v.picks.(num := if v.picks.num[i].Some? then v.picks.num[i := Some(v.picks.num[i].value + 1)] else v.picks.num)
    ensures v' == OnceHad(v, k, i)
  {
    LinesUpdate(peers, k, p);
  }

  /** Peer `k` has sent block `r`, which leaves the store as `s`. */
  ghost function OnceTaken(v: Scene, k: nat, r: Request, s: Store): Scene
    requires k < |v.lines|
  {
    Scene(s, v.picks, v.lines[k := v.lines[k].(active := Removed(v.lines[k].active, r))])
  }

  /** Piece `i` may be complete. */
  ghost function OnceComplete(v: Scene, i: nat): Scene {
    var p := v.picks;
    if i < |v.store.have| && v.store.have[i] && i < |p.num| then
      v.(picks := p.(num := p.num[i := None], numgot := p.numgot + 1, started := Removed(p.started, i),
                     seedstarted := Removed(p.seedstarted, i)))
    else v
  }

  lemma LinesWithout(peers: seq<Peer>, k: nat)
    requires k < |peers|
    ensures Lines(Blocks.Without(peers, k)) == Blocks.Without(Lines(peers), k)
  {
  }

  // ---- Requests one after the other ----

  ghost predicate Turns(scenes: seq<Scene>, asks: seq<Query>, t: Terms) {
    |scenes| == |asks| + 1 && forall i | 0 <= i < |asks| :: Turn(scenes[i], scenes[i + 1], asks[i].to, asks[i].r, t)
  }

  ghost predicate Leads(scenes: seq<Scene>, asks: seq<Query>, v: Scene, v': Scene, t: Terms) {
    Turns(scenes, asks, t) && scenes[0] == v && scenes[|asks|] == v'
  }

  /** From `v` to `v'`, right choices are asked for, and nothing else happens to what choices depend on. */
  ghost predicate Led(v: Scene, v': Scene, t: Terms) {
    exists scenes, asks :: Leads(scenes, asks, v, v', t)
  }

  /** If endgame has begun, peers may have been asked for more; that is not a matter of choosing pieces. */
  ghost predicate Stands(v: Scene, v': Scene) {
    && v'.store == v.store && v'.picks == v.picks && |v'.lines| == |v.lines|
    && forall k | 0 <= k < |v.lines| ::
        && v'.lines[k].choked == v.lines[k].choked && v'.lines[k].have == v.lines[k].have
        && if v.store.endgame then forall r | r in v.lines[k].active :: r in v'.lines[k].active
           else v'.lines[k].active == v.lines[k].active
  }

  /** Whoever was asked for something still is. */
  ghost predicate Grows(peers: seq<Peer>, peers': seq<Peer>) {
    |peers'| == |peers| && forall k | 0 <= k < |peers| :: GrowsAt(peers[k], peers'[k])
  }

  ghost predicate GrowsAt(p: Peer, p': Peer) {
    forall r | r in p.active :: r in p'.active
  }

  lemma GrowsTwice(a: seq<Peer>, b: seq<Peer>, c: seq<Peer>)
    requires Grows(a, b) && Grows(b, c)
    ensures Grows(a, c)
  {
  }

  lemma AllGrow(peers: seq<Peer>)
    ensures Grows(peers, peers)
  {
  }

  lemma GrowsOne(peers: seq<Peer>, k: nat, p: Peer)
    requires k < |peers| && GrowsAt(peers[k], p)
    ensures Grows(peers, peers[k := p])
  {
  }

  lemma GrowsIf(peers: seq<Peer>, k: nat, p: Peer)
    requires k < |peers| && p.active == peers[k].active
    ensures Grows(peers, peers[k := p])
    ensures forall i | 0 <= i < |peers| :: peers[k := p][i].active == peers[i].active
  {
  }

  lemma StandsIf(v: Scene, v': Scene, peers: seq<Peer>, peers': seq<Peer>)
    requires v.lines == Lines(peers) && v'.lines == Lines(peers') && v'.store == v.store && v'.picks == v.picks
    requires Wires(peers') == Wires(peers) && Grows(peers, peers')
    requires !v.store.endgame ==>
      |peers'| == |peers| && forall k | 0 <= k < |peers| :: peers'[k].active == peers[k].active
    ensures Stands(v, v')
  {
    forall k | 0 <= k < |peers|
      ensures peers'[k].choked == peers[k].choked && peers'[k].have == peers[k].have && GrowsAt(peers[k], peers'[k])
    {
      WireAt(peers, peers', k);
    }
    assert |v'.lines| == |v.lines| && forall k | 0 <= k < |peers| ::
      v.lines[k] == LineOf(peers[k]) && v'.lines[k] == LineOf(peers'[k]);
  }

  /** From `v` to `v'`, nothing but right choices was asked for before endgame. */
  ghost predicate AskedRightly(v: Scene, v': Scene, t: Terms) {
    exists w :: Led(v, w, t) && Stands(w, v')
  }

  lemma NothingAsked(v: Scene, t: Terms)
    ensures Led(v, v, t) && Stands(v, v) && AskedRightly(v, v, t)
  {
    hide Turn;
    var scenes: seq<Scene>, asks: seq<Query> := [v], [];
    assert Leads(scenes, asks, v, v, t);
    assert Led(v, v, t) && Stands(v, v);
  }

  lemma OneTurn(v: Scene, k: nat, r: Request, v': Scene, t: Terms)
    requires Turn(v, v', k, r, t)
    ensures Led(v, v', t)
  {
    hide Turn;
    var scenes, asks := [v, v'], [Query(k, r)];
    assert Leads(scenes, asks, v, v', t);
  }

  lemma LedOn(a: Scene, b: Scene, c: Scene, t: Terms)
    requires Led(a, b, t) && Led(b, c, t)
    ensures Led(a, c, t)
  {
    hide Turn;
    var s1: seq<Scene>, asks1: seq<Query> :| Leads(s1, asks1, a, b, t);
    var s2: seq<Scene>, asks2: seq<Query> :| Leads(s2, asks2, b, c, t);
    var s, asks := s1 + s2[1..], asks1 + asks2;
    forall i | 0 <= i < |asks| ensures Turn(s[i], s[i + 1], asks[i].to, asks[i].r, t) {
      if i >= |asks1| {
        var j := i - |asks1|;
        assert Turn(s2[j], s2[j + 1], asks2[j].to, asks2[j].r, t);
        assert s[i + 1] == s2[j + 1] && (j > 0 ==> s[i] == s2[j]);
      } else {
        assert Turn(s1[i], s1[i + 1], asks1[i].to, asks1[i].r, t);
      }
    }
    assert Leads(s, asks, a, c, t);
  }

  /** Once endgame has begun, no more pieces are chosen. */
  lemma NoneInEndgame(v: Scene, w: Scene, t: Terms)
    requires Led(v, w, t) && v.store.endgame
    ensures w == v
  {
    hide Turns;
    var scenes: seq<Scene>, asks: seq<Query> :| Leads(scenes, asks, v, w, t);
    if asks != [] && |scenes| == |asks| + 1 { NoTurns(scenes, asks, t); }
    OneMore(scenes, asks, t);
  }

  lemma OneMore(scenes: seq<Scene>, asks: seq<Query>, t: Terms)
    requires Turns(scenes, asks, t)
    ensures |scenes| == |asks| + 1
  {
  }

  lemma NoTurns(scenes: seq<Scene>, asks: seq<Query>, t: Terms)
    requires asks != [] && |scenes| == |asks| + 1 && scenes[0].store.endgame
    ensures !Turns(scenes, asks, t)
  {
    assert !Turn(scenes[0], scenes[0 + 1], asks[0].to, asks[0].r, t);
  }

  lemma AskedOn(a: Scene, b: Scene, c: Scene, t: Terms)
    requires AskedRightly(a, b, t) && AskedRightly(b, c, t)
    ensures AskedRightly(a, c, t)
  {
    hide Led;
    var v :| Led(a, v, t) && Stands(v, b);
    var w :| Led(b, w, t) && Stands(w, c);
    if b.store.endgame {
      NoneInEndgame(b, w, t);
      assert Stands(v, c);
    } else {
      assert v.lines == b.lines;
      assert v == b;
      LedOn(a, b, w, t);
    }
  }

  /** The same, if anybody may be asked. */
  lemma ByAnybody(v: Scene, v': Scene, t: Terms)
    requires AskedRightly(v, v', t)
    ensures AskedRightly(v, v', t.(asker := None))
  {
    hide Right, Took;
    var w :| Led(v, w, t) && Stands(w, v');
    var scenes: seq<Scene>, asks: seq<Query> :| Leads(scenes, asks, v, w, t);
    forall i | 0 <= i < |asks| ensures Turn(scenes[i], scenes[i + 1], asks[i].to, asks[i].r, t.(asker := None)) {
      assert Turn(scenes[i], scenes[i + 1], asks[i].to, asks[i].r, t);
    }
    assert Leads(scenes, asks, v, w, t.(asker := None));
  }
}
