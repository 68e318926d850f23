/** Deciding which peers to upload to. */
module Chokers {
  import opened Basics

  /** A connection in the choker's list, with the state of its upload. */
  datatype Slot<K> = Slot(key: K, interested: bool, choked: bool)

  /** What is measured when connections are rechoked: rates are arbitrary numbers. */
  datatype Rates<!K> = Rates(done: bool, snubbed: K -> bool, upload: K -> real, download: K -> real) {

    predicate Snubbed(c: K) {
      !done && snubbed(c)
    }

    function Rate(c: K): real {
      if done then upload(c) else download(c)
    }
  }

  type Slots<K> = seq<Slot<K>>

  ghost predicate Distinct<K>(s: Slots<K>) {
    forall i, j | 0 <= i < j < |s| :: s[i].key != s[j].key
  }

  // ---- Who is preferred ----

  predicate Candidate<K>(u: Slot<K>, rates: Rates<K>) {
    !rates.Snubbed(u.key) && u.interested
  }

  function Candidates<K>(s: Slots<K>, rates: Rates<K>): (r: seq<K>) {
    if s == [] then [] else (if Candidate(s[0], rates) then [s[0].key] else []) + Candidates(s[1..], rates)
  }

  lemma {:induction false} CandidatesFacts<K>(s: Slots<K>, rates: Rates<K>)
    requires Distinct(s)
    ensures NoDup(Candidates(s, rates))
    ensures forall c ::
      c in Candidates(s, rates) <==> exists i :: 0 <= i < |s| && s[i].key == c && Candidate(s[i], rates)
  {
    if s != [] {
      CandidatesFacts(s[1..], rates);
      assert s == [s[0]] + s[1..];
      forall i | 0 <= i < |s[1..]| ensures s[1..][i].key != s[0].key {
        assert s[1..][i] == s[i + 1];
      }
      assert s[0].key !in Candidates(s[1..], rates);
      forall c
        ensures c in Candidates(s, rates) <==> exists i :: 0 <= i < |s| && s[i].key == c && Candidate(s[i], rates)
      {
        if i :| 0 <= i < |s| && s[i].key == c && Candidate(s[i], rates) {
          if i > 0 { assert s[1..][i - 1].key == c; }
        }
        if c in Candidates(s[1..], rates) {
          var i :| 0 <= i < |s[1..]| && s[1..][i].key == c && Candidate(s[1..][i], rates);
          assert s[i + 1].key == c;
        }
      }
    }
  }

  /** The fastest of the candidates, as many as there are slots for them. One slot is kept free for others. */
  ghost predicate Fastest<K(!new)>(pref: seq<K>, s: Slots<K>, rates: Rates<K>, maxUploads: nat) {
    var all := Candidates(s, rates);
    && NoDup(pref) && |pref| == Min(maxUploads - 1, |all|)
    && (forall c | c in pref :: c in all)
    && (forall c, d | c in pref && d in all && d !in pref :: rates.Rate(c) >= rates.Rate(d))
  }

  // ---- The slots ----

  /** The loop of `_rechoke`. `count` uploads were given to interested peers so far, `hit` tells whether one of them
      is not preferred. */
  function Assigned<K(==)>(s: Slots<K>, pref: seq<K>, count: nat, hit: bool, minUploads: nat): (r: Slots<K>)
    ensures |r| == |s|
  {
    if s == [] then []
    else if s[0].key in pref then [s[0].(choked := false)] + Assigned(s[1..], pref, count, hit, minUploads)
    else if count < minUploads || !hit then
      [s[0].(choked := false)]
      + Assigned(s[1..], pref, if s[0].interested then count + 1 else count, hit || s[0].interested, minUploads)
    else [s[0].(choked := true)] + Assigned(s[1..], pref, count, hit, minUploads)
  }

  lemma {:induction false} AssignedSame<K>(s: Slots<K>, pref: seq<K>, count: nat, hit: bool, minUploads: nat)
    ensures var r := Assigned(s, pref, count, hit, minUploads);
      forall i | 0 <= i < |s| :: r[i].key == s[i].key && r[i].interested == s[i].interested
  {
    if s != [] {
      var free := count < minUploads || !hit;
      var taken := s[0].key !in pref && free && s[0].interested;
      AssignedSame(s[1..], pref, if taken then count + 1 else count, hit || taken, minUploads);
    }
  }

  /** How many interested peers are uploaded to. */
  function Served<K>(s: Slots<K>): nat {
    if s == [] then 0 else (if s[0].interested && !s[0].choked then 1 else 0) + Served(s[1..])
  }

  function Interested<K>(s: Slots<K>): nat {
    if s == [] then 0 else (if s[0].interested then 1 else 0) + Interested(s[1..])
  }

  /** How many slots belong to preferred peers. */
  function Preferred<K(==)>(s: Slots<K>, pref: seq<K>): nat {
    if s == [] then 0 else (if s[0].key in pref then 1 else 0) + Preferred(s[1..], pref)
  }

  lemma {:induction false} AssignedCounts<K>(s: Slots<K>, pref: seq<K>, count: nat, hit: bool, minUploads: nat)
    requires forall i | 0 <= i < |s| && s[i].key in pref :: s[i].interested
    ensures var n := Served(Assigned(s, pref, count, hit, minUploads)) - Preferred(s, pref);
      && 0 <= n <= Interested(s) - Preferred(s, pref)
      && (hit ==> n <= Max(0, minUploads - count))
      && (!hit ==> n <= Max(1, minUploads - count))
      && (n >= Min(minUploads - count, Interested(s) - Preferred(s, pref)))
      && (!hit ==> n >= Min(1, Interested(s) - Preferred(s, pref)))
  {
    if s != [] {
      var u := s[0];
      if u.key in pref {
        AssignedCounts(s[1..], pref, count, hit, minUploads);
      } else if count < minUploads || !hit {
        AssignedCounts(s[1..], pref, if u.interested then count + 1 else count, hit || u.interested, minUploads);
      } else {
        AssignedCounts(s[1..], pref, count, hit, minUploads);
      }
    }
  }

  ghost predicate HasKey<K>(s: Slots<K>, c: K) {
    exists i :: 0 <= i < |s| && s[i].key == c
  }

  lemma SomethingIn<K>(l: seq<K>)
    ensures l == [] || exists c :: c in l
  {
    if l != [] { assert l[0] in l; }
  }

  lemma {:induction false} PreferredAll<K>(s: Slots<K>, pref: seq<K>)
    requires Distinct(s) && NoDup(pref) && forall c | c in pref :: HasKey(s, c)
    ensures Preferred(s, pref) == |pref|
  {
    if s == [] {
      forall c ensures c !in pref {
        assert !HasKey(s, c);
      }
      SomethingIn(pref);
    } else {
      var k := s[0].key;
      var rest := Removed(pref, k);
      RemovedFacts(pref, k);
      assert s == [s[0]] + s[1..];
      forall c | c in rest ensures HasKey(s[1..], c) {
        assert HasKey(s, c);
        var i :| 0 <= i < |s| && s[i].key == c;
        assert s[1..][i - 1].key == c;
      }
      PreferredAll(s[1..], rest);
      PreferredSame(s[1..], pref, rest, k);
    }
  }

  lemma {:induction false} PreferredSame<K>(s: Slots<K>, a: seq<K>, b: seq<K>, k: K)
    requires (forall c :: c in b <==> c in a && c != k) && forall i | 0 <= i < |s| :: s[i].key != k
    ensures Preferred(s, a) == Preferred(s, b)
  {
    if s != [] {
      PreferredSame(s[1..], a, b, k);
    }
  }

  /** Nobody is choked up to and including the first interested peer. */
  ghost predicate FrontServed<K>(s: Slots<K>) {
    s != [] ==> !s[0].choked && (!s[0].interested ==> FrontServed(s[1..]))
  }

  lemma {:induction false} AssignedFront<K>(s: Slots<K>, pref: seq<K>, count: nat, minUploads: nat)
    requires forall i | 0 <= i < |s| && s[i].key in pref :: s[i].interested
    ensures FrontServed(Assigned(s, pref, count, false, minUploads))
  {
    if s != [] {
      AssignedFront(s[1..], pref, count, minUploads);
      var r := Assigned(s, pref, count, false, minUploads);
      if s[0].key !in pref && !s[0].interested {
        assert r[1..] == Assigned(s[1..], pref, count, false, minUploads);
      }
    }
  }

  /** A peer that is not served, or not interested, can leave. */
  lemma {:induction false} FrontWithout<K>(s: Slots<K>, at: nat)
    requires FrontServed(s) && at < |s| && (s[at].choked || !s[at].interested)
    ensures FrontServed(s[..at] + s[at + 1..])
  {
    if at == 0 {
      assert s[..0] + s[1..] == s[1..];
    } else {
      var r := s[..at] + s[at + 1..];
      if !s[0].interested { FrontWithout(s[1..], at - 1); }
      assert r[0] == s[0] && r[1..] == s[1..][..at - 1] + s[1..][at..];
    }
  }

  /** The interest of a peer that is choked does not matter. */
  lemma {:induction false} FrontFlipped<K>(s: Slots<K>, at: nat, interested: bool)
    requires FrontServed(s) && at < |s| && s[at].choked
    ensures FrontServed(s[at := s[at].(interested := interested)])
  {
    if at > 0 {
      var r := s[at := s[at].(interested := interested)];
      if !s[0].interested { FrontFlipped(s[1..], at - 1, interested); }
      assert r[0] == s[0] && r[1..] == s[1..][at - 1 := s[at].(interested := interested)];
    }
  }

  /** The state after a rechoke: up to `maxUploads - 1` of the fastest by these rates are preferred. */
  ghost predicate Rechoked<K(!new)>(s: Slots<K>, s': Slots<K>, rates: Rates<K>, maxUploads: nat, minUploads: nat) {
    exists pref :: Fastest(pref, s, rates, maxUploads) && s' == Assigned(s, pref, |pref|, false, minUploads)
  }

  /** The preferred are interested, and are in the list. */
  lemma PreferredKnown<K(!new)>(s: Slots<K>, pref: seq<K>, rates: Rates<K>, maxUploads: nat)
    requires Distinct(s) && Fastest(pref, s, rates, maxUploads)
    ensures NoDup(pref) && |pref| <= Max(maxUploads - 1, 0)
    ensures forall i | 0 <= i < |s| && s[i].key in pref :: s[i].interested
    ensures forall c | c in pref :: HasKey(s, c)
  {
    CandidatesFacts(s, rates);
    forall i | 0 <= i < |s| && s[i].key in pref ensures s[i].interested {
      assert s[i].key in Candidates(s, rates);
      var j :| 0 <= j < |s| && s[j].key == s[i].key && Candidate(s[j], rates);
    }
    forall c | c in pref ensures HasKey(s, c) {
      assert c in Candidates(s, rates);
    }
  }

  /** Every rechoke keeps to the numbers: at most the larger of the two limits, and at least the smaller one if that
      many are interested; and nobody is choked up to the first interested peer in the list. */
  lemma SlotBounds<K(!new)>(s: Slots<K>, s': Slots<K>, rates: Rates<K>, maxUploads: nat, minUploads: nat)
    requires Distinct(s) && 1 <= maxUploads && Rechoked(s, s', rates, maxUploads, minUploads)
    ensures Min(minUploads, Interested(s)) <= Served(s') <= Max(maxUploads, minUploads)
    ensures FrontServed(s')
    ensures |s'| == |s| && forall i | 0 <= i < |s| :: s'[i].key == s[i].key && s'[i].interested == s[i].interested
  {
    hide Fastest, Assigned, Served, Interested, Preferred, FrontServed, HasKey, NoDup, Distinct;
    var pref :| Fastest(pref, s, rates, maxUploads) && s' == Assigned(s, pref, |pref|, false, minUploads);
    PreferredKnown(s, pref, rates, maxUploads);
    PreferredAll(s, pref);
    AssignedCounts(s, pref, |pref|, false, minUploads);
    AssignedFront(s, pref, |pref|, minUploads);
    AssignedSame(s, pref, |pref|, false, minUploads);
  }

  /** Unless all interested peers are preferred, one that is not gets a slot as well. */
  lemma OptimisticSlot<K(!new)>(s: Slots<K>, pref: seq<K>, rates: Rates<K>, maxUploads: nat, minUploads: nat)
    requires Distinct(s) && Fastest(pref, s, rates, maxUploads)
    ensures Served(Assigned(s, pref, |pref|, false, minUploads)) >= Min(|pref| + 1, Interested(s))
  {
    PreferredKnown(s, pref, rates, maxUploads);
    PreferredAll(s, pref);
    AssignedCounts(s, pref, |pref|, false, minUploads);
    AssignedSame(s, pref, |pref|, false, minUploads);
  }

  // ---- What a rechoke means ----

  /** Of the interested peers that are not barred, `pref` are as many as `n`, or all of them, and none of the others is
      worth more. */
  ghost predicate BestOf<K(!new)>(pref: seq<K>, s: Slots<K>, barred: K -> bool, worth: K -> real, n: nat) {
    && NoDup(pref) && |pref| <= n
    && (forall c | c in pref :: exists i :: 0 <= i < |s| && s[i].key == c && s[i].interested && !barred(c))
    && (forall i | 0 <= i < |s| && s[i].interested && !barred(s[i].key) && s[i].key !in pref ::
          |pref| == n && forall c | c in pref :: worth(c) >= worth(s[i].key))
  }

  /** How many interested peers that are not preferred come before position `i`. */
  ghost function Ahead<K>(s: Slots<K>, pref: seq<K>, i: nat): nat
    requires i <= |s|
  {
    if i == 0 then 0 else Ahead(s, pref, i - 1) + if s[i - 1].interested && s[i - 1].key !in pref then 1 else 0
  }

  /** Those are choked that are not preferred and come after enough others that are not: one, or as many as are needed
      for `minUploads`. */
  ghost predicate ChokedAfter<K>(s: Slots<K>, s': Slots<K>, pref: seq<K>, minUploads: nat) {
    |s'| == |s| && forall i | 0 <= i < |s| ::
      && s'[i].key == s[i].key && s'[i].interested == s[i].interested
      && (s'[i].choked <==> s[i].key !in pref && Ahead(s, pref, i) >= Max(1, minUploads - |pref|))
  }

  /** While we download, the preferred peers are those that upload most to us and do not snub us; when we are done,
      those that download most from us. */
  ghost predicate Rewards<K(!new)>(s: Slots<K>, s': Slots<K>, pref: seq<K>, rates: Rates<K>, maxUploads: nat,
                                   minUploads: nat)
    requires 1 <= maxUploads
  {
    && (!rates.done ==> BestOf(pref, s, rates.snubbed, rates.download, maxUploads - 1))
    && (rates.done ==> BestOf(pref, s, _ => false, rates.upload, maxUploads - 1))
    && ChokedAfter(s, s', pref, minUploads)
  }

  lemma RechokedMeans<K(!new)>(s: Slots<K>, s': Slots<K>, pref: seq<K>, rates: Rates<K>, maxUploads: nat,
                               minUploads: nat)
    requires Distinct(s) && 1 <= maxUploads && Fastest(pref, s, rates, maxUploads)
    requires s' == Assigned(s, pref, |pref|, false, minUploads)
    ensures Rewards(s, s', pref, rates, maxUploads, minUploads)
  {
    hide Fastest, BestOf, Assigned, Distinct, NoDup;
    FastestIsBest(s, pref, rates, maxUploads);
    AssignedSame(s, pref, |pref|, false, minUploads);
    assert ChokedAfter(s, s', pref, minUploads) by {
      AssignedFrom(s, pref, |pref|, false, minUploads, 0);
      assert s[0..] == s;
    }
  }

  lemma FastestIsBest<K(!new)>(s: Slots<K>, pref: seq<K>, rates: Rates<K>, maxUploads: nat)
    requires Distinct(s) && 1 <= maxUploads && Fastest(pref, s, rates, maxUploads)
    ensures !rates.done ==> BestOf(pref, s, rates.snubbed, rates.download, maxUploads - 1)
    ensures rates.done ==> BestOf(pref, s, _ => false, rates.upload, maxUploads - 1)
  {
    CandidatesFacts(s, rates);
    var all := Candidates(s, rates);
    forall c | c in pref
      ensures exists i :: 0 <= i < |s| && s[i].key == c && s[i].interested && !rates.Snubbed(c)
    {
      var i :| 0 <= i < |s| && s[i].key == c && Candidate(s[i], rates);
    }
    forall i | 0 <= i < |s| && s[i].interested && !rates.Snubbed(s[i].key) && s[i].key !in pref
      ensures |pref| == maxUploads - 1 && forall c | c in pref :: rates.Rate(c) >= rates.Rate(s[i].key)
    {
      assert Candidate(s[i], rates) && s[i].key in all;
      if |pref| == |all| { SmallerSubset(pref, all, s[i].key); }
    }
  }

  /** A list without repetition that is contained in another one and misses something is shorter. */
  lemma {:induction false} SmallerSubset<K>(a: seq<K>, b: seq<K>, x: K)
    requires NoDup(a) && (forall c | c in a :: c in b) && x in b && x !in a
    ensures |a| < |b|
    decreases |b|
  {
    if a != [] {
      var y := a[0];
      assert y in a && y in b;
      var i :| 0 <= i < |b| && b[i] == y;
      var b' := b[..i] + b[i + 1..];
      assert b == b[..i] + [y] + b[i + 1..] && a == [y] + a[1..];
      forall c | c in a[1..] ensures c in b' {
        assert c != y && c in b;
      }
      assert x in b';
      SmallerSubset(a[1..], b', x);
    }
  }

  /** The loop from position `i` on, with `count` and `hit` as they are there. */
  lemma {:induction false} AssignedFrom<K>(s: Slots<K>, pref: seq<K>, count: nat, hit: bool, minUploads: nat, i: nat)
    requires i <= |s| && count == |pref| + Min(Ahead(s, pref, i), Max(1, minUploads - |pref|))
    requires hit <==> Ahead(s, pref, i) > 0
    ensures forall j | i <= j < |s| :: Assigned(s[i..], pref, count, hit, minUploads)[j - i].choked <==>
      s[j].key !in pref && Ahead(s, pref, j) >= Max(1, minUploads - |pref|)
    decreases |s| - i
  {
    if i < |s| {
      assert s[i..][0] == s[i] && s[i..][1..] == s[i + 1..];
      var taken := s[i].key !in pref && (count < minUploads || !hit) && s[i].interested;
      var rest := Assigned(s[i + 1..], pref, if taken then count + 1 else count, hit || taken, minUploads);
      AssignedFrom(s, pref, if taken then count + 1 else count, hit || taken, minUploads, i + 1);
      var all := Assigned(s[i..], pref, count, hit, minUploads);
      forall j | i <= j < |s|
        ensures all[j - i].choked <==> s[j].key !in pref && Ahead(s, pref, j) >= Max(1, minUploads - |pref|)
      {
        if j > i { assert all[j - i] == rest[j - (i + 1)]; }
      }
    }
  }

  // ---- The rotation ----

  /** The position of the first interested peer that is choked; the length of the list if there is none. */
  function FirstWaiting<K>(s: Slots<K>): (i: nat)
    ensures i <= |s| && (i < |s| ==> s[i].choked && s[i].interested)
    ensures forall j | 0 <= j < i :: !(s[j].choked && s[j].interested)
  {
    if s == [] || (s[0].choked && s[0].interested) then 0 else 1 + FirstWaiting(s[1..])
  }

  function Rotated<K>(s: Slots<K>): (r: Slots<K>)
    ensures |r| == |s|
  {
    var i := FirstWaiting(s);
    s[i..] + s[..i]
  }

  /** One thing that happens to a choker whose list of connections stays the same. */
  datatype Event<!K> = Round(rates: Rates<K>) | Rechoke(rates: Rates<K>) | Interest

  datatype Choking<K> = Choking(slots: Slots<K>, count: nat, maxUploads: nat, minUploads: nat)

  ghost predicate Step<K(!new)>(s: Choking<K>, e: Event<K>, s': Choking<K>) {
    && s'.maxUploads == s.maxUploads && s'.minUploads == s.minUploads
    && match e
       case Round(rates) =>
         && s'.count == s.count + 1
         && Rechoked(if s'.count % 3 == 0 then Rotated(s.slots)
             else s.slots, s'.slots, rates, s.maxUploads, s.minUploads)
       case Rechoke(rates) => s'.count == s.count && Rechoked(s.slots, s'.slots, rates, s.maxUploads, s.minUploads)
       case Interest =>
         && s'.count == s.count && |s'.slots| == |s.slots|
         && forall i | 0 <= i < |s.slots| ::
             s'.slots[i].key == s.slots[i].key && s'.slots[i].choked == s.slots[i].choked
  }

  ghost predicate Run<K(!new)>(states: seq<Choking<K>>, events: seq<Event<K>>) {
    |states| == |events| + 1 && forall k | 0 <= k < |events| :: Step(states[k], events[k], states[k + 1])
  }

  /** `c` is at position `at`, interested and choked. */
  predicate Waiting<K(==)>(s: Choking<K>, c: K, at: nat) {
    at < |s.slots| && s.slots[at].key == c && s.slots[at].choked && s.slots[at].interested
  }

  ghost predicate Waits<K>(s: Choking<K>, c: K) {
    exists at: nat :: Waiting(s, c, at)
  }

  function Rotations<K>(events: seq<Event<K>>, count: nat): nat {
    if events == [] then 0
    else if events[0].Round? then (if (count + 1) % 3 == 0 then 1 else 0) + Rotations(events[1..], count + 1)
    else Rotations(events[1..], count)
  }

  function Rounds<K>(events: seq<Event<K>>): nat {
    if events == [] then 0 else (if events[0].Round? then 1 else 0) + Rounds(events[1..])
  }

  lemma {:induction false} EveryThird<K>(events: seq<Event<K>>, count: nat)
    ensures 3 * Rotations(events, count) + 2 >= Rounds(events) + count % 3
  {
    if events != [] {
      EveryThird(events[1..], if events[0].Round? then count + 1 else count);
    }
  }

  ghost predicate Fine<K>(s: Choking<K>) {
    Distinct(s.slots) && 1 <= s.maxUploads && (s.slots != [] ==> !s.slots[0].choked)
  }

  /** A step keeps the first slot unchoked, and a waiting peer that keeps waiting never moves back; a rotation moves it
      forward. */
  lemma WaitStep<K(!new)>(s: Choking<K>, e: Event<K>, s': Choking<K>, c: K, at: nat) returns (at': nat)
    requires Fine(s) && Step(s, e, s') && Waiting(s, c, at) && Waits(s', c)
    ensures Fine(s') && Waiting(s', c, at') && at' <= at
    ensures e.Round? && s'.count % 3 == 0 ==> at' < at
  {
    at' := at;
    if e == Interest {
      SameDistinct(s.slots, s'.slots);
    } else {
      var t := s.slots;
      if e.Round? && s'.count % 3 == 0 {
        t := Rotated(s.slots);
        var i := FirstWaiting(s.slots);
        RotatedDistinct(s.slots, i);
        at' := at - i;
        assert t[at'] == s.slots[at];
      }
      SlotBounds(t, s'.slots, e.rates, s.maxUploads, s.minUploads);
      SameDistinct(t, s'.slots);
    }
    var b: nat :| Waiting(s', c, b);
    assert s'.slots[b].key == s'.slots[at'].key;
  }

  lemma SameDistinct<K>(s: Slots<K>, t: Slots<K>)
    requires Distinct(s) && |t| == |s| && forall i | 0 <= i < |s| :: t[i].key == s[i].key
    ensures Distinct(t)
  {
  }

  lemma RotatedDistinct<K>(s: Slots<K>, i: nat)
    requires Distinct(s) && i <= |s|
    ensures Distinct(s[i..] + s[..i])
  {
    var t := s[i..] + s[..i];
    var n := |s|;
    forall a, b | 0 <= a < b < n ensures t[a].key != t[b].key {
      assert t[a] == s[if a < n - i then a + i else a - (n - i)];
      assert t[b] == s[if b < n - i then b + i else b - (n - i)];
    }
  }

  lemma RunTail<K(!new)>(states: seq<Choking<K>>, events: seq<Event<K>>, c: K)
    requires Run(states, events) && events != [] && forall k | 0 <= k < |states| :: Waits(states[k], c)
    ensures Step(states[0], events[0], states[1]) && Run(states[1..], events[1..])
    ensures Waits(states[1], c) && forall k | 0 <= k < |states[1..]| :: Waits(states[1..][k], c)
  {
    hide Step, Waits;
    assert Step(states[0], events[0], states[0 + 1]);
    forall k | 0 <= k < |events[1..]| ensures Step(states[1..][k], events[1..][k], states[1..][k + 1]) {
      assert Step(states[k + 1], events[k + 1], states[k + 1 + 1]);
    }
  }

  lemma StepCount<K(!new)>(s: Choking<K>, e: Event<K>, s': Choking<K>)
    requires Step(s, e, s')
    ensures s'.count == if e.Round? then s.count + 1 else s.count
  {
  }

  /** Bounded waiting: a peer that stays interested is unchoked before the list was rotated as often as its position
      says, whatever the rates are and the other peers do. */
  lemma {:induction false} BoundedWait<K(!new)>(states: seq<Choking<K>>, events: seq<Event<K>>, c: K, at: nat)
    requires Run(states, events) && Fine(states[0]) && Waiting(states[0], c, at)
    requires forall k | 0 <= k < |states| :: Waits(states[k], c)
    ensures Rotations(events, states[0].count) < at && Rounds(events) < 3 * at
    decreases |events|
  {
    hide Step, Waits, Rounds;
    EveryThird(events, states[0].count);
    if events == [] {
      assert at != 0;
    } else {
      RunTail(states, events, c);
      StepCount(states[0], events[0], states[1]);
      var at' := WaitStep(states[0], events[0], states[1], c, at);
      BoundedWait(states[1..], events[1..], c, at');
    }
  }

  // ---- The choker object ----

  /** A connection, as far as its upload is concerned. Connections are told apart by `id`. */
  class Connection {
    const id: nat
    var interested: bool
    var choked: bool

    constructor (id: nat)
      ensures this.id == id && choked && !interested
    {
      this.id, choked, interested := id, true, false;
    }
  }

  ghost predicate Descending(l: seq<nat>, rates: Rates<nat>) {
    forall i, j | 0 <= i < j < |l| :: rates.Rate(l[i]) >= rates.Rate(l[j])
  }

  lemma InsertSame(l: seq<nat>, k: nat, x: nat)
    requires k <= |l|
    ensures multiset(l[..k] + [x] + l[k..]) == multiset(l) + multiset{x}
  {
    assert l == l[..k] + l[k..];
  }

  lemma InsertDescending(l: seq<nat>, rates: Rates<nat>, k: nat, x: nat)
    requires Descending(l, rates) && k <= |l| && forall i | 0 <= i < k :: rates.Rate(l[i]) >= rates.Rate(x)
    requires k < |l| ==> rates.Rate(l[k]) < rates.Rate(x)
    ensures Descending(l[..k] + [x] + l[k..], rates)
  {
    hide Rates.Rate;
    var r := l[..k] + [x] + l[k..];
    forall i, j | 0 <= i < j < |r| ensures rates.Rate(r[i]) >= rates.Rate(r[j]) {
      assert r[i] == (if i < k then l[i] else if i == k then x else l[i - 1]);
      assert r[j] == (if j < k then l[j] else if j == k then x else l[j - 1]);
    }
  }

  /** Where `x` belongs in a list that is sorted by rate. */
  method PlaceFor(l: seq<nat>, rates: Rates<nat>, x: nat) returns (k: nat)
    ensures k <= |l| && forall i | 0 <= i < k :: rates.Rate(l[i]) >= rates.Rate(x)
    ensures k < |l| ==> rates.Rate(l[k]) < rates.Rate(x)
  {
    k := 0;
    while k < |l| && rates.Rate(l[k]) >= rates.Rate(x)
      invariant k <= |l| && forall i | 0 <= i < k :: rates.Rate(l[i]) >= rates.Rate(x)
    {
      k := k + 1;
    }
  }

  method SortByRate(l: seq<nat>, rates: Rates<nat>) returns (r: seq<nat>)
    ensures multiset(r) == multiset(l) && Descending(r, rates)
  {
    hide Descending, Rates.Rate;
    r := [];
    Nothing(rates);
    for n := 0 to |l|
      invariant multiset(r) == multiset(l[..n]) && Descending(r, rates)
    {
      var k := PlaceFor(r, rates, l[n]);
      assert l[..n + 1] == l[..n] + [l[n]];
      InsertSame(r, k, l[n]);
      InsertDescending(r, rates, k, l[n]);
      r := r[..k] + [l[n]] + r[k..];
    }
    assert l[..|l|] == l;
  }

  lemma Nothing(rates: Rates<nat>)
    ensures Descending([], rates)
  {
  }

  /** The front of a list that is sorted by rate is its fastest part. */
  lemma FrontFastest(sorted: seq<nat>, s: Slots<nat>, rates: Rates<nat>, maxUploads: nat)
    requires Distinct(s) && 1 <= maxUploads && multiset(sorted) == multiset(Candidates(s, rates))
    requires Descending(sorted, rates)
    ensures Min(maxUploads - 1, |sorted|) >= 0 && Fastest(sorted[..Min(maxUploads - 1, |sorted|)], s, rates, maxUploads)
  {
    CandidatesFacts(s, rates);
    var n, all := Min(maxUploads - 1, |sorted|), Candidates(s, rates);
    SameElements(sorted, all);
    forall c, d | c in sorted[..n] && d in all && d !in sorted[..n] ensures rates.Rate(c) >= rates.Rate(d) {
      var i :| 0 <= i < n && sorted[i] == c;
      assert d in sorted;
      forall m | 0 <= m < n ensures sorted[m] != d {
        assert sorted[m] == sorted[..n][m];
      }
      var j: nat :| j < |sorted| && sorted[j] == d;
    }
  }

  ghost function SlotsOf(cs: seq<Connection>): (s: Slots<nat>)
    reads cs
    ensures |s| == |cs| && forall i | 0 <= i < |s| :: s[i] == Slot(cs[i].id, cs[i].interested, cs[i].choked)
  {
    seq(|cs|, i requires 0 <= i < |cs| reads cs => Slot(cs[i].id, cs[i].interested, cs[i].choked))
  }

  class Choker {
    var connections: seq<Connection>
    var count: nat
    var maxUploads: nat
    const minUploads: nat

    ghost predicate Valid()
      reads this, connections
    {
      Sound() && FrontServed(Slots())
    }

    /** As `Valid`, but connections may have changed since they were last rechoked. */
    ghost predicate Sound()
      reads this, connections
    {
      Distinct(Slots()) && 1 <= maxUploads
    }

    /** Bounded waiting applies to every choker. */
    lemma ValidIsFine()
      requires Valid()
      ensures Fine(State())
    {
    }

    ghost function Slots(): (s: Slots<nat>)
      reads this`connections, connections
      ensures |s| == |connections|
      ensures forall i | 0 <= i < |s| ::
        s[i] == Slot(connections[i].id, connections[i].interested, connections[i].choked)
    {
      SlotsOf(connections)
    }

    ghost function State(): Choking<nat>
      reads this, connections
    {
      Choking(Slots(), count, maxUploads, minUploads)
    }

    constructor (maxUploads: nat, minUploads: Option<nat>)
      requires 1 <= maxUploads
      ensures Valid() && connections == [] && count == 0 && this.maxUploads == maxUploads
      ensures this.minUploads == match minUploads case None => maxUploads case Some(n) => n
    {
      this.maxUploads := maxUploads;
      this.minUploads := match minUploads case None => maxUploads case Some(n) => n;
      connections, count := [], 0;
    }

    method Preferred(rates: Rates<nat>) returns (pref: seq<nat>)
      requires Sound()
      ensures Fastest(pref, Slots(), rates, maxUploads)
    {
      hide Choker.Slots, Fastest;
      ghost var s := Slots();
      var all := [];
      assert s[0..] == s;
      for i := 0 to |connections|
        invariant all + Candidates(s[i..], rates) == Candidates(s, rates)
      {
        var c := connections[i];
        assert s[i..][0] == s[i] && s[i..][1..] == s[i + 1..];
        if !rates.Snubbed(c.id) && c.interested {
          assert all + ([c.id] + Candidates(s[i + 1..], rates)) == all + [c.id] + Candidates(s[i + 1..], rates);
          all := all + [c.id];
        } else {
          assert [] + Candidates(s[i + 1..], rates) == Candidates(s[i + 1..], rates);
        }
      }
      assert all + [] == all;
      var sorted := SortByRate(all, rates);
      FrontFastest(sorted, s, rates, maxUploads);
      pref := sorted[..Min(maxUploads - 1, |sorted|)];
    }

    /** Decides anew who is choked. */
    method Rechoke(rates: Rates<nat>) returns (ghost preferred: seq<nat>)
      requires Sound()
      modifies connections`choked
      ensures Valid() && Rechoked(old(Slots()), Slots(), rates, maxUploads, minUploads)
      ensures Rewards(old(Slots()), Slots(), preferred, rates, maxUploads, minUploads)
    {
      hide Choker.Slots, Fastest, Rewards;
      var pref := Preferred(rates);
      preferred := pref;
      var given: nat, hit := |pref|, false;
      ghost var s, done := Slots(), [];
      ghost var goal := Assigned(s, pref, |pref|, false, minUploads);
      assert s[0..] == s && [] + goal == goal;
      for i := 0 to |connections|
        invariant |done| == i && done + Assigned(s[i..], pref, given, hit, minUploads) == goal
        invariant forall k | 0 <= k < i :: connections[k].choked == done[k].choked
      {
        var c := connections[i];
        AssignOne(s, i, pref, given, hit, minUploads);
        ghost var next := Assigned(s[i..], pref, given, hit, minUploads)[0];
        assert forall k | 0 <= k < |s| && k != i :: connections[k] != c by { Distinctly(s); }
        if c.id in pref {
          c.choked := false;
        } else if given < minUploads || !hit {
          c.choked := false;
          if c.interested {
            given := given + 1;
            hit := true;
          }
        } else {
          c.choked := true;
        }
        Regroup(done, [next], Assigned(s[i + 1..], pref, given, hit, minUploads));
        done := done + [next];
      }
      assert done + [] == done;
      AssignedSame(s, pref, |pref|, false, minUploads);
      assert Slots() == goal;
      assert Rechoked(s, goal, rates, maxUploads, minUploads);
      SlotBounds(s, goal, rates, maxUploads, minUploads);
      RechokedMeans(s, goal, pref, rates, maxUploads, minUploads);
      SameDistinct(s, goal);
    }

    /** The first interested peer that is choked comes to the front of the list. */
    method Rotate()
      requires Sound()
      modifies this`connections
      ensures Sound() && Slots() == Rotated(old(Slots()))
      ensures forall i | 0 <= i < |connections| :: connections[i] in old(connections)
    {
      hide Choker.Slots;
      ghost var s := Slots();
      var i: nat := 0;
      while i < |connections| && !(connections[i].choked && connections[i].interested)
        invariant i <= |connections| && forall j | 0 <= j < i :: !(s[j].choked && s[j].interested)
      {
        i := i + 1;
      }
      WaitingAt(s, i);
      RotatedDistinct(s, i);
      if i < |connections| {
        connections := connections[i..] + connections[..i];
        RotatedElements(old(connections), i);
      }
      assert Slots() == s[i..] + s[..i];
    }

    /** Every third time, the list is rotated first. */
    method RoundRobin(rates: Rates<nat>)
      requires Valid()
      modifies this`connections, this`count, connections`choked
      ensures Valid() && Step(old(State()), Round(rates), State())
    {
      hide Choker.Slots, Rechoked, Rotated;
      count := count + 1;
      if count % 3 == 0 {
        Rotate();
      }
      assert forall i | 0 <= i < |connections| :: connections[i] in old(connections);
      ghost var preferred := Rechoke(rates);
    }

    /** A new connection is put into the list at `p`, or anywhere, with a preference for the front. */
    method ConnectionMade(c: Connection, p: Option<int>, rates: Rates<nat>) returns (at: nat)
      requires Valid() && forall d | d in connections :: d.id != c.id
      modifies this`connections, connections`choked, c`choked
      ensures at <= |old(connections)| && connections == old(connections)[..at] + [c] + old(connections)[at..]
      ensures p.Some? ==> at == Min(Max(p.value, 0), |old(connections)|)
      ensures var s := old(Slots());
        Valid() && Rechoked(s[..at] + [Slot(c.id, c.interested, old(c.choked))] + s[at..], Slots(), rates,
            maxUploads, minUploads)
    {
      hide Choker.Slots, Rechoked;
      var q: int;
      if p == None {
        q :| -2 <= q <= |connections|;
      } else {
        q := p.value;
      }
      at := Min(Max(q, 0), |connections|);
      ghost var s := Slots();
      connections := connections[..at] + [c] + connections[at..];
      ghost var t := s[..at] + [Slot(c.id, c.interested, c.choked)] + s[at..];
      assert Slots() == t;
      InsertedDistinct(s, at, Slot(c.id, c.interested, c.choked));
      ghost var preferred := Rechoke(rates);
    }

    /** A connection is gone. If it was served, its slot goes to others. */
    method ConnectionLost(c: Connection, rates: Rates<nat>) returns (ghost at: nat)
      requires Valid() && c in connections
      modifies this`connections, connections`choked
      ensures at < |old(connections)| && old(connections)[at] == c
      ensures connections == old(connections)[..at] + old(connections)[at + 1..]
      ensures var s := old(Slots()); var rest := s[..at] + s[at + 1..];
        Valid() && if s[at].interested && !s[at].choked then Rechoked(rest, Slots(), rates, maxUploads, minUploads)
            else Slots() == rest
    {
      hide Choker.Slots, Rechoked;
      ghost var s := Slots();
      var k := 0;
      while connections[k] != c
        invariant k < |connections| && c !in connections[..k]
        decreases |connections| - k
      {
        k := k + 1;
      }
      at := k;
      connections := connections[..k] + connections[k + 1..];
      assert Slots() == s[..at] + s[at + 1..];
      if c.interested && !c.choked {
        ghost var preferred := Rechoke(rates);
      } else {
        FrontWithout(s, at);
      }
    }

    /** A peer says that it is interested, or is not. The choker is told if that is news. */
    method GotInterest(c: Connection, interested: bool, ghost at: nat, rates: Rates<nat>)
      requires Valid() && at < |connections| && connections[at] == c
      modifies c`interested, connections`choked
      ensures var s := old(Slots())[at := old(Slots())[at].(interested := interested)];
        && Valid()
        && if old(c.interested) == interested || old(c.choked) then Slots() == s
            else Rechoked(s, Slots(), rates, maxUploads, minUploads)
    {
      hide Choker.Slots, Rechoked;
      ghost var s := Slots();
      if c.interested != interested {
        Distinctly(s);
        c.interested := interested;
        assert Slots() == s[at := s[at].(interested := interested)];
        SameDistinct(s, Slots());
        if c.choked { FrontFlipped(s, at, interested); }
        InterestChanged(c, rates);
      } else {
        assert s[at := s[at].(interested := interested)] == s;
      }
    }

    /** `interested` and `not_interested`. */
    method InterestChanged(c: Connection, rates: Rates<nat>)
      requires Sound() && c in connections
      modifies connections`choked
      ensures Sound() && (old(FrontServed(Slots())) || !old(c.choked) ==> Valid())
      ensures if old(c.choked) then Slots() == old(Slots())
              else Rechoked(old(Slots()), Slots(), rates, maxUploads, minUploads)
    {
      if !c.choked {
        ghost var preferred := Rechoke(rates);
      }
    }

    method ChangeMaxUploads(newval: nat, rates: Rates<nat>)
      requires Valid() && 1 <= newval
      modifies this`maxUploads, connections`choked
      ensures Valid() && maxUploads == newval && Rechoked(old(Slots()), Slots(), rates, newval, minUploads)
    {
      maxUploads := newval;
      ghost var preferred := Rechoke(rates);
    }

    lemma Distinctly(s: Slots<nat>)
      requires Distinct(s) && |s| == |connections| && forall i | 0 <= i < |s| :: s[i].key == connections[i].id
      ensures forall i, j | 0 <= i < |s| && 0 <= j < |s| && i != j :: connections[i] != connections[j]
    {
    }
  }

  lemma {:induction false} WaitingAt<K>(s: Slots<K>, i: nat)
    requires i <= |s| && forall j | 0 <= j < i :: !(s[j].choked && s[j].interested)
    requires i < |s| ==> s[i].choked && s[i].interested
    ensures FirstWaiting(s) == i
  {
    if i > 0 {
      WaitingAt(s[1..], i - 1);
    }
  }

  lemma RotatedElements<T>(l: seq<T>, i: nat)
    requires i <= |l|
    ensures forall k | 0 <= k < |l| :: (l[i..] + l[..i])[k] in l
  {
    assert l == l[..i] + l[i..];
  }

  lemma InsertedDistinct<K>(s: Slots<K>, at: nat, u: Slot<K>)
    requires Distinct(s) && at <= |s| && forall i | 0 <= i < |s| :: s[i].key != u.key
    ensures Distinct(s[..at] + [u] + s[at..])
  {
  }

  /** One turn of the loop. */
  lemma AssignOne(s: Slots<nat>, i: nat, pref: seq<nat>, count: nat, hit: bool, minUploads: nat)
    requires i < |s|
    ensures var free := count < minUploads || !hit;
      var u := s[i].(choked := s[i].key !in pref && !free);
      var taken := s[i].key !in pref && free && s[i].interested;
      Assigned(s[i..], pref, count, hit, minUploads)
        == [u] + Assigned(s[i + 1..], pref, if taken then count + 1 else count, hit || taken, minUploads)
  {
    assert s[i..][0] == s[i] && s[i..][1..] == s[i + 1..];
  }
}
