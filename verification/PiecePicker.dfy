/** Choosing which piece to request next: pieces are kept in buckets by the number of peers that have them. */
module PiecePickers {
  import opened Basics

  // ---- The bucketed index ----

  /** Every piece with a count is in the bucket of that count, at its noted position, and nothing else is there. */
  ghost predicate Indexed(n: nat, interests: seq<seq<nat>>, pos: seq<nat>, num: seq<Option<nat>>) {
    && |pos| == |num| == n
    && (forall p: nat | p < n && num[p].Some? :: Located(interests, pos[p], num[p].value, p))
    && (forall k: nat, j: nat | k < |interests| && j < |interests[k]| :: Listed(n, pos, num, interests[k][j], k, j))
  }

  ghost predicate Located(interests: seq<seq<nat>>, at: nat, k: nat, p: nat) {
    k < |interests| && at < |interests[k]| && interests[k][at] == p
  }

  ghost predicate Listed(n: nat, pos: seq<nat>, num: seq<Option<nat>>, p: nat, k: nat, j: nat)
    requires |pos| == |num| == n
  {
    p < n && num[p] == Some(k) && pos[p] == j
  }

  /** The buckets hold each incomplete piece exactly once, and nothing else. */
  lemma BucketsPartition(n: nat, interests: seq<seq<nat>>, pos: seq<nat>, num: seq<Option<nat>>)
    requires Indexed(n, interests, pos, num)
    ensures forall p: nat | p < n :: num[p].Some? <==>
      exists k: nat, j: nat :: k < |interests| && j < |interests[k]| && interests[k][j] == p
    ensures forall k: nat, j: nat, k': nat, j': nat | k < |interests| && j < |interests[k]| && k' < |interests|
      && j' < |interests[k']| && interests[k][j] == interests[k'][j'] :: k == k' && j == j'
  {
    forall p: nat | p < n && num[p].Some?
      ensures exists k: nat, j: nat :: k < |interests| && j < |interests[k]| && interests[k][j] == p
    {
      assert Located(interests, pos[p], num[p].value, p);
    }
    forall k: nat, j: nat | k < |interests| && j < |interests[k]| ensures Listed(n, pos, num, interests[k][j], k, j) {
    }
  }

  /** `l` with its last element moved to position `at`, and so the element at `at` gone. */
  function SwapOut(l: seq<nat>, at: nat): seq<nat>
    requires at < |l|
  {
    l[at := l[|l| - 1]][..|l| - 1]
  }

  /** `l` with `piece` put at `at`, and the element that was there moved to the end. */
  function SwapIn(l: seq<nat>, at: nat, piece: nat): seq<nat>
    requires at <= |l|
  {
    if at == |l| then l + [piece] else (l + [l[at]])[at := piece]
  }

  lemma SwappedOut(n: nat, interests: seq<seq<nat>>, pos: seq<nat>, num: seq<Option<nat>>, piece: nat, k: nat)
    requires Indexed(n, interests, pos, num) && piece < n && num[piece] == Some(k)
    ensures k < |interests| && pos[piece] < |interests[k]| && interests[k][|interests[k]| - 1] < n
    ensures var l := interests[k];
      Indexed(n, interests[k := SwapOut(l, pos[piece])], pos[l[|l| - 1] := pos[piece]], num[piece := None])
  {
    assert Located(interests, pos[piece], k, piece);
    var l, at := interests[k], pos[piece];
    var last := l[|l| - 1];
    assert Listed(n, pos, num, interests[k][|l| - 1], k, |l| - 1);
    var interests', pos', num' := interests[k := SwapOut(l, at)], pos[last := at], num[piece := None];
    forall p: nat | p < n && num'[p].Some? ensures Located(interests', pos'[p], num'[p].value, p) {
      assert Located(interests, pos[p], num[p].value, p);
    }
    forall i: nat, j: nat | i < |interests'| && j < |interests'[i]|
        ensures Listed(n, pos', num', interests'[i][j], i, j) {
      assert Listed(n, pos, num, interests[i][j], i, j);
    }
  }

  lemma SwappedIn(n: nat, interests: seq<seq<nat>>, pos: seq<nat>, num: seq<Option<nat>>, piece: nat, k: nat, at: nat)
    requires Indexed(n, interests, pos, num) && piece < n && num[piece] == None && k < |interests|
    requires at <= |interests[k]|
    ensures at < |interests[k]| ==> interests[k][at] < n
    ensures Indexed(n, interests[k := SwapIn(interests[k], at, piece)],
                    (if at == |interests[k]| then pos else pos[interests[k][at] := |interests[k]|])[piece := at],
                    num[piece := Some(k)])
  {
    var l := interests[k];
    if at < |l| { assert Listed(n, pos, num, interests[k][at], k, at); }
    var interests', num' := interests[k := SwapIn(l, at, piece)], num[piece := Some(k)];
    var pos' := (if at == |l| then pos else pos[l[at] := |l|])[piece := at];
    forall p: nat | p < n && num'[p].Some? ensures Located(interests', pos'[p], num'[p].value, p) {
      if p != piece { assert Located(interests, pos[p], num[p].value, p); }
    }
    forall i: nat, j: nat | i < |interests'| && j < |interests'[i]|
        ensures Listed(n, pos', num', interests'[i][j], i, j) {
      if j < |interests[i]| { assert Listed(n, pos, num, interests[i][j], i, j); }
    }
  }

  lemma EmptyBucket(n: nat, interests: seq<seq<nat>>, pos: seq<nat>, num: seq<Option<nat>>)
    requires Indexed(n, interests, pos, num)
    ensures Indexed(n, interests + [[]], pos, num)
  {
    forall p: nat | p < n && num[p].Some? ensures Located(interests + [[]], pos[p], num[p].value, p) {
      assert Located(interests, pos[p], num[p].value, p);
    }
    forall k: nat, j: nat | k < |interests + [[]]| && j < |(interests + [[]])[k]|
      ensures Listed(n, pos, num, (interests + [[]])[k][j], k, j)
    {
      assert Listed(n, pos, num, interests[k][j], k, j);
    }
  }

  /** `l` with its element at `at` moved to the end. */
  function MoveToEnd(l: seq<nat>, at: nat): seq<nat>
    requires at < |l|
  {
    l[..at] + l[at + 1..] + [l[at]]
  }

  /** The positions after the element at `at` of bucket `k`, which has `len` elements, was moved to the end. */
  ghost function MovedPos(pos: seq<nat>, num: seq<Option<nat>>, k: nat, at: nat, len: nat): (r: seq<nat>)
    requires |pos| == |num| && at < len
    ensures |r| == |pos|
  {
    seq(|pos|, p requires 0 <= p < |pos| =>
      if num[p] != Some(k) || pos[p] < at then pos[p] else if pos[p] == at then (len - 1) as nat
          else (pos[p] - 1) as nat)
  }

  lemma MovedToEnd(n: nat, interests: seq<seq<nat>>, pos: seq<nat>, num: seq<Option<nat>>, k: nat, at: nat)
    requires Indexed(n, interests, pos, num) && k < |interests| && at < |interests[k]|
    ensures Indexed(n, interests[k := MoveToEnd(interests[k], at)], MovedPos(pos, num, k, at, |interests[k]|), num)
    ensures forall j: nat | j < |interests[k]| ::
      MoveToEnd(interests[k], at)[j] < n
          && MovedPos(pos, num, k, at, |interests[k]|)[MoveToEnd(interests[k], at)[j]] == j
  {
    var l, l' := interests[k], MoveToEnd(interests[k], at);
    var interests', pos' := interests[k := l'], MovedPos(pos, num, k, at, |l|);
    forall j: nat | j < |l| ensures l'[j] < n && Listed(n, pos', num, l'[j], k, j) {
      assert Listed(n, pos, num, interests[k][if j < at then j else if j < |l| - 1 then j + 1 else at], k,
                    if j < at then j else if j < |l| - 1 then j + 1 else at);
    }
    forall i: nat, j: nat | i < |interests'| && j < |interests'[i]|
        ensures Listed(n, pos', num, interests'[i][j], i, j) {
      if i != k { assert Listed(n, pos, num, interests[i][j], i, j); }
    }
    forall p: nat | p < n && num[p].Some? ensures Located(interests', pos'[p], num[p].value, p) {
      assert Located(interests, pos[p], num[p].value, p);
    }
  }

  // ---- Counting ----

  /** How many of the first `n` pieces are complete. */
  ghost function Completed(num: seq<Option<nat>>, n: nat): nat
    requires n <= |num|
  {
    if n == 0 then 0 else Completed(num, n - 1) + if num[n - 1] == None then 1 else 0
  }

  lemma {:induction false} CompletedUpdate(num: seq<Option<nat>>, n: nat, p: nat, v: Option<nat>)
    requires n <= |num| && p < |num| && num[p].Some?
    ensures Completed(num[p := v], n) == Completed(num, n) + if p < n && v == None then 1 else 0
  {
    if n > 0 {
      CompletedUpdate(num, n - 1, p, v);
    }
  }

  lemma {:induction false} AllCompleted(num: seq<Option<nat>>, n: nat)
    requires n <= |num|
    ensures Completed(num, n) <= n
    ensures Completed(num, n) == n <==> forall p | 0 <= p < n :: num[p] == None
  {
    if n > 0 {
      AllCompleted(num, n - 1);
    }
  }

  /** Pieces that were started: distinct, incomplete. */
  ghost predicate StartedOK(n: nat, num: seq<Option<nat>>, started: seq<nat>) {
    && |num| == n
    && NoDup(started)
    && forall p | p in started :: p < n && num[p].Some?
  }

  const TOO_MANY := 0x4000_0000

  /** What a choice depends on. */
  datatype Picks = Picks(num: seq<Option<nat>>, numgot: nat, cutoff: nat, scrambled: seq<nat>, started: seq<nat>,
                         seedstarted: seq<nat>)

  /** Pieces that were started are not complete, and complete ones are counted. */
  ghost predicate PicksOK(p: Picks) {
    && StartedOK(|p.num|, p.num, p.started) && StartedOK(|p.num|, p.num, p.seedstarted)
    && (forall i | i in p.seedstarted :: i in p.started)
    && p.numgot == Completed(p.num, |p.num|)
    && (forall i: nat :: i in p.scrambled <==> i < |p.num|)
  }

  class PiecePicker {
    const cutoff: nat
    const numpieces: nat
    const scrambled: seq<nat>
    var interests: seq<seq<nat>>
    var pos: seq<nat>
    /** For each piece, how many peers have it; None once it is complete. */
    var num: seq<Option<nat>>
    var started: seq<nat>
    var seedstarted: seq<nat>
    var numgot: nat

    ghost function State(): Picks
      reads this
    {
      Picks(num, numgot, cutoff, scrambled, started, seedstarted)
    }

    ghost predicate Valid()
      reads this
    {
      && Indexed(numpieces, interests, pos, num)
      && 0 < |interests|
      && StartedOK(numpieces, num, started)
      && StartedOK(numpieces, num, seedstarted)
      && (forall p | p in seedstarted :: p in started)
      && numgot == Completed(num, numpieces)
      && (forall p | p in scrambled :: p < numpieces)
      && (forall p: nat | p < numpieces :: p in scrambled)
    }

    /** `scrambled` is any ordering of the pieces: the original shuffles them. */
    constructor (numpieces: nat, cutoff: nat, scrambled: seq<nat>)
      requires multiset(scrambled) == multiset(seq(numpieces, i requires 0 <= i => i))
      ensures Valid() && this.numpieces == numpieces && this.cutoff == cutoff && this.scrambled == scrambled
      ensures num == seq(numpieces, _ => Some(0)) && started == [] && seedstarted == [] && numgot == 0
    {
      this.numpieces, this.cutoff, this.scrambled := numpieces, cutoff, scrambled;
      var all: seq<nat> := seq(numpieces, i requires 0 <= i => i);
      interests := [all];
      pos := all;
      num := seq(numpieces, _ => Some(0));
      started, seedstarted, numgot := [], [], 0;
      new;
      NoneCompleted(num, numpieces);
      forall p: nat ensures p in scrambled <==> p < numpieces {
        assert p in scrambled <==> p in multiset(scrambled);
        assert p in multiset(all) <==> p in all;
        if p < numpieces { assert all[p] == p; }
      }
    }

    lemma {:induction false} NoneCompleted(num: seq<Option<nat>>, n: nat)
      requires n <= |num| && forall p | 0 <= p < n :: num[p].Some?
      ensures Completed(num, n) == 0
    {
      if n > 0 {
        NoneCompleted(num, n - 1);
      }
    }

    // ---- Moving between buckets ----

    /** Takes `piece` out of bucket `k`. */
    method TakeOut(piece: nat, k: nat)
      requires Indexed(numpieces, interests, pos, num) && piece < numpieces && num[piece] == Some(k)
      modifies this`interests, this`pos, this`num
      ensures Indexed(numpieces, interests, pos, num) && |interests| == |old(interests)|
      ensures num == old(num)[piece := None]
    {
      SwappedOut(numpieces, interests, pos, num, piece, k);
      var l := interests[k];
      var p := pos[piece];
      l := l[p := l[|l| - 1]];
      pos := pos[l[|l| - 1] := p];
      l := l[..|l| - 1];
      interests := interests[k := l];
      num := num[piece := None];
    }

    /** `_shift_over`: out of bucket `k1`, and into a random position of bucket `k2`. */
    method ShiftOver(piece: nat, k1: nat, k2: nat)
      requires Indexed(numpieces, interests, pos, num) && piece < numpieces && num[piece] == Some(k1)
      requires k2 < |interests|
      modifies this`interests, this`pos, this`num
      ensures Indexed(numpieces, interests, pos, num) && |interests| == |old(interests)|
      ensures num == old(num)[piece := Some(k2)]
    {
      TakeOut(piece, k1);
      var l2 := interests[k2];
      var newp :| 0 <= newp <= |l2|;
      if newp < |l2| { assert Listed(numpieces, pos, num, interests[k2][newp], k2, newp); }
      SwappedIn(numpieces, interests, pos, num, piece, k2, newp);
      if newp == |l2| {
        pos := pos[piece := |l2|];
        l2 := l2 + [piece];
      } else {
        var old_ := l2[newp];
        pos := pos[old_ := |l2|];
        l2 := l2 + [old_];
        l2 := l2[newp := piece];
        pos := pos[piece := newp];
      }
      interests := interests[k2 := l2];
      num := num[piece := Some(k2)];
    }

    // ---- Events ----

    method GotHave(piece: nat)
      requires Valid() && piece < numpieces
      modifies this`interests, this`pos, this`num
      ensures Valid()
      ensures num == if old(num)[piece].Some? then old(num)[piece := Some(old(num)[piece].value + 1)] else old(num)
    {
      if num[piece] == None {
        return;
      }
      var numint := num[piece].value;
      assert Located(interests, pos[piece], numint, piece);
      if numint == |interests| - 1 {
        EmptyBucket(numpieces, interests, pos, num);
        interests := interests + [[]];
      }
      CompletedUpdate(num, numpieces, piece, Some(numint + 1));
      ShiftOver(piece, numint, numint + 1);
    }

    /** Undoes one `GotHave`, so the count is not 0. */
    method LostHave(piece: nat)
      requires Valid() && piece < numpieces && num[piece] != Some(0)
      modifies this`interests, this`pos, this`num
      ensures Valid()
      ensures num == if old(num)[piece].Some? then old(num)[piece := Some(old(num)[piece].value - 1)] else old(num)
    {
      if num[piece] == None {
        return;
      }
      var numint := num[piece].value;
      assert Located(interests, pos[piece], numint, piece);
      CompletedUpdate(num, numpieces, piece, Some(numint - 1));
      ShiftOver(piece, numint, numint - 1);
    }

    method Requested(piece: nat, seed: bool)
      requires Valid() && piece < numpieces && num[piece].Some?
      modifies this`started, this`seedstarted
      ensures Valid()
      ensures started == if piece in old(started) then old(started) else old(started) + [piece]
      ensures seedstarted == if seed && piece !in old(seedstarted) then old(seedstarted) + [piece] else old(seedstarted)
    {
      if piece !in started {
        started := started + [piece];
      }
      if seed && piece !in seedstarted {
        seedstarted := seedstarted + [piece];
      }
    }

    method Complete(piece: nat)
      requires Valid() && piece < numpieces && num[piece].Some?
      modifies this`interests, this`pos, this`num, this`started, this`seedstarted, this`numgot
      ensures Valid()
      ensures num == old(num)[piece := None] && numgot == old(numgot) + 1
      ensures started == Removed(old(started), piece) && seedstarted == Removed(old(seedstarted), piece)
      ensures forall p :: p in started <==> p in old(started) && p != piece
      ensures forall p :: p in seedstarted <==> p in old(seedstarted) && p != piece
    {
      if piece !in started { RemovedAbsent(started, piece); }
      if piece !in seedstarted { RemovedAbsent(seedstarted, piece); }
      CompletedUpdate(num, numpieces, piece, None);
      numgot := numgot + 1;
      TakeOut(piece, num[piece].value);
      if piece in started {
        RemovedFacts(started, piece);
        started := Removed(started, piece);
        if piece in seedstarted {
          RemovedFacts(seedstarted, piece);
          seedstarted := Removed(seedstarted, piece);
        }
      }
    }

    /** The piece is the last in its bucket. */
    ghost predicate LastAmongEquals(piece: nat)
      reads this
    {
      && piece < |num| && num[piece].Some? && num[piece].value < |interests| && interests[num[piece].value] != []
      && interests[num[piece].value][|interests[num[piece].value]| - 1] == piece
    }

    /** The piece goes to the end of its bucket; the others keep their order. */
    method Bump(piece: nat)
      requires Valid() && piece < numpieces && num[piece].Some?
      modifies this`interests, this`pos
      ensures Valid() && num == old(num)
      ensures var k, at := num[piece].value, old(pos)[piece];
        k < |old(interests)| && at < |old(interests)[k]| && old(interests)[k][at] == piece
        && interests == old(interests)[k := old(interests)[k][..at] + old(interests)[k][at + 1..] + [piece]]
      ensures LastAmongEquals(piece)
    {
      var k := num[piece].value;
      assert Located(interests, pos[piece], k, piece);
      var l := interests[k];
      var at := pos[piece];
      ghost var pos0, moved := pos, MovedPos(pos, num, k, at, |l|);
      MovedToEnd(numpieces, interests, pos, num, k, at);
      l := l[..at] + l[at + 1..];
      l := l + [piece];
      assert l == MoveToEnd(interests[k], at);
      for i := at to |l|
        invariant |pos| == numpieces && interests == old(interests)
        invariant forall p | 0 <= p < numpieces :: pos[p] == pos0[p] || pos[p] == moved[p]
        invariant forall j | at <= j < i :: pos[l[j]] == moved[l[j]]
      {
        pos := pos[l[i] := i];
      }
      forall p | 0 <= p < numpieces ensures pos[p] == moved[p] {
        if num[p] == Some(k) && pos0[p] >= at {
          assert Located(interests, pos0[p], k, p);
          assert l[moved[p]] == p;
        }
      }
      assert pos == moved;
      interests := interests[k := l];
    }

    method AmIComplete() returns (r: bool)
      requires Valid()
      ensures r <==> forall p | 0 <= p < numpieces :: num[p] == None
    {
      AllCompleted(num, numpieces);
      r := numgot == numpieces;
    }

    // ---- Choosing ----

    /** The search in `s` comes upon a wanted piece with exactly `TOO_MANY` holders before any with fewer. Then the
        original fails, because there is no list yet to append the piece to. */
    ghost predicate Fails(s: seq<nat>, havefunc: nat -> bool)
      requires StartedOK(numpieces, num, s)
      reads this
    {
      exists m :: 0 <= m < |s| && FailsAt(s, havefunc, m)
    }

    ghost predicate FailsAt(s: seq<nat>, havefunc: nat -> bool, m: nat)
      requires StartedOK(numpieces, num, s) && m < |s|
      reads this
    {
      && s[m] in s && havefunc(s[m]) && num[s[m]].value == TOO_MANY
      && forall j | 0 <= j < m && s[j] in s && havefunc(s[j]) :: num[s[j]].value > TOO_MANY
    }

    lemma FoundBefore(s: seq<nat>, havefunc: nat -> bool, m: nat, b: nat)
      requires StartedOK(numpieces, num, s) && m < |s| && b in s[..m] && b in s && havefunc(b)
      requires num[b].value < TOO_MANY
      ensures !FailsAt(s, havefunc, m)
    {
      var j :| 0 <= j < m && s[..m][j] == b;
      assert s[j] == b;
    }

    /** All wanted pieces of `s` with the fewest holders, and how many that are, None if the search fails. It starts
        from `TOO_MANY`: pieces with more holders than that are not found. */
    method LeastAvailable(s: seq<nat>, havefunc: nat -> bool) returns (bests: Option<seq<nat>>, bestnum: nat)
      requires Valid() && StartedOK(numpieces, num, s)
      ensures bests == None <==> Fails(s, havefunc)
      ensures bests.Some? ==> forall b :: b in bests.value <==>
        b in s && havefunc(b) && num[b].value < TOO_MANY && num[b].value == bestnum
      ensures bests.Some? ==> forall p | p in s && havefunc(p) && num[p].value <= TOO_MANY ::
        bests.value != [] && bestnum <= num[p].value
      ensures bests.Some? ==> if bests.value == [] then bestnum == TOO_MANY else bestnum < TOO_MANY
    {
      hide Indexed;
      var found := [];
      bestnum := TOO_MANY;
      for m := 0 to |s|
        invariant if found == [] then bestnum == TOO_MANY else bestnum < TOO_MANY
        invariant forall b | b in found :: b in s[..m] && b in s && havefunc(b) && num[b].value == bestnum < TOO_MANY
        invariant forall j | 0 <= j < m && s[j] in s && havefunc(s[j]) && num[s[j]].value == bestnum < TOO_MANY ::
          s[j] in found
        invariant forall j | 0 <= j < m && s[j] in s && havefunc(s[j]) :: num[s[j]].value >= bestnum
        invariant found == [] ==> forall j | 0 <= j < m && s[j] in s && havefunc(s[j]) :: num[s[j]].value > TOO_MANY
        invariant forall j: nat | j < m :: !FailsAt(s, havefunc, j)
      {
        var i := s[m];
        assert i in s && s[..m + 1] == s[..m] + [i];
        if found != [] { FoundBefore(s, havefunc, m, found[0]); }
        if havefunc(i) {
          if num[i].value < bestnum {
            found := [i];
            bestnum := num[i].value;
          } else if num[i].value == bestnum {
            if found == [] {
              assert FailsAt(s, havefunc, m);
              return None, bestnum;
            }
            found := found + [i];
          }
        }
      }
      assert s[..|s|] == s;
      bests := Some(found);
    }

    /** A wanted started piece with the fewest holders; if there is none, any wanted piece until `cutoff` pieces are
        complete, and then a wanted piece with the fewest holders, but at least one. Whether it raises is told, too. */
    method Next(havefunc: nat -> bool, seed: bool) returns (r: Option<nat>, raises: bool)
      requires Valid()
      ensures raises <==> Fails(if seed then seedstarted else started, havefunc)
      ensures !raises ==> NextIs(havefunc, seed, r)
    {
      var s := if seed then seedstarted else started;
      var bests, bestnum := LeastAvailable(s, havefunc);
      r, raises := None, bests == None;
      if raises {
        return;
      }
      if bests.value != [] {
        assert bests.value[0] in bests.value;
        var b :| b in bests.value;
        r := Some(b);
        return;
      }
      if numgot < cutoff {
        for m := 0 to |scrambled|
          invariant forall j | 0 <= j < m :: !havefunc(scrambled[j])
        {
          assert scrambled[m] in scrambled;
          if havefunc(scrambled[m]) {
            r := Some(scrambled[m]);
            return;
          }
        }
        forall p: nat | p < numpieces ensures !havefunc(p) { assert p in scrambled; }
        return;
      }
      r := RarestOf(Min(bestnum, |interests|), havefunc);
      forall p: nat | p < numpieces && num[p].Some? ensures num[p].value < |interests| {
        assert Located(interests, pos[p], num[p].value, p);
      }
    }

    /** The last loop of `next`: the first wanted piece in the buckets from 1 to before `end`. */
    method RarestOf(end: nat, havefunc: nat -> bool) returns (r: Option<nat>)
      requires Valid() && end <= |interests|
      ensures r == None ==> forall p: nat | p < numpieces && num[p].Some? && 1 <= num[p].value < end :: !havefunc(p)
      ensures r.Some? ==>
        && r.value < numpieces && havefunc(r.value) && num[r.value].Some? && 1 <= num[r.value].value < end
        && forall p: nat | p < numpieces && num[p].Some? && 1 <= num[p].value && havefunc(p) ::
            num[r.value].value <= num[p].value
    {
      var i := 1;
      while i < end
        invariant 1 <= i && forall p: nat | p < numpieces && num[p].Some? && 1 <= num[p].value < i :: !havefunc(p)
      {
        for m := 0 to |interests[i]|
          invariant forall j | 0 <= j < m :: !havefunc(interests[i][j])
        {
          assert Listed(numpieces, pos, num, interests[i][m], i, m);
          if havefunc(interests[i][m]) {
            return Some(interests[i][m]);
          }
        }
        forall p: nat | p < numpieces && num[p] == Some(i) ensures !havefunc(p) {
          assert Located(interests, pos[p], i, p);
        }
        i := i + 1;
      }
      return None;
    }

    lemma StartedSound()
      requires Valid()
      ensures StartedOK(numpieces, num, started) && StartedOK(numpieces, num, seedstarted)
    {
    }

    lemma Scrambled()
      requires Valid()
      ensures forall p: nat | p < numpieces :: p in scrambled
      ensures |num| == numpieces && forall p | p in started || p in seedstarted :: p < numpieces && num[p].Some?
    {
    }

    lemma StateOK()
      requires Valid()
      ensures PicksOK(State()) && |num| == numpieces
    {
    }

    /** A choice is a piece that is wanted and exists. */
    lemma NextFacts(havefunc: nat -> bool, seed: bool, r: Option<nat>)
      requires Valid() && NextIs(havefunc, seed, r)
      ensures r.Some? ==> r.value < numpieces && havefunc(r.value)
    {
    }

    /** No piece has so many holders that `next` would not find it. */
    ghost predicate Findable()
      reads this
    {
      forall p | 0 <= p < |num| && num[p].Some? :: num[p].value < TOO_MANY
    }

    /** Then it does not fail. */
    lemma NeverFails(s: seq<nat>, havefunc: nat -> bool)
      requires StartedOK(numpieces, num, s)
      requires forall p: nat | p < numpieces == |num| && num[p].Some? && havefunc(p) :: num[p].value < TOO_MANY
      ensures !Fails(s, havefunc)
    {
    }

    /** If there are fewer peers than the search starts from, a choice is what was asked for: a least available wanted
        started piece if there is one; else, after the cutoff, a rarest wanted one; None only if there is none. */
    lemma NextChooses(havefunc: nat -> bool, seed: bool, r: Option<nat>)
      requires Valid() && NextIs(havefunc, seed, r) && Findable()
      ensures var s := if seed then seedstarted else started;
        && (forall p | p in s && havefunc(p) :: r.Some? && r.value in s && num[r.value].value <= num[p].value)
        && (r == None ==> forall p: nat | p < numpieces && num[p].Some? && havefunc(p) :: num[p].value == 0)
        && (r.Some? && r.value !in s && numgot >= cutoff ==>
             forall p: nat | p < numpieces && num[p].Some? && 1 <= num[p].value && havefunc(p) ::
               num[r.value].Some? && num[r.value].value <= num[p].value)
    {
    }

    ghost predicate NextIs(havefunc: nat -> bool, seed: bool, r: Option<nat>)
      requires |num| == numpieces && forall p | p in started || p in seedstarted :: p < numpieces && num[p].Some?
      reads this
    {
      var s := if seed then seedstarted else started;
      && (r.Some? ==> r.value < numpieces && havefunc(r.value))
      && if exists p :: p in s && havefunc(p) && num[p].value < TOO_MANY then
           r.Some? && r.value in s && forall p | p in s && havefunc(p) :: num[r.value].value <= num[p].value
         else if numgot < cutoff then
           && (r == None ==> forall p: nat | p < numpieces :: !havefunc(p))
           && (r.Some? ==> exists m ::
               0 <= m < |scrambled| && scrambled[m] == r.value && forall j | 0 <= j < m :: !havefunc(scrambled[j]))
         else
           && (r == None ==>
               forall p: nat | p < numpieces && num[p].Some? && 1 <= num[p].value < TOO_MANY :: !havefunc(p))
           && (r.Some? ==> num[r.value].Some? && 1 <= num[r.value].value < TOO_MANY)
           && (r.Some? ==> forall p: nat | p < numpieces && num[p].Some? && 1 <= num[p].value && havefunc(p) ::
                 num[r.value].value <= num[p].value)
    }
  }
}
