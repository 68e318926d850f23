/** Hashes of the pieces of a torrent. */
module Metafiles {
  import opened Basics

  /** A file of the torrent with its path, and its entry in the list of files. */
  datatype Source = Source(path: string, content: Bytes)
  datatype Entry = Entry(length: nat, path: string)

  /** The consecutive pieces of `data`, each of `size` bytes but the last. */
  function Pieces(data: Bytes, size: nat): seq<Bytes>
    requires 0 < size
  {
    if data == [] then [] else if |data| <= size then [data] else [data[..size]] + Pieces(data[size..], size)
  }

  function Hashes(pieces: seq<Bytes>, sha: Bytes -> Bytes): (h: seq<Bytes>)
    ensures |h| == |pieces| && forall i | 0 <= i < |h| :: h[i] == sha(pieces[i])
  {
    if pieces == [] then [] else [sha(pieces[0])] + Hashes(pieces[1..], sha)
  }

  function Contents(files: seq<Source>): Bytes {
    if files == [] then [] else files[0].content + Contents(files[1..])
  }

  ghost function Listing(files: seq<Source>): seq<Entry> {
    seq(|files|, i requires 0 <= i < |files| => Entry(|files[i].content|, files[i].path))
  }

  function Joined(pieces: seq<Bytes>): Bytes {
    if pieces == [] then [] else pieces[0] + Joined(pieces[1..])
  }

  /** The pieces put together are the data; all have the same size but the last, which is not empty; and so there are as
      many as the data needs, rounded up. */
  lemma {:induction false} PiecesCover(data: Bytes, size: nat)
    requires 0 < size
    ensures var p := Pieces(data, size);
      && Joined(p) == data
      && (forall k | 0 <= k < |p| :: 0 < |p[k]| <= size && (k < |p| - 1 ==> |p[k]| == size))
      && size * (|p| - 1) < |data| <= size * |p|
  {
    if data != [] && |data| > size {
      var p, rest := Pieces(data, size), Pieces(data[size..], size);
      PiecesCover(data[size..], size);
      assert p[1..] == rest && rest != [];
      assert data[..size] + data[size..] == data;
      Distribute(size, |rest| - 1);
    } else if data != [] {
      assert [data][1..] == [] && data + [] == data;
    }
  }

  lemma Distribute(size: nat, j: nat)
    ensures size * (j + 1) == size * j + size && size * (j + 2) == size * (j + 1) + size
  {
  }

  lemma PieceFull(sh: Bytes, rest: Bytes, size: nat, sha: Bytes -> Bytes)
    requires 0 < size == |sh|
    ensures Hashes(Pieces(sh + rest, size), sha) == [sha(sh)] + Hashes(Pieces(rest, size), sha)
  {
    if rest == [] {
      assert sh + rest == sh;
    } else {
      assert (sh + rest)[..size] == sh && (sh + rest)[size..] == rest;
    }
  }

  /** With `pieces` found and `sh` begun, the hashes of what is left complete the goal. */
  ghost predicate OnTrack(pieces: seq<Bytes>, sh: Bytes, left: Bytes, size: nat, sha: Bytes -> Bytes, goal: seq<Bytes>)
    requires 0 < size
  {
    |sh| < size && pieces + Hashes(Pieces(sh + left, size), sha) == goal
  }

  lemma BeginTrack(left: Bytes, size: nat, sha: Bytes -> Bytes)
    requires 0 < size
    ensures OnTrack([], [], left, size, sha, Hashes(Pieces(left, size), sha))
  {
    assert [] + left == left;
    assert [] + Hashes(Pieces(left, size), sha) == Hashes(Pieces(left, size), sha);
  }

  /** The hash is fed some more bytes, and finished when the piece is full. */
  lemma TrackOn(pieces: seq<Bytes>, sh: Bytes, x: Bytes, left: Bytes, size: nat, sha: Bytes -> Bytes, goal: seq<Bytes>)
    requires 0 < size && OnTrack(pieces, sh, x + left, size, sha, goal) && |sh| + |x| <= size
    ensures if |sh + x| == size then OnTrack(pieces + [sha(sh + x)], [], left, size, sha, goal)
            else OnTrack(pieces, sh + x, left, size, sha, goal)
  {
    hide Pieces, Hashes;
    assert sh + (x + left) == (sh + x) + left;
    if |sh + x| == size {
      PieceFull(sh + x, left, size, sha);
      assert [] + left == left;
      Regroup(pieces, [sha(sh + x)], Hashes(Pieces(left, size), sha));
    }
  }

  lemma EndTrack(pieces: seq<Bytes>, sh: Bytes, size: nat, sha: Bytes -> Bytes, goal: seq<Bytes>)
    requires 0 < size && OnTrack(pieces, sh, [], size, sha, goal)
    ensures goal == if sh == [] then pieces else pieces + [sha(sh)]
  {
    assert sh + [] == sh;
    Last(sh, size, sha);
  }

  /** The loop over several files: pieces run across the ends of files. */
  method HashFiles(files: seq<Source>, pieceLength: nat,
                   sha: Bytes -> Bytes) returns (pieces: seq<Bytes>, fs: seq<Entry>)
    requires 0 < pieceLength
    ensures pieces == Hashes(Pieces(Contents(files), pieceLength), sha) && fs == Listing(files)
  {
    hide Pieces, Hashes, OnTrack;
    pieces, fs := [], [];
    var sh: Bytes, done := [], 0;
    ghost var goal := Hashes(Pieces(Contents(files), pieceLength), sha);
    assert files[0..] == files;
    BeginTrack(Contents(files), pieceLength, sha);
    for i := 0 to |files|
      invariant done == |sh| < pieceLength && fs == Listing(files[..i])
      invariant OnTrack(pieces, sh, Contents(files[i..]), pieceLength, sha, goal)
    {
      fs := fs + [Entry(|files[i].content|, files[i].path)];
      assert files[i..][0] == files[i] && files[i..][1..] == files[i + 1..];
      pieces, sh, done := HashOne(files[i].content, Contents(files[i + 1..]), pieceLength, sha, pieces, sh, done, goal);
    }
    assert files[..|files|] == files && files[|files|..] == [];
    EndTrack(pieces, sh, pieceLength, sha, goal);
    if done > 0 {
      pieces := pieces + [sha(sh)];
    }
  }

  /** The inner loop, over one of the files; `later` is what the files after it contain. */
  method HashOne(content: Bytes, ghost later: Bytes, pieceLength: nat, sha: Bytes -> Bytes,
                 pieces0: seq<Bytes>, sh0: Bytes, done0: nat, ghost goal: seq<Bytes>)
      returns (pieces: seq<Bytes>, sh: Bytes, done: nat)
    requires done0 == |sh0| < pieceLength && OnTrack(pieces0, sh0, content + later, pieceLength, sha, goal)
    ensures done == |sh| < pieceLength && OnTrack(pieces, sh, later, pieceLength, sha, goal)
  {
    hide Pieces, Hashes, OnTrack;
    pieces, sh, done := pieces0, sh0, done0;
    var pos: nat, size := 0, |content|;
    assert content[0..] == content;
    while pos < size
      invariant pos <= size && done == |sh| < pieceLength
      invariant OnTrack(pieces, sh, content[pos..] + later, pieceLength, sha, goal)
    {
      var a := Min(size - pos, pieceLength - done);
      assert content[pos..] + later == content[pos..pos + a] + (content[pos + a..] + later);
      TrackOn(pieces, sh, content[pos..pos + a], content[pos + a..] + later, pieceLength, sha, goal);
      sh := sh + content[pos..pos + a];
      done := done + a;
      pos := pos + a;
      if done == pieceLength {
        pieces := pieces + [sha(sh)];
        done := 0;
        sh := [];
      }
    }
    assert content[size..] + later == later;
  }

  lemma Last(sh: Bytes, size: nat, sha: Bytes -> Bytes)
    requires |sh| < size
    ensures Hashes(Pieces(sh, size), sha) == if sh == [] then [] else [sha(sh)]
  {
  }

  /** The loop over a single file. */
  method HashFile(content: Bytes, pieceLength: nat, sha: Bytes -> Bytes) returns (pieces: seq<Bytes>)
    requires 0 < pieceLength
    ensures pieces == Hashes(Pieces(content, pieceLength), sha)
  {
    hide Hashes, Pieces;
    pieces := [];
    var p: nat, size := 0, |content|;
    ghost var goal := Hashes(Pieces(content, pieceLength), sha);
    assert content[0..] == content && [] + goal == goal;
    while p < size
      invariant p <= size && pieces + Hashes(Pieces(content[p..], pieceLength), sha) == goal
    {
      var x := content[p..p + Min(pieceLength, size - p)];
      NextPiece(content[p..], x, content[p + |x|..], pieceLength, sha);
      Regroup(pieces, [sha(x)], Hashes(Pieces(content[p + |x|..], pieceLength), sha));
      pieces := pieces + [sha(x)];
      p := p + pieceLength;
      if p > size {
        p := size;
      }
    }
    Last([], pieceLength, sha);
    assert content[size..] == [] && pieces + [] == pieces;
  }

  lemma NextPiece(data: Bytes, x: Bytes, rest: Bytes, size: nat, sha: Bytes -> Bytes)
    requires data == x + rest && 0 < |x| <= size && (|x| < size ==> rest == [])
    ensures Hashes(Pieces(data, size), sha) == [sha(x)] + Hashes(Pieces(rest, size), sha)
  {
    if rest == [] {
      assert data == x;
      assert [x][1..] == [];
    } else {
      PieceFull(x, rest, size, sha);
    }
  }

  /** Where a piece is in the data. */
  lemma {:induction false} PieceAt(data: Bytes, size: nat, k: nat)
    requires 0 < size && k < |Pieces(data, size)|
    ensures k * size < |data| && Pieces(data, size)[k] == data[k * size..Min(k * size + size, |data|)]
  {
    if k > 0 {
      var rest, j := data[size..], k - 1;
      PieceAt(rest, size, j);
      assert Pieces(data, size)[k] == Pieces(rest, size)[j];
      assert j * size + size == k * size;
      assert rest[j * size..Min(j * size + size, |rest|)] == data[k * size..Min(k * size + size, |data|)];
    }
  }

  /** How the same data is cut into files does not matter to the hashes: both loops find the same ones for any files
      that hold it and for one file that does, and as many as the data has pieces, rounded up. */
  method CutDoesNotMatter(files: seq<Source>, others: seq<Source>, pieceLength: nat, sha: Bytes -> Bytes)
      returns (hashes: seq<Bytes>, otherHashes: seq<Bytes>, single: seq<Bytes>)
    requires 0 < pieceLength && Contents(files) == Contents(others)
    ensures hashes == otherHashes == single
    ensures pieceLength * (|hashes| - 1) < |Contents(files)| <= pieceLength * |hashes|
  {
    hide Pieces, Hashes, Contents;
    var fs;
    hashes, fs := HashFiles(files, pieceLength, sha);
    otherHashes, fs := HashFiles(others, pieceLength, sha);
    single := HashFile(Contents(files), pieceLength, sha);
    PiecesCover(Contents(files), pieceLength);
  }
}
