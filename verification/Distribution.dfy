/** A torrent's way from the files of the publisher to the files of a downloader. */
module Distributions {
  import opened Basics
  import Blocks
  import opened Downloaders
  import opened Metafiles
  import opened Scans
  import opened Sessions
  import opened Slots
  import Storages
  import opened StorageWrappers
  import opened Stores

  /** The listed files, for the storage. */
  function EntriesOf(fs: seq<Entry>): (r: seq<Storages.Entry>)
    ensures |r| == |fs| && forall i | 0 <= i < |fs| :: r[i] == Storages.Entry(fs[i].path, fs[i].length)
  {
    seq(|fs|, i requires 0 <= i < |fs| => Storages.Entry(fs[i].path, fs[i].length))
  }

  ghost predicate DistinctPaths(sources: seq<Source>) {
    forall i, j | 0 <= i < j < |sources| :: sources[i].path != sources[j].path
  }

  /** Every file of the publisher is there, with just its content. */
  ghost predicate Holds(files: Storages.Files, sources: seq<Source>) {
    forall i | 0 <= i < |sources| :: sources[i].path in files && files[sources[i].path] == sources[i].content
  }

  /** No piece of one content has the hash of the piece of another one in the same place, without being the same. */
  ghost predicate NoClash(content: seq<byte>, flat: seq<byte>, size: nat, sha: seq<byte> -> seq<byte>)
    requires 0 < size
  {
    var p, q := Metafiles.Pieces(content, size), Metafiles.Pieces(flat, size);
    forall i: nat | i < |p| && i < |q| && sha(q[i]) == sha(p[i]) :: q[i] == p[i]
  }

  /** Publishing and downloading: hashes made from some content fit a download of that length, and once such a
      download is complete its files hold that content, unless they hold another piece with the same hash. */
  lemma Reproduced(content: seq<byte>, flat: seq<byte>, size: nat, sha: seq<byte> -> seq<byte>)
    requires 0 < size && |flat| == |content| && NoClash(content, flat, size, sha)
    requires var hashes := Hashes(Metafiles.Pieces(content, size), sha);
      Matches(flat, Geometry(|hashes|, size, |flat|), hashes, sha)
    ensures Geometry(|Metafiles.Pieces(content, size)|, size, |content|).Sound()
    ensures flat == content
  {
    hide Metafiles.Pieces, Hashes, Joined;
    var p, q := Metafiles.Pieces(content, size), Metafiles.Pieces(flat, size);
    PiecesCover(content, size);
    PiecesCover(flat, size);
    SameCount(size, |content|, |p|, |q|);
    var hashes := Hashes(p, sha);
    var g := Geometry(|hashes|, size, |flat|);
    forall i: nat | i < |p| ensures p[i] == q[i] {
      PieceAt(flat, size, i);
      g.LastLen(i);
      assert MatchesAt(flat, g, i, hashes[i], sha);
      assert flat[g.Begin(i)..g.End(i)] == q[i];
      assert sha(q[i]) == hashes[i] == sha(p[i]);
    }
    assert p == q;
  }

  lemma SameCount(size: nat, total: nat, m: nat, n: nat)
    requires 0 < size && size * (m - 1) < total <= size * m && size * (n - 1) < total <= size * n
    ensures m == n
  {
    if m < n {
      MulMonotone(m, n - 1, size);
    } else if n < m {
      MulMonotone(n, m - 1, size);
    }
  }

  // ---- The files within the content ----

  lemma {:induction false} ContentsAppend(a: seq<Source>, b: seq<Source>)
    ensures Contents(a + b) == Contents(a) + Contents(b)
  {
    if a == [] {
      assert a + b == b;
    } else {
      assert (a + b)[0] == a[0] && (a + b)[1..] == a[1..] + b;
      ContentsAppend(a[1..], b);
    }
  }

  /** The storage counts lengths as the content does. */
  lemma {:induction false} LengthIs(sources: seq<Source>, n: nat)
    requires n <= |sources|
    ensures Storages.TotalLength(EntriesOf(Listing(sources)), n) == |Contents(sources[..n])|
  {
    if n > 0 {
      LengthIs(sources, n - 1);
      assert sources[..n] == sources[..n - 1] + [sources[n - 1]];
      ContentsAppend(sources[..n - 1], [sources[n - 1]]);
      assert [sources[n - 1]][1..] == [];
    }
  }

  /** Where a file is in the content. */
  lemma SliceIs(sources: seq<Source>, i: nat)
    requires i < |sources|
    ensures var e := EntriesOf(Listing(sources));
      && 0 <= Storages.TotalLength(e, i) <= Storages.TotalLength(e, i + 1) <= |Contents(sources)|
      && Contents(sources)[Storages.TotalLength(e, i)..Storages.TotalLength(e, i + 1)] == sources[i].content
  {
    LengthIs(sources, i);
    LengthIs(sources, i + 1);
    assert sources[..i + 1] == sources[..i] + [sources[i]];
    assert sources == sources[..i + 1] + sources[i + 1..];
    ContentsAppend(sources[..i], [sources[i]]);
    ContentsAppend(sources[..i + 1], sources[i + 1..]);
    assert [sources[i]][1..] == [];
  }

  /** Files that hold the content, cut at their lengths, are the files of the publisher, and the other way round. */
  lemma HoldsIs(files: Storages.Files, sources: seq<Source>)
    ensures Holds(files, sources) <==> Storages.FilesHold(EntriesOf(Listing(sources)), Contents(sources), files)
  {
    var e := EntriesOf(Listing(sources));
    LengthIs(sources, |sources|);
    assert sources[..|sources|] == sources;
    forall i | 0 <= i < |sources|
      ensures Storages.FileHolds(e, Contents(sources), files, i)
          <==> sources[i].path in files && files[sources[i].path] == sources[i].content
    {
      SliceIs(sources, i);
    }
  }

  lemma PathsDistinct(sources: seq<Source>)
    requires DistinctPaths(sources)
    ensures Storages.Distinct(EntriesOf(Listing(sources)))
  {
  }

  // ---- Publishing and downloading ----

  /** A complete download has the content of the publisher. */
  lemma EndsWith(sources: seq<Source>, pieceLength: nat, sha: Bytes -> Bytes, disk: Storages.Files, requestSize: nat,
                 w: StorageWrapper)
    requires DistinctPaths(sources) && 0 < pieceLength && w.storage.Valid()
    requires DownloadOf(w, EntriesOf(Listing(sources)), disk, requestSize,
                        Hashes(Metafiles.Pieces(Contents(sources), pieceLength), sha), pieceLength, sha)
    requires Assembled(w, w.hashes, sha)
    requires Storages.FilesHold(EntriesOf(Listing(sources)), w.storage.Flat(), w.storage.files)
    requires NoClash(Contents(sources), w.storage.Flat(), pieceLength, sha)
    ensures Holds(w.storage.files, sources)
  {
    hide Metafiles.Pieces, Hashes, NoClash, Matches, Storages.FilesHold, Storages.Storage.Valid, Storages.Storage.Flat;
    LengthIs(sources, |sources|);
    assert sources[..|sources|] == sources;
    Reproduced(Contents(sources), w.storage.Flat(), pieceLength, sha);
    HoldsIs(w.storage.files, sources);
  }

  /** A disk that holds the files is recognized: every piece is there from the start. */
  lemma BeginsWith(sources: seq<Source>, pieceLength: nat, sha: Bytes -> Bytes, disk: Storages.Files, requestSize: nat,
                   w: StorageWrapper, s: Snapshot)
    requires DistinctPaths(sources) && 0 < pieceLength && Holds(disk, sources)
    requires DownloadOf(w, EntriesOf(Listing(sources)), disk, requestSize,
                        Hashes(Metafiles.Pieces(Contents(sources), pieceLength), sha), pieceLength, sha)
    requires AtFirst(s, w, sha)
    ensures s.store.amountLeft == 0
  {
    hide Metafiles.Pieces, Hashes, Inv, HomeGood, Storages.FilesHold;
    var content, e := Contents(sources), EntriesOf(Listing(sources));
    PathsDistinct(sources);
    OpenedHolds(sources, disk, w.storage.asOpened);
    HoldsIs(w.storage.asOpened, sources);
    Storages.ViewIs(e, content, w.storage.asOpened);
    forall v: nat | v < w.g.n ensures s.store.have[v] {
      w.g.Slot(v);
      Storages.AllNoted(e, disk, w.storage.tops, w.g.Begin(v), w.g.Begin(v) + w.g.PieceLen(v));
      assert w.Pre()[v];
      HomeIsGood(content, pieceLength, sha, s.store, v);
      assert SlotSearched(s.store, sha, w.Pre(), v);
    }
    AllHave(s.store, sha);
  }

  lemma OpenedHolds(sources: seq<Source>, disk: Storages.Files, files: Storages.Files)
    requires Holds(disk, sources) && Storages.Opened(EntriesOf(Listing(sources)), disk, files)
    ensures Holds(files, sources)
  {
    var e := EntriesOf(Listing(sources));
    forall i | 0 <= i < |sources|
      ensures sources[i].path in files && files[sources[i].path] == sources[i].content
    {
      Storages.OpenedOne(e, disk, files, i);
    }
  }

  lemma HomeIsGood(content: Bytes, size: nat, sha: Bytes -> Bytes, s: Store, v: nat)
    requires 0 < size && Shape(s) && v < s.g.n && s.flat == content
    requires s.hashes == Hashes(Metafiles.Pieces(content, size), sha) && s.g == Geometry(|s.hashes|, size, |content|)
    ensures HomeGood(s, sha, v)
  {
    hide Metafiles.Pieces;
    PieceAt(content, size, v);
    s.g.LastLen(v);
  }

  lemma AllHave(s: Store, sha: Bytes -> Bytes)
    requires Inv(s, sha) && forall v: nat | v < s.g.n :: s.have[v]
    ensures s.amountLeft == 0
  {
    Blocks.NothingMissing(s.g, s.have, s.g.n);
  }

  /** A publisher hashes its files, and somebody downloads them to a disk that holds anything, in any run. The download
      is never refused, and files that are not of the torrent are as they were. Once nothing is left, every file is just
      as the publisher has it, unless some piece has the hash of another one in the same place. And a disk that already
      holds the files has nothing left to download. */
  method Distribute(sources: seq<Source>, pieceLength: nat, sha: Bytes -> Bytes, disk: Storages.Files,
                    requestSize: nat, cutoff: nat, backlog: nat, events: seq<PeerEvent>)
      returns (r: Opening, d: Option<Downloader>, ghost trace: seq<Snapshot>)
    requires DistinctPaths(sources) && 0 < requestSize && 0 < pieceLength
    ensures r.Ready? && d.Some? && d.value.Valid() && d.value.storage == r.wrapper && r.wrapper.storage.Valid()
    ensures |trace| == |events| + 1 && trace[|events|] == Snap(d.value)
    ensures Traced(trace, events, d.value.numpieces, backlog, sha)
    ensures Storages.Untouched(EntriesOf(Listing(sources)), disk, r.wrapper.storage.files)
    ensures r.wrapper.amountLeft == 0 && NoClash(Contents(sources), r.wrapper.storage.Flat(), pieceLength, sha) ==>
      r.wrapper.finishedCalls == 1 && Holds(r.wrapper.storage.files, sources)
    ensures Holds(disk, sources) ==> trace[0].store.amountLeft == 0
  {
    hide Metafiles.Pieces, Hashes, Contents, NoClash, Holds, Downloader.Valid, StorageWrapper.Valid,
      Storages.Storage.Valid, Snap, Storages.TotalLength, Storages.FilesHold, Storages.Untouched, Storages.Distinct,
      Assembled, Sessions.Event, AtFirst, AllOrderly, Storages.Opened, Storages.Noted, Storages.RangesOf;
    var hashes, fs := HashFiles(sources, pieceLength, sha);
    var entries := EntriesOf(fs);
    PathsDistinct(sources);
    LengthIs(sources, |sources|);
    assert sources[..|sources|] == sources;
    PiecesCover(Contents(sources), pieceLength);
    r, d, trace := Download(entries, disk, requestSize, hashes, pieceLength, sha, cutoff, backlog, events);
    var w := r.wrapper;
    if w.amountLeft == 0 && NoClash(Contents(sources), w.storage.Flat(), pieceLength, sha) {
      EndsWith(sources, pieceLength, sha, disk, requestSize, w);
    }
    if Holds(disk, sources) {
      BeginsWith(sources, pieceLength, sha, disk, requestSize, w, trace[0]);
    }
  }
}
