/** The torrent's files seen as one flat byte array.
    The file system is a map from names to contents, as in the repository's own FakeOpen. */
module Storages {
  import opened Basics

  /** Bytes [begin, end) of the flat array live in `file`. */
  datatype Range = Range(begin: nat, end: nat, file: string)

  /** Bytes [begin, end) of one file. */
  datatype Interval = Interval(file: string, begin: nat, end: nat)

  type Files = map<string, seq<byte>>

  // ---- Contents of one file ----

  function Content(files: Files, file: string): seq<byte> {
    if file in files then files[file] else []
  }

  /** Byte `k` of a file that is zero-padded without end. */
  function ByteOf(content: seq<byte>, k: nat): byte {
    if k < |content| then content[k] else 0
  }

  /** seek(pos) followed by read(amount). */
  function ReadAt(content: seq<byte>, pos: nat, amount: nat): seq<byte> {
    if pos >= |content| then []
    else if pos + amount <= |content| then content[pos..pos + amount]
    else content[pos..]
  }

  function Zeros(n: nat): (r: seq<byte>)
    ensures |r| == n && forall k | 0 <= k < n :: r[k] == 0
  {
    seq(n, _ => 0)
  }

  /** seek(pos) followed by write(s): a gap is filled with zeros first. */
  function WriteAt(content: seq<byte>, pos: nat, s: seq<byte>): (r: seq<byte>)
    ensures |r| == if pos + |s| <= |content| then |content| else pos + |s|
    ensures forall k | 0 <= k < |r| ::
      r[k] == if pos <= k < pos + |s| then s[k - pos] else if k < |content| then content[k] else 0
  {
    var c := if |content| < pos then content + Zeros(pos - |content|) else content;
    if pos + |s| <= |c| then Splice(c, pos, s) else c[..pos] + s
  }

  // ---- The flat view ----

  /** The ranges partition [0, total), in order, and no file occurs twice. */
  ghost predicate Chained(ranges: seq<Range>, total: nat) {
    && (forall i | 0 <= i < |ranges| :: ranges[i].begin < ranges[i].end <= total)
    && (forall i, j | 0 <= i && j == i + 1 < |ranges| :: ranges[i].end == ranges[j].begin)
    && (forall i, j | 0 <= i < j < |ranges| :: ranges[i].end <= ranges[j].begin && ranges[i].file != ranges[j].file)
    && (|ranges| == 0 ==> total == 0)
    && (|ranges| > 0 ==> ranges[0].begin == 0 && ranges[|ranges| - 1].end == total)
  }

  /** Byte `k` of the concatenation of the first `n` files, each padded to its declared length. */
  ghost function ByteAt(ranges: seq<Range>, n: nat, files: Files, k: nat): byte
    requires n <= |ranges|
  {
    if n == 0 then 0
    else if ranges[n - 1].begin <= k then ByteOf(Content(files, ranges[n - 1].file), k - ranges[n - 1].begin)
    else ByteAt(ranges, n - 1, files, k)
  }

  ghost function View(ranges: seq<Range>, total: nat, files: Files): (v: seq<byte>)
    ensures |v| == total
  {
    seq(total, k requires 0 <= k => ByteAt(ranges, |ranges|, files, k))
  }

  function Size(sizes: map<string, nat>, file: string): nat {
    if file in sizes then sizes[file] else 0
  }

  function Sizes(files: Files): map<string, nat> {
    map f | f in files :: |files[f]|
  }

  /** A request for [pos, stop) touches `r`. A request of no bytes at the very end touches the last range. */
  predicate Touches(r: Range, total: nat, pos: nat, stop: nat) {
    r.begin < stop && (pos < r.end || r.end == total)
  }

  /** Every file that [pos, stop) touches reaches as far as the request needs it to. */
  ghost predicate AllPresent(ranges: seq<Range>, total: nat, sizes: map<string, nat>, pos: nat, stop: nat) {
    forall i | 0 <= i < |ranges| && Touches(ranges[i], total, pos, stop) :: Reaches(ranges[i], sizes, stop)
  }

  ghost predicate Reaches(r: Range, sizes: map<string, nat>, stop: nat) {
    r.begin + Size(sizes, r.file) >= Min(r.end, stop)
  }

  /** The part of range `r` that lies inside [pos, stop), in the file's own positions. */
  function Clip(r: Range, pos: nat, stop: nat): Interval
    requires r.begin <= stop && r.begin <= r.end
  {
    Interval(r.file, Max(pos, r.begin) - r.begin, Min(r.end, stop) - r.begin)
  }

  // ---- Lemmas about the view ----

  /** A byte inside range `i` is the byte of that range's file. */
  lemma {:induction false} ByteInRange(ranges: seq<Range>, n: nat, total: nat, files: Files, i: nat, k: nat)
    requires Chained(ranges, total) && i < n <= |ranges| && ranges[i].begin <= k < ranges[i].end
    ensures ByteAt(ranges, n, files, k) == ByteOf(Content(files, ranges[i].file), k - ranges[i].begin)
  {
    if i < n - 1 {
      ByteInRange(ranges, n - 1, total, files, i, k);
    }
  }

  lemma {:induction false} RangeOf(ranges: seq<Range>, n: nat, total: nat, k: nat) returns (i: nat)
    requires Chained(ranges, total) && 0 < n <= |ranges| && k < ranges[n - 1].end
    ensures i < n && ranges[i].begin <= k < ranges[i].end
  {
    if ranges[n - 1].begin <= k {
      i := n - 1;
    } else {
      i := RangeOf(ranges, n - 1, total, k);
    }
  }

  /** A stretch of one file is the corresponding stretch of the flat view. */
  lemma StretchOfView(ranges: seq<Range>, total: nat, files: Files, i: nat, b: nat, e: nat)
    requires Chained(ranges, total) && i < |ranges|
    requires b <= e <= |Content(files, ranges[i].file)| && ranges[i].begin + e <= ranges[i].end
    ensures View(ranges, total, files)[ranges[i].begin + b..ranges[i].begin + e] == Content(files, ranges[i].file)[b..e]
  {
    var v := View(ranges, total, files);
    forall o | b <= o < e ensures v[ranges[i].begin + o] == Content(files, ranges[i].file)[o] {
      ByteInRange(ranges, |ranges|, total, files, i, ranges[i].begin + o);
    }
  }

  /** After a write inside one range, byte `k` of the view is that of the data inside it, and what it was elsewhere. */
  lemma SplicedByte(ranges: seq<Range>, total: nat, files: Files, i: nat, b: nat, chunk: seq<byte>, k: nat)
    requires Chained(ranges, total) && i < |ranges| && ranges[i].begin + b + |chunk| <= ranges[i].end && k < total
    ensures ByteAt(ranges, |ranges|, files[ranges[i].file := WriteAt(Content(files, ranges[i].file), b, chunk)], k)
         == if ranges[i].begin + b <= k < ranges[i].begin + b + |chunk| then chunk[k - ranges[i].begin - b]
            else ByteAt(ranges, |ranges|, files, k)
  {
    hide Chained, ByteAt, View, Splice;
    RangesApart(ranges, total, i, i);
    var f := ranges[i].file;
    var j := RangeOf(ranges, |ranges|, total, k);
    ByteInRange(ranges, |ranges|, total, files, j, k);
    ByteInRange(ranges, |ranges|, total, files[f := WriteAt(Content(files, f), b, chunk)], j, k);
    RangesApart(ranges, total, i, j);
  }

  /** Writing inside one range splices the flat view and nothing else. */
  lemma WriteSplices(ranges: seq<Range>, total: nat, files: Files, i: nat, b: nat, chunk: seq<byte>)
    requires Chained(ranges, total) && i < |ranges| && ranges[i].begin + b + |chunk| <= ranges[i].end
    ensures View(ranges, total, files[ranges[i].file := WriteAt(Content(files, ranges[i].file), b, chunk)])
         == Splice(View(ranges, total, files), ranges[i].begin + b, chunk)
  {
    hide Chained, ByteAt, WriteAt, Content;
    RangesApart(ranges, total, i, i);
    var f := ranges[i].file;
    var v := View(ranges, total, files);
    var v' := View(ranges, total, files[f := WriteAt(Content(files, f), b, chunk)]);
    forall k | 0 <= k < total ensures v'[k] == Splice(v, ranges[i].begin + b, chunk)[k] {
      SplicedByte(ranges, total, files, i, b, chunk, k);
    }
  }

  lemma RangesApart(ranges: seq<Range>, total: nat, i: nat, j: nat)
    requires Chained(ranges, total) && i < |ranges| && j < |ranges|
    ensures i != j ==> ranges[i].file != ranges[j].file
    ensures i < j ==> ranges[i].end <= ranges[j].begin
    ensures j < i ==> ranges[j].end <= ranges[i].begin
    ensures ranges[i].begin < ranges[i].end <= total == ranges[|ranges| - 1].end
  {
  }

  /** `r` is the tiling of [pos, stop) by the clipped ranges from `first` on. */
  ghost predicate Tiling(ranges: seq<Range>, pos: nat, stop: nat, r: seq<Interval>, first: nat) {
    && first + |r| <= |ranges|
    && (r == [] ==> pos == stop)
    && forall i | first <= i < first + |r| ::
         && ranges[i].begin <= stop && ranges[i].begin <= ranges[i].end
         && r[i - first] == Clip(ranges[i], pos, stop)
         && ranges[i].begin + r[i - first].begin == (if i == first then pos else ranges[i].begin)
         && ranges[i].begin + r[i - first].end == (if i == first + |r| - 1 then stop else ranges[i].end)
         && r[i - first].begin <= r[i - first].end
  }

  /** The flat position reached after `k` of the `n` intervals of a tiling. */
  ghost function TiledUpTo(ranges: seq<Range>, first: nat, k: nat, n: nat, pos: nat, stop: nat): nat
    requires first + n <= |ranges| && k <= n
  {
    if k == n then stop else if k == 0 then pos else ranges[first + k].begin
  }

  /** A file of the torrent and its declared length. */
  datatype Entry = Entry(file: string, length: nat)

  ghost predicate Distinct(entries: seq<Entry>) {
    forall i, j | 0 <= i < j < |entries| :: entries[i].file != entries[j].file
  }

  /** Total declared length of the first `n` files. */
  ghost function TotalLength(entries: seq<Entry>, n: nat): nat
    requires n <= |entries|
  {
    if n == 0 then 0 else TotalLength(entries, n - 1) + entries[n - 1].length
  }

  /** The ranges of the first `n` files: empty files get none. */
  ghost function RangesOf(entries: seq<Entry>, n: nat): seq<Range>
    requires n <= |entries|
  {
    if n == 0 then []
    else if entries[n - 1].length == 0 then RangesOf(entries, n - 1)
    else RangesOf(entries, n - 1) + [Range(TotalLength(entries, n - 1), TotalLength(entries, n), entries[n - 1].file)]
  }

  ghost predicate FromEntry(r: Range, entries: seq<Entry>, n: nat)
    requires n <= |entries|
  {
    r.begin <= r.end && exists j :: 0 <= j < n && entries[j] == Entry(r.file, r.end - r.begin)
  }

  lemma {:induction false} RangesOfChained(entries: seq<Entry>, n: nat)
    requires n <= |entries| && Distinct(entries)
    ensures Chained(RangesOf(entries, n), TotalLength(entries, n))
    ensures forall i | 0 <= i < |RangesOf(entries, n)| :: FromEntry(RangesOf(entries, n)[i], entries, n)
  {
    hide Chained, FromEntry;
    if n == 0 {
      ChainedNone();
    } else {
      RangesOfChained(entries, n - 1);
      var rs, last, t := RangesOf(entries, n - 1), entries[n - 1], TotalLength(entries, n - 1);
      forall i | 0 <= i < |rs| ensures FromEntry(rs[i], entries, n) && rs[i].file != last.file {
        FromEntryMore(rs[i], entries, n);
      }
      if last.length != 0 {
        var r := Range(t, t + last.length, last.file);
        ChainedAppend(rs, t, r);
        FromLast(r, entries, n);
      }
    }
  }

  lemma ChainedNone()
    ensures Chained([], 0)
  {
  }

  lemma ChainedAppend(rs: seq<Range>, total: nat, r: Range)
    requires Chained(rs, total) && r.begin == total < r.end && forall i | 0 <= i < |rs| :: rs[i].file != r.file
    ensures Chained(rs + [r], r.end)
  {
    var rs' := rs + [r];
    forall i, j | 0 <= i < j < |rs'| ensures rs'[i].end <= rs'[j].begin && rs'[i].file != rs'[j].file {
      assert rs'[i] == rs[i];
      if j < |rs| { assert rs'[j] == rs[j]; }
    }
    forall i, j | 0 <= i && j == i + 1 < |rs'| ensures rs'[i].end == rs'[j].begin {
      assert rs'[i] == rs[i];
      if j < |rs| { assert rs'[j] == rs[j]; }
    }
  }

  lemma FromEntryMore(r: Range, entries: seq<Entry>, n: nat)
    requires 0 < n <= |entries| && Distinct(entries) && FromEntry(r, entries, n - 1)
    ensures FromEntry(r, entries, n) && r.file != entries[n - 1].file
  {
  }

  lemma FromLast(r: Range, entries: seq<Entry>, n: nat)
    requires 0 < n <= |entries| && r.begin <= r.end && entries[n - 1] == Entry(r.file, r.end - r.begin)
    ensures FromEntry(r, entries, n)
  {
  }

  /** What opening does to one file: over-long files are cut, missing ones are created empty. */
  ghost predicate OpenedAs(e: Entry, disk: Files, files: Files) {
    e.file in files && files[e.file] == ReadAt(Content(disk, e.file), 0, e.length)
  }

  ghost predicate Listed(entries: seq<Entry>, f: string) {
    exists i :: 0 <= i < |entries| && entries[i].file == f
  }

  /** Every listed file was opened so, and the others are as they were on disk. */
  ghost predicate Opened(entries: seq<Entry>, disk: Files, files: Files) {
    && (forall i | 0 <= i < |entries| :: OpenedAs(entries[i], disk, files))
    && (forall f | !Listed(entries, f) :: f in files <==> f in disk)
    && (forall f | f in disk && !Listed(entries, f) :: files[f] == disk[f])
  }

  /** No file was shortened, none grew beyond its range, and files outside the ranges are as they were. */
  ghost predicate OnlyGrown(ranges: seq<Range>, before: Files, after: Files) {
    && after.Keys == before.Keys
    && (forall f | f in before :: |after[f]| >= |before[f]|)
    && (forall i | 0 <= i < |ranges| && ranges[i].file in before ::
          |after[ranges[i].file]| <= Max(|before[ranges[i].file]|, ranges[i].end - ranges[i].begin))
    && (forall f | f in before && (forall i | 0 <= i < |ranges| :: ranges[i].file != f) :: after[f] == before[f])
  }

  lemma GrownTwice(ranges: seq<Range>, a: Files, b: Files, c: Files)
    requires OnlyGrown(ranges, a, b) && OnlyGrown(ranges, b, c)
    ensures OnlyGrown(ranges, a, c)
  {
  }

  lemma GrownPresent(ranges: seq<Range>, total: nat, before: Files, after: Files, a: nat, b: nat)
    requires OnlyGrown(ranges, before, after) && AllPresent(ranges, total, Sizes(before), a, b)
    ensures AllPresent(ranges, total, Sizes(after), a, b)
  {
  }

  /** What the interval loop collects is a tiling, and leaves out no touched range. */
  lemma ClippedRangesTile(ranges: seq<Range>, total: nat, pos: nat, stop: nat, r: seq<Interval>, first: nat)
    requires Chained(ranges, total) && pos <= stop <= total
    requires first < |ranges| && first + |r| <= |ranges|
    requires ranges[first].begin <= pos && (first < |ranges| - 1 ==> pos < ranges[first].end)
    requires forall i | first <= i < first + |r| :: ranges[i].begin < stop && r[i - first] == Clip(ranges[i], pos, stop)
    requires first + |r| < |ranges| ==> stop <= ranges[first + |r|].begin
    ensures Tiling(ranges, pos, stop, r, first)
    ensures forall i | 0 <= i < |ranges| :: Touches(ranges[i], total, pos, stop) <==> first <= i < first + |r|
  {
    var p := first + |r|;
    forall i | 0 <= i < |ranges|
      ensures Touches(ranges[i], total, pos, stop) <==> first <= i < p
    {
      if i < first { assert ranges[i].end <= ranges[first].begin < ranges[first].end; }
      if first < i { assert ranges[first].end <= ranges[i].begin; }
      if p < i { assert ranges[p].end <= ranges[i].begin; }
    }
    forall i | first <= i < p
      ensures ranges[i].begin + r[i - first].begin == if i == first then pos else ranges[i].begin
      ensures ranges[i].begin + r[i - first].end == if i == p - 1 then stop else ranges[i].end
    {
      if first < i { assert ranges[first].end <= ranges[i].begin; }
      if i < p - 1 { assert ranges[i].end <= ranges[p - 1].begin; }
      else if p < |ranges| { assert ranges[p].begin == ranges[i].end; }
    }
  }

  /** State of a write of `s` at `pos` after `k` of the intervals `ivs`, `d` bytes in. */
  ghost predicate Written(ranges: seq<Range>, total: nat, before: Files, files: Files, pos: nat, s: seq<byte>,
                          first: nat, k: nat, n: nat, d: nat)
  {
    && first + n <= |ranges| && k <= n && d <= |s| && pos + |s| <= total
    && pos + d == TiledUpTo(ranges, first, k, n, pos, pos + |s|)
    && View(ranges, total, files) == Splice(View(ranges, total, before), pos, s[..d])
    && files.Keys == before.Keys
    && Grown(ranges, before, files, first, first + k, pos + |s|)
  }

  /** Files were only grown, and those of ranges [lo, hi) reach up to flat position `stop`. */
  ghost predicate Grown(ranges: seq<Range>, before: Files, files: Files, lo: nat, hi: nat, stop: nat)
    requires hi <= |ranges|
  {
    && OnlyGrown(ranges, before, files)
    && forall i | lo <= i < hi :: Reaches(ranges[i], Sizes(files), stop)
  }

  /** Where interval `k` of a tiling lies, given that the tiling has reached flat position `at`. */
  lemma TilingStep(ranges: seq<Range>, total: nat, pos: nat, stop: nat, ivs: seq<Interval>, first: nat, k: nat, at: nat)
    requires Chained(ranges, total) && Tiling(ranges, pos, stop, ivs, first) && k < |ivs| && pos <= stop
    requires at == TiledUpTo(ranges, first, k, |ivs|, pos, stop)
    ensures var iv, r := ivs[k], ranges[first + k];
      && iv.file == r.file && iv.begin <= iv.end
      && r.begin + iv.begin == at
      && r.begin + iv.end == Min(r.end, stop) == TiledUpTo(ranges, first, k + 1, |ivs|, pos, stop)
  {
    assert ivs[first + k - first] == Clip(ranges[first + k], pos, stop);
    if k + 1 < |ivs| { assert ranges[first + k + 1].begin == ranges[first + k].end; }
  }

  lemma ReadOneInterval(ranges: seq<Range>, begins: seq<nat>, total: nat, tops: map<string, nat>, files: Files,
                        pos: nat, stop: nat, ivs: seq<Interval>, first: nat, k: nat, at: nat)
    requires Consistent(ranges, begins, total, tops, files) && pos <= at <= stop <= total
    requires Tiling(ranges, pos, stop, ivs, first) && k < |ivs| && Touches(ranges[first + k], total, pos, stop)
    requires at == TiledUpTo(ranges, first, k, |ivs|, pos, stop)
    ensures ivs[k].begin <= ivs[k].end && ivs[k].file in files
    ensures at <= ranges[first + k].begin + ivs[k].end == TiledUpTo(ranges, first, k + 1, |ivs|, pos, stop) <= stop
    ensures AllPresent(ranges, total, Sizes(files), pos, stop) ==>
      View(ranges, total, files)[pos..at] + ReadAt(files[ivs[k].file], ivs[k].begin, ivs[k].end - ivs[k].begin)
        == View(ranges, total, files)[pos..ranges[first + k].begin + ivs[k].end]
  {
    hide View;
    TilingStep(ranges, total, pos, stop, ivs, first, k, at);
    hide Tiling, TiledUpTo;
    var iv, r := ivs[k], ranges[first + k];
    assert Chained(ranges, total) && r.file in files;
    hide Consistent, Chained;
    if AllPresent(ranges, total, Sizes(files), pos, stop) {
      assert Reaches(r, Sizes(files), stop);
      StretchOfView(ranges, total, files, first + k, iv.begin, iv.end);
      var v := View(ranges, total, files);
      assert v[pos..at] + v[at..r.begin + iv.end] == v[pos..r.begin + iv.end];
    }
  }

  lemma WriteOneInterval(ranges: seq<Range>, begins: seq<nat>, total: nat, tops: map<string, nat>, before: Files,
                         files: Files, pos: nat, s: seq<byte>, first: nat, k: nat, ivs: seq<Interval>, d: nat)
    requires Consistent(ranges, begins, total, tops, before)
    requires Tiling(ranges, pos, pos + |s|, ivs, first) && k < |ivs| && first + |ivs| <= |ranges|
    requires Written(ranges, total, before, files, pos, s, first, k, |ivs|, d)
    ensures ivs[k].begin <= ivs[k].end && d + ivs[k].end - ivs[k].begin <= |s| && ivs[k].file in files
    ensures Written(ranges, total, before,
                    files[ivs[k].file :=
                        WriteAt(files[ivs[k].file], ivs[k].begin, s[d..d + ivs[k].end - ivs[k].begin])],
                    pos, s, first, k + 1, |ivs|, d + ivs[k].end - ivs[k].begin)
  {
    hide View, Splice, Chained, Clip, Touches, Grown;
    var iv, r := ivs[k], ranges[first + k];
    assert Chained(ranges, total) && forall i | 0 <= i < |ranges| :: ranges[i].file in before;
    TilingStep(ranges, total, pos, pos + |s|, ivs, first, k, pos + d);
    hide Tiling, WriteAt, Consistent;
    var e := d + iv.end - iv.begin;
    assert e <= |s|;
    assert r.file in files by { assert r.file in before; }
    var files' := files[iv.file := WriteAt(files[iv.file], iv.begin, s[d..e])];
    SpliceInterval(ranges, total, before, files, first + k, iv.begin, pos, s, d, e);
    forall i | 0 <= i < |ranges| && i != first + k ensures ranges[i].file != r.file {
      RangesApart(ranges, total, i, first + k);
    }
    GrownOneMore(ranges, before, files, files', first, first + k, pos + |s|);
  }

  lemma SpliceInterval(ranges: seq<Range>, total: nat, before: Files, files: Files, i: nat, b: nat,
                       pos: nat, s: seq<byte>, d: nat, e: nat)
    requires Chained(ranges, total) && i < |ranges| && ranges[i].file in files
    requires d <= e <= |s| && pos + |s| <= total && ranges[i].begin + b == pos + d && pos + e <= ranges[i].end
    requires View(ranges, total, files) == Splice(View(ranges, total, before), pos, s[..d])
    ensures View(ranges, total, files[ranges[i].file := WriteAt(files[ranges[i].file], b, s[d..e])])
         == Splice(View(ranges, total, before), pos, s[..e])
  {
    WriteSplices(ranges, total, files, i, b, s[d..e]);
    SpliceMore(View(ranges, total, before), pos, s, d, e);
  }

  lemma GrownOneMore(ranges: seq<Range>, before: Files, files: Files, files': Files, lo: nat, hi: nat, stop: nat)
    requires hi < |ranges| && Grown(ranges, before, files, lo, hi, stop)
    requires forall i | 0 <= i < |ranges| :: ranges[i].file in before
    requires files'.Keys == files.Keys && |files'[ranges[hi].file]| >= |files[ranges[hi].file]|
    requires |files'[ranges[hi].file]| <= Max(|files[ranges[hi].file]|, ranges[hi].end - ranges[hi].begin)
    requires forall i | 0 <= i < |ranges| && i != hi :: ranges[i].file != ranges[hi].file
    requires forall f | f in files && f != ranges[hi].file :: files'[f] == files[f]
    requires Reaches(ranges[hi], Sizes(files'), stop)
    ensures Grown(ranges, before, files', lo, hi + 1, stop)
  {
    forall i | lo <= i < hi ensures Reaches(ranges[i], Sizes(files'), stop) {
      assert Reaches(ranges[i], Sizes(files), stop) && ranges[i].file in files;
    }
  }

  lemma WriteStart(ranges: seq<Range>, total: nat, files: Files, pos: nat, s: seq<byte>, ivs: seq<Interval>, first: nat)
    requires pos + |s| <= total && Tiling(ranges, pos, pos + |s|, ivs, first)
    ensures Written(ranges, total, files, files, pos, s, first, 0, |ivs|, 0)
  {
  }

  lemma WriteEnd(ranges: seq<Range>, begins: seq<nat>, total: nat, tops: map<string, nat>, before: Files, files: Files,
                 pos: nat, s: seq<byte>, ivs: seq<Interval>, first: nat, d: nat)
    requires Consistent(ranges, begins, total, tops, before)
    requires Written(ranges, total, before, files, pos, s, first, |ivs|, |ivs|, d)
    requires forall i | 0 <= i < |ranges| :: Touches(ranges[i], total, pos, pos + |s|) <==> first <= i < first + |ivs|
    ensures Consistent(ranges, begins, total, tops, files) && OnlyGrown(ranges, before, files)
    ensures View(ranges, total, files) == Splice(View(ranges, total, before), pos, s)
    ensures AllPresent(ranges, total, Sizes(files), pos, pos + |s|)
    ensures forall a: nat, b: nat | AllPresent(ranges, total, Sizes(before), a, b) ::
      AllPresent(ranges, total, Sizes(files), a, b)
  {
    hide View, Splice, Chained;
    assert s[..|s|] == s;
    forall a: nat, b: nat | AllPresent(ranges, total, Sizes(before), a, b)
      ensures AllPresent(ranges, total, Sizes(files), a, b)
    {
      GrownPresent(ranges, total, before, files, a, b);
    }
  }

  lemma SpliceMore(before: seq<byte>, pos: nat, s: seq<byte>, d: nat, e: nat)
    requires d <= e <= |s| && pos + |s| <= |before|
    ensures Splice(Splice(before, pos, s[..d]), pos + d, s[d..e]) == Splice(before, pos, s[..e])
  {
  }

  // ---- Opening ----

  /** First pass over the files: lays out the ranges, and creates missing empty files. */
  method LayOut(entries: seq<Entry>, disk: Files)
      returns (ranges: seq<Range>, begins: seq<nat>, total: nat, files: Files)
    requires Distinct(entries)
    ensures ranges == RangesOf(entries, |entries|) && total == TotalLength(entries, |entries|)
    ensures |begins| == |ranges| && forall i | 0 <= i < |ranges| :: begins[i] == ranges[i].begin
    ensures forall f | f in disk :: f in files && files[f] == disk[f]
    ensures forall f | f in files && f !in disk :: Listed(entries, f) && files[f] == []
    ensures forall i | 0 <= i < |entries| && entries[i].length == 0 :: entries[i].file in files
  {
    ranges, begins, total, files := [], [], 0, disk;
    for n := 0 to |entries|
      invariant ranges == RangesOf(entries, n) && total == TotalLength(entries, n)
      invariant |begins| == |ranges| && forall i | 0 <= i < |ranges| :: begins[i] == ranges[i].begin
      invariant forall f | f in disk :: f in files && files[f] == disk[f]
      invariant forall f | f in files && f !in disk :: Listed(entries, f) && files[f] == []
      invariant forall i | 0 <= i < n && entries[i].length == 0 :: entries[i].file in files
    {
      var e := entries[n];
      if e.length != 0 {
        ranges := ranges + [Range(total, total + e.length, e.file)];
        begins := begins + [total];
        total := total + e.length;
      } else if e.file !in files {
        files := files[e.file := []];
      }
    }
  }

  /** Second pass: notes the old sizes, cuts over-long files and creates missing ones. */
  method OpenFiles(entries: seq<Entry>, ghost disk: Files, before: Files)
      returns (tops: map<string, nat>, files: Files)
    requires Distinct(entries)
    requires forall f | f in disk :: f in before && before[f] == disk[f]
    requires forall f | f in before && f !in disk :: Listed(entries, f) && before[f] == []
    ensures Opened(entries, disk, files) && Noted(entries, disk, tops, |entries|)
    ensures forall f | f in tops :: tops[f] <= |Content(disk, f)|
  {
    hide OpenedUpTo, Distinct, Noted;
    tops, files := map[], before;
    NoneOpened(entries, disk, files);
    for n := 0 to |entries|
      invariant OpenedUpTo(entries, disk, files, n) && Noted(entries, disk, tops, n)
      invariant forall f | f in tops :: tops[f] <= |Content(disk, f)|
    {
      var e := entries[n];
      OpenOne(entries, disk, files, n);
      NoteOne(entries, disk, tops, n);
      if e.file in files {
        var l := |files[e.file]|;
        assert ReadAt(files[e.file], 0, e.length) == if l > e.length then files[e.file][..e.length] else files[e.file];
        assert files == files[e.file := files[e.file]];
        if l > e.length {
          files := files[e.file := files[e.file][..e.length]];
        }
        tops := tops[e.file := l];
      } else {
        files := files[e.file := []];
      }
    }
    AllOpened(entries, disk, files);
  }

  /** The first `n` listed files were opened; the others are as they were. */
  ghost predicate OpenedUpTo(entries: seq<Entry>, disk: Files, files: Files, n: nat)
    requires n <= |entries|
  {
    && (forall i | 0 <= i < n :: OpenedAs(entries[i], disk, files))
    && (forall i | n <= i < |entries| :: Content(files, entries[i].file) == Content(disk, entries[i].file))
    && (forall f | !Listed(entries, f) :: f in files <==> f in disk)
    && (forall f | f in disk && !Listed(entries, f) :: files[f] == disk[f])
  }

  /** Of the first `n` listed files the sizes they had on disk are noted. */
  ghost predicate Noted(entries: seq<Entry>, disk: Files, tops: map<string, nat>, n: nat)
    requires n <= |entries|
  {
    && (forall i | 0 <= i < n :: Size(tops, entries[i].file) == |Content(disk, entries[i].file)|)
    && (forall i | n <= i < |entries| :: entries[i].file !in tops)
  }

  lemma NoteOne(entries: seq<Entry>, disk: Files, tops: map<string, nat>, n: nat)
    requires n < |entries| && Distinct(entries) && Noted(entries, disk, tops, n)
    ensures Noted(entries, disk, tops[entries[n].file := |Content(disk, entries[n].file)|], n + 1)
    ensures Content(disk, entries[n].file) == [] ==> Noted(entries, disk, tops, n + 1)
  {
  }

  lemma NoneOpened(entries: seq<Entry>, disk: Files, before: Files)
    requires forall f | f in disk :: f in before && before[f] == disk[f]
    requires forall f | f in before && f !in disk :: Listed(entries, f) && before[f] == []
    ensures OpenedUpTo(entries, disk, before, 0) && Noted(entries, disk, map[], 0)
  {
  }

  lemma OpenOne(entries: seq<Entry>, disk: Files, files: Files, n: nat)
    requires n < |entries| && Distinct(entries) && OpenedUpTo(entries, disk, files, n)
    ensures Content(files, entries[n].file) == Content(disk, entries[n].file)
    ensures var e := entries[n];
      OpenedUpTo(entries, disk, files[e.file := ReadAt(Content(files, e.file), 0, e.length)], n + 1)
  {
    assert Listed(entries, entries[n].file);
  }

  lemma AllOpened(entries: seq<Entry>, disk: Files, files: Files)
    requires OpenedUpTo(entries, disk, files, |entries|)
    ensures Opened(entries, disk, files)
  {
  }

  ghost predicate Consistent(ranges: seq<Range>, begins: seq<nat>, total: nat, tops: map<string, nat>, files: Files) {
    && Chained(ranges, total)
    && |begins| == |ranges|
    && (forall i | 0 <= i < |ranges| :: begins[i] == ranges[i].begin)
    && (forall i | 0 <= i < |ranges| :: ranges[i].file in files)
    && (forall i | 0 <= i < |ranges| ::
          Size(Sizes(files), ranges[i].file) >= Min(Size(tops, ranges[i].file), ranges[i].end - ranges[i].begin))
  }

  lemma OpenedSize(entries: seq<Entry>, disk: Files, files: Files, tops: map<string, nat>, r: Range)
    requires Opened(entries, disk, files) && FromEntry(r, entries, |entries|)
    requires forall f | f in tops :: tops[f] <= |Content(disk, f)|
    ensures r.file in files && Size(Sizes(files), r.file) >= Min(Size(tops, r.file), r.end - r.begin)
  {
    var j :| 0 <= j < |entries| && entries[j] == Entry(r.file, r.end - r.begin);
    assert OpenedAs(entries[j], disk, files);
  }

  // ---- The files of a torrent ----

  /** Files that are not listed are as they were on disk. */
  ghost predicate Untouched(entries: seq<Entry>, disk: Files, files: Files) {
    && (forall f | !Listed(entries, f) :: f in files <==> f in disk)
    && (forall f | f in disk && !Listed(entries, f) :: f in files && files[f] == disk[f])
  }

  /** The files hold `flat`, cut at their lengths, and nothing else. */
  ghost predicate FilesHold(entries: seq<Entry>, flat: seq<byte>, files: Files) {
    |flat| == TotalLength(entries, |entries|) &&
    forall i | 0 <= i < |entries| :: FileHolds(entries, flat, files, i)
  }

  ghost predicate FileHolds(entries: seq<Entry>, flat: seq<byte>, files: Files, i: nat)
    requires i < |entries|
  {
    && 0 <= TotalLength(entries, i) <= TotalLength(entries, i + 1) <= |flat|
    && entries[i].file in files
    && files[entries[i].file] == flat[TotalLength(entries, i)..TotalLength(entries, i + 1)]
  }

  lemma StillUntouched(entries: seq<Entry>, disk: Files, before: Files, files: Files)
    requires Distinct(entries) && Opened(entries, disk, before)
    requires OnlyGrown(RangesOf(entries, |entries|), before, files)
    ensures Untouched(entries, disk, files)
  {
    hide RangesOf, Distinct, OnlyGrown, Opened;
    forall f | !Listed(entries, f)
      ensures (f in files <==> f in disk) && (f in disk ==> f in files && files[f] == disk[f])
    {
      NotInRanges(entries, f);
      OutsideKept(RangesOf(entries, |entries|), before, files, f);
      OpenedElsewhere(entries, disk, before, f);
    }
  }

  lemma NotInRanges(entries: seq<Entry>, f: string)
    requires Distinct(entries) && !Listed(entries, f)
    ensures forall i | 0 <= i < |RangesOf(entries, |entries|)| :: RangesOf(entries, |entries|)[i].file != f
  {
    RangesOfChained(entries, |entries|);
    hide RangesOf, Distinct, Chained;
    var rs := RangesOf(entries, |entries|);
    forall i | 0 <= i < |rs| ensures rs[i].file != f {
      assert FromEntry(rs[i], entries, |entries|);
    }
  }

  lemma OutsideKept(ranges: seq<Range>, before: Files, after: Files, f: string)
    requires OnlyGrown(ranges, before, after) && forall i | 0 <= i < |ranges| :: ranges[i].file != f
    ensures f in after <==> f in before
    ensures f in before ==> after[f] == before[f]
  {
  }

  lemma OpenedElsewhere(entries: seq<Entry>, disk: Files, files: Files, f: string)
    requires Opened(entries, disk, files) && !Listed(entries, f)
    ensures f in files <==> f in disk
    ensures f in disk ==> files[f] == disk[f]
  {
  }

  lemma OpenedOne(entries: seq<Entry>, disk: Files, files: Files, i: nat)
    requires Opened(entries, disk, files) && i < |entries|
    ensures OpenedAs(entries[i], disk, files)
  {
  }

  /** How far the file of a range may have grown. */
  lemma GrownWithin(ranges: seq<Range>, before: Files, after: Files, k: nat)
    requires OnlyGrown(ranges, before, after) && k < |ranges| && ranges[k].file in before
    ensures ranges[k].file in after
    ensures |after[ranges[k].file]| <= Max(|before[ranges[k].file]|, ranges[k].end - ranges[k].begin)
  {
  }

  /** A file that is not empty has its range. */
  lemma {:induction false} RangeOfEntry(entries: seq<Entry>, n: nat, i: nat) returns (k: nat)
    requires i < n <= |entries| && 0 < entries[i].length
    ensures k < |RangesOf(entries, n)|
    ensures RangesOf(entries, n)[k] == Range(TotalLength(entries, i), TotalLength(entries, i + 1), entries[i].file)
  {
    if i == n - 1 {
      k := |RangesOf(entries, n - 1)|;
    } else {
      k := RangeOfEntry(entries, n - 1, i);
    }
  }

  /** An empty file has none. */
  lemma EmptyHasNone(entries: seq<Entry>, i: nat, k: nat)
    requires i < |entries| && entries[i].length == 0 && Distinct(entries) && k < |RangesOf(entries, |entries|)|
    ensures RangesOf(entries, |entries|)[k].file != entries[i].file
  {
    RangesOfChained(entries, |entries|);
    hide RangesOf;
    var r := RangesOf(entries, |entries|)[k];
    var rs := RangesOf(entries, |entries|);
    RangesApart(rs, TotalLength(entries, |entries|), k, k);
    assert FromEntry(r, entries, |entries|);
    var j :| 0 <= j < |entries| && entries[j] == Entry(r.file, r.end - r.begin);
    assert j != i;
  }

  lemma {:induction false} LengthsAdd(entries: seq<Entry>, i: nat, n: nat)
    requires i < n <= |entries|
    ensures TotalLength(entries, i) + entries[i].length == TotalLength(entries, i + 1) <= TotalLength(entries, n)
  {
    if i < n - 1 { LengthsAdd(entries, i, n - 1); }
  }

  /** When every byte is there, the files hold the flat array and nothing else. */
  lemma HeldIfPresent(entries: seq<Entry>, disk: Files, before: Files, begins: seq<nat>, tops: map<string, nat>,
                        files: Files)
    requires Distinct(entries) && Opened(entries, disk, before)
    requires Consistent(RangesOf(entries, |entries|), begins, TotalLength(entries, |entries|), tops, files)
    requires OnlyGrown(RangesOf(entries, |entries|), before, files)
    requires forall i | 0 <= i < |RangesOf(entries, |entries|)| ::
      Reaches(RangesOf(entries, |entries|)[i], Sizes(files), TotalLength(entries, |entries|))
    ensures FilesHold(entries, View(RangesOf(entries, |entries|), TotalLength(entries, |entries|), files), files)
  {
    hide FileHolds;
    forall i | 0 <= i < |entries|
      ensures FileHolds(entries, View(RangesOf(entries, |entries|), TotalLength(entries, |entries|), files), files, i)
    {
      FileHeld(entries, disk, before, begins, tops, files, i);
    }
  }

  lemma FileHeld(entries: seq<Entry>, disk: Files, before: Files, begins: seq<nat>, tops: map<string, nat>,
                   files: Files, i: nat)
    requires Distinct(entries) && Opened(entries, disk, before) && i < |entries|
    requires Consistent(RangesOf(entries, |entries|), begins, TotalLength(entries, |entries|), tops, files)
    requires OnlyGrown(RangesOf(entries, |entries|), before, files)
    requires forall i | 0 <= i < |RangesOf(entries, |entries|)| ::
      Reaches(RangesOf(entries, |entries|)[i], Sizes(files), TotalLength(entries, |entries|))
    ensures FileHolds(entries, View(RangesOf(entries, |entries|), TotalLength(entries, |entries|), files), files, i)
  {
    hide View, Chained, Distinct, OnlyGrown, Opened;
    LengthsAdd(entries, i, |entries|);
    var rs, total, e := RangesOf(entries, |entries|), TotalLength(entries, |entries|), entries[i];
    OpenedOne(entries, disk, before, i);
    if e.length == 0 {
      forall k | 0 <= k < |rs| ensures rs[k].file != e.file { EmptyHasNone(entries, i, k); }
      hide RangesOf, TotalLength;
      OutsideKept(rs, before, files, e.file);
      assert files[e.file] == [];
    } else {
      var k := RangeOfEntry(entries, |entries|, i);
      hide RangesOf, TotalLength;
      var r := rs[k];
      assert Reaches(r, Sizes(files), total);
      GrownWithin(rs, before, files, k);
      assert |files[r.file]| == e.length;
      assert Chained(rs, total);
      StretchOfView(rs, total, files, k, 0, e.length);
    }
  }

  /** Which file byte `k` is in. */
  lemma {:induction false} EntryAt(entries: seq<Entry>, n: nat, k: nat) returns (i: nat)
    requires n <= |entries| && k < TotalLength(entries, n)
    ensures i < n && TotalLength(entries, i) <= k < TotalLength(entries, i + 1)
  {
    if TotalLength(entries, n - 1) <= k {
      i := n - 1;
    } else {
      i := EntryAt(entries, n - 1, k);
    }
  }

  /** The flat array is what the files hold. */
  lemma {:induction false} ViewIs(entries: seq<Entry>, flat: seq<byte>, files: Files)
    requires Distinct(entries) && FilesHold(entries, flat, files)
    ensures View(RangesOf(entries, |entries|), TotalLength(entries, |entries|), files) == flat
  {
    var rs, total := RangesOf(entries, |entries|), TotalLength(entries, |entries|);
    RangesOfChained(entries, |entries|);
    hide Chained, Distinct, ByteAt;
    forall k | 0 <= k < total ensures View(rs, total, files)[k] == flat[k] {
      var i := EntryAt(entries, |entries|, k);
      assert FileHolds(entries, flat, files, i);
      var r := RangeOfEntry(entries, |entries|, i);
      ByteInRange(rs, |rs|, total, files, r, k);
    }
  }

  /** Files that have their lengths were all there before they were opened. */
  lemma AllNoted(entries: seq<Entry>, disk: Files, tops: map<string, nat>, pos: nat, stop: nat)
    requires Distinct(entries) && Noted(entries, disk, tops, |entries|)
    requires forall i | 0 <= i < |entries| :: |Content(disk, entries[i].file)| == entries[i].length
    ensures AllPresent(RangesOf(entries, |entries|), TotalLength(entries, |entries|), tops, pos, stop)
  {
    RangesOfChained(entries, |entries|);
    hide Chained, Distinct, RangesOf, TotalLength, Touches;
    var rs := RangesOf(entries, |entries|);
    forall i | 0 <= i < |rs| ensures Reaches(rs[i], tops, stop) {
      assert FromEntry(rs[i], entries, |entries|);
    }
  }

  // ---- The storage object ----

  class Storage {
    const ranges: seq<Range>
    const begins: seq<nat>
    const total: nat
    /** Sizes the files had before the storage was opened. Never updated. */
    const tops: map<string, nat>
    var files: Files
    /** The files right after opening. */
    ghost const asOpened: Files

    ghost predicate Valid()
      reads this
    {
      Consistent(ranges, begins, total, tops, files) && OnlyGrown(ranges, asOpened, files)
    }

    ghost function Flat(): (v: seq<byte>)
      requires Valid()
      reads this
      ensures |v| == total
    {
      View(ranges, total, files)
    }

    ghost predicate Present(pos: nat, stop: nat)
      reads this
    {
      AllPresent(ranges, total, Sizes(files), pos, stop)
    }

    ghost predicate Preallocated(pos: nat, length: nat) {
      AllPresent(ranges, total, tops, pos, pos + length)
    }

    lemma PreallocatedIsPresent(pos: nat, length: nat)
      requires Valid() && Preallocated(pos, length)
      ensures Present(pos, pos + length)
    {
      hide OnlyGrown;
    }

    lemma PresentWithin(a: nat, b: nat, c: nat, d: nat)
      requires Present(a, d) && a <= b <= c <= d
      ensures Present(b, c)
    {
    }

    /** Opening cuts over-long files, creates missing ones and keeps every other byte. */
    constructor (entries: seq<Entry>, disk: Files)
      requires Distinct(entries)
      ensures Valid()
      ensures ranges == RangesOf(entries, |entries|) && total == TotalLength(entries, |entries|)
      ensures Opened(entries, disk, files) && Noted(entries, disk, tops, |entries|) && asOpened == files
    {
      hide Chained, FromEntry, Opened, OpenedAs, RangesOf, TotalLength, Noted;
      var rs, bs, t, fs := LayOut(entries, disk);
      var ts;
      ts, fs := OpenFiles(entries, disk, fs);
      RangesOfChained(entries, |entries|);
      forall i | 0 <= i < |rs|
        ensures rs[i].file in fs
        ensures Size(Sizes(fs), rs[i].file) >= Min(Size(ts, rs[i].file), rs[i].end - rs[i].begin)
      {
        OpenedSize(entries, disk, fs, ts, rs[i]);
      }
      ranges, begins, total, tops, files, asOpened := rs, bs, t, ts, fs, fs;
    }

    /** bisect_right(begins, pos) of Python's standard library. */
    method BisectRight(pos: nat) returns (r: nat)
      requires Valid()
      ensures r <= |begins|
      ensures forall i | 0 <= i < r :: begins[i] <= pos
      ensures forall i | r <= i < |begins| :: pos < begins[i]
    {
      hide OnlyGrown;
      r := 0;
      var hi := |begins|;
      while r < hi
        invariant 0 <= r <= hi <= |begins|
        invariant forall i | 0 <= i < r :: begins[i] <= pos
        invariant forall i | hi <= i < |begins| :: pos < begins[i]
      {
        var mid := (r + hi) / 2;
        if pos < begins[mid] {
          hi := mid;
        } else {
          assert forall i | 0 <= i < mid :: ranges[i].end <= ranges[mid].begin;
          r := mid + 1;
        }
      }
    }

    /** The intervals tile [pos, pos + amount): they are the touched ranges in order, clipped, the first
        starts at `pos`, each next one starts where the one before ends, and the last stops at the end. */
    method Intervals(pos: nat, amount: nat) returns (r: seq<Interval>, ghost first: nat)
      requires Valid() && pos + amount <= total && 0 < total
      ensures Tiling(ranges, pos, pos + amount, r, first)
      ensures first + |r| <= |ranges| && (r == [] ==> amount == 0)
      ensures forall i | 0 <= i < |ranges| :: Touches(ranges[i], total, pos, pos + amount) <==> first <= i < first + |r|
    {
      hide Tiling, Touches, OnlyGrown;
      r := [];
      var stop := pos + amount;
      var b := BisectRight(pos);
      assert 0 < b by { assert begins[0] == 0; }
      var p := b - 1;
      first := p;
      assert begins[p] <= pos && (p < |ranges| - 1 ==> pos < begins[p + 1]);
      while p < |ranges| && ranges[p].begin < stop
        invariant first <= p <= |ranges| && |r| == p - first
        invariant forall i | first <= i < p :: ranges[i].begin < stop && r[i - first] == Clip(ranges[i], pos, stop)
      {
        r := r + [Clip(ranges[p], pos, stop)];
        p := p + 1;
      }
      assert Chained(ranges, total);
      ClippedRangesTile(ranges, total, pos, stop, r, first);
    }

    method WasPreallocated(pos: nat, length: nat) returns (r: bool)
      requires Valid() && pos + length <= total && 0 < total
      ensures r <==> Preallocated(pos, length)
    {
      hide OnlyGrown;
      var ivs, first := Intervals(pos, length);
      for k := 0 to |ivs|
        invariant forall i | first <= i < first + k ::
          Reaches(ranges[i], tops, pos + length)
      {
        assert ivs[k] == Clip(ranges[first + k], pos, pos + length);
        if Size(tops, ivs[k].file) < ivs[k].end {
          assert Touches(ranges[first + k], total, pos, pos + length);
          return false;
        }
      }
      return true;
    }

    /** A read of present bytes returns exactly that stretch of the flat array. */
    method Read(pos: nat, amount: nat) returns (r: seq<byte>)
      requires Valid() && pos + amount <= total && 0 < total
      ensures Present(pos, pos + amount) ==> r == Flat()[pos..pos + amount]
    {
      hide Tiling, Consistent, AllPresent, View, Clip, OnlyGrown;
      r := [];
      var ivs, first := Intervals(pos, amount);
      ghost var here := Present(pos, pos + amount);
      ghost var at: nat := pos;
      for k := 0 to |ivs|
        invariant pos <= at <= pos + amount && first + |ivs| <= |ranges|
        invariant at == TiledUpTo(ranges, first, k, |ivs|, pos, pos + amount)
        invariant here ==> r == Flat()[pos..at]
      {
        var iv := ivs[k];
        ReadOneInterval(ranges, begins, total, tops, files, pos, pos + amount, ivs, first, k, at);
        r := r + ReadAt(files[iv.file], iv.begin, iv.end - iv.begin);
        at := ranges[first + k].begin + iv.end;
      }
    }

    /** A write changes exactly [pos, pos + |s|) of the flat array and makes those bytes present. */
    method Write(pos: nat, s: seq<byte>)
      requires Valid() && pos + |s| <= total && 0 < total
      modifies this
      ensures Valid()
      ensures Flat() == Splice(old(Flat()), pos, s)
      ensures Present(pos, pos + |s|)
      ensures forall a: nat, b: nat | old(Present(a, b)) :: Present(a, b)
      ensures OnlyGrown(ranges, old(files), files)
    {
      hide View, Splice, Chained, AllPresent, Written, Tiling, Consistent, OnlyGrown, WriteAt;
      var done: nat := 0;
      var ivs, first := Intervals(pos, |s|);
      ghost var before := files;
      WriteStart(ranges, total, files, pos, s, ivs, first);
      for k := 0 to |ivs|
        invariant Written(ranges, total, before, files, pos, s, first, k, |ivs|, done)
      {
        var iv := ivs[k];
        WriteOneInterval(ranges, begins, total, tops, before, files, pos, s, first, k, ivs, done);
        files := files[iv.file := WriteAt(files[iv.file], iv.begin, s[done..done + iv.end - iv.begin])];
        done := done + iv.end - iv.begin;
      }
      WriteEnd(ranges, begins, total, tops, before, files, pos, s, ivs, first, done);
      GrownTwice(ranges, asOpened, before, files);
    }
  }
}
