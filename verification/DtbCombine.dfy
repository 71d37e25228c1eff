/** dtbtool from the files it finds to the image it writes. */
module DtbCombine {
  import opened Wrappers
  import opened Arith
  import opened DtbLayout
  import opened DtbImage
  import opened Chips
  import opened DtbScan
  import opened DtbTool

  /** The padded size of each file. */
  function Weights(sources: seq<Source>, page: nat): (ws: seq<nat>)
    requires page > 0
    ensures |ws| == |sources| && forall i :: 0 <= i < |sources| ==> ws[i] == sources[i].stSize + Padding(sources[i].stSize, page)
  {
    seq(|sources|, i requires 0 <= i < |sources| => sources[i].stSize + Padding(sources[i].stSize, page))
  }

  /** All the files and a table for all their ids stay below 4 GiB, the reach of a 32-bit offset. */
  predicate BelowFourGiB(sources: seq<Source>, version: nat, page: nat) {
    1 <= version <= 3 && page > 0 &&
    TableEnd(version, TotalIds(sources)) + page + Sum(Weights(sources, page)) < 0x1_0000_0000
  }

  lemma BaseBound(version: nat, n: nat, total: nat, page: nat)
    requires page > 0 && n <= total
    ensures Base(version, n, page) <= TableEnd(version, total) + page
  {
    MulMonotone(n, total, EntrySize(version));
  }

  /** What the scan leaves fits. */
  lemma ScanFits(list: ChipList, src: map<Chip, nat>, sources: seq<Source>, version: nat, page: nat, ms: seq<Chip>, sizes: map<Chip, nat>)
    requires BelowFourGiB(sources, version, page) && Scanned(list, src, sources, page)
    requires ms == Masters(list.chips) && forall m :: m in ms ==> m in sizes && sizes[m] == m.dtbSize
    ensures Fits(version, page, Ids(list.chips), ms, sizes)
  {
    hide Padding, Ids, Masters, Listed, TotalIds, Sum, Laid;
    TracedMasters(list.chips, src, sources, page);
    LaidBound(ms, sizes, Weights(sources, page), src);
    BaseBound(version, |ms|, TotalIds(sources), page);
  }

  /** A file is there and has as many whole pages as when it was scanned. */
  predicate SamePages(s: Source, files: map<nat, seq<Byte>>, page: nat)
    requires page > 0
  {
    s.path in files && |files[s.path]| / page == s.stSize / page
  }

  lemma MatchMeans(m: Chip, s: Source, files: map<nat, seq<Byte>>, page: nat)
    requires page > 0 && FromSource(m, s, page)
    ensures SizeHolds(m.dtbFile, m.dtbSize, files, page) <==> SamePages(s, files, page)
  {
    hide Padding;
    if s.path in files {
      PaddedSizeSees(|files[s.path]|, s.stSize, page);
    }
  }

  /** What an image tells of entry k: the id, and the file that has it. */
  ghost predicate EntryLeads(image: seq<Byte>, version: nat, page: nat, k: nat, id: ChipId, s: Source, files: map<nat, seq<Byte>>)
    requires page > 0 && 1 <= version <= 3
  {
    && 12 + EntrySize(version) * k + EntrySize(version) <= |image|
    && EntryNamed(image, version, k, id)
    && id in s.ids && s.path in files && BlobOf(image, version, k) == Some(Padded(files[s.path], page))
  }

  /** Where each listed id comes from. */
  ghost function Origins(ms: seq<Chip>, src: map<Chip, nat>): (r: seq<nat>)
    requires forall m :: m in ms ==> m in src
    ensures |r| == |ms| && forall k :: 0 <= k < |ms| ==> r[k] == src[ms[k]]
  {
    seq(|ms|, k requires 0 <= k < |ms| => assert ms[k] in ms; src[ms[k]])
  }

  lemma ImageLeads(list: ChipList, src: map<Chip, nat>, sources: seq<Source>, files: map<nat, seq<Byte>>, version: nat, page: nat,
                   ids: seq<ChipId>, ms: seq<Chip>, sizes: map<Chip, nat>, blobs: map<Chip, seq<Byte>>, k: nat)
    requires page > 0 && Scanned(list, src, sources, page) && ids == Ids(list.chips) && ms == Masters(list.chips) && k < |ms|
    requires Fits(version, page, ids, ms, sizes) && Measured(ms, sizes, blobs)
    requires FilesMatch(ms, files, page) && blobs == FileBlobs(ms, files, page)
    ensures ms[k] in src && src[ms[k]] < |sources|
    ensures EntryLeads(Image(version, page, ids, ms, sizes, blobs), version, page, k, ids[k], sources[src[ms[k]]], files)
  {
    hide Image, Padding, Padded, Listed, TotalIds, EntryNamed, BlobOf;
    TracedMasters(list.chips, src, sources, page);
    var c := list.chips[k];
    assert c in list.chips && c.id == ids[k] && c.master == ms[k] && ms[k] in ms;
    ReadBack(version, page, ids, ms, sizes, blobs, k);
    ReadBackNames(version, page, ids, ms, sizes, blobs, k);
  }

  /** The ids are sorted, no two are equal, and they are those of the files taken in; each comes from the file given. */
  ghost predicate Traces(ids: seq<ChipId>, from: seq<nat>, sources: seq<Source>) {
    && Sorted(ids) && Unique(ids) && (forall id :: id in ids <==> id in Listed(sources))
    && |from| == |ids| && forall k :: 0 <= k < |ids| ==> from[k] < |sources| && ids[k] in sources[from[k]].ids
  }

  /** Every listed id's file is there with the pages it had. */
  ghost predicate AllSame(from: seq<nat>, sources: seq<Source>, files: map<nat, seq<Byte>>, page: nat)
    requires page > 0 && forall k :: 0 <= k < |from| ==> from[k] < |sources|
  {
    forall k :: 0 <= k < |from| ==> SamePages(sources[from[k]], files, page)
  }

  lemma ScanTraces(list: ChipList, src: map<Chip, nat>, sources: seq<Source>, page: nat)
    requires page > 0 && list.Valid() && Scanned(list, src, sources, page)
    ensures (forall m :: m in Masters(list.chips) ==> m in src)
    ensures Traces(Ids(list.chips), Origins(Masters(list.chips), src), sources)
  {
    hide Sorted, Unique, Padding, Listed, TotalIds, ChipList.Linked;
    TracedMasters(list.chips, src, sources, page);
    var ms, ids := Masters(list.chips), Ids(list.chips);
    forall k | 0 <= k < |ms| ensures src[ms[k]] < |sources| && ids[k] in sources[src[ms[k]]].ids {
      assert list.chips[k] in list.chips;
    }
  }

  /** The passes find all files as they should be exactly if every listed id's file has the pages it had. */
  lemma ScanMatches(ms: seq<Chip>, src: map<Chip, nat>, sources: seq<Source>, page: nat, files: map<nat, seq<Byte>>)
    requires page > 0 && forall m :: m in ms ==> m in src && src[m] < |sources| && FromSource(m, sources[src[m]], page)
    ensures FilesMatch(ms, files, page) <==> AllSame(Origins(ms, src), sources, files, page)
  {
    hide Padding, SamePages, SizeHolds, FromSource;
    forall m | m in ms ensures SizeHolds(m.dtbFile, m.dtbSize, files, page) <==> SamePages(sources[src[m]], files, page) {
      MatchMeans(m, sources[src[m]], files, page);
    }
    var from := Origins(ms, src);
    if AllSame(from, sources, files, page) {
      forall m | m in ms ensures SizeHolds(m.dtbFile, m.dtbSize, files, page) {
        var k :| 0 <= k < |ms| && ms[k] == m;
        assert from[k] == src[m];
      }
    } else {
      var k :| 0 <= k < |from| && !SamePages(sources[from[k]], files, page);
      assert ms[k] in ms && from[k] == src[ms[k]];
    }
  }

  /** The passes over what the scan has left. */
  method BuildScanned(list: ChipList, sources: seq<Source>, files: map<nat, seq<Byte>>, version: nat, page: nat, count: nat,
                      ghost src: map<Chip, nat>, ghost ids: seq<ChipId>, ghost ms: seq<Chip>)
    returns (ok: bool, out: seq<Byte>)
    requires BelowFourGiB(sources, version, page) && list.Valid() && Scanned(list, src, sources, page) && count == |list.chips|
    requires ids == Ids(list.chips) && ms == Masters(list.chips) && forall m :: m in ms ==> m in src
    requires Traces(ids, Origins(ms, src), sources)
    modifies list.chips`masterOffset, list.chips`wroteDtb
    ensures ok <==> AllSame(Origins(ms, src), sources, files, page)
    ensures ok ==> AllLead(out, version, page, ids, Origins(ms, src), sources, files)
    ensures ok ==> WellLaid(out, version, page, Origins(ms, src))
  {
    hide Sorted, Unique, Padding, Listed, TotalIds, Ids, Masters, MastersListed, Traced, Recorded, Image, Fits, FilesMatch, FileBlobs,
      AllLead, WellLaid, Traces, AllSame, Measured, Origins, OneEach;
    ghost var sizes := map m | m in ms :: m.dtbSize;
    ScanFits(list, src, sources, version, page, ms, sizes);
    TracedMasters(list.chips, src, sources, page);
    ScanMatches(ms, src, sources, page, files);
    ghost var blobs := FileBlobs(ms, files, page);
    if FilesMatch(ms, files, page) {
      MatchedIsMeasured(ms, sizes, files, page);
      ImageLeadsAll(list, src, sources, files, version, page, ids, ms, sizes, blobs);
      ImageWellLaid(list, src, version, page, |sources|, ids, ms, sizes, blobs);
    }
    ok, out := Build(list, version, page, count, files, ids, ms, sizes, blobs);
  }

  ghost predicate AllLead(image: seq<Byte>, version: nat, page: nat, ids: seq<ChipId>, from: seq<nat>, sources: seq<Source>, files: map<nat, seq<Byte>>)
    requires page > 0 && 1 <= version <= 3 && |ids| == |from| && forall k :: 0 <= k < |from| ==> from[k] < |sources|
  {
    forall k :: 0 <= k < |ids| ==> EntryLeads(image, version, page, k, ids[k], sources[from[k]], files)
  }

  /** Entry k's blob is whole pages in the image. */
  ghost predicate PagesAt(image: seq<Byte>, version: nat, page: nat, k: nat)
    requires page > 0
  {
    && 12 + EntrySize(version) * k + EntrySize(version) <= |image|
    && var offset, size := OffsetIn(image, version, k), SizeIn(image, version, k);
    offset % page == 0 && size % page == 0 && 0 < offset <= offset + size <= |image|
  }

  /** Entries from one file have one blob, and those from different files have blobs that do not overlap. */
  ghost predicate Apart(image: seq<Byte>, version: nat, page: nat, j: nat, k: nat, same: bool)
    requires page > 0 && PagesAt(image, version, page, j) && PagesAt(image, version, page, k)
  {
    var a, b := OffsetIn(image, version, j), OffsetIn(image, version, k);
    if same then a == b else a + SizeIn(image, version, j) <= b || b + SizeIn(image, version, k) <= a
  }

  /** The header is right, and the blobs are whole pages, shared or apart. */
  ghost predicate WellLaid(image: seq<Byte>, version: nat, page: nat, from: seq<nat>)
    requires page > 0
  {
    && HeaderSays(image, version, |from|)
    && (forall k :: 0 <= k < |from| ==> PagesAt(image, version, page, k))
    && (forall j, k :: 0 <= j < |from| && 0 <= k < |from| ==> Apart(image, version, page, j, k, from[j] == from[k]))
  }

  lemma ImagePages(version: nat, page: nat, ids: seq<ChipId>, ms: seq<Chip>, sizes: map<Chip, nat>, blobs: map<Chip, seq<Byte>>, k: nat)
    requires Fits(version, page, ids, ms, sizes) && Measured(ms, sizes, blobs) && k < |ms|
    ensures PagesAt(Image(version, page, ids, ms, sizes, blobs), version, page, k)
  {
    hide Image, OffsetIn, SizeIn, Laid, Padding, TableEnd;
    ReadBackPlace(version, page, ids, ms, sizes, blobs, k);
    OffsetsWholePages(version, page, ids, ms, sizes, k);
    ImageBlob(version, page, ids, ms, sizes, blobs, k);
    assert ms[k] in ms;
  }

  lemma ImageApart(version: nat, page: nat, ids: seq<ChipId>, ms: seq<Chip>, sizes: map<Chip, nat>, blobs: map<Chip, seq<Byte>>, j: nat, k: nat)
    requires Fits(version, page, ids, ms, sizes) && Measured(ms, sizes, blobs) && j < |ms| && k < |ms|
    ensures var image := Image(version, page, ids, ms, sizes, blobs);
      PagesAt(image, version, page, j) && PagesAt(image, version, page, k) && Apart(image, version, page, j, k, ms[j] == ms[k])
  {
    hide Image, OffsetIn, SizeIn, Offset, PagesAt, Fits;
    ImagePages(version, page, ids, ms, sizes, blobs, j);
    ImagePages(version, page, ids, ms, sizes, blobs, k);
    ReadBackPlace(version, page, ids, ms, sizes, blobs, j);
    ReadBackPlace(version, page, ids, ms, sizes, blobs, k);
    OffsetsDisjoint(version, page, ids, ms, sizes, j, k);
  }

  lemma ImageWellLaid(list: ChipList, src: map<Chip, nat>, version: nat, page: nat, n: nat,
                      ids: seq<ChipId>, ms: seq<Chip>, sizes: map<Chip, nat>, blobs: map<Chip, seq<Byte>>)
    requires OneEach(list.chips, src, n) && (forall m :: m in ms ==> m in src) && |ids| == |ms|
    requires Fits(version, page, ids, ms, sizes) && Measured(ms, sizes, blobs)
    ensures page > 0 && WellLaid(Image(version, page, ids, ms, sizes, blobs), version, page, Origins(ms, src))
  {
    PagePositive(version, page, ids, ms, sizes);
    hide Image, HeaderSays, PagesAt, Apart, Fits, Measured;
    var image, from := Image(version, page, ids, ms, sizes, blobs), Origins(ms, src);
    ReadBackHeader(version, page, ids, ms, sizes, blobs);
    forall k | 0 <= k < |from| ensures PagesAt(image, version, page, k) {
      ImagePages(version, page, ids, ms, sizes, blobs, k);
    }
    forall j, k | 0 <= j < |from| && 0 <= k < |from| ensures Apart(image, version, page, j, k, from[j] == from[k]) {
      assert ms[j] in ms && ms[k] in ms;
      ImageApart(version, page, ids, ms, sizes, blobs, j, k);
    }
  }

  lemma PagePositive(version: nat, page: nat, ids: seq<ChipId>, ms: seq<Chip>, sizes: map<Chip, nat>)
    requires Fits(version, page, ids, ms, sizes)
    ensures page > 0
  {
  }

  lemma ImageLeadsAll(list: ChipList, src: map<Chip, nat>, sources: seq<Source>, files: map<nat, seq<Byte>>, version: nat, page: nat,
                      ids: seq<ChipId>, ms: seq<Chip>, sizes: map<Chip, nat>, blobs: map<Chip, seq<Byte>>)
    requires page > 0 && 1 <= version <= 3 && Scanned(list, src, sources, page) && ids == Ids(list.chips) && ms == Masters(list.chips)
    requires Fits(version, page, ids, ms, sizes) && Measured(ms, sizes, blobs)
    requires FilesMatch(ms, files, page) && blobs == FileBlobs(ms, files, page)
    requires (forall m :: m in ms ==> m in src) && Traces(ids, Origins(ms, src), sources)
    ensures AllLead(Image(version, page, ids, ms, sizes, blobs), version, page, ids, Origins(ms, src), sources, files)
  {
    hide Image, EntryLeads, Sorted, Unique, Listed, Scanned, Fits, FilesMatch, FileBlobs, Measured, Ids, Masters, TableEnd, Laid;
    forall k | 0 <= k < |ms|
      ensures EntryLeads(Image(version, page, ids, ms, sizes, blobs), version, page, k, ids[k], sources[Origins(ms, src)[k]], files)
    {
      ImageLeads(list, src, sources, files, version, page, ids, ms, sizes, blobs, k);
    }
  }

  /**
   The tool from the files it finds to the image. With nothing to list it makes no image. Otherwise it succeeds if
   and only if the file of every listed id is there with as many whole pages as when it was scanned, and then every
   entry of the image names its id and leads to the contents of that file, zero-padded; the header is right, and the
   blobs are whole pages, one for each file, that do not overlap.
   */
  method Combine(sources: seq<Source>, files: map<nat, seq<Byte>>, version: nat, page: nat)
    returns (ok: bool, image: Option<seq<Byte>>, ghost ids: seq<ChipId>, ghost from: seq<nat>)
    requires BelowFourGiB(sources, version, page)
    ensures Traces(ids, from, sources)
    ensures ok <==> AllSame(from, sources, files, page)
    ensures image.Some? <==> ok && ids != []
    ensures image.Some? ==> AllLead(image.value, version, page, ids, from, sources, files) && WellLaid(image.value, version, page, from)
  {
    hide Sorted, Unique, Padding, Listed, TotalIds, Ids, Masters, Scanned, AllLead, WellLaid, Traces, AllSame, Origins;
    var list := new ChipList();
    var count;
    ghost var src;
    count, src := Scan(list, sources, page);
    ids := Ids(list.chips);
    ghost var ms := Masters(list.chips);
    ScanTraces(list, src, sources, page);
    from := Origins(ms, src);
    if count == 0 {
      NothingListed(from, sources, files, page);
      return true, None, ids, from;
    }
    assert forall j :: 0 <= j < |list.chips| ==> list.chips[j] in list.chips;
    var out;
    ok, out := BuildScanned(list, sources, files, version, page, count, src, ids, ms);
    image := if ok then Some(out) else None;
  }

  lemma NothingListed(from: seq<nat>, sources: seq<Source>, files: map<nat, seq<Byte>>, page: nat)
    requires page > 0 && from == []
    ensures AllSame(from, sources, files, page)
  {
  }
}
