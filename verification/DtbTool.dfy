/** The two writing passes of dtbtool. */
module DtbTool {
  import opened Arith
  import opened DtbLayout
  import opened DtbImage
  import opened Chips
  import opened DtbScan

  // ----- Writing -----

  /** The masters of the first i entries have their offsets, the others none. */
  ghost predicate Placed(version: nat, page: nat, ms: seq<Chip>, sizes: map<Chip, nat>, i: nat)
    requires page > 0 && i <= |ms| && forall m :: m in ms ==> m in sizes
    reads ms`masterOffset
  {
    && (forall j :: 0 <= j < i ==> ms[j].masterOffset == Offset(version, page, ms, sizes, j))
    && (forall m :: m in ms && m !in ms[..i] ==> m.masterOffset == 0)
  }

  /** The offset of the next entry: its master's, given out now if it has none yet. Zero stands for none. */
  method TakeOffset(m: Chip, expected: nat, version: nat, page: nat, ghost ms: seq<Chip>, ghost sizes: map<Chip, nat>, ghost i: nat)
    returns (offset: nat, expected': nat)
    requires page > 0 && i < |ms| && m == ms[i] && (forall x :: x in ms ==> x in sizes) && m.dtbSize == sizes[m]
    requires Placed(version, page, ms, sizes, i) && expected == Base(version, |ms|, page) + Laid(ms, sizes, i)
    modifies m`masterOffset
    ensures Placed(version, page, ms, sizes, i + 1) && offset == Offset(version, page, ms, sizes, i)
    ensures expected' == Base(version, |ms|, page) + Laid(ms, sizes, i + 1)
  {
    hide Base, Offset, Laid;
    assert ms[..i + 1] == ms[..i] + [m];
    PlacedMeans(version, page, ms, sizes, i);
    OffsetMeans(version, page, ms, sizes, i);
    if m.masterOffset != 0 {
      offset, expected' := m.masterOffset, expected;
    } else {
      offset := expected;
      m.masterOffset := expected;
      expected' := expected + m.dtbSize;
    }
  }

  /** A master has an offset exactly when an earlier entry uses it. */
  lemma PlacedMeans(version: nat, page: nat, ms: seq<Chip>, sizes: map<Chip, nat>, i: nat)
    requires page > 0 && i < |ms| && (forall x :: x in ms ==> x in sizes) && Placed(version, page, ms, sizes, i)
    ensures ms[i] in ms[..i] <==> ms[i].masterOffset != 0
    ensures ms[i] in ms[..i] ==> ms[i].masterOffset == Offset(version, page, ms, sizes, i)
  {
    hide Laid, First;
    if ms[i] in ms[..i] {
      var j :| 0 <= j < i && ms[j] == ms[i];
      assert Offset(version, page, ms, sizes, j) == Offset(version, page, ms, sizes, i);
    }
  }

  lemma OffsetMeans(version: nat, page: nat, ms: seq<Chip>, sizes: map<Chip, nat>, i: nat)
    requires page > 0 && i < |ms| && forall x :: x in ms ==> x in sizes
    ensures Laid(ms, sizes, i + 1) == Laid(ms, sizes, i) + if ms[i] in ms[..i] then 0 else sizes[ms[i]]
    ensures ms[i] !in ms[..i] ==> Offset(version, page, ms, sizes, i) == Base(version, |ms|, page) + Laid(ms, sizes, i)
  {
    if ms[i] !in ms[..i] {
      FirstHere(ms, i);
    }
  }

  lemma TableGrows(version: nat, page: nat, ids: seq<ChipId>, ms: seq<Chip>, sizes: map<Chip, nat>, i: nat)
    requires Fits(version, page, ids, ms, sizes) && i < |ms|
    ensures Offset(version, page, ms, sizes, i) < 0x1_0000_0000 && sizes[ms[i]] < 0x1_0000_0000
    ensures Table(version, Rows(version, page, ids, ms, sizes, i + 1))
         == Table(version, Rows(version, page, ids, ms, sizes, i))
            + EntryBytes(version, ids[i], Offset(version, page, ms, sizes, i), sizes[ms[i]])
  {
    hide EntryBytes, Fits, Offset;
    OffsetFits(version, page, ids, ms, sizes, i);
    TotalFits(version, page, ids, ms, sizes);
    var rows := Rows(version, page, ids, ms, sizes, i + 1);
    assert rows[..i] == Rows(version, page, ids, ms, sizes, i);
  }

  lemma {:induction false} TotalFits(version: nat, page: nat, ids: seq<ChipId>, ms: seq<Chip>, sizes: map<Chip, nat>)
    requires Fits(version, page, ids, ms, sizes)
    ensures Base(version, |ms|, page) + Laid(ms, sizes, |ms|) < 0x1_0000_0000
  {
  }

  /** One turn of pass one: the entry of a chip. */
  method WriteEntry(chip: Chip, expected: nat, version: nat, page: nat,
                    ghost ids: seq<ChipId>, ghost ms: seq<Chip>, ghost sizes: map<Chip, nat>, ghost i: nat)
    returns (entry: seq<Byte>, expected': nat)
    requires Fits(version, page, ids, ms, sizes) && i < |ms| && chip.id == ids[i] && chip.master == ms[i]
    requires chip.master.dtbSize == sizes[ms[i]] && Placed(version, page, ms, sizes, i)
    requires expected == Base(version, |ms|, page) + Laid(ms, sizes, i)
    modifies chip.master`masterOffset
    ensures Placed(version, page, ms, sizes, i + 1) && expected' == Base(version, |ms|, page) + Laid(ms, sizes, i + 1)
    ensures Table(version, Rows(version, page, ids, ms, sizes, i + 1)) == Table(version, Rows(version, page, ids, ms, sizes, i)) + entry
  {
    hide Offset, Base, Table, Rows, EntryBytes, Laid, Placed;
    TableGrows(version, page, ids, ms, sizes, i);
    var offset;
    offset, expected' := TakeOffset(chip.master, expected, version, page, ms, sizes, i);
    entry := EntryBytes(version, chip.id, offset, chip.master.dtbSize);
  }

  /** Between two turns of a pass: chip is entry i, or none is left. */
  ghost predicate AtEntry(list: ChipList, chip: Chip?, ms: seq<Chip>, i: nat)
    reads list, list.chips`next, list.chips`prev
  {
    list.Linked() && ms == Masters(list.chips) && i <= |ms| && (chip == null <==> i == |ms|) && (i < |ms| ==> chip == list.chips[i])
  }

  /** One turn of pass one, and the step to the next chip. */
  method TableStep(list: ChipList, chip: Chip, expected: nat, version: nat, page: nat,
                   ghost ids: seq<ChipId>, ghost ms: seq<Chip>, ghost sizes: map<Chip, nat>, ghost i: nat)
    returns (entry: seq<Byte>, expected': nat, next: Chip?)
    requires AtEntry(list, chip, ms, i) && MastersListed(list.chips) && ids == Ids(list.chips) && Fits(version, page, ids, ms, sizes)
    requires Placed(version, page, ms, sizes, i) && expected == Base(version, |ms|, page) + Laid(ms, sizes, i) && Planned(ms, sizes)
    modifies list.chips`masterOffset
    ensures AtEntry(list, next, ms, i + 1) && Planned(ms, sizes)
    ensures Placed(version, page, ms, sizes, i + 1) && expected' == Base(version, |ms|, page) + Laid(ms, sizes, i + 1)
    ensures Table(version, Rows(version, page, ids, ms, sizes, i + 1)) == Table(version, Rows(version, page, ids, ms, sizes, i)) + entry
  {
    hide Base, Table, Rows, Laid, Placed, Ids, Masters, Fits;
    assert chip.id == ids[i] && chip.master == ms[i] && ms[i] in ms;
    entry, expected' := WriteEntry(chip, expected, version, page, ids, ms, sizes, i);
    next := list.Next(chip, i);
  }

  /** The masters have the sizes that the layout plans. */
  ghost predicate Planned(ms: seq<Chip>, sizes: map<Chip, nat>)
    reads ms`dtbSize
  {
    forall m :: m in ms ==> m in sizes && m.dtbSize == sizes[m]
  }

  /** Pass one: the index table. */
  method WriteTable(list: ChipList, version: nat, page: nat, base: nat, ghost ids: seq<ChipId>, ghost ms: seq<Chip>, ghost sizes: map<Chip, nat>)
    returns (out: seq<Byte>, expected: nat)
    requires list.Linked() && MastersListed(list.chips) && ids == Ids(list.chips) && ms == Masters(list.chips)
    requires Fits(version, page, ids, ms, sizes) && base == Base(version, |ms|, page)
    requires forall m :: m in ms ==> m.dtbSize == sizes[m] && m.masterOffset == 0
    modifies list.chips`masterOffset
    ensures out == Table(version, Rows(version, page, ids, ms, sizes, |ms|))
    ensures expected == base + Laid(ms, sizes, |ms|)
  {
    hide Base, Table, Rows, Laid, Placed, Ids, Masters, MastersListed;
    StartTable(version, page, ms, sizes, ids);
    out, expected := [], base;
    ghost var i := 0;
    var chip := list.head;
    while chip != null
      invariant AtEntry(list, chip, ms, i) && Planned(ms, sizes) && Placed(version, page, ms, sizes, i)
      invariant out == Table(version, Rows(version, page, ids, ms, sizes, i))
      invariant expected == base + Laid(ms, sizes, i)
      decreases |ms| - i
    {
      var entry;
      entry, expected, chip := TableStep(list, chip, expected, version, page, ids, ms, sizes, i);
      out := out + entry;
      i := i + 1;
    }
  }

  lemma {:induction false} StartTable(version: nat, page: nat, ms: seq<Chip>, sizes: map<Chip, nat>, ids: seq<ChipId>)
    requires Fits(version, page, ids, ms, sizes) && forall m :: m in ms ==> m.masterOffset == 0
    ensures Table(version, Rows(version, page, ids, ms, sizes, 0)) == [] && Laid(ms, sizes, 0) == 0
    ensures Placed(version, page, ms, sizes, 0)
  {
  }

  const COPY_BLK := 1024

  /** Copies a file block by block. */
  method CopyFile(file: seq<Byte>) returns (copied: seq<Byte>)
    ensures copied == file
  {
    copied := [];
    while |copied| < |file|
      invariant |copied| <= |file| && copied == file[..|copied|]
      decreases |file| - |copied|
    {
      var n := if |file| - |copied| < COPY_BLK then |file| - |copied| else COPY_BLK;
      copied := copied + file[|copied|..|copied| + n];
    }
  }

  /** What pass two finds for a master: its file is there and still has the size it was scanned with. */
  predicate SizeHolds(file: nat, size: nat, files: map<nat, seq<Byte>>, page: nat)
    requires page > 0
  {
    file in files && |files[file]| + Padding(|files[file]|, page) == size
  }

  /** Pass two will find every master's file as it was. */
  ghost predicate FilesMatch(ms: seq<Chip>, files: map<nat, seq<Byte>>, page: nat)
    requires page > 0
    reads ms`dtbFile, ms`dtbSize
  {
    forall m :: m in ms ==> SizeHolds(m.dtbFile, m.dtbSize, files, page)
  }

  /** The blob each master's file makes. */
  ghost function FileBlobs(ms: seq<Chip>, files: map<nat, seq<Byte>>, page: nat): map<Chip, seq<Byte>>
    requires page > 0
    reads ms`dtbFile
  {
    map m | m in ms :: if m.dtbFile in files then Padded(files[m.dtbFile], page) else []
  }

  /** One blob of pass two; fails when the file is gone or changed size. */
  method WriteBlob(m: Chip, files: map<nat, seq<Byte>>, page: nat) returns (ok: bool, blob: seq<Byte>)
    requires page > 0
    modifies m`wroteDtb
    ensures m.wroteDtb && ok == SizeHolds(m.dtbFile, m.dtbSize, files, page)
    ensures ok ==> blob == Padded(files[m.dtbFile], page)
  {
    m.wroteDtb := true;
    if m.dtbFile !in files {
      return false, [];
    }
    blob := CopyFile(files[m.dtbFile]);
    var padding := Padding(|blob|, page);
    if |blob| + padding != m.dtbSize {
      return false, blob;
    }
    return true, blob + Zeros(padding);
  }

  lemma BlobsGrow(ms: seq<Chip>, blobs: map<Chip, seq<Byte>>, i: nat)
    requires i < |ms| && forall m :: m in ms ==> m in blobs
    ensures Blobs(ms, blobs, i + 1) == Blobs(ms, blobs, i) + if ms[i] in ms[..i] then [] else blobs[ms[i]]
    ensures forall m :: m in ms[..i + 1] <==> m in ms[..i] || m == ms[i]
  {
    assert ms[..i + 1] == ms[..i] + [ms[i]];
  }

  /** The masters of the first i entries are written and their files matched; the others are not written. */
  ghost predicate Written(ms: seq<Chip>, files: map<nat, seq<Byte>>, page: nat, i: nat)
    requires page > 0 && i <= |ms|
    reads ms`wroteDtb, ms`dtbFile, ms`dtbSize
  {
    && (forall m :: m in ms ==> (m.wroteDtb <==> m in ms[..i]))
    && (forall m :: m in ms[..i] ==> SizeHolds(m.dtbFile, m.dtbSize, files, page))
  }

  /** One turn of pass two: nothing for a master already written. */
  method BlobTurn(m: Chip, files: map<nat, seq<Byte>>, page: nat, ghost ms: seq<Chip>, ghost blobs: map<Chip, seq<Byte>>, ghost i: nat)
    returns (ok: bool, blob: seq<Byte>)
    requires page > 0 && i < |ms| && m == ms[i] && Written(ms, files, page, i) && blobs == FileBlobs(ms, files, page)
    modifies m`wroteDtb
    ensures ok ==> Written(ms, files, page, i + 1) && Blobs(ms, blobs, i + 1) == Blobs(ms, blobs, i) + blob
    ensures !ok ==> !SizeHolds(m.dtbFile, m.dtbSize, files, page)
  {
    hide Blobs, Padded, Padding;
    BlobsGrow(ms, blobs, i);
    assert ms[i] in ms;
    if m.wroteDtb {
      return true, [];
    }
    ok, blob := WriteBlob(m, files, page);
  }

  method BlobStep(list: ChipList, chip: Chip, files: map<nat, seq<Byte>>, page: nat,
                  ghost ms: seq<Chip>, ghost blobs: map<Chip, seq<Byte>>, ghost i: nat)
    returns (ok: bool, blob: seq<Byte>, next: Chip?)
    requires page > 0 && AtEntry(list, chip, ms, i) && MastersListed(list.chips)
    requires Written(ms, files, page, i) && blobs == FileBlobs(ms, files, page)
    modifies list.chips`wroteDtb
    ensures ok ==> Written(ms, files, page, i + 1) && Blobs(ms, blobs, i + 1) == Blobs(ms, blobs, i) + blob
    ensures !ok ==> !FilesMatch(ms, files, page)
    ensures AtEntry(list, next, ms, i + 1) && blobs == FileBlobs(ms, files, page)
  {
    hide Blobs, Padded, Padding, Masters, SizeHolds, FileBlobs, Written;
    assert chip.master == ms[i] && ms[i] in ms;
    ok, blob := BlobTurn(chip.master, files, page, ms, blobs, i);
    next := list.Next(chip, i);
  }

  /** Pass two: each master's blob once, where it is first met; stops at the first file that does not match. */
  method WriteBlobs(list: ChipList, files: map<nat, seq<Byte>>, page: nat, ghost ms: seq<Chip>, ghost blobs: map<Chip, seq<Byte>>)
    returns (ok: bool, out: seq<Byte>)
    requires page > 0 && list.Linked() && MastersListed(list.chips) && ms == Masters(list.chips) && blobs == FileBlobs(ms, files, page)
    requires forall m :: m in ms ==> !m.wroteDtb
    modifies list.chips`wroteDtb
    ensures ok <==> FilesMatch(ms, files, page)
    ensures ok ==> out == Blobs(ms, blobs, |ms|)
  {
    hide Blobs, Padded, Padding, Masters, SizeHolds, FileBlobs, Written, MastersListed, FilesMatch;
    BlobsKnown(ms, files, page);
    StartBlobs(ms, files, page, blobs);
    ok, out := true, [];
    ghost var i := 0;
    var chip := list.head;
    while chip != null
      invariant AtEntry(list, chip, ms, i)
      invariant Written(ms, files, page, i) && blobs == FileBlobs(ms, files, page)
      invariant out == Blobs(ms, blobs, i)
      decreases |ms| - i
    {
      var blob;
      ok, blob, chip := BlobStep(list, chip, files, page, ms, blobs, i);
      if !ok {
        return;
      }
      out := out + blob;
      i := i + 1;
    }
    AllWritten(ms, files, page);
    ok := true;
  }

  lemma BlobsKnown(ms: seq<Chip>, files: map<nat, seq<Byte>>, page: nat)
    requires page > 0
    ensures FileBlobs(ms, files, page).Keys == set m | m in ms
  {
  }

  lemma {:induction false} StartBlobs(ms: seq<Chip>, files: map<nat, seq<Byte>>, page: nat, blobs: map<Chip, seq<Byte>>)
    requires page > 0 && (forall m :: m in ms ==> m in blobs) && forall m :: m in ms ==> !m.wroteDtb
    ensures Blobs(ms, blobs, 0) == [] && Written(ms, files, page, 0)
  {
  }

  lemma AllWritten(ms: seq<Chip>, files: map<nat, seq<Byte>>, page: nat)
    requires page > 0 && Written(ms, files, page, |ms|)
    ensures FilesMatch(ms, files, page)
  {
    assert ms[..|ms|] == ms;
  }

  /** The files match exactly when the blobs they make have the sizes the layout planned. */
  lemma MatchedIsMeasured(ms: seq<Chip>, sizes: map<Chip, nat>, files: map<nat, seq<Byte>>, page: nat)
    requires page > 0 && FilesMatch(ms, files, page) && forall m :: m in ms ==> m in sizes && m.dtbSize == sizes[m]
    ensures Measured(ms, sizes, FileBlobs(ms, files, page))
  {
  }

  /** The front of the image: header, table, end mark and padding. */
  method WriteFront(list: ChipList, version: nat, page: nat, dtbCount: nat, ghost ids: seq<ChipId>, ghost ms: seq<Chip>, ghost sizes: map<Chip, nat>)
    returns (out: seq<Byte>, expected: nat)
    requires list.Linked() && MastersListed(list.chips) && ids == Ids(list.chips) && ms == Masters(list.chips)
    requires Fits(version, page, ids, ms, sizes) && dtbCount == |ms|
    requires forall m :: m in ms ==> m.dtbSize == sizes[m] && m.masterOffset == 0
    modifies list.chips`masterOffset
    ensures out == Front(version, page, ids, ms, sizes)
    ensures expected == Base(version, |ms|, page) + Laid(ms, sizes, |ms|)
  {
    hide Masters, Ids, Table, Rows, Laid, Padding, EntrySize;
    CountFits(version, page, ids, ms, sizes);
    out := Header(version, dtbCount);
    var dtbOffset := TableEnd(version, dtbCount);
    var padding := Padding(dtbOffset, page);
    dtbOffset := dtbOffset + padding;
    var table;
    table, expected := WriteTable(list, version, page, dtbOffset, ids, ms, sizes);
    out := out + table + Le32(0) + Zeros(padding);
  }

  /**
   main from the scan on, for a list whose length the scan counted. It fails exactly when a master's file is
   gone or no longer has the size it was scanned with; else every entry leads to its master's file.
   */
  method Build(list: ChipList, version: nat, page: nat, dtbCount: nat, files: map<nat, seq<Byte>>,
               ghost ids: seq<ChipId>, ghost ms: seq<Chip>, ghost sizes: map<Chip, nat>, ghost blobs: map<Chip, seq<Byte>>)
    returns (ok: bool, out: seq<Byte>)
    requires list.Linked() && MastersListed(list.chips) && dtbCount == |list.chips|
    requires ids == Ids(list.chips) && ms == Masters(list.chips) && Fits(version, page, ids, ms, sizes)
    requires forall m :: m in ms ==> m.dtbSize == sizes[m] && m.masterOffset == 0 && !m.wroteDtb
    requires blobs == FileBlobs(ms, files, page)
    modifies list.chips`masterOffset, list.chips`wroteDtb
    ensures ok <==> FilesMatch(ms, files, page)
    ensures ok ==> Measured(ms, sizes, blobs) && out == Image(version, page, ids, ms, sizes, blobs)
  {
    hide Masters, Ids, Laid, Padding, Front, Blobs, Base, FileBlobs, MastersListed, FilesMatch;
    if FilesMatch(ms, files, page) {
      MatchedIsMeasured(ms, sizes, files, page);
      BlobsLength(ms, sizes, blobs, |ms|);
    }
    var front, expected := WriteFront(list, version, page, dtbCount, ids, ms, sizes);
    var rest;
    ok, rest := WriteBlobs(list, files, page, ms, blobs);
    out := front + rest;
    if expected != |out| {
      ok := false;
    }
  }
}
