/** The whole image, and what a bootloader reads back from it. */
module DtbImage {
  import opened Arith
  import opened DtbLayout
  import opened Wrappers

  const MAGIC: seq<Byte> := [0x51, 0x43, 0x44, 0x54]

  /** Header, table and end mark, before rounding up. */
  function TableEnd(version: nat, count: nat): nat {
    12 + EntrySize(version) * count + 4
  }

  /** Offset of the first blob. */
  function Base(version: nat, count: nat, page: nat): (b: nat)
    requires page > 0
    ensures b > 0 && b % page == 0
  {
    TableEnd(version, count) + Padding(TableEnd(version, count), page)
  }

  /** The masters of the entries are known, their sizes whole pages, and every offset fits in 32 bits. */
  predicate Fits<M(==)>(version: nat, page: nat, ids: seq<ChipId>, ms: seq<M>, sizes: map<M, nat>) {
    && 1 <= version <= 3 && page > 0 && |ids| == |ms|
    && (forall m :: m in ms ==> m in sizes && sizes[m] % page == 0)
    && Base(version, |ids|, page) + Laid(ms, sizes, |ms|) < 0x1_0000_0000
  }

  /** Where the blob of entry k starts. */
  function Offset<M(==)>(version: nat, page: nat, ms: seq<M>, sizes: map<M, nat>, k: nat): nat
    requires page > 0 && k < |ms| && forall m :: m in ms ==> m in sizes
  {
    Base(version, |ms|, page) + Laid(ms, sizes, First(ms, ms[k]))
  }

  lemma {:induction false} OffsetFits<M>(version: nat, page: nat, ids: seq<ChipId>, ms: seq<M>, sizes: map<M, nat>, k: nat)
    requires Fits(version, page, ids, ms, sizes) && k < |ms|
    ensures Offset(version, page, ms, sizes, k) + sizes[ms[k]] <= Base(version, |ms|, page) + Laid(ms, sizes, |ms|)
  {
    LaidMonotone(ms, sizes, First(ms, ms[k]) + 1, |ms|);
  }

  function RowOf<M(==)>(version: nat, page: nat, ids: seq<ChipId>, ms: seq<M>, sizes: map<M, nat>, k: nat): Row
    requires Fits(version, page, ids, ms, sizes) && k < |ms|
  {
    OffsetFits(version, page, ids, ms, sizes, k);
    Row(ids[k], Offset(version, page, ms, sizes, k), sizes[ms[k]])
  }

  function Rows<M(==)>(version: nat, page: nat, ids: seq<ChipId>, ms: seq<M>, sizes: map<M, nat>, n: nat): (r: seq<Row>)
    requires Fits(version, page, ids, ms, sizes) && n <= |ms|
    ensures |r| == n && forall k :: 0 <= k < n ==> r[k] == RowOf(version, page, ids, ms, sizes, k)
  {
    if n == 0 then []
    else Rows(version, page, ids, ms, sizes, n - 1) + [RowOf(version, page, ids, ms, sizes, n - 1)]
  }

  function Header(version: nat, count: nat): (b: seq<Byte>)
    requires 1 <= version <= 3 && count < 0x1_0000_0000
    ensures |b| == 12
  {
    MAGIC + Le32(version) + Le32(count)
  }

  lemma CountFits<M>(version: nat, page: nat, ids: seq<ChipId>, ms: seq<M>, sizes: map<M, nat>)
    requires Fits(version, page, ids, ms, sizes)
    ensures |ids| < 0x1_0000_0000
  {
    MulAtLeast(EntrySize(version), |ids|);
  }

  /** Everything up to the first blob. */
  function Front<M(==)>(version: nat, page: nat, ids: seq<ChipId>, ms: seq<M>, sizes: map<M, nat>): (b: seq<Byte>)
    requires Fits(version, page, ids, ms, sizes)
    ensures |b| == Base(version, |ms|, page)
  {
    CountFits(version, page, ids, ms, sizes);
    Header(version, |ids|) + Table(version, Rows(version, page, ids, ms, sizes, |ms|)) + Le32(0)
    + Zeros(Padding(TableEnd(version, |ids|), page))
  }

  function Image<M(==)>(version: nat, page: nat, ids: seq<ChipId>, ms: seq<M>, sizes: map<M, nat>, blobs: map<M, seq<Byte>>): (b: seq<Byte>)
    requires Fits(version, page, ids, ms, sizes) && Measured(ms, sizes, blobs)
    ensures |b| == Base(version, |ms|, page) + Laid(ms, sizes, |ms|)
  {
    BlobsLength(ms, sizes, blobs, |ms|);
    Front(version, page, ids, ms, sizes) + Blobs(ms, blobs, |ms|)
  }

  // ----- Reading it back -----

  /** Entry k of the table. */
  function Entry(image: seq<Byte>, version: nat, k: nat): (e: seq<Byte>)
    requires 12 + EntrySize(version) * k + EntrySize(version) <= |image|
    ensures |e| == EntrySize(version)
  {
    image[12 + EntrySize(version) * k..12 + EntrySize(version) * k + EntrySize(version)]
  }

  /** Where entry k says its blob starts, and how long it is. */
  function OffsetIn(image: seq<Byte>, version: nat, k: nat): int
    requires 12 + EntrySize(version) * k + EntrySize(version) <= |image|
  {
    var e := Entry(image, version, k);
    Dec32(e[|e| - 8..|e| - 4])
  }

  function SizeIn(image: seq<Byte>, version: nat, k: nat): int
    requires 12 + EntrySize(version) * k + EntrySize(version) <= |image|
  {
    var e := Entry(image, version, k);
    Dec32(e[|e| - 4..])
  }

  /** The bytes that entry k points at. */
  function BlobOf(image: seq<Byte>, version: nat, k: nat): Option<seq<Byte>>
    requires 12 + EntrySize(version) * k + EntrySize(version) <= |image|
  {
    var offset, size := OffsetIn(image, version, k), SizeIn(image, version, k);
    if 0 <= offset <= offset + size <= |image| then Some(image[offset..offset + size]) else None
  }

  lemma SliceRight(a: seq<Byte>, b: seq<Byte>, at: nat, n: nat)
    requires at + n <= |b|
    ensures (a + b)[|a| + at..|a| + at + n] == b[at..at + n]
  {
  }

  /** Entry k of the image is the row for chip k. */
  lemma ImageEntry<M>(version: nat, page: nat, ids: seq<ChipId>, ms: seq<M>, sizes: map<M, nat>, blobs: map<M, seq<Byte>>, k: nat)
    requires Fits(version, page, ids, ms, sizes) && Measured(ms, sizes, blobs) && k < |ms|
    ensures 12 + EntrySize(version) * k + EntrySize(version) <= |Image(version, page, ids, ms, sizes, blobs)|
    ensures var r := RowOf(version, page, ids, ms, sizes, k);
      Entry(Image(version, page, ids, ms, sizes, blobs), version, k) == EntryBytes(version, r.id, r.offset, r.size)
  {
    hide EntrySize, EntryBytes, Blobs, Laid, Le32, Zeros;
    var rows, es := Rows(version, page, ids, ms, sizes, |ms|), EntrySize(version);
    TableRow(version, rows, k);
    TimesNext(es, k);
    CountFits(version, page, ids, ms, sizes);
    var h, t := Header(version, |ids|), Table(version, rows);
    var image := Image(version, page, ids, ms, sizes, blobs);
    assert image[12..12 + |t|] == t;
    assert image[12 + es * k..12 + es * k + es] == t[es * k..es * (k + 1)];
  }

  /** The bytes at the offset of chip k are the blob of its master. */
  lemma ImageBlob<M>(version: nat, page: nat, ids: seq<ChipId>, ms: seq<M>, sizes: map<M, nat>, blobs: map<M, seq<Byte>>, k: nat)
    requires Fits(version, page, ids, ms, sizes) && Measured(ms, sizes, blobs) && k < |ms|
    ensures var at, image := Offset(version, page, ms, sizes, k), Image(version, page, ids, ms, sizes, blobs);
      at + sizes[ms[k]] <= |image| && image[at..at + sizes[ms[k]]] == blobs[ms[k]]
  {
    hide Front, Blobs, Laid, Base, First;
    BlobAt(ms, sizes, blobs, ms[k]);
    SliceRight(Front(version, page, ids, ms, sizes), Blobs(ms, blobs, |ms|), Laid(ms, sizes, First(ms, ms[k])), sizes[ms[k]]);
  }

  /** Entry k of the image holds the offset and size planned for its master. */
  lemma ReadBackPlace<M>(version: nat, page: nat, ids: seq<ChipId>, ms: seq<M>, sizes: map<M, nat>, blobs: map<M, seq<Byte>>, k: nat)
    requires Fits(version, page, ids, ms, sizes) && Measured(ms, sizes, blobs) && k < |ms|
    ensures 12 + EntrySize(version) * k + EntrySize(version) <= |Image(version, page, ids, ms, sizes, blobs)|
    ensures var image := Image(version, page, ids, ms, sizes, blobs);
      OffsetIn(image, version, k) == Offset(version, page, ms, sizes, k) && SizeIn(image, version, k) == sizes[ms[k]]
  {
    hide Image, EntryBytes;
    var r := RowOf(version, page, ids, ms, sizes, k);
    ImageEntry(version, page, ids, ms, sizes, blobs, k);
    EntryDecodes(version, r.id, r.offset, r.size);
  }

  /** Following entry k of the image leads to the blob of chip k's master, whatever the format version. */
  lemma ReadBack<M>(version: nat, page: nat, ids: seq<ChipId>, ms: seq<M>, sizes: map<M, nat>, blobs: map<M, seq<Byte>>, k: nat)
    requires Fits(version, page, ids, ms, sizes) && Measured(ms, sizes, blobs) && k < |ms|
    ensures 12 + EntrySize(version) * k + EntrySize(version) <= |Image(version, page, ids, ms, sizes, blobs)|
    ensures BlobOf(Image(version, page, ids, ms, sizes, blobs), version, k) == Some(blobs[ms[k]])
  {
    hide Image, OffsetIn, SizeIn;
    ReadBackPlace(version, page, ids, ms, sizes, blobs, k);
    ImageBlob(version, page, ids, ms, sizes, blobs, k);
  }

  ghost predicate EntryNamed(image: seq<Byte>, version: nat, k: nat, id: ChipId)
    requires 1 <= version <= 3
  {
    12 + EntrySize(version) * k + EntrySize(version) <= |image| && Names(version, Entry(image, version, k), id)
  }

  /** Entry k of the image names chip k. */
  lemma ReadBackNames<M>(version: nat, page: nat, ids: seq<ChipId>, ms: seq<M>, sizes: map<M, nat>, blobs: map<M, seq<Byte>>, k: nat)
    requires Fits(version, page, ids, ms, sizes) && Measured(ms, sizes, blobs) && k < |ms|
    ensures EntryNamed(Image(version, page, ids, ms, sizes, blobs), version, k, ids[k])
  {
    hide Image, EntryBytes, Names;
    var r := RowOf(version, page, ids, ms, sizes, k);
    ImageEntry(version, page, ids, ms, sizes, blobs, k);
    EntryNames(version, r.id, r.offset, r.size);
  }

  /** The image starts with its magic, version and number of entries, and a zero word ends the table. */
  ghost predicate HeaderSays(image: seq<Byte>, version: nat, count: nat) {
    var end := 12 + EntrySize(version) * count;
    && end + 4 <= |image| && image[..4] == [0x51, 0x43, 0x44, 0x54]
    && Dec32(image[4..8]) == version && Dec32(image[8..12]) == count && Dec32(image[end..end + 4]) == 0
  }

  lemma ReadBackHeader<M>(version: nat, page: nat, ids: seq<ChipId>, ms: seq<M>, sizes: map<M, nat>, blobs: map<M, seq<Byte>>)
    requires Fits(version, page, ids, ms, sizes) && Measured(ms, sizes, blobs)
    ensures HeaderSays(Image(version, page, ids, ms, sizes, blobs), version, |ids|)
  {
    hide EntrySize, Table, Rows, Blobs, Laid, Le32, Dec32, Zeros, Padding;
    CountFits(version, page, ids, ms, sizes);
    var image, end := Image(version, page, ids, ms, sizes, blobs), 12 + EntrySize(version) * |ids|;
    assert image[..4] == MAGIC && image[4..8] == Le32(version) && image[8..12] == Le32(|ids|);
    assert image[end..end + 4] == Le32(0);
  }

  /** The first blob starts at the first whole page after the table, and the image ends with the last blob. */
  lemma {:induction false} ImageTight<M>(version: nat, page: nat, ids: seq<ChipId>, ms: seq<M>, sizes: map<M, nat>, blobs: map<M, seq<Byte>>)
    requires Fits(version, page, ids, ms, sizes) && Measured(ms, sizes, blobs) && ms != []
    ensures var first, end := Offset(version, page, ms, sizes, 0), 12 + EntrySize(version) * |ms| + 4;
      && first % page == 0 && end < first <= end + page
      && |Image(version, page, ids, ms, sizes, blobs)| == first + Laid(ms, sizes, |ms|)
  {
    FirstHere(ms, 0);
    OffsetsWholePages(version, page, ids, ms, sizes, 0);
  }

  /** Blobs start on whole pages. */
  lemma OffsetsWholePages<M>(version: nat, page: nat, ids: seq<ChipId>, ms: seq<M>, sizes: map<M, nat>, k: nat)
    requires Fits(version, page, ids, ms, sizes) && k < |ms|
    ensures Offset(version, page, ms, sizes, k) % page == 0
  {
    LaidWholePages(ms, sizes, First(ms, ms[k]), page);
    SumMod(Base(version, |ms|, page), Laid(ms, sizes, First(ms, ms[k])), page);
  }

  /** Entries of one master share its blob; the blobs of two masters do not overlap. */
  lemma OffsetsDisjoint<M>(version: nat, page: nat, ids: seq<ChipId>, ms: seq<M>, sizes: map<M, nat>, j: nat, k: nat)
    requires Fits(version, page, ids, ms, sizes) && j < |ms| && k < |ms|
    ensures ms[j] == ms[k] ==> Offset(version, page, ms, sizes, j) == Offset(version, page, ms, sizes, k)
    ensures ms[j] != ms[k] ==>
      || Offset(version, page, ms, sizes, j) + sizes[ms[j]] <= Offset(version, page, ms, sizes, k)
      || Offset(version, page, ms, sizes, k) + sizes[ms[k]] <= Offset(version, page, ms, sizes, j)
  {
    if ms[j] != ms[k] {
      if First(ms, ms[j]) < First(ms, ms[k]) {
        BlobsDisjoint(ms, sizes, ms[j], ms[k]);
      } else {
        BlobsDisjoint(ms, sizes, ms[k], ms[j]);
      }
    }
  }
}
