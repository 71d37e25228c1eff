/** The layout of a master DTB image: header, index table, padding, and the blobs the table points at. */
module DtbLayout {
  import opened Arith

  type Word = x: int | 0 <= x < 0x1_0000_0000

  /** A uint32_t as a little-endian host writes it. */
  function Le32(x: Word): (b: seq<Byte>)
    ensures |b| == 4 && Dec32(b) == x
  {
    [x % 256, x / 256 % 256, x / 256 / 256 % 256, x / 256 / 256 / 256]
  }

  function Dec32(b: seq<Byte>): int
    requires |b| == 4
  {
    (b[0] as int) + 256 * ((b[1] as int) + 256 * ((b[2] as int) + 256 * (b[3] as int)))
  }

  function Zeros(n: nat): (b: seq<Byte>)
    ensures |b| == n
  {
    seq(n, _ => 0)
  }

  /** What rounding up to whole pages adds: a full page when n is a multiple already. */
  function Padding(n: nat, page: nat): (p: nat)
    requires page > 0
    ensures 0 < p <= page && (n + p) % page == 0
  {
    assert (n + (page - n % page)) % page == 0 by {
      assert n + (page - n % page) == (n / page + 1) * page;
      MultipleMod(n / page + 1, page);
    }
    page - n % page
  }

  // ----- Index table -----

  /** The nine numbers that identify a device. */
  datatype ChipId = ChipId(chipset: Word, platform: Word, subtype: Word, revNum: Word,
                           pmic0: Word, pmic1: Word, pmic2: Word, pmic3: Word, oppoId: Word)

  function EntrySize(version: nat): nat {
    if version == 1 then 20 else if version == 2 then 28 else 44
  }

  function IdBytes(version: nat, id: ChipId): (b: seq<Byte>)
    requires 1 <= version <= 3
    ensures |b| == EntrySize(version) - 8
  {
    Le32(id.chipset) + Le32(id.platform)
    + (if version >= 2 then Le32(id.subtype) else [])
    + Le32(id.revNum)
    + (if version >= 2 then Le32(id.oppoId) else [])
    + (if version >= 3 then Le32(id.pmic0) + Le32(id.pmic1) + Le32(id.pmic2) + Le32(id.pmic3) else [])
  }

  function EntryBytes(version: nat, id: ChipId, offset: Word, size: Word): (b: seq<Byte>)
    requires 1 <= version <= 3
    ensures |b| == EntrySize(version)
  {
    IdBytes(version, id) + Le32(offset) + Le32(size)
  }

  /** The last two words of an entry are the offset and the size. */
  lemma EntryDecodes(version: nat, id: ChipId, offset: Word, size: Word)
    requires 1 <= version <= 3
    ensures var b := EntryBytes(version, id, offset, size);
      Dec32(b[|b| - 8..|b| - 4]) == offset && Dec32(b[|b| - 4..]) == size
  {
    hide IdBytes, Dec32;
    var b := EntryBytes(version, id, offset, size);
    assert b[|b| - 8..|b| - 4] == Le32(offset) && b[|b| - 4..] == Le32(size);
  }

  /** Word i of an entry. */
  function WordAt(b: seq<Byte>, i: nat): int
    requires 4 * i + 4 <= |b|
  {
    Dec32(b[4 * i..4 * i + 4])
  }

  /** What an entry says about the device: chipset and platform, from version 2 on subtype and OPPO id, in version 3 the four PMICs. */
  ghost predicate Names(version: nat, b: seq<Byte>, id: ChipId)
    requires 1 <= version <= 3 && |b| == EntrySize(version)
  {
    && WordAt(b, 0) == id.chipset && WordAt(b, 1) == id.platform
    && (version == 1 ==> WordAt(b, 2) == id.revNum)
    && (version >= 2 ==> WordAt(b, 2) == id.subtype && WordAt(b, 3) == id.revNum && WordAt(b, 4) == id.oppoId)
    && (version == 3 ==> WordAt(b, 5) == id.pmic0 && WordAt(b, 6) == id.pmic1 && WordAt(b, 7) == id.pmic2 && WordAt(b, 8) == id.pmic3)
  }

  /** An entry names its chip, word by word. */
  lemma EntryNames(version: nat, id: ChipId, offset: Word, size: Word)
    requires 1 <= version <= 3
    ensures Names(version, EntryBytes(version, id, offset, size), id)
  {
    hide Le32, Dec32;
    var b := EntryBytes(version, id, offset, size);
    assert b[0..4] == Le32(id.chipset) && b[4..8] == Le32(id.platform);
    if version == 1 {
      assert b[8..12] == Le32(id.revNum);
    } else {
      assert b[8..12] == Le32(id.subtype) && b[12..16] == Le32(id.revNum) && b[16..20] == Le32(id.oppoId);
    }
    if version == 3 {
      assert b[20..24] == Le32(id.pmic0) && b[24..28] == Le32(id.pmic1);
      assert b[28..32] == Le32(id.pmic2) && b[32..36] == Le32(id.pmic3);
    }
  }

  /** The words of an entry, all of them, in order. */
  function Words(version: nat, id: ChipId, offset: Word, size: Word): seq<Word> {
    if version == 1 then [id.chipset, id.platform, id.revNum, offset, size]
    else if version == 2 then [id.chipset, id.platform, id.subtype, id.revNum, id.oppoId, offset, size]
    else [id.chipset, id.platform, id.subtype, id.revNum, id.oppoId, id.pmic0, id.pmic1, id.pmic2, id.pmic3, offset, size]
  }

  /** An entry is these words and nothing more. */
  lemma EntryIsWords(version: nat, id: ChipId, offset: Word, size: Word)
    requires 1 <= version <= 3
    ensures var b, ws := EntryBytes(version, id, offset, size), Words(version, id, offset, size);
      |b| == 4 * |ws| && forall i :: 0 <= i < |ws| ==> WordAt(b, i) == ws[i]
  {
    hide Le32, Dec32;
    var b, ws := EntryBytes(version, id, offset, size), Words(version, id, offset, size);
    EntryNames(version, id, offset, size);
    EntryDecodes(version, id, offset, size);
    var n := |ws|;
    assert WordAt(b, n - 2) == Dec32(b[|b| - 8..|b| - 4]) && b[4 * (n - 1)..4 * (n - 1) + 4] == b[|b| - 4..];
    forall i | 0 <= i < n ensures WordAt(b, i) == ws[i] {
      if version == 1 {
        assert i == 0 || i == 1 || i == 2 || i == n - 2 || i == n - 1;
      }
    }
  }

  /** One table row: an id, where its blob starts and how long it is. */
  datatype Row = Row(id: ChipId, offset: Word, size: Word)

  lemma TimesNext(a: nat, n: nat)
    ensures a * (n + 1) == a * n + a
  {
  }

  function Table(version: nat, rows: seq<Row>): (b: seq<Byte>)
    requires 1 <= version <= 3
    ensures |b| == EntrySize(version) * |rows|
  {
    if rows == [] then []
    else
      var n := |rows| - 1;
      TimesNext(EntrySize(version), n);
      Table(version, rows[..n]) + EntryBytes(version, rows[n].id, rows[n].offset, rows[n].size)
  }

  /** Row k sits k entries into the table. */
  lemma {:induction false} TableRow(version: nat, rows: seq<Row>, k: nat)
    requires 1 <= version <= 3 && k < |rows|
    ensures 0 <= EntrySize(version) * k <= EntrySize(version) * (k + 1) <= |Table(version, rows)|
    ensures Table(version, rows)[EntrySize(version) * k..EntrySize(version) * (k + 1)]
         == EntryBytes(version, rows[k].id, rows[k].offset, rows[k].size)
  {
    hide EntryBytes, EntrySize;
    var n, es := |rows| - 1, EntrySize(version);
    var before := Table(version, rows[..n]);
    TimesNext(es, k);
    TimesNext(es, n);
    if k < n {
      TableRow(version, rows[..n], k);
      assert Table(version, rows)[es * k..es * (k + 1)] == before[es * k..es * (k + 1)];
    } else {
      assert Table(version, rows)[es * k..] == EntryBytes(version, rows[k].id, rows[k].offset, rows[k].size);
    }
  }

  // ----- Blobs -----

  /** A blob as the image holds it: a file zero-padded to whole pages. */
  function Padded(file: seq<Byte>, page: nat): (b: seq<Byte>)
    requires page > 0
    ensures |b| == |file| + Padding(|file|, page)
  {
    file + Zeros(Padding(|file|, page))
  }

  /** Bytes laid out for the masters of the first n entries, each counted where it is first used. */
  function Laid<M(==)>(ms: seq<M>, sizes: map<M, nat>, n: nat): nat
    requires n <= |ms| && forall m :: m in ms ==> m in sizes
  {
    if n == 0 then 0
    else Laid(ms, sizes, n - 1) + (if ms[n - 1] in ms[..n - 1] then 0 else sizes[ms[n - 1]])
  }

  /** The blob of every master in use, in the order of first use. */
  function Blobs<M(==)>(ms: seq<M>, blobs: map<M, seq<Byte>>, n: nat): seq<Byte>
    requires n <= |ms| && forall m :: m in ms ==> m in blobs
  {
    if n == 0 then []
    else Blobs(ms, blobs, n - 1) + (if ms[n - 1] in ms[..n - 1] then [] else blobs[ms[n - 1]])
  }

  /** Each blob has the size the layout planned for it. */
  predicate Measured<M(==)>(ms: seq<M>, sizes: map<M, nat>, blobs: map<M, seq<Byte>>) {
    forall m :: m in ms ==> m in sizes && m in blobs && |blobs[m]| == sizes[m]
  }

  /** The entry that first uses a master. */
  function First<M(==)>(ms: seq<M>, m: M): (f: nat)
    requires m in ms
    ensures f < |ms| && ms[f] == m && m !in ms[..f]
  {
    if ms[0] == m then 0
    else
      var f := First(ms[1..], m);
      assert ms[..f + 1] == [ms[0]] + ms[1..][..f];
      f + 1
  }

  /** A master not used before entry i is first used there. */
  lemma {:induction false} FirstHere<M>(ms: seq<M>, i: nat)
    requires i < |ms| && ms[i] !in ms[..i]
    ensures First(ms, ms[i]) == i
  {
  }

  lemma {:induction false} LaidMonotone<M>(ms: seq<M>, sizes: map<M, nat>, i: nat, n: nat)
    requires i <= n <= |ms| && forall m :: m in ms ==> m in sizes
    ensures Laid(ms, sizes, i) <= Laid(ms, sizes, n)
    decreases n
  {
    if i < n {
      LaidMonotone(ms, sizes, i, n - 1);
    }
  }

  /** The two passes agree: the first n entries take as many bytes as were laid out for them. */
  lemma {:induction false} BlobsLength<M>(ms: seq<M>, sizes: map<M, nat>, blobs: map<M, seq<Byte>>, n: nat)
    requires n <= |ms| && Measured(ms, sizes, blobs)
    ensures |Blobs(ms, blobs, n)| == Laid(ms, sizes, n)
  {
    if n > 0 {
      BlobsLength(ms, sizes, blobs, n - 1);
    }
  }

  lemma {:induction false} BlobsPrefix<M>(ms: seq<M>, blobs: map<M, seq<Byte>>, i: nat, n: nat)
    requires i <= n <= |ms| && forall m :: m in ms ==> m in blobs
    ensures Blobs(ms, blobs, i) <= Blobs(ms, blobs, n)
    decreases n
  {
    if i < n {
      BlobsPrefix(ms, blobs, i, n - 1);
      assert Blobs(ms, blobs, n - 1) <= Blobs(ms, blobs, n);
    }
  }

  /** The blob of a master starts where the masters used before it end. */
  lemma {:induction false} BlobAt<M>(ms: seq<M>, sizes: map<M, nat>, blobs: map<M, seq<Byte>>, m: M)
    requires m in ms && Measured(ms, sizes, blobs)
    ensures var at := Laid(ms, sizes, First(ms, m));
      && at + sizes[m] <= |Blobs(ms, blobs, |ms|)|
      && Blobs(ms, blobs, |ms|)[at..at + sizes[m]] == blobs[m]
  {
    var f := First(ms, m);
    BlobsPrefix(ms, blobs, f + 1, |ms|);
    BlobsLength(ms, sizes, blobs, f);
    var b := Blobs(ms, blobs, f + 1);
    assert b == Blobs(ms, blobs, f) + blobs[m];
    assert b[|Blobs(ms, blobs, f)|..] == blobs[m];
  }

  /** Blobs of different masters do not overlap: the one used first ends before the other starts. */
  lemma {:induction false} BlobsDisjoint<M>(ms: seq<M>, sizes: map<M, nat>, a: M, b: M)
    requires a in ms && b in ms && First(ms, a) < First(ms, b) && forall x :: x in ms ==> x in sizes
    ensures Laid(ms, sizes, First(ms, a)) + sizes[a] <= Laid(ms, sizes, First(ms, b))
  {
    LaidMonotone(ms, sizes, First(ms, a) + 1, First(ms, b));
  }

  lemma {:induction false} LaidWholePages<M>(ms: seq<M>, sizes: map<M, nat>, n: nat, page: nat)
    requires page > 0 && n <= |ms| && forall m :: m in ms ==> m in sizes && sizes[m] % page == 0
    ensures Laid(ms, sizes, n) % page == 0
  {
    if n > 0 {
      LaidWholePages(ms, sizes, n - 1, page);
      SumMod(Laid(ms, sizes, n - 1), sizes[ms[n - 1]], page);
    } else {
      MultipleMod(0, page);
    }
  }

  // ----- Bounds -----

  /** Two files have the same padded size exactly if they fill the same number of whole pages. */
  lemma PaddedSizeSees(n: nat, m: nat, page: nat)
    requires page > 0
    ensures n + Padding(n, page) == m + Padding(m, page) <==> n / page == m / page
  {
    assert n + Padding(n, page) == (n / page + 1) * page;
    assert m + Padding(m, page) == (m / page + 1) * page;
    if n / page < m / page {
      MulMonotone(n / page + 1, m / page, page);
    } else if m / page < n / page {
      MulMonotone(m / page + 1, n / page, page);
    }
  }

  function Sum(ws: seq<nat>): nat {
    if ws == [] then 0 else Sum(ws[..|ws| - 1]) + ws[|ws| - 1]
  }

  /** A master adds its size to the layout once, if it is used. */
  lemma {:induction false} LaidWithout<M>(ms: seq<M>, sizes: map<M, nat>, n: nat, x: M)
    requires n <= |ms| && x in sizes && forall m :: m in ms ==> m in sizes
    ensures Laid(ms, sizes, n) == Laid(ms, sizes[x := 0], n) + (if x in ms[..n] then sizes[x] else 0)
  {
    if n > 0 {
      LaidWithout(ms, sizes, n - 1, x);
      assert ms[..n] == ms[..n - 1] + [ms[n - 1]];
    }
  }

  lemma {:induction false} LaidNothing<M>(ms: seq<M>, sizes: map<M, nat>, n: nat)
    requires n <= |ms| && forall m :: m in ms ==> m in sizes && sizes[m] == 0
    ensures Laid(ms, sizes, n) == 0
  {
    if n > 0 {
      LaidNothing(ms, sizes, n - 1);
    }
  }

  /** The size of a master comes from the weight that at gives for it, no two masters sharing one. */
  predicate Weighed<M(==)>(ms: seq<M>, sizes: map<M, nat>, ws: seq<nat>, at: map<M, nat>) {
    && (forall m :: m in ms ==> m in sizes && (sizes[m] == 0 || (m in at && at[m] < |ws| && sizes[m] <= ws[at[m]])))
    && (forall m, m' :: m in ms && m' in ms && m in at && m' in at && at[m] == at[m'] ==> m == m')
  }

  /** Then the layout takes no more than all the weights. */
  lemma {:induction false} LaidBound<M>(ms: seq<M>, sizes: map<M, nat>, ws: seq<nat>, at: map<M, nat>)
    requires Weighed(ms, sizes, ws, at)
    ensures Laid(ms, sizes, |ms|) <= Sum(ws)
    decreases |ws|
  {
    if ws == [] {
      LaidNothing(ms, sizes, |ms|);
    } else {
      var k := |ws| - 1;
      if x :| x in ms && x in at && at[x] == k {
        LaidWithout(ms, sizes, |ms|, x);
        LaidBound(ms, sizes[x := 0], ws[..k], at);
      } else {
        LaidBound(ms, sizes, ws[..k], at);
      }
    }
  }
}
