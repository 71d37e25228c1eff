/** The sorted list of chips that dtbtool builds while it scans files. */
module Chips {
  import opened DtbLayout

  // ----- Order -----

  /** The order of the list: by chipset, then platform, then subtype, then revision. */
  predicate Less(a: ChipId, b: ChipId) {
    a.chipset < b.chipset ||
    (a.chipset == b.chipset &&
     (a.platform < b.platform ||
      (a.platform == b.platform &&
       (a.subtype < b.subtype || (a.subtype == b.subtype && a.revNum < b.revNum)))))
  }

  /** Numbers in dictionary order. */
  predicate LexLess(a: seq<Word>, b: seq<Word>) {
    b != [] && (a == [] || a[0] < b[0] || (a[0] == b[0] && LexLess(a[1..], b[1..])))
  }

  function SortKey(id: ChipId): seq<Word> {
    [id.chipset, id.platform, id.subtype, id.revNum]
  }

  /** That is the dictionary order of those four numbers. */
  lemma LessIsLexicographic(a: ChipId, b: ChipId)
    ensures Less(a, b) <==> LexLess(SortKey(a), SortKey(b))
  {
    LexStep(a.chipset, [a.platform, a.subtype, a.revNum], b.chipset, [b.platform, b.subtype, b.revNum]);
    LexStep(a.platform, [a.subtype, a.revNum], b.platform, [b.subtype, b.revNum]);
    LexStep(a.subtype, [a.revNum], b.subtype, [b.revNum]);
    LexStep(a.revNum, [], b.revNum, []);
    assert SortKey(a) == [a.chipset] + [a.platform, a.subtype, a.revNum];
    assert SortKey(b) == [b.chipset] + [b.platform, b.subtype, b.revNum];
    assert [a.platform] + [a.subtype, a.revNum] == [a.platform, a.subtype, a.revNum];
    assert [b.platform] + [b.subtype, b.revNum] == [b.platform, b.subtype, b.revNum];
    assert [a.subtype] + [a.revNum] == [a.subtype, a.revNum] && [b.subtype] + [b.revNum] == [b.subtype, b.revNum];
    assert [a.revNum] + [] == [a.revNum] && [b.revNum] + [] == [b.revNum];
  }

  lemma {:induction false} LexStep(x: Word, xs: seq<Word>, y: Word, ys: seq<Word>)
    ensures LexLess([x] + xs, [y] + ys) <==> x < y || (x == y && LexLess(xs, ys))
  {
    assert ([x] + xs)[1..] == xs && ([y] + ys)[1..] == ys;
  }

  ghost predicate Sorted(ids: seq<ChipId>) {
    forall i, j :: 0 <= i < j < |ids| ==> !Less(ids[j], ids[i])
  }

  ghost predicate Unique(ids: seq<ChipId>) {
    forall i, j :: 0 <= i < j < |ids| ==> ids[i] != ids[j]
  }

  /** A place where a new id goes: after everything not above it, before everything above it. */
  predicate GoesAt(ids: seq<ChipId>, id: ChipId, k: nat) {
    && k <= |ids|
    && (forall i :: 0 <= i < k ==> !Less(id, ids[i]))
    && (k < |ids| ==> Less(id, ids[k]))
  }

  /** In a sorted list every id past the place where a new one goes is above it, so a duplicate lies before. */
  lemma AboveFromHere(ids: seq<ChipId>, id: ChipId, k: nat)
    requires Sorted(ids) && GoesAt(ids, id, k)
    ensures forall i :: k <= i < |ids| ==> Less(id, ids[i]) && ids[i] != id
  {
    forall i | k <= i < |ids| ensures Less(id, ids[i]) && ids[i] != id {
      assert k < i ==> !Less(ids[i], ids[k]);
    }
  }

  lemma InsertKeepsOrder(ids: seq<ChipId>, id: ChipId, k: nat)
    requires Sorted(ids) && Unique(ids) && GoesAt(ids, id, k) && id !in ids
    ensures Sorted(ids[..k] + [id] + ids[k..]) && Unique(ids[..k] + [id] + ids[k..])
  {
    AboveFromHere(ids, id, k);
  }

  // ----- The list -----

  class Chip {
    const id: ChipId
    const master: Chip
    var dtbSize: nat
    var dtbFile: nat
    var wroteDtb: bool
    var masterOffset: nat
    var next: Chip?
    var prev: Chip?

    /** The first chip of a file is its own master. */
    constructor First(id: ChipId)
      ensures this.id == id && master == this && masterOffset == 0 && !wroteDtb
    {
      this.id, master := id, this;
      dtbSize, dtbFile, wroteDtb, masterOffset, next, prev := 0, 0, false, 0, null, null;
    }

    constructor Further(id: ChipId, first: Chip)
      ensures this.id == id && master == first && masterOffset == 0 && !wroteDtb
    {
      this.id, master := id, first;
      dtbSize, dtbFile, wroteDtb, masterOffset, next, prev := 0, 0, false, 0, null, null;
    }
  }

  function Ids(chips: seq<Chip>): (r: seq<ChipId>)
    ensures |r| == |chips| && forall i :: 0 <= i < |chips| ==> r[i] == chips[i].id
  {
    if chips == [] then [] else Ids(chips[..|chips| - 1]) + [chips[|chips| - 1].id]
  }

  class ChipList {
    var head: Chip?
    ghost var chips: seq<Chip>

    ghost predicate Linked()
      reads this, chips`next, chips`prev
    {
      && (forall i, j :: 0 <= i < j < |chips| ==> chips[i] != chips[j])
      && (chips == [] ==> head == null)
      && (chips != [] ==> head == chips[0] && head.prev == null && chips[|chips| - 1].next == null)
      && (forall i, j {:trigger chips[i], chips[j]} :: 0 <= i < |chips| && j == i + 1 < |chips| ==>
            chips[i].next == chips[j] && chips[j].prev == chips[i])
    }

    ghost predicate Valid()
      reads this, chips`next, chips`prev
    {
      Linked() && Sorted(Ids(chips)) && Unique(Ids(chips))
    }

    constructor ()
      ensures Valid() && chips == []
    {
      head, chips := null, [];
    }

    /** One step of a walk over the list. */
    method Next(x: Chip, ghost k: nat) returns (y: Chip?)
      requires Linked() && k < |chips| && x == chips[k]
      ensures if k + 1 < |chips| then y == chips[k + 1] else y == null
    {
      y := x.next;
    }

    /** Links c in front of x, or behind the last element. */
    method InsertBefore(c: Chip, x: Chip, ghost k: nat)
      requires Linked() && c !in chips && k < |chips| && x == chips[k]
      modifies this, chips`prev, chips`next, c`prev, c`next
      ensures Linked() && chips == old(chips)[..k] + [c] + old(chips)[k..]
    {
      assert k > 0 ==> x.prev == chips[k - 1];
      c.next := x;
      c.prev := x.prev;
      if x.prev == null {
        head := c;
      } else {
        x.prev.next := c;
      }
      x.prev := c;
      chips := chips[..k] + [c] + chips[k..];
    }

    method Append(c: Chip, x: Chip)
      requires Linked() && c !in chips && chips != [] && x == chips[|chips| - 1]
      modifies this, chips`next, c`prev, c`next
      ensures Linked() && chips == old(chips) + [c]
    {
      c.prev := x;
      c.next := null;
      x.next := c;
      chips := chips + [c];
    }

    /** The loop of chip_add: stops at a chip to go in front of, at a duplicate, or at the last chip. */
    method Place(c: Chip) returns (x: Chip, ghost k: nat)
      requires Linked() && chips != []
      ensures k < |chips| && x == chips[k]
      ensures forall i :: 0 <= i < k ==> !Less(c.id, chips[i].id) && chips[i].id != c.id
      ensures Less(c.id, x.id) || c.id == x.id || k == |chips| - 1
    {
      x, k := head, 0;
      while !Less(c.id, x.id) && c.id != x.id && x.next != null
        invariant 0 <= k < |chips| && x == chips[k]
        invariant forall i :: 0 <= i < k ==> !Less(c.id, chips[i].id) && chips[i].id != c.id
        decreases |chips| - k
      {
        assert k + 1 < |chips| ==> x.next == chips[k + 1];
        x := x.next;
        k := k + 1;
      }
      assert k + 1 < |chips| ==> x.next == chips[k + 1];
    }

    /** chip_add: fails exactly when a chip with the same nine numbers is there, and then changes nothing. */
    method Add(c: Chip) returns (ok: bool)
      requires Valid() && c !in chips
      modifies this, chips`prev, chips`next, c`prev, c`next
      ensures Valid()
      ensures ok <==> c.id !in Ids(old(chips))
      ensures if ok then Inserted(old(chips), chips, c) else chips == old(chips)
    {
      hide Sorted, Unique;
      if head == null {
        InsertedOrder(chips, c, 0);
        head := c;
        c.next, c.prev := null, null;
        chips := chips[..0] + [c] + chips[0..];
        return true;
      }
      var x;
      ghost var k;
      x, k := Place(c);
      if Less(c.id, x.id) {
        InsertedOrder(chips, c, k);
        InsertBefore(c, x, k);
        return true;
      }
      if c.id == x.id {
        assert Ids(chips)[k] == c.id;
        return false;
      }
      InsertedOrder(chips, c, |chips|);
      assert chips + [c] == chips[..|chips|] + [c] + chips[|chips|..];
      Append(c, x);
      return true;
    }
  }

  ghost predicate Inserted(before: seq<Chip>, after: seq<Chip>, c: Chip) {
    exists k :: 0 <= k <= |before| && after == before[..k] + [c] + before[k..]
  }

  lemma {:induction false} InsertedOrder(chips: seq<Chip>, c: Chip, k: nat)
    requires Sorted(Ids(chips)) && Unique(Ids(chips)) && GoesAt(Ids(chips), c.id, k)
    requires forall i :: 0 <= i < k ==> chips[i].id != c.id
    ensures c.id !in Ids(chips)
    ensures var after := chips[..k] + [c] + chips[k..]; Sorted(Ids(after)) && Unique(Ids(after))
  {
    hide Sorted, Unique;
    var ids, after := Ids(chips), chips[..k] + [c] + chips[k..];
    AboveFromHere(ids, c.id, k);
    assert Ids(after) == ids[..k] + [c.id] + ids[k..];
    InsertKeepsOrder(ids, c.id, k);
  }
}
