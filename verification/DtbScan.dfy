/** The scan of dtbtool: which chips it lists, and from which files. */
module DtbScan {
  import opened DtbLayout
  import opened Chips

  // ----- Masters -----

  ghost function Masters(chips: seq<Chip>): (ms: seq<Chip>)
    ensures |ms| == |chips| && forall i :: 0 <= i < |chips| ==> ms[i] == chips[i].master
  {
    if chips == [] then [] else Masters(chips[..|chips| - 1]) + [chips[|chips| - 1].master]
  }

  /** Every master is in the list too. */
  ghost predicate MastersListed(chips: seq<Chip>) {
    forall m :: m in Masters(chips) ==> m in chips
  }

  lemma InsertedMembers(before: seq<Chip>, after: seq<Chip>, c: Chip)
    requires Inserted(before, after, c)
    ensures |after| == |before| + 1 && forall x :: x in after <==> x == c || x in before
  {
    var k :| 0 <= k <= |before| && after == before[..k] + [c] + before[k..];
    assert before == before[..k] + before[k..];
  }

  lemma InsertedMasters(before: seq<Chip>, after: seq<Chip>, c: Chip)
    requires Inserted(before, after, c) && MastersListed(before) && (c.master == c || c.master in before)
    ensures MastersListed(after)
  {
    InsertedMembers(before, after, c);
    var k :| 0 <= k <= |before| && after == before[..k] + [c] + before[k..];
    var ms := Masters(before);
    forall m | m in Masters(after) ensures m in after {
      var i :| 0 <= i < |after| && Masters(after)[i] == m;
      if i < k {
        assert m == ms[i];
      } else if i > k {
        assert after[i] == before[i - 1] && m == ms[i - 1];
      }
    }
  }

  /** The ids listed are those of the chips listed. */
  lemma {:induction false} IdsOf(chips: seq<Chip>)
    ensures forall id :: id in Ids(chips) <==> exists c :: c in chips && c.id == id
  {
    forall id | exists c :: c in chips && c.id == id ensures id in Ids(chips) {
      var c :| c in chips && c.id == id;
      var i :| 0 <= i < |chips| && chips[i] == c;
      assert Ids(chips)[i] == id;
    }
    forall id | id in Ids(chips) ensures exists c :: c in chips && c.id == id {
      var i :| 0 <= i < |chips| && Ids(chips)[i] == id;
      assert chips[i] in chips;
    }
  }

  /** The chips of list are those it had, first, and some of the others named. */
  ghost predicate GrownBy(list: ChipList, before: seq<Chip>, first: Chip, further: seq<Chip>)
    reads list
  {
    && first in list.chips && (forall x :: x in before ==> x in list.chips)
    && (forall x :: x in list.chips ==> x in before || x == first || x in further)
  }

  /** Adds one further chip of a file. */
  method AddOne(list: ChipList, c: Chip, ghost before: seq<Chip>, first: Chip, ghost further: seq<Chip>) returns (ok: bool)
    requires list.Valid() && MastersListed(list.chips) && GrownBy(list, before, first, further)
    requires c !in list.chips && c in further && c.master == first
    modifies list, list.chips`prev, list.chips`next, c`prev, c`next
    ensures list.Valid() && MastersListed(list.chips) && GrownBy(list, before, first, further)
    ensures |list.chips| == |old(list.chips)| + (if ok then 1 else 0)
    ensures forall x :: x in list.chips ==> x in old(list.chips) || x == c
    ensures c.id in Ids(list.chips) && forall id :: id in Ids(old(list.chips)) ==> id in Ids(list.chips)
  {
    hide Sorted, Unique, MastersListed, Ids;
    ok := list.Add(c);
    if ok {
      InsertedMembers(old(list.chips), list.chips, c);
      InsertedMasters(old(list.chips), list.chips, c);
      IdsOf(old(list.chips));
      IdsOf(list.chips);
    }
  }

  /** Adds the further chips of a file after its first; returns how many were not duplicates. */
  method AddFurther(list: ChipList, first: Chip, further: seq<Chip>) returns (count: nat)
    requires list.Valid() && MastersListed(list.chips) && first in list.chips
    requires forall c :: c in further ==> c.master == first && c !in list.chips
    requires forall i, j :: 0 <= i < j < |further| ==> further[i] != further[j]
    modifies list, list.chips`prev, list.chips`next, further`prev, further`next
    ensures list.Valid() && MastersListed(list.chips)
    ensures |list.chips| == |old(list.chips)| + count
    ensures GrownBy(list, old(list.chips), first, further)
    ensures count <= |further| && forall c :: c in further ==> c.id in Ids(list.chips)
  {
    hide Sorted, Unique, MastersListed, Ids;
    count := 0;
    for i := 0 to |further|
      invariant list.Valid() && MastersListed(list.chips)
      invariant |list.chips| == |old(list.chips)| + count
      invariant GrownBy(list, old(list.chips), first, further)
      invariant forall j :: i <= j < |further| ==> further[j] !in list.chips
      invariant count <= i && forall j :: 0 <= j < i ==> further[j].id in Ids(list.chips)
    {
      assert further[i] in further;
      assert forall j :: 0 <= j < |list.chips| ==> list.chips[j] in list.chips;
      var ok := AddOne(list, further[i], old(list.chips), first, further);
      if ok {
        count := count + 1;
      }
    }
  }

  method SetFile(list: ChipList, first: Chip, size: nat, path: nat)
    requires list.Valid()
    modifies first`dtbSize, first`dtbFile
    ensures list.Valid() && first.dtbSize == size && first.dtbFile == path
  {
    first.dtbSize := size;
    first.dtbFile := path;
  }

  /**
   The part of find_dtb that adds the chips of one file, the first being the master of the others.
   The result counts the chips added; a file of size zero, or whose first chip is a duplicate, adds none.
   */
  method AddFile(list: ChipList, first: Chip, further: seq<Chip>, path: nat, stSize: nat, page: nat) returns (count: nat)
    requires list.Valid() && MastersListed(list.chips) && page > 0
    requires first.master == first && first !in list.chips && first !in further
    requires forall c :: c in further ==> c.master == first && c !in list.chips
    requires forall i, j :: 0 <= i < j < |further| ==> further[i] != further[j]
    modifies list, list.chips`prev, list.chips`next, first, further`prev, further`next
    ensures list.Valid() && MastersListed(list.chips)
    ensures |list.chips| == |old(list.chips)| + count
    ensures first.masterOffset == old(first.masterOffset) && first.wroteDtb == old(first.wroteDtb)
    ensures if stSize > 0 && first.id !in Ids(old(list.chips))
            then 0 < count <= 1 + |further| && GrownBy(list, old(list.chips), first, further)
                 && (forall c :: c in further ==> c.id in Ids(list.chips))
                 && first.dtbSize == stSize + Padding(stSize, page) && first.dtbFile == path
            else count == 0 && list.chips == old(list.chips)
  {
    hide Sorted, Unique, MastersListed, Padding, Ids, ChipList.Valid, ChipList.Linked;
    count := 0;
    if stSize == 0 {
      return;
    }
    var ok := AddFirst(list, first);
    if !ok {
      return;
    }
    SetFile(list, first, stSize + Padding(stSize, page), path);
    assert forall j :: 0 <= j < |list.chips| ==> list.chips[j] in list.chips;
    count := AddFurther(list, first, further);
    count := count + 1;
  }

  method AddFirst(list: ChipList, first: Chip) returns (ok: bool)
    requires list.Valid() && MastersListed(list.chips) && first.master == first && first !in list.chips
    modifies list, list.chips`prev, list.chips`next, first`prev, first`next
    ensures list.Valid() && MastersListed(list.chips)
    ensures ok <==> first.id !in Ids(old(list.chips))
    ensures if ok then |list.chips| == |old(list.chips)| + 1 && GrownBy(list, old(list.chips), first, []) else list.chips == old(list.chips)
  {
    hide Sorted, Unique, MastersListed, Ids;
    ok := list.Add(first);
    if ok {
      InsertedMembers(old(list.chips), list.chips, first);
      InsertedMasters(old(list.chips), list.chips, first);
    }
  }

  // ----- The whole scan -----

  /** A .dtb file found: the ids parsed from it, none if parsing failed, where it is and how long. */
  datatype Source = Source(ids: seq<ChipId>, path: nat, stSize: nat)

  /** A file is taken in unless it could not be parsed, is empty, or its first id is listed already. */
  predicate TakenIn(s: Source, listed: set<ChipId>) {
    s.ids != [] && s.stSize > 0 && s.ids[0] !in listed
  }

  /** The ids listed after these files. */
  function Listed(sources: seq<Source>): set<ChipId> {
    if sources == [] then {}
    else
      var before, s := Listed(sources[..|sources| - 1]), sources[|sources| - 1];
      if TakenIn(s, before) then before + (set id | id in s.ids) else before
  }

  function TotalIds(sources: seq<Source>): nat {
    if sources == [] then 0 else TotalIds(sources[..|sources| - 1]) + |sources[|sources| - 1].ids|
  }

  /** A master as the scan makes it from its file. */
  ghost predicate FromSource(m: Chip, s: Source, page: nat)
    requires page > 0
    reads m`dtbFile, m`dtbSize
  {
    s.ids != [] && s.stSize > 0 && m.id == s.ids[0] && m.dtbFile == s.path && m.dtbSize == s.stSize + Padding(s.stSize, page)
  }

  /** No pass has been at these chips; each has an id of the file that src gives for its master, and the masters
      are made from those files. */
  ghost predicate Traced(chips: seq<Chip>, src: map<Chip, nat>, sources: seq<Source>, page: nat)
    requires page > 0
    reads chips`dtbFile, chips`dtbSize, chips`masterOffset, chips`wroteDtb
  {
    forall c :: c in chips ==>
      && c.masterOffset == 0 && !c.wroteDtb && c.master.master == c.master
      && c.master in src && src[c.master] < |sources| && c.id in sources[src[c.master]].ids
      && (c.master == c ==> FromSource(c, sources[src[c]], page))
  }

  /** Every file has at most one master, and it is listed. */
  ghost predicate OneEach(chips: seq<Chip>, src: map<Chip, nat>, n: nat) {
    && (forall m :: m in src ==> m in chips && src[m] < n)
    && (forall m, m' :: m in src && m' in src && src[m] == src[m'] ==> m == m')
  }

  /** The ids listed, and how many chips there can be. */
  ghost predicate Recorded(chips: seq<Chip>, sources: seq<Source>) {
    (forall id :: id in Ids(chips) <==> id in Listed(sources)) && |chips| <= TotalIds(sources)
  }

  /** So every master that the passes meet is as Build asks for, and its file is known. */
  lemma {:induction false} TracedMasters(chips: seq<Chip>, src: map<Chip, nat>, sources: seq<Source>, page: nat)
    requires page > 0 && MastersListed(chips) && Traced(chips, src, sources, page)
    ensures forall m :: m in Masters(chips) ==>
      m.masterOffset == 0 && !m.wroteDtb && m in src && src[m] < |sources| && FromSource(m, sources[src[m]], page)
  {
    forall m | m in Masters(chips) ensures m in chips && m.master == m {
      var i :| 0 <= i < |chips| && Masters(chips)[i] == m;
      assert chips[i] in chips;
    }
  }

  /** The chips of one file: the first is its own master and the others'. */
  method MakeChips(ids: seq<ChipId>) returns (first: Chip, further: seq<Chip>)
    requires ids != []
    ensures fresh(first) && first.id == ids[0] && first.master == first && first.masterOffset == 0 && !first.wroteDtb
    ensures |further| == |ids| - 1 && first !in further
    ensures forall i :: 0 <= i < |further| ==> fresh(further[i]) && further[i].master == first && further[i].id == ids[i + 1]
    ensures forall i, j :: 0 <= i < j < |further| ==> further[i] != further[j]
    ensures Untouched(further)
  {
    first := new Chip.First(ids[0]);
    further := [];
    for k := 1 to |ids|
      invariant |further| == k - 1 && first !in further && first.masterOffset == 0 && !first.wroteDtb
      invariant forall i :: 0 <= i < |further| ==> fresh(further[i]) && further[i].master == first && further[i].id == ids[i + 1]
      invariant forall i, j :: 0 <= i < j < |further| ==> further[i] != further[j]
      invariant Untouched(further)
    {
      var c := new Chip.Further(ids[k], first);
      further := further + [c];
    }
  }

  ghost predicate Untouched(chips: seq<Chip>)
    reads chips`masterOffset, chips`wroteDtb
  {
    forall c :: c in chips ==> c.masterOffset == 0 && !c.wroteDtb
  }

  lemma TracedGrows(chips: seq<Chip>, was: seq<Chip>, src: map<Chip, nat>, ss: seq<Source>, s: Source, first: Chip, further: seq<Chip>, page: nat)
    requires page > 0 && Traced(was, src, ss, page) && first !in src && first.master == first
    requires first.masterOffset == 0 && !first.wroteDtb && FromSource(first, s, page)
    requires Untouched(further) && first !in further && forall c :: c in further ==> c.master == first && c.id in s.ids
    requires forall c :: c in chips ==> c in was || c == first || c in further
    ensures Traced(chips, src[first := |ss|], ss + [s], page)
  {
  }

  lemma TracedSkips(chips: seq<Chip>, src: map<Chip, nat>, ss: seq<Source>, s: Source, page: nat)
    requires page > 0 && Traced(chips, src, ss, page)
    ensures Traced(chips, src, ss + [s], page)
  {
  }

  lemma {:induction false} RecordedGrows(chips: seq<Chip>, was: seq<Chip>, ss: seq<Source>, s: Source, first: Chip, further: seq<Chip>)
    requires Recorded(was, ss) && TakenIn(s, Listed(ss)) && first.id == s.ids[0] && |further| == |s.ids| - 1
    requires forall i :: 0 <= i < |further| ==> further[i].id == s.ids[i + 1]
    requires first in chips && |chips| <= |was| + |s.ids| && forall c :: c in was ==> c in chips
    requires forall c :: c in chips ==> c in was || c == first || c in further
    requires forall c :: c in further ==> c.id in Ids(chips)
    ensures Recorded(chips, ss + [s])
  {
    hide Ids;
    IdsOf(was);
    IdsOf(chips);
    assert (ss + [s])[..|ss|] == ss;
    forall id ensures id in Ids(chips) <==> id in Ids(was) || id in s.ids {
      if id in s.ids {
        var i :| 0 <= i < |s.ids| && s.ids[i] == id;
        if i > 0 {
          assert further[i - 1] in further;
        }
      }
    }
  }

  lemma {:induction false} RecordedSkips(chips: seq<Chip>, ss: seq<Source>, s: Source)
    requires Recorded(chips, ss) && !TakenIn(s, Listed(ss))
    ensures Recorded(chips, ss + [s])
  {
    assert (ss + [s])[..|ss|] == ss;
  }

  /** What the scan keeps. */
  ghost predicate Scanned(list: ChipList, src: map<Chip, nat>, sources: seq<Source>, page: nat)
    requires page > 0
    reads list, list.chips`dtbFile, list.chips`dtbSize, list.chips`masterOffset, list.chips`wroteDtb
  {
    && MastersListed(list.chips) && Traced(list.chips, src, sources, page)
    && OneEach(list.chips, src, |sources|) && Recorded(list.chips, sources)
  }

  /** AddFile for a file whose chips have been made. */
  method AddMade(list: ChipList, s: Source, first: Chip, further: seq<Chip>, page: nat, ghost src: map<Chip, nat>, ghost ss: seq<Source>)
    returns (count: nat, ghost src': map<Chip, nat>)
    requires page > 0 && list.Valid() && Scanned(list, src, ss, page) && s.ids != []
    requires first.id == s.ids[0] && first.master == first && first.masterOffset == 0 && !first.wroteDtb
    requires first !in list.chips && first !in further && Untouched(further)
    requires |further| == |s.ids| - 1 && forall i :: 0 <= i < |further| ==> further[i].id == s.ids[i + 1]
    requires forall c :: c in further ==> c.master == first && c !in list.chips
    requires forall i, j :: 0 <= i < j < |further| ==> further[i] != further[j]
    modifies list, list.chips`prev, list.chips`next, first, further`prev, further`next
    ensures list.Valid() && Scanned(list, src', ss + [s], page) && |list.chips| == |old(list.chips)| + count
    ensures forall c :: c in list.chips ==> c in old(list.chips) || c == first || c in further
  {
    hide Sorted, Unique, MastersListed, ChipList.Valid, ChipList.Linked, Padding, Ids, Traced, Recorded, Listed, Untouched;
    ghost var was := list.chips;
    ListedIs(was, ss, s);
    count := AddFile(list, first, further, s.path, s.stSize, page);
    assert Traced(was, src, ss, page) && Untouched(further);
    src' := src;
    if count > 0 {
      src' := src[first := |ss|];
      assert forall c :: c in further ==> c.id in s.ids by {
        forall c | c in further ensures c.id in s.ids {
          var i :| 0 <= i < |further| && further[i] == c;
        }
      }
      TracedGrows(list.chips, was, src, ss, s, first, further, page);
      RecordedGrows(list.chips, was, ss, s, first, further);
    } else {
      TracedSkips(list.chips, src, ss, s, page);
      RecordedSkips(list.chips, ss, s);
    }
  }

  lemma {:induction false} ListedIs(chips: seq<Chip>, ss: seq<Source>, s: Source)
    requires Recorded(chips, ss) && s.ids != []
    ensures TakenIn(s, Listed(ss)) <==> s.stSize > 0 && s.ids[0] !in Ids(chips)
  {
  }

  /** One file of the scan. */
  method ScanFile(list: ChipList, s: Source, page: nat, ghost src: map<Chip, nat>, ghost ss: seq<Source>)
    returns (count: nat, ghost src': map<Chip, nat>)
    requires page > 0 && list.Valid() && Scanned(list, src, ss, page)
    modifies list, list.chips`prev, list.chips`next
    ensures list.Valid() && Scanned(list, src', ss + [s], page) && |list.chips| == |old(list.chips)| + count
    ensures forall c :: c in list.chips ==> c in old(list.chips) || fresh(c)
  {
    hide Sorted, Unique, MastersListed, Ids, Traced, Recorded;
    if s.ids == [] {
      TracedSkips(list.chips, src, ss, s, page);
      RecordedSkips(list.chips, ss, s);
      return 0, src;
    }
    var first, further := MakeChips(s.ids);
    count, src' := AddMade(list, s, first, further, page, src, ss);
  }

  /** The scan as find_dtb makes it, file by file. The list is sorted and unique and as long as the count, its ids
      are those of the files taken in, and every chip leads through its master to the file it came from. */
  method Scan(list: ChipList, sources: seq<Source>, page: nat) returns (count: nat, ghost src: map<Chip, nat>)
    requires page > 0 && list.Valid() && list.chips == []
    modifies list
    ensures list.Valid() && Scanned(list, src, sources, page) && count == |list.chips|
    ensures forall c :: c in list.chips ==> fresh(c)
  {
    hide Sorted, Unique, MastersListed, Traced, Recorded;
    count, src := 0, map[];
    StartScan(list, page);
    for i := 0 to |sources|
      invariant list.Valid() && Scanned(list, src, sources[..i], page)
      invariant count == |list.chips| && forall c :: c in list.chips ==> fresh(c)
    {
      assert forall j :: 0 <= j < |list.chips| ==> list.chips[j] in list.chips;
      var n;
      n, src := ScanFile(list, sources[i], page, src, sources[..i]);
      count := count + n;
      assert sources[..i] + [sources[i]] == sources[..i + 1];
    }
    assert sources[..|sources|] == sources;
  }

  lemma StartScan(list: ChipList, page: nat)
    requires page > 0 && list.chips == []
    ensures Scanned(list, map[], [], page)
  {
  }
}
