/** The doubly linked list of gps/utils/linked_list.c. New elements go in at the head; removal takes the tail. */
module LinkedList {
  import opened Wrappers

  /** A void pointer; 0 is NULL. */
  type Ptr = nat
  const NULL: Ptr := 0

  datatype Err = Success | FailureGeneral | InvalidParameter | InvalidHandle | UnavailableResource

  /** What an element carries: the data pointer and the function that frees it. */
  datatype Item = Item(data: Ptr, dealloc: Ptr)

  /** The deallocator calls that freeing these items makes, newest item first. */
  function Deallocs(items: seq<Item>): seq<Item> {
    if items == [] then []
    else
      var newest, rest := items[|items| - 1], Deallocs(items[..|items| - 1]);
      if newest.dealloc != NULL then [newest] + rest else rest
  }

  class ListElement {
    var next: ListElement?
    var prev: ListElement?
    var item: Item

    constructor (item: Item)
      ensures this.item == item && next == null && prev == null
    {
      this.item := item;
      next, prev := null, null;
    }
  }

  class List {
    var head: ListElement?
    var tail: ListElement?
    /** The elements, oldest first: the tail is elems[0], the head the last one. */
    ghost var elems: seq<ListElement>
    /** The list as a queue, oldest item first. */
    ghost var items: seq<Item>

    ghost predicate Valid()
      reads this, elems
    {
      && |items| == |elems|
      && (forall i :: 0 <= i < |elems| ==> elems[i].item == items[i])
      && Linked()
    }

    ghost predicate Linked()
      reads this, elems
    {
      && (forall i, j :: 0 <= i < j < |elems| ==> elems[i] != elems[j])
      && (elems == [] ==> tail == head == null)
      && (elems != [] ==>
            && tail == elems[0] && tail.next == null
            && head == elems[|elems| - 1] && head.prev == null)
      && (forall i, j {:trigger elems[i], elems[j]} :: 0 <= i < |elems| && j == i + 1 < |elems| ==>
            elems[i].prev == elems[j] && elems[j].next == elems[i])
    }

    constructor ()
      ensures Valid() && elems == [] && items == []
    {
      head, tail, elems, items := null, null, [], [];
    }

    method Add(data: Ptr, dealloc: Ptr) returns (rv: Err)
      requires Valid()
      modifies this, elems
      ensures Valid()
      ensures rv == if data == NULL then InvalidParameter else Success
      ensures items == old(items) + (if data == NULL then [] else [Item(data, dealloc)])
      ensures forall e :: e in elems ==> e in old(elems) || fresh(e)
    {
      if data == NULL {
        return InvalidParameter;
      }
      var elem := new ListElement(Item(data, dealloc));
      var tmp := head;
      head := elem;
      head.next := tmp;
      if tmp != null {
        tmp.prev := head;
      } else {
        tail := head;
      }
      elems, items := elems + [elem], items + [elem.item];
      return Success;
    }

    /** Takes out the oldest item. Of an empty list nothing is handed out. */
    method Remove() returns (rv: Err, data: Option<Ptr>)
      requires Valid()
      modifies this, elems
      ensures Valid()
      ensures if old(items) == [] then rv == UnavailableResource && data == None && items == []
              else rv == Success && data == Some(old(items)[0].data) && items == old(items)[1..]
      ensures forall e :: e in elems ==> e in old(elems)
    {
      if tail == null {
        return UnavailableResource, None;
      }
      var tmp := tail;
      assert |elems| > 1 ==> tmp.prev == elems[1];
      tail := tmp.prev;
      if tail != null {
        tail.next := null;
      } else {
        head := tail;
      }
      data := Some(tmp.item.data);
      elems, items := elems[1..], items[1..];
      return Success, data;
    }

    method Empty() returns (b: bool)
      requires Valid()
      ensures b <==> items == []
    {
      b := head == null;
    }

    /** Frees every element; returns the deallocator calls made. */
    method Flush() returns (calls: seq<Item>)
      requires Valid()
      modifies this
      ensures Valid() && items == []
      ensures calls == Deallocs(old(items))
    {
      calls := [];
      ghost var n := |elems|;
      assert items[..n] == items;
      while head != null
        modifies this`head
        invariant 0 <= n <= |elems|
        invariant head == if n == 0 then null else elems[n - 1]
        invariant calls + Deallocs(items[..n]) == Deallocs(items)
        decreases n
      {
        var tmp := head.next;
        assert items[..n][..n - 1] == items[..n - 1] && items[..n][n - 1] == head.item;
        if head.item.dealloc != NULL {
          calls := calls + [head.item];
        }
        head := tmp;
        n := n - 1;
      }
      tail := null;
      elems, items := [], [];
    }

    /**
     Looks from the head for an item that matches and takes it out if asked to. Its data is handed out
     when the caller wants it, else freed with the element. k is the place of the match, -1 if none. was is
     what the caller's data pointer pointed at before; on an empty list it is left so.
     */
    method Search(equal: Ptr -> bool, wantData: bool, rmIfFound: bool, was: Ptr)
      returns (rv: Err, data: Ptr, calls: seq<Item>, ghost k: int)
      requires Valid()
      modifies this, elems
      ensures Valid()
      ensures rv == if old(items) == [] then UnavailableResource else Success
      ensures -1 <= k < |old(items)|
      ensures forall i :: k < i < |old(items)| ==> !equal(old(items)[i].data)
      ensures k >= 0 ==> equal(old(items)[k].data)
      ensures data == if old(items) == [] || !wantData then was else if k >= 0 then old(items)[k].data else NULL
      ensures items == if k >= 0 && rmIfFound then old(items)[..k] + old(items)[k + 1..] else old(items)
      ensures calls == if k >= 0 && rmIfFound && !wantData then Deallocs([old(items)[k]]) else []
    {
      data, calls, k := was, [], -1;
      if tail == null {
        return UnavailableResource, was, [], -1;
      }
      if wantData {
        data := NULL;
      }
      var tmp;
      tmp, k := Find(equal);
      if tmp != null {
        if wantData {
          data := tmp.item.data;
        }
        if rmIfFound {
          if !wantData && tmp.item.dealloc != NULL {
            calls := [tmp.item];
          }
          TakeOut(tmp, k);
        }
      }
      return Success, data, calls, k;
    }

    /** The loop of the search: the match nearest the head, if any. */
    method Find(equal: Ptr -> bool) returns (tmp: ListElement?, ghost k: int)
      requires Valid()
      ensures -1 <= k < |elems|
      ensures forall i :: k < i < |elems| ==> !equal(items[i].data)
      ensures if k >= 0 then tmp == elems[k] && equal(items[k].data) else tmp == null
    {
      tmp, k := head, |elems| - 1;
      while tmp != null && !equal(tmp.item.data)
        invariant -1 <= k < |elems| && tmp == (if k < 0 then null else elems[k])
        invariant forall i :: k < i < |elems| ==> !equal(items[i].data)
        decreases k
      {
        tmp := tmp.next;
        k := k - 1;
      }
    }

    method TakeOut(tmp: ListElement, ghost k: nat)
      requires Valid() && k < |elems| && tmp == elems[k]
      modifies this, elems`next, elems`prev
      ensures Valid() && items == old(items)[..k] + old(items)[k + 1..]
    {
      Unlink(tmp, k);
      items := items[..k] + items[k + 1..];
    }

    /** Relinks the neighbours of an element around it. */
    method Unlink(tmp: ListElement, ghost k: nat)
      requires Linked() && k < |elems| && tmp == elems[k]
      modifies this`head, this`tail, this`elems, elems`next, elems`prev
      ensures Linked() && elems == old(elems)[..k] + old(elems)[k + 1..]
    {
      assert k > 0 ==> tmp.next == elems[k - 1];
      assert k + 1 < |elems| ==> tmp.prev == elems[k + 1];
      if tmp.prev == null {
        head := tmp.next;
      } else {
        tmp.prev.next := tmp.next;
      }
      if tmp.next == null {
        tail := tmp.prev;
      } else {
        tmp.next.prev := tmp.prev;
      }
      elems := elems[..k] + elems[k + 1..];
    }
  }
}
