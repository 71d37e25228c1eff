/** The reader of kernel input events (sensors/InputEventReader.cpp): a ring of
    n slots followed by an overflow half of n more, so that one read() always
    lands in one piece and what went over the end is copied down afterwards. */
module CircularReader {
  import opened Errno

  /** Where the i-th slot after `curr` lies in a ring of n. */
  function Slot(curr: nat, i: nat, n: nat): (k: nat)
    requires curr < n && i <= n
    ensures k < n
  {
    if curr + i < n then curr + i else curr + i - n
  }

  /** Where the next event goes: the slot after the last unread one, which is
      the end of the ring itself when a fill has just reached it. */
  ghost predicate AtTail(head: nat, curr: nat, count: nat, n: nat)
    requires curr < n && count <= n
  {
    head == Slot(curr, count, n) || (head == n && Slot(curr, count, n) == 0)
  }

  lemma TailMoves(head: nat, curr: nat, count: nat, n: nat, m: nat)
    requires curr < n && count + m <= n && AtTail(head, curr, count, n)
    ensures AtTail(if head + m > n then head + m - n else head + m, curr, count + m, n)
  {
  }

  lemma TailStays(head: nat, curr: nat, count: nat, n: nat)
    requires curr < n && 0 < count <= n && AtTail(head, curr, count, n)
    ensures AtTail(head, Slot(curr, 1, n), count - 1, n)
  {
  }

  /** The unread events, oldest first. */
  ghost function Unread<E>(buf: seq<E>, curr: nat, count: nat, n: nat): (s: seq<E>)
    requires n <= |buf| && count <= n && (curr < n || count == 0)
    ensures |s| == count
  {
    if count == 0 then [] else seq(count, i requires 0 <= i < count => buf[Slot(curr, i, n)])
  }

  /** What one read() call gives: an error, a byte count that is no whole
      number of events, or some events. In the first two cases the buffer may
      have been written all the same. */
  datatype Input<E> = Failed(errno: int, data: seq<E>) | Partial(data: seq<E>) | Events(data: seq<E>)

  /** Writing `data` from `head` on and copying down what went over the end
      appends it to the unread events. */
  lemma WrapAppends<E>(was: seq<E>, now: seq<E>, head: nat, curr: nat, count: nat, n: nat, data: seq<E>)
    requires |was| == |now| == 2 * n && count + |data| <= n && curr < n && head <= n
    requires AtTail(head, curr, count, n)
    requires forall k :: 0 <= k < n && (k < head || head + |data| <= k) && head + |data| - n <= k ==> now[k] == was[k]
    requires forall k :: 0 <= k < |data| && head + k < n ==> now[head + k] == data[k]
    requires forall k :: 0 <= k < |data| && n <= head + k ==> now[head + k - n] == data[k]
    ensures Unread(now, curr, count + |data|, n) == Unread(was, curr, count, n) + data
  {
    var s, t := Unread(now, curr, count + |data|, n), Unread(was, curr, count, n) + data;
    forall i | 0 <= i < count + |data| ensures s[i] == t[i] {
      if i >= count {
        assert t[i] == data[i - count];
        var at := head + (i - count);
        assert Slot(curr, i, n) == if at < n then at else at - n;
      }
    }
  }

  /** Writing into the free slots, and past the end, keeps the unread events. */
  lemma ScribbleKeeps<E>(was: seq<E>, now: seq<E>, head: nat, curr: nat, count: nat, n: nat, m: nat)
    requires |was| == |now| == 2 * n && count + m <= n && curr < n && head <= n
    requires AtTail(head, curr, count, n)
    requires forall k :: 0 <= k < n && (k < head || head + m <= k) ==> now[k] == was[k]
    ensures Unread(now, curr, count, n) == Unread(was, curr, count, n)
  {
    var s, t := Unread(now, curr, count, n), Unread(was, curr, count, n);
    forall i | 0 <= i < count ensures s[i] == t[i] {
    }
  }

  /** Moving on by one slot drops the oldest unread event. */
  lemma NextDrops<E>(buf: seq<E>, curr: nat, count: nat, n: nat)
    requires n <= |buf| && 0 < count <= n && curr < n
    ensures Unread(buf, Slot(curr, 1, n), count - 1, n) == Unread(buf, curr, count, n)[1..]
    ensures Unread(buf, curr, count, n)[0] == buf[curr]
  {
    var s, t := Unread(buf, Slot(curr, 1, n), count - 1, n), Unread(buf, curr, count, n)[1..];
    forall i | 0 <= i < count - 1 ensures s[i] == t[i] {
      assert Slot(Slot(curr, 1, n), i, n) == Slot(curr, i + 1, n);
    }
  }

  class InputEventCircularReader<E> {
    const mBuffer: array<E>
    const mBufferEnd: nat
    var mHead: nat
    var mCurr: nat
    var mFreeSpace: nat
    /** Every event ever read in, and every event ever moved past. */
    ghost var put: seq<E>
    ghost var got: seq<E>

    /** The ring is consistent, and the events given out followed by the unread
        ones are the events read in, in order. */
    ghost predicate Valid()
      reads this, mBuffer
    {
      && mBuffer.Length == 2 * mBufferEnd
      && mFreeSpace <= mBufferEnd && mHead <= mBufferEnd
      && (if mBufferEnd == 0 then mCurr == 0 else
            && mCurr < mBufferEnd
            && AtTail(mHead, mCurr, mBufferEnd - mFreeSpace, mBufferEnd))
      && put == got + Contents()
    }

    ghost function Contents(): (s: seq<E>)
      reads this, mBuffer
      requires mBuffer.Length == 2 * mBufferEnd && mFreeSpace <= mBufferEnd
      requires mCurr < mBufferEnd || mBufferEnd == 0
    {
      Unread(mBuffer[..], mCurr, mBufferEnd - mFreeSpace, mBufferEnd)
    }

    constructor (numEvents: nat, blank: E)
      ensures Valid() && fresh(mBuffer) && mBufferEnd == numEvents
      ensures Contents() == [] && put == [] && got == []
    {
      mBuffer := new E[numEvents * 2](_ => blank);
      mBufferEnd := numEvents;
      mHead, mCurr, mFreeSpace := 0, 0, numEvents;
      put, got := [], [];
    }

    /** read() storing `data` at `at`. */
    method Store(at: nat, data: seq<E>)
      requires at + |data| <= mBuffer.Length
      modifies mBuffer
      ensures forall k :: 0 <= k < |data| ==> mBuffer[at + k] == data[k]
      ensures forall k :: 0 <= k < mBuffer.Length && !(at <= k < at + |data|) ==> mBuffer[k] == old(mBuffer[k])
    {
      for i := 0 to |data|
        invariant forall k :: 0 <= k < i ==> mBuffer[at + k] == data[k]
        invariant forall k :: 0 <= k < mBuffer.Length && !(at <= k < at + i) ==> mBuffer[k] == old(mBuffer[k])
      {
        mBuffer[at + i] := data[i];
      }
    }

    /** memcpy of the first s slots of the overflow half to the start: the two
        ranges never overlap. */
    method CopyDown(s: nat)
      requires s <= mBufferEnd && mBuffer.Length == 2 * mBufferEnd
      modifies mBuffer
      ensures forall k :: 0 <= k < s ==> mBuffer[k] == old(mBuffer[mBufferEnd + k])
      ensures forall k :: s <= k < mBuffer.Length ==> mBuffer[k] == old(mBuffer[k])
    {
      for i := 0 to s
        invariant forall k :: 0 <= k < i ==> mBuffer[k] == old(mBuffer[mBufferEnd + k])
        invariant forall k :: i <= k < mBuffer.Length ==> mBuffer[k] == old(mBuffer[k])
      {
        mBuffer[i] := mBuffer[mBufferEnd + i];
      }
    }

    /** Takes in the events that read() has stored at the head; `was` is the
        buffer before that. */
    method Advance(ghost was: seq<E>, data: seq<E>)
      requires mBuffer.Length == |was| == 2 * mBufferEnd
      requires |data| <= mFreeSpace <= mBufferEnd && mCurr < mBufferEnd && mHead <= mBufferEnd
      requires AtTail(mHead, mCurr, mBufferEnd - mFreeSpace, mBufferEnd)
      requires forall k :: 0 <= k < |data| ==> mBuffer[mHead + k] == data[k]
      requires forall k :: 0 <= k < mBuffer.Length && !(mHead <= k < mHead + |data|) ==> mBuffer[k] == was[k]
      requires put == got + Unread(was, mCurr, mBufferEnd - mFreeSpace, mBufferEnd)
      modifies this`mHead, this`mFreeSpace, this`put, mBuffer
      ensures Valid()
      ensures Contents() == Unread(was, mCurr, mBufferEnd - old(mFreeSpace), mBufferEnd) + data
    {
      hide Unread, AtTail;
      ghost var head, count := mHead, mBufferEnd - mFreeSpace;
      if |data| > 0 {
        mHead := mHead + |data|;
        mFreeSpace := mFreeSpace - |data|;
        if mHead > mBufferEnd {
          var s := mHead - mBufferEnd;
          CopyDown(s);
          mHead := s;
        }
      }
      put := put + data;
      TailMoves(head, mCurr, count, mBufferEnd, |data|);
      WrapAppends(was, mBuffer[..], head, mCurr, count, mBufferEnd, data);
    }

    /** Reads what fits. Whole events go to the end of the queue; an error or a
        partial event changes neither the queue nor the positions. */
    method Fill(input: Input<E>) returns (r: int)
      requires Valid() && |input.data| <= mFreeSpace
      modifies this`mHead, this`mFreeSpace, this`put, mBuffer
      ensures Valid() && got == old(got)
      ensures old(mFreeSpace) == 0 ==> r == 0
      ensures old(mFreeSpace) > 0 ==> r == match input
        case Failed(errno, _) => -errno
        case Partial(_) => -EINVAL
        case Events(data) => |data|
      ensures old(mFreeSpace) > 0 && input.Events? ==> Contents() == old(Contents()) + input.data
      ensures old(mFreeSpace) == 0 || !input.Events? ==> Contents() == old(Contents()) && put == old(put)
    {
      hide Unread, AtTail;
      ghost var was, count := mBuffer[..], mBufferEnd - mFreeSpace;
      r := 0;
      if mFreeSpace > 0 {
        Store(mHead, input.data);
        match input {
          case Failed(errno, data) =>
            ScribbleKeeps(was, mBuffer[..], mHead, mCurr, count, mBufferEnd, |data|);
            return -errno;
          case Partial(data) =>
            ScribbleKeeps(was, mBuffer[..], mHead, mCurr, count, mBufferEnd, |data|);
            return -EINVAL;
          case Events(data) =>
            Advance(was, data);
            r := |data|;
        }
      }
    }

    /** Points at the oldest unread event, if there is one. */
    method ReadEvent() returns (at: nat, r: int)
      requires Valid()
      ensures r == if Contents() != [] then 1 else 0
      ensures r == 1 ==> at < mBufferEnd && mBuffer[at] == Contents()[0]
    {
      at := mCurr;
      var available := mBufferEnd - mFreeSpace;
      r := if available != 0 then 1 else 0;
      if r == 1 {
        NextDrops(mBuffer[..], mCurr, available, mBufferEnd);
      }
    }

    /** Moves past the oldest unread event. Without one it counts a free slot too many, and the reader is no longer
        valid: a caller has to have been shown an event by ReadEvent. */
    method Next()
      requires Valid()
      modifies this`mCurr, this`mFreeSpace, this`got
      ensures Valid() <==> old(Contents()) != []
      ensures put == old(put)
      ensures old(Contents()) != [] ==> Contents() == old(Contents())[1..] && got == old(got) + [old(Contents())[0]]
      ensures old(Contents()) == [] ==> mFreeSpace == mBufferEnd + 1 && got == old(got)
    {
      hide Unread, AtTail;
      ghost var count := mBufferEnd - mFreeSpace;
      if count > 0 {
        NextDrops(mBuffer[..], mCurr, count, mBufferEnd);
        TailStays(mHead, mCurr, count, mBufferEnd);
        ghost var was := Contents();
        assert was == [was[0]] + was[1..];
        got := got + [was[0]];
      }
      mCurr := mCurr + 1;
      mFreeSpace := mFreeSpace + 1;
      if mCurr >= mBufferEnd {
        mCurr := 0;
      }
    }
  }
}
