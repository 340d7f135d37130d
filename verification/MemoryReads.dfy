/**
 * What the evaluator is told about memory is true: a read that a snapshot serves is
 * what the console's memory held when the snapshot was taken.
 */
module MemoryReads {
  import opened Common
  import opened WatchLists
  import opened Evaluators

  type Ram = nat -> Byte

  /** The bytes from this address on. */
  function BytesAt(m: Ram, address: nat, size: nat): (r: Bytes)
    ensures |r| == size && forall k | 0 <= k < size :: r[k] == m(address + k)
  {
    seq(size, k requires 0 <= k < size => m(address + k))
  }

  /**
   * A snapshot of this memory: the bytes of each direct entry, one entry after another, and for each pointer
   * node eight bytes, the address it leads to, zero for none, and the bytes found there.
   */
  ghost predicate TakenFrom(w: Watch, values: Bytes, m: Ram)
    requires WellLaidOut(w) && |values| in w.SnapshotSizes()
  {
    && (forall i: nat | i < w.count :: EntryTaken(w, values, m, i))
    && (|values| > w.directBytes ==> forall i: nat | i < w.nodes :: PairTaken(w, values, m, i))
  }

  ghost predicate EntryTaken(w: Watch, values: Bytes, m: Ram, i: nat)
    requires WellLaidOut(w) && |values| in w.SnapshotSizes() && i < w.count
  {
    var at := EntryOffset(w, i);
    && at + EntrySize(w, i) <= |values|
    && values[at..at + EntrySize(w, i)] == BytesAt(m, EntryAddress(w, i), EntrySize(w, i))
  }

  ghost predicate PairTaken(w: Watch, values: Bytes, m: Ram, i: nat)
    requires WellLaidOut(w) && |values| == w.directBytes + 8 * w.nodes && i < w.nodes
  {
    var at := w.directBytes + 8 * i;
    Word(values, at) != 0 ==> values[at + 4..at + 4 + NodeSize(w, i)] == BytesAt(m, Word(values, at), NodeSize(w, i))
  }

  ghost predicate IsTrue(s: Segment, m: Ram) { s.bytes == BytesAt(m, s.address, |s.bytes|) }

  ghost predicate AllTrue(segments: seq<Segment>, m: Ram) { forall i | 0 <= i < |segments| :: IsTrue(segments[i], m) }

  lemma {:induction false} DirectIsTrue(w: Watch, values: Bytes, m: Ram, n: nat)
    requires WellLaidOut(w) && |values| in w.SnapshotSizes() && n <= w.count && w.directBytes <= |values|
    requires forall i: nat | i < w.count :: EntryTaken(w, values, m, i)
    ensures AllTrue(DirectSegments(w, values, n), m)
  {
    hide Word, BytesAt;
    if n > 0 {
      DirectIsTrue(w, values, m, n - 1);
      NextEntry(w, values, n - 1);
      assert EntryTaken(w, values, m, n - 1);
    }
  }

  lemma {:induction false} PointersAreTrue(w: Watch, values: Bytes, m: Ram, n: nat)
    requires WellLaidOut(w) && |values| == w.directBytes + 8 * w.nodes && n <= w.nodes
    requires forall i: nat | i < w.nodes :: PairTaken(w, values, m, i)
    ensures AllTrue(PointerSegments(w, values, n), m)
  {
    hide Word, BytesAt;
    if n > 0 {
      PointersAreTrue(w, values, m, n - 1);
      assert PairTaken(w, values, m, n - 1);
    }
  }

  lemma {:induction false} TrueReads(segments: seq<Segment>, m: Ram, address: nat, size: nat)
    requires AllTrue(segments, m) && ReadAt(segments, address, size).Some?
    ensures ReadAt(segments, address, size).value == LittleEndian(BytesAt(m, address, size))
  {
    if Covers(segments[0], address, size) {
      var s := segments[0];
      assert IsTrue(s, m);
      assert s.bytes[address - s.address..address - s.address + size] == BytesAt(m, address, size);
    } else {
      assert forall i | 0 <= i < |segments[1..]| :: segments[1..][i] == segments[i + 1];
      TrueReads(segments[1..], m, address, size);
    }
  }

  /**
   * A read that a snapshot serves has the value of the memory the snapshot was taken from, direct or through a
   * pointer.
   */
  lemma ReadsAreTrue(w: Watch, values: Bytes, m: Ram, address: nat, size: nat)
    requires WellLaidOut(w) && |values| in w.SnapshotSizes() && TakenFrom(w, values, m)
    requires ReadAt(Segments(w, values), address, size).Some?
    ensures ReadAt(Segments(w, values), address, size).value == LittleEndian(BytesAt(m, address, size))
  {
    hide Word, BytesAt, ReadAt, LittleEndian;
    DirectIsTrue(w, values, m, w.count);
    var direct := DirectSegments(w, values, w.count);
    if |values| > w.directBytes {
      PointersAreTrue(w, values, m, w.nodes);
      var pointers := PointerSegments(w, values, w.nodes);
      assert forall i | 0 <= i < |direct + pointers| ::
        (direct + pointers)[i] == if i < |direct| then direct[i] else pointers[i - |direct|];
    } else {
      assert direct + [] == direct;
    }
    TrueReads(Segments(w, values), m, address, size);
  }

  lemma {:induction false} DirectSegmentIn(w: Watch, values: Bytes, i: nat, n: nat)
    requires WellLaidOut(w) && i < n <= w.count && w.directBytes <= |values|
    ensures EntryOffset(w, i) + EntrySize(w, i) <= |values|
    ensures Segment(EntryAddress(w, i), values[EntryOffset(w, i)..EntryOffset(w, i) + EntrySize(w, i)])
            in DirectSegments(w, values, n)
  {
    hide Word;
    NextEntry(w, values, n - 1);
    if i < n - 1 { DirectSegmentIn(w, values, i, n - 1); }
  }

  lemma {:induction false} PointerSegmentIn(w: Watch, values: Bytes, i: nat, n: nat)
    requires WellLaidOut(w) && |values| == w.directBytes + 8 * w.nodes && i < n <= w.nodes
    requires Word(values, w.directBytes + 8 * i) != 0
    ensures var at := w.directBytes + 8 * i;
      Segment(Word(values, at), values[at + 4..at + 4 + NodeSize(w, i)]) in PointerSegments(w, values, n)
  {
    hide Word;
    if i < n - 1 { PointerSegmentIn(w, values, i, n - 1); }
  }

  /** What is watched is served: every entry whole, and in a snapshot with pointers what each one leads to. */
  lemma WatchedIsServed(w: Watch, values: Bytes, i: nat)
    requires WellLaidOut(w) && |values| in w.SnapshotSizes()
    ensures i < w.count && EntrySize(w, i) in {1, 2, 4} ==>
      ReadAt(Segments(w, values), EntryAddress(w, i), EntrySize(w, i)).Some?
    ensures i < w.nodes && NodeSize(w, i) in {1, 2, 4} && |values| > w.directBytes && Word(values, w.directBytes + 8 * i) != 0 ==>
      ReadAt(Segments(w, values), Word(values, w.directBytes + 8 * i), NodeSize(w, i)).Some?
  {
    hide Word, ReadAt, DirectSegments, PointerSegments;
    if i < w.count && EntrySize(w, i) in {1, 2, 4} {
      DirectSegmentIn(w, values, i, w.count);
      var s := Segment(EntryAddress(w, i), values[EntryOffset(w, i)..EntryOffset(w, i) + EntrySize(w, i)]);
      assert s in Segments(w, values) && Covers(s, EntryAddress(w, i), EntrySize(w, i));
      ReadFitsOneEntry(Segments(w, values), EntryAddress(w, i), EntrySize(w, i));
    }
    if i < w.nodes && NodeSize(w, i) in {1, 2, 4} && |values| > w.directBytes && Word(values, w.directBytes + 8 * i) != 0 {
      var at := w.directBytes + 8 * i;
      PointerSegmentIn(w, values, i, w.nodes);
      var s := Segment(Word(values, at), values[at + 4..at + 4 + NodeSize(w, i)]);
      assert s in Segments(w, values) && Covers(s, Word(values, at), NodeSize(w, i));
      ReadFitsOneEntry(Segments(w, values), Word(values, at), NodeSize(w, i));
    }
  }
}
