/**
 * The offline evaluator over an opaque native runtime. The runtime is modelled
 * by the snapshots it has been fed since it was built and by its active
 * achievement IDs; what it reads and which events it raises are inputs.
 */
module Evaluators {
  import opened Common
  import opened SnapshotAssembly
  import opened WatchLists

  const TRIGGERED := 3

  // ----- Memory view of one snapshot -----

  datatype Segment = Segment(address: nat, bytes: Bytes)

  /** The direct entries of a snapshot, as far as entry n. */
  function DirectSegments(w: Watch, values: Bytes, n: nat): seq<Segment>
    requires WellLaidOut(w) && n <= w.count && w.directBytes <= |values|
  {
    if n == 0 then []
    else
      OffsetsGrow(w, n, w.count);
      DirectSegments(w, values, n - 1) +
      [Segment(EntryAddress(w, n - 1), values[EntryOffset(w, n - 1)..EntryOffset(w, n)])]
  }

  /** The pointer pairs after them; a zero address is absent memory. */
  function PointerSegments(w: Watch, values: Bytes, n: nat): seq<Segment>
    requires WellLaidOut(w) && n <= w.nodes && |values| == w.directBytes + 8 * w.nodes
  {
    if n == 0 then []
    else
      var at := w.directBytes + 8 * (n - 1);
      PointerSegments(w, values, n - 1) +
      (if Word(values, at) == 0 then []
       else [Segment(Word(values, at), values[at + 4..at + 4 + NodeSize(w, n - 1)])])
  }

  function Segments(w: Watch, values: Bytes): seq<Segment>
    requires WellLaidOut(w) && |values| in w.SnapshotSizes()
  {
    DirectSegments(w, values, w.count) +
    (if |values| > w.directBytes then PointerSegments(w, values, w.nodes) else [])
  }

  predicate Covers(s: Segment, address: nat, size: nat) {
    size in {1, 2, 4} && s.address <= address && address + size <= s.address + |s.bytes|
  }

  function ValueIn(s: Segment, address: nat, size: nat): nat
    requires Covers(s, address, size)
  {
    LittleEndian(s.bytes[address - s.address..address - s.address + size])
  }

  /** The value of a read: the first segment that holds it entirely. */
  function ReadAt(segments: seq<Segment>, address: nat, size: nat): Option<nat> {
    if segments == [] then None
    else if Covers(segments[0], address, size) then Some(ValueIn(segments[0], address, size))
    else ReadAt(segments[1..], address, size)
  }

  lemma {:induction false} ReadAtAppend(segments: seq<Segment>, more: seq<Segment>, address: nat, size: nat)
    ensures ReadAt(segments + more, address, size) ==
      if ReadAt(segments, address, size).Some? then ReadAt(segments, address, size) else ReadAt(more, address, size)
  {
    if segments == [] {
      assert segments + more == more;
    } else {
      ReadAtAppend(segments[1..], more, address, size);
      assert (segments + more)[1..] == segments[1..] + more;
    }
  }

  /** A read is served exactly when it fits inside one entry. */
  lemma {:induction false} ReadFitsOneEntry(segments: seq<Segment>, address: nat, size: nat)
    ensures ReadAt(segments, address, size).Some? <==> exists s :: s in segments && Covers(s, address, size)
  {
    if segments != [] { ReadFitsOneEntry(segments[1..], address, size); }
  }

  /** Direct reads win over pointer pairs. */
  lemma DirectReadsFirst(w: Watch, values: Bytes, address: nat, size: nat)
    requires WellLaidOut(w) && |values| in w.SnapshotSizes()
    requires ReadAt(DirectSegments(w, values, w.count), address, size).Some?
    ensures ReadAt(Segments(w, values), address, size) == ReadAt(DirectSegments(w, values, w.count), address, size)
  {
    ReadAtAppend(DirectSegments(w, values, w.count),
                 if |values| > w.directBytes then PointerSegments(w, values, w.nodes) else [], address, size);
  }

  type Memory = map<(nat, nat), nat>

  /** The dictionary answers every read just as the segments do. */
  ghost predicate Represents(memory: Memory, segments: seq<Segment>) {
    && (forall k | k in memory :: ReadAt(segments, k.0, k.1) == Some(memory[k]))
    && (forall address: nat, size: nat | ReadAt(segments, address, size).Some? :: (address, size) in memory)
  }

  /** Earlier reads stay as they were; every added one is a read inside the segment. */
  predicate AddedFrom(memory: Memory, added: Memory, s: Segment) {
    && (forall k | k in memory :: k in added)
    && (forall k | k in added :: if k in memory then added[k] == memory[k]
                                 else Covers(s, k.0, k.1) && added[k] == ValueIn(s, k.0, k.1))
  }

  method AddReadsOfSize(memory: Memory, s: Segment, size: nat) returns (added: Memory)
    requires size in {1, 2, 4}
    ensures AddedFrom(memory, added, s)
    ensures forall a: nat | Covers(s, a, size) :: (a, size) in added
  {
    added := memory;
    var offset := 0;
    while offset + size <= |s.bytes|
      invariant AddedFrom(memory, added, s)
      invariant forall a: nat | Covers(s, a, size) && a < s.address + offset :: (a, size) in added
    {
      var key := (s.address + offset, size);
      if key !in added {
        added := added[key := LittleEndian(s.bytes[offset..offset + size])];
      }
      offset := offset + 1;
    }
  }

  /** Adds the reads of one segment at every size and offset, never replacing an earlier one. */
  method AddReads(memory: Memory, s: Segment, ghost segments: seq<Segment>) returns (added: Memory)
    requires Represents(memory, segments)
    ensures Represents(added, segments + [s])
  {
    added := AddReadsOfSize(memory, s, 1);
    added := AddReadsOfSize(added, s, 2);
    added := AddReadsOfSize(added, s, 4);
    assert AddedFrom(memory, added, s);
    forall address: nat, size: nat
      ensures ReadAt(segments + [s], address, size).Some? ==> (address, size) in added
    {
      ReadAtAppend(segments, [s], address, size);
    }
    forall k | k in added
      ensures ReadAt(segments + [s], k.0, k.1) == Some(added[k])
    {
      ReadAtAppend(segments, [s], k.0, k.1);
    }
  }

  lemma NoEntriesYet(w: Watch, values: Bytes)
    requires WellLaidOut(w) && w.directBytes <= |values|
    ensures EntryOffset(w, 0) == 0 && EntryOffset(w, w.count) == w.directBytes
    ensures Represents(map[], DirectSegments(w, values, 0))
  {
  }

  lemma NextEntry(w: Watch, values: Bytes, i: nat)
    requires WellLaidOut(w) && w.directBytes <= |values| && i < w.count
    ensures EntryOffset(w, i + 1) == EntryOffset(w, i) + EntrySize(w, i) <= |values|
    ensures DirectSegments(w, values, i + 1) == DirectSegments(w, values, i)
            + [Segment(EntryAddress(w, i), values[EntryOffset(w, i)..EntryOffset(w, i) + EntrySize(w, i)])]
  {
    hide Word;
    OffsetsGrow(w, i + 1, w.count);
  }

  method AddDirectEntries(w: Watch, values: Bytes) returns (memory: Memory, offset: nat)
    requires WellLaidOut(w) && w.directBytes <= |values|
    ensures Represents(memory, DirectSegments(w, values, w.count)) && offset == w.directBytes
  {
    hide Represents, ReadAt, Word, EntryOffset, EntrySize, EntryAddress, DirectSegments;
    NoEntriesYet(w, values);
    memory, offset := map[], 0;
    for i := 0 to w.count
      invariant offset == EntryOffset(w, i)
      invariant Represents(memory, DirectSegments(w, values, i))
    {
      NextEntry(w, values, i);
      var size := EntrySize(w, i);
      memory := AddReads(memory, Segment(EntryAddress(w, i), values[offset..offset + size]),
                         DirectSegments(w, values, i));
      offset := offset + size;
    }
  }

  method AddPointerPairs(w: Watch, values: Bytes, memory: Memory, ghost direct: seq<Segment>) returns (added: Memory)
    requires WellLaidOut(w) && |values| == w.directBytes + 8 * w.nodes && Represents(memory, direct)
    ensures Represents(added, direct + PointerSegments(w, values, w.nodes))
  {
    hide Represents, ReadAt, Word;
    added := memory;
    assert direct + [] == direct;
    var offset := w.directBytes;
    for i := 0 to w.nodes
      invariant offset == w.directBytes + 8 * i
      invariant Represents(added, direct + PointerSegments(w, values, i))
    {
      var address := Word(values, offset);
      ghost var pointers := PointerSegments(w, values, i);
      if address != 0 {
        var s := Segment(address, values[offset + 4..offset + 4 + NodeSize(w, i)]);
        added := AddReads(added, s, direct + pointers);
        assert direct + pointers + [s] == direct + (pointers + [s]);
      } else {
        assert pointers + [] == pointers;
      }
      offset := offset + 8;
    }
  }

  /** The dictionary of a whole snapshot: direct entries first, then the pointer pairs. */
  method BuildMemory(w: Watch, values: Bytes) returns (memory: Memory)
    requires WellLaidOut(w) && |values| in w.SnapshotSizes()
    ensures Represents(memory, Segments(w, values))
  {
    hide Represents, ReadAt, Word;
    var offset;
    memory, offset := AddDirectEntries(w, values);
    ghost var direct := DirectSegments(w, values, w.count);
    assert direct + [] == direct;
    if |values| > w.directBytes {
      memory := AddPointerPairs(w, values, memory, direct);
    }
  }

  // ----- The evaluator -----

  datatype Event = Event(kind: nat, id: nat, value: int)

  /** A snapshot the native runtime was fed, and whether every read it made was served. */
  datatype Fed = Fed(sequence: nat, values: Bytes, complete: bool)

  /** The native runtime since it was built: its memory history and its active achievements. */
  datatype Native = Native(history: seq<Fed>, active: set<nat>)

  datatype EvaluatorState = EvaluatorState(
    watch: Watch, generation: nat, ids: set<nat>, sequence: Option<nat>, triggered: set<nat>, runtime: Option<Native>)

  /**
   * One call: the frame, the reads and events the native runtime produces for it, and whether a
   * replacement runtime can be allocated after a gap (`rebuilt`) and after missing memory (`recovered`).
   */
  datatype Call = Call(values: Bytes, generation: nat, sequence: nat,
                       peeks: set<(nat, nat)>, events: seq<Event>, rebuilt: bool, recovered: bool)

  datatype Result = Evaluation(accepted: bool, events: seq<Event>, reset: bool, missing: set<(nat, nat)>) | Raised

  const REFUSED := Evaluation(false, [], false, {})

  function FreshNative(e: EvaluatorState): Native { Native([], e.ids - e.triggered) }

  function NewEvaluator(watch: Watch, ids: set<nat>, generation: nat): EvaluatorState {
    EvaluatorState(watch, generation, ids, None, {}, Some(Native([], ids)))
  }

  predicate Repeated(triggered: set<nat>, event: Event) { event.kind == TRIGGERED && event.id in triggered }

  /** The events that are passed on: a trigger only the first time. */
  function Novel(triggered: set<nat>, events: seq<Event>): (r: seq<Event>)
    ensures forall v | v in r :: v in events && !Repeated(triggered, v)
  {
    if events == [] then []
    else
      var last := events[|events| - 1];
      Novel(triggered, events[..|events| - 1]) + (if Repeated(triggered, last) then [] else [last])
  }

  function TriggeredIn(events: seq<Event>): set<nat> { set v | v in events && v.kind == TRIGGERED :: v.id }

  function Missing(e: EvaluatorState, c: Call): set<(nat, nat)>
    requires WellLaidOut(e.watch) && |c.values| in e.watch.SnapshotSizes()
  {
    set k | k in c.peeks && ReadAt(Segments(e.watch, c.values), k.0, k.1).None?
  }

  function Ahead(e: EvaluatorState, sequence: nat): nat {
    if e.sequence.Some? then (sequence - e.sequence.value) % SEQUENCE_MODULUS else 1
  }

  predicate Malformed(e: EvaluatorState, c: Call) {
    c.sequence >= SEQUENCE_MODULUS || |c.values| !in e.watch.SnapshotSizes()
  }

  predicate Behind(e: EvaluatorState, c: Call) {
    Ahead(e, c.sequence) == 0 || Ahead(e, c.sequence) >= SEQUENCE_MODULUS / 2
  }

  /** The runtime after the frame was run on it. */
  function Ran(native: Native, c: Call, missing: set<(nat, nat)>): Native {
    native.(history := native.history + [Fed(c.sequence, c.values, missing == {})])
  }

  function Evaluated(e: EvaluatorState, c: Call): (r: (EvaluatorState, Result))
    requires e.runtime.Some? && WellLaidOut(e.watch)
  {
    if c.generation != e.generation then (e, REFUSED)
    else if Malformed(e, c) then (e, Raised)
    else if Behind(e, c) then (e, REFUSED)
    else
      var gap := Ahead(e, c.sequence) != 1;
      if gap && !c.rebuilt then (e, Raised)
      else
        var missing := Missing(e, c);
        var ran := Ran(if gap then FreshNative(e) else e.runtime.value, c, missing);
        var moved := e.(sequence := Some(c.sequence), runtime := Some(ran));
        if missing != {} then
          if c.recovered
          then (moved.(runtime := Some(FreshNative(e))), Evaluation(false, [], true, missing))
          else (moved, Raised)
        else
          var events := Novel(e.triggered, c.events);
          (moved.(triggered := e.triggered + TriggeredIn(events)), Evaluation(true, events, gap, {}))
  }

  /** The native library, as far as it counts runtimes that were allocated and not destroyed. */
  class NativeLibrary {
    var live: int

    constructor ()
      ensures live == 0
    {
      live := 0;
    }
  }

  class Evaluator {
    const library: NativeLibrary
    const watch: Watch
    const generation: nat
    const ids: set<nat>
    var sequence: Option<nat>
    var triggered: set<nat>
    var runtime: Option<Native>

    function Model(): EvaluatorState
      reads this
    {
      EvaluatorState(watch, generation, ids, sequence, triggered, runtime)
    }

    constructor (library: NativeLibrary, watch: Watch, ids: set<nat>, generation: nat)
      requires WellLaidOut(watch)
      modifies library
      ensures Model() == NewEvaluator(watch, ids, generation)
      ensures this.library == library && library.live == old(library.live) + 1
    {
      this.library, this.watch, this.generation, this.ids := library, watch, generation, ids;
      sequence, triggered, runtime := None, {}, Some(Native([], ids));
      new;
      library.live := library.live + 1;
    }

    /** Releases the native runtime; safe to call repeatedly. */
    method Close()
      modifies this, library
      ensures Model() == old(Model()).(runtime := None)
      ensures library.live == old(library.live) - (if old(runtime).Some? then 1 else 0)
    {
      if runtime.Some? {
        library.live := library.live - 1;
        runtime := None;
      }
    }

    /** Keeps the events that are not repeated triggers. */
    method Select(events: seq<Event>) returns (kept: seq<Event>)
      ensures kept == Novel(triggered, events)
    {
      kept := [];
      for i := 0 to |events|
        invariant kept == Novel(triggered, events[..i])
      {
        assert events[..i + 1][..i] == events[..i];
        if events[i].kind != TRIGGERED || events[i].id !in triggered { kept := kept + [events[i]]; }
      }
      assert events[..|events|] == events;
    }

    method Evaluate(c: Call) returns (result: Result)
      requires runtime.Some? && WellLaidOut(watch)
      modifies this
      ensures (Model(), result) == Evaluated(old(Model()), c)
    {
      if c.generation != generation { return REFUSED; }
      if c.sequence >= SEQUENCE_MODULUS || |c.values| !in watch.SnapshotSizes() { return Raised; }
      var delta := if sequence.Some? then (c.sequence - sequence.value) % SEQUENCE_MODULUS else 1;
      if delta == 0 || delta >= SEQUENCE_MODULUS / 2 { return REFUSED; }
      var reset := delta != 1;
      if reset {
        if !c.rebuilt { return Raised; }
        runtime := Some(Native([], ids - triggered));
      }
      var memory := BuildMemory(watch, c.values);
      var missing := set k | k in c.peeks && k !in memory;
      assert missing == Missing(old(Model()), c);
      runtime := Some(Ran(runtime.value, c, missing));
      sequence := Some(c.sequence);
      if missing != {} {
        if !c.recovered { return Raised; }
        runtime := Some(Native([], ids - triggered));
        return Evaluation(false, [], true, missing);
      }
      var events := Select(c.events);
      triggered := triggered + TriggeredIn(events);
      result := Evaluation(true, events, reset, {});
    }
  }
}
