/**
 * Whole lives of one evaluator: which snapshots its temporal history may hold,
 * and how often an achievement is reported.
 */
module EvaluatorRuns {
  import opened Common
  import opened SnapshotAssembly
  import opened WatchLists
  import opened Evaluators

  datatype Life = Life(watch: Watch, ids: set<nat>, generation: nat, calls: seq<Call>)
  {
    function State(n: nat): (e: EvaluatorState)
      requires WellLaidOut(watch) && n <= |calls|
      ensures e.runtime.Some? && e.watch == watch && e.generation == generation && e.ids == ids
    {
      if n == 0 then EvaluatorState(watch, generation, ids, None, {}, Some(Native([], ids)))
      else Evaluated(State(n - 1), calls[n - 1]).0
    }

    function Result(n: nat): Result
      requires WellLaidOut(watch) && n < |calls|
    {
      Evaluated(State(n), calls[n]).1
    }
  }

  /** Successive six-digit sequence numbers, ending at the last evaluated one. */
  predicate Consecutive(e: EvaluatorState)
    requires e.runtime.Some?
  {
    var h := e.runtime.value.history;
    && (forall i | 0 < i < |h| :: h[i].sequence == (h[i - 1].sequence + 1) % SEQUENCE_MODULUS)
    && (h != [] ==> e.sequence == Some(h[|h| - 1].sequence) && h[|h| - 1].sequence < SEQUENCE_MODULUS)
  }

  predicate AllComplete(e: EvaluatorState)
    requires e.runtime.Some?
  {
    forall f | f in e.runtime.value.history :: f.complete
  }

  /** The call runs the frame on a runtime: the one at hand, or a new one after a gap. */
  predicate Runs(e: EvaluatorState, c: Call) {
    && c.generation == e.generation && !Malformed(e, c) && !Behind(e, c)
    && (Ahead(e, c.sequence) != 1 ==> c.rebuilt)
  }

  predicate Incomplete(e: EvaluatorState, c: Call)
    requires WellLaidOut(e.watch)
  {
    Runs(e, c) && Missing(e, c) != {}
  }

  /** An incomplete frame whose replacement runtime could not be allocated has been left behind. */
  predicate Tainted(life: Life, n: nat)
    requires WellLaidOut(life.watch) && n <= |life.calls|
  {
    n > 0 &&
    var e, c := life.State(n - 1), life.calls[n - 1];
    if Incomplete(e, c) then !c.recovered
    else Tainted(life, n - 1) && !(Runs(e, c) && Ahead(e, c.sequence) != 1)
  }

  lemma StepIsolates(e: EvaluatorState, c: Call)
    requires e.runtime.Some? && WellLaidOut(e.watch) && Consecutive(e)
    ensures var s := Evaluated(e, c).0;
      && Consecutive(s)
      && (AllComplete(s) <==>
          if Incomplete(e, c) then c.recovered
          else AllComplete(e) || (Runs(e, c) && Ahead(e, c.sequence) != 1))
  {
    hide ReadAt, Segments;
    var s := Evaluated(e, c).0;
    if Runs(e, c) {
      var missing := Missing(e, c);
      var native := if Ahead(e, c.sequence) != 1 then FreshNative(e) else e.runtime.value;
      var fed := Fed(c.sequence, c.values, missing == {});
      assert Ran(native, c, missing).history == native.history + [fed];
      if missing == {} || !c.recovered {
        assert s.runtime.value.history == native.history + [fed];
        assert fed in s.runtime.value.history;
        assert forall f | f in native.history :: f in s.runtime.value.history;
      }
    }
  }

  /**
   * Temporal isolation, exactly: the history is always a run of successive sequence numbers ending
   * at the last evaluated one, and all of it is complete snapshots if and only if no incomplete
   * frame was left in a runtime whose replacement failed to allocate.
   */
  lemma {:induction false} TemporalIsolation(life: Life, n: nat)
    requires WellLaidOut(life.watch) && n <= |life.calls|
    ensures Consecutive(life.State(n))
    ensures AllComplete(life.State(n)) <==> !Tainted(life, n)
  {
    hide Evaluated, Incomplete, Runs;
    if n > 0 {
      TemporalIsolation(life, n - 1);
      StepIsolates(life.State(n - 1), life.calls[n - 1]);
    }
  }

  /** An accepted frame is the end of that run; a refused one changes nothing at all. */
  lemma AcceptedFrameEndsHistory(life: Life, n: nat)
    requires WellLaidOut(life.watch) && n < |life.calls| && life.Result(n).Evaluation?
    ensures life.Result(n) == REFUSED ==> life.State(n + 1) == life.State(n)
    ensures life.Result(n).accepted ==>
      var h := life.State(n + 1).runtime.value.history;
      && h != [] && h[|h| - 1] == Fed(life.calls[n].sequence, life.calls[n].values, true)
      && (h == [h[|h| - 1]] || h[..|h| - 1] == life.State(n).runtime.value.history)
  {
    var e, c := life.State(n), life.calls[n];
    if Runs(e, c) && Missing(e, c) != {} {
      assert Evaluation(false, [], true, Missing(e, c)) != REFUSED;
    }
  }

  /**
   * The failing family: whenever a snapshot does not serve some read of one, two or four bytes and the
   * recovery from it fails, the next consecutive complete frame is accepted on a history that still
   * holds the incomplete one.
   */
  lemma FailedRecoveryLeaks(w: Watch, values: Bytes, sequence: nat, address: nat, size: nat)
    requires WellLaidOut(w) && |values| in w.SnapshotSizes() && sequence < SEQUENCE_MODULUS
    requires IsReadSize(size) && ReadAt(Segments(w, values), address, size).None?
    ensures
      var life := Leaking(w, values, sequence, address, size);
      && life.Result(0) == Raised
      && life.Result(1).Evaluation? && life.Result(1).accepted && !life.Result(1).reset
      && !AllComplete(life.State(2)) && Tainted(life, 2)
  {
    hide ReadAt, Segments;
    var life := Leaking(w, values, sequence, address, size);
    var e0, first, second := life.State(0), life.calls[0], life.calls[1];
    assert (address, size) in Missing(e0, first);
    assert life.State(1) == e0.(sequence := Some(sequence), runtime := Some(Ran(e0.runtime.value, first, Missing(e0, first))));
    assert Missing(life.State(1), second) == {};
    assert life.State(2).runtime.value.history[0] == Fed(sequence, values, false);
  }

  /** One achievement, a frame whose recovery fails, and the frame after it. */
  function Leaking(w: Watch, values: Bytes, sequence: nat, address: nat, size: nat): Life {
    Life(w, {7}, 1, [Call(values, 1, sequence, {(address, size)}, [], true, false),
                     Call(values, 1, (sequence + 1) % SEQUENCE_MODULUS, {}, [], true, true)])
  }

  /** A list that watches the byte at address 0 and nothing else. */
  const ONE_BYTE: seq<DirectEntry> := [DirectEntry(0, 1)]

  /** An input the console can send: that list validates, and asking for the byte at address 1 leaks. */
  lemma OneByteListLeaks(sequence: nat) returns (w: Watch, life: Life)
    requires sequence < SEQUENCE_MODULUS
    ensures WellLaidOut(w) && Validated(w.data) == Some(w) && w.count == 1 && EntryAddress(w, 0) == 0 && EntrySize(w, 0) == 1
    ensures life == Leaking(w, [0], sequence, 1, 1) && life.Result(0) == Raised
    ensures life.Result(1).Evaluation? && life.Result(1).accepted && !AllComplete(life.State(2)) && Tainted(life, 2)
  {
    hide AllWords, Validated, LittleEndian, Word;
    DirectListValidates(ONE_BYTE);
    w := Validated(AllWords(DirectList(ONE_BYTE))).value;
    ValidatedIsWellLaidOut(w.data);
    OneByteSegments(w);
    assert !Covers(Segments(w, [0])[0], 1, 1);
    ReadFitsOneEntry(Segments(w, [0]), 1, 1);
    FailedRecoveryLeaks(w, [0], sequence, 1, 1);
    life := Leaking(w, [0], sequence, 1, 1);
  }

  lemma OneByteSegments(w: Watch)
    requires WellLaidOut(w) && w.count == 1 && w.directBytes == 1 && w.nodes == 0
    requires EntryAddress(w, 0) == 0 && EntrySize(w, 0) == 1
    ensures Segments(w, [0]) == [Segment(0, [0])]
  {
    assert EntryOffset(w, 0) == 0 && EntryOffset(w, 1) == 1;
    assert DirectSegments(w, [0], 0) == [];
    assert [0][0..1] == [0];
    assert DirectSegments(w, [0], 1) == [Segment(0, [0])];
    assert Segments(w, [0]) == [Segment(0, [0])] + [];
  }

  // ----- Each achievement is reported once -----

  /** The call passes on a trigger of this achievement. */
  predicate Reports(life: Life, n: nat, id: nat)
    requires WellLaidOut(life.watch) && n < |life.calls|
  {
    && life.Result(n).Evaluation? && life.Result(n).accepted
    && exists v :: v in life.Result(n).events && v.kind == TRIGGERED && v.id == id
  }

  /** The triggered set only grows, by exactly what an accepted call reports, which was not in it. */
  lemma StepTriggers(e: EvaluatorState, c: Call)
    requires e.runtime.Some? && WellLaidOut(e.watch)
    ensures var (s, r) := Evaluated(e, c);
      if r.Evaluation? && r.accepted then
        s.triggered == e.triggered + TriggeredIn(r.events) && TriggeredIn(r.events) !! e.triggered
      else s.triggered == e.triggered
  {
    var (s, r) := Evaluated(e, c);
    if r.Evaluation? && r.accepted {
      assert r.events == Novel(e.triggered, c.events);
      forall v | v in r.events && v.kind == TRIGGERED
        ensures v.id !in e.triggered
      {
        assert !Repeated(e.triggered, v);
      }
    }
  }

  lemma {:induction false} ReportedStaysTriggered(life: Life, m: nat, n: nat, id: nat)
    requires WellLaidOut(life.watch) && m < n <= |life.calls| && Reports(life, m, id)
    ensures id in life.State(n).triggered
  {
    hide Evaluated;
    StepTriggers(life.State(n - 1), life.calls[n - 1]);
    if m < n - 1 { ReportedStaysTriggered(life, m, n - 1, id); }
  }

  /** Across gaps, rebuilt runtimes and failures, no achievement is reported by two calls. */
  lemma ReportedByOneCall(life: Life, m: nat, n: nat, id: nat)
    requires WellLaidOut(life.watch) && m < |life.calls| && n < |life.calls|
    requires Reports(life, m, id) && Reports(life, n, id)
    ensures m == n
  {
    hide Evaluated;
    if m < n {
      ReportedStaysTriggered(life, m, n, id);
      StepTriggers(life.State(n), life.calls[n]);
    } else if n < m {
      ReportedStaysTriggered(life, n, m, id);
      StepTriggers(life.State(m), life.calls[m]);
    }
  }

  /** The native runtime raises a trigger for an ID at most once in a frame. */
  predicate OncePerFrame(events: seq<Event>) {
    forall i, j | 0 <= i < j < |events| ::
      events[i].kind == TRIGGERED && events[j].kind == TRIGGERED ==> events[i].id != events[j].id
  }

  /** Within one call, too: what is passed on repeats no ID that the runtime did not repeat. */
  lemma {:induction false} ReportedOnceInCall(triggered: set<nat>, events: seq<Event>)
    requires OncePerFrame(events)
    ensures OncePerFrame(Novel(triggered, events))
  {
    if events != [] {
      var front := events[..|events| - 1];
      ReportedOnceInCall(triggered, front);
      var kept := Novel(triggered, front);
      forall i | 0 <= i < |kept| && kept[i].kind == TRIGGERED && events[|front|].kind == TRIGGERED
        ensures kept[i].id != events[|front|].id
      {
        assert kept[i] in front;
        var k :| 0 <= k < |front| && front[k] == kept[i];
        assert events[k] == kept[i];
      }
    }
  }

  // ----- What is passed on, and when -----

  predicate ReportedBefore(life: Life, n: nat, id: nat)
    requires WellLaidOut(life.watch) && n <= |life.calls|
  {
    exists m: nat :: m < n && Reports(life, m, id)
  }

  /** What counts as triggered is what an earlier call has reported. */
  lemma {:induction false} TriggeredWasReported(life: Life, n: nat, id: nat)
    requires WellLaidOut(life.watch) && n <= |life.calls|
    ensures id in life.State(n).triggered <==> ReportedBefore(life, n, id)
  {
    hide Evaluated;
    if n > 0 {
      TriggeredWasReported(life, n - 1, id);
      StepTriggers(life.State(n - 1), life.calls[n - 1]);
      if ReportedBefore(life, n - 1, id) {
        var m: nat :| m < n - 1 && Reports(life, m, id);
        assert m < n && Reports(life, m, id);
      }
      assert Reports(life, n - 1, id) ==> ReportedBefore(life, n, id);
    }
  }

  predicate Increasing(at: seq<nat>, bound: nat) {
    (forall i | 0 <= i < |at| :: at[i] < bound) && forall i, j | 0 <= i < j < |at| :: at[i] < at[j]
  }

  /**
   * `passed` are the events at these positions, in order, and the events at all the others are the repeated
   * triggers.
   */
  predicate LeavesOutRepeats(triggered: set<nat>, raised: seq<Event>, passed: seq<Event>, at: seq<nat>) {
    && |at| == |passed| && Increasing(at, |raised|) && (forall i | 0 <= i < |at| :: passed[i] == raised[at[i]])
    && forall k | 0 <= k < |raised| :: k in at <==> !Repeated(triggered, raised[k])
  }

  lemma OneMoreLeft(triggered: set<nat>, front: seq<Event>, last: Event, passed: seq<Event>, at: seq<nat>)
    requires LeavesOutRepeats(triggered, front, passed, at)
    ensures if Repeated(triggered, last) then LeavesOutRepeats(triggered, front + [last], passed, at)
            else LeavesOutRepeats(triggered, front + [last], passed + [last], at + [|front|])
  {
    hide Repeated;
    var raised := front + [last];
    forall k | 0 <= k < |raised|
      ensures k < |front| ==> raised[k] == front[k]
      ensures k in at + [|front|] <==> k in at || k == |front|
    {
    }
    assert |front| !in at;
  }

  lemma {:induction false} NovelLeavesOutRepeats(triggered: set<nat>, raised: seq<Event>) returns (at: seq<nat>)
    ensures LeavesOutRepeats(triggered, raised, Novel(triggered, raised), at)
  {
    hide Repeated;
    if raised == [] {
      at := [];
    } else {
      hide LeavesOutRepeats;
      var front, last := raised[..|raised| - 1], raised[|raised| - 1];
      at := NovelLeavesOutRepeats(triggered, front);
      OneMoreLeft(triggered, front, last, Novel(triggered, front), at);
      assert raised == front + [last];
      assert Novel(triggered, front) + [] == Novel(triggered, front);
      if !Repeated(triggered, last) { at := at + [|front|]; }
    }
  }

  /**
   * What an accepted call passes on: the events that the runtime raised for it, in their order and as often
   * as they were raised, without the triggers of achievements that an earlier call has reported, and with
   * nothing else left out.
   */
  lemma EventsArePassedOn(life: Life, n: nat) returns (at: seq<nat>)
    requires WellLaidOut(life.watch) && n < |life.calls| && life.Result(n).Evaluation? && life.Result(n).accepted
    ensures var raised, passed := life.calls[n].events, life.Result(n).events;
      && |at| == |passed| && Increasing(at, |raised|) && (forall i | 0 <= i < |at| :: passed[i] == raised[at[i]])
      && forall k | 0 <= k < |raised| ::
           k in at <==> !(raised[k].kind == TRIGGERED && ReportedBefore(life, n, raised[k].id))
  {
    hide ReportedBefore;
    at := NovelLeavesOutRepeats(life.State(n).triggered, life.calls[n].events);
    forall k | 0 <= k < |life.calls[n].events|
      ensures life.calls[n].events[k].id in life.State(n).triggered <==> ReportedBefore(life, n, life.calls[n].events[k].id)
    {
      TriggeredWasReported(life, n, life.calls[n].events[k].id);
    }
  }

  /** The frame is d numbers after the last one that was run, or nothing was run yet. */
  predicate Follows(e: EvaluatorState, sequence: nat, d: nat) {
    e.sequence.Some? ==> 1 <= d < 500000 && (e.sequence.value + d) % 1000000 == sequence
  }

  /** A frame of this list's generation and of one of its sizes, under a six-digit number. */
  predicate ForThisList(e: EvaluatorState, c: Call) {
    c.generation == e.generation && c.sequence < 1000000 && |c.values| in e.watch.SnapshotSizes()
  }

  /** Some entry of the snapshot holds the whole read. */
  ghost predicate Holds(w: Watch, values: Bytes, peek: (nat, nat))
    requires WellLaidOut(w) && |values| in w.SnapshotSizes()
  {
    exists s :: s in Segments(w, values) && Covers(s, peek.0, peek.1)
  }

  lemma FollowsAhead(e: EvaluatorState, sequence: nat)
    requires sequence < SEQUENCE_MODULUS && (e.sequence.Some? ==> e.sequence.value < SEQUENCE_MODULUS)
    ensures var d := Ahead(e, sequence); forall k: nat :: Follows(e, sequence, k) && e.sequence.Some? ==> k == d
    ensures var d := Ahead(e, sequence); Follows(e, sequence, d) <==> 0 < d < SEQUENCE_MODULUS / 2
  {
  }

  lemma TrackedIsSixDigits(life: Life, n: nat)
    requires WellLaidOut(life.watch) && n <= |life.calls| && life.State(n).sequence.Some?
    ensures life.State(n).sequence.value < SEQUENCE_MODULUS
  {
    hide Missing, FreshNative, Ran;
    if n > 0 && life.State(n - 1).sequence.Some? { TrackedIsSixDigits(life, n - 1); }
  }

  lemma MissingIsUnheld(e: EvaluatorState, c: Call, peek: (nat, nat))
    requires WellLaidOut(e.watch) && |c.values| in e.watch.SnapshotSizes()
    ensures peek in Missing(e, c) <==> peek in c.peeks && !Holds(e.watch, c.values, peek)
  {
    hide Segments, Covers;
    ReadFitsOneEntry(Segments(e.watch, c.values), peek.0, peek.1);
  }

  /**
   * When a call is accepted, exactly: for a frame of this list whose number follows the last one run, by one
   * unless a new runtime can be built, when every read is held by one entry. Otherwise it is refused, if
   * the frame is another list's or does not follow; or starts over, naming the reads that no entry holds; or fails.
   */
  lemma ResultIsDecided(life: Life, n: nat)
    requires WellLaidOut(life.watch) && n < |life.calls|
    ensures var e, c, r := life.State(n), life.calls[n], life.Result(n);
      if c.generation != e.generation then r == REFUSED
      else if !ForThisList(e, c) then r == Raised
      else if !exists d: nat :: Follows(e, c.sequence, d) then r == REFUSED
      else
        var next := Follows(e, c.sequence, 1);
        if !next && !c.rebuilt then r == Raised
        else if forall peek | peek in c.peeks :: Holds(e.watch, c.values, peek) then
          r.Evaluation? && r.accepted && r.reset == !next && r.missing == {}
        else if !c.recovered then r == Raised
        else
          && r.Evaluation? && !r.accepted && r.reset && r.events == []
          && forall peek :: peek in r.missing <==> peek in c.peeks && !Holds(e.watch, c.values, peek)
  {
    hide Segments, Novel, FreshNative, Ran, Holds, Life.State, Missing, Follows;
    var e, c := life.State(n), life.calls[n];
    if ForThisList(e, c) {
      if e.sequence.Some? { TrackedIsSixDigits(life, n); }
      FollowsAhead(e, c.sequence);
      AheadFollows(e, c.sequence);
      forall peek
        ensures peek in Missing(e, c) <==> peek in c.peeks && !Holds(e.watch, c.values, peek)
      {
        MissingIsUnheld(e, c, peek);
      }
    }
  }

  lemma AheadFollows(e: EvaluatorState, sequence: nat)
    requires sequence < SEQUENCE_MODULUS && (e.sequence.Some? ==> e.sequence.value < SEQUENCE_MODULUS)
    ensures var d := Ahead(e, sequence); 0 < d < SEQUENCE_MODULUS / 2 <==> exists k: nat :: Follows(e, sequence, k)
    ensures Ahead(e, sequence) == 1 <==> Follows(e, sequence, 1)
  {
    FollowsAhead(e, sequence);
  }

  /**
   * A runtime that was built anew watches exactly the achievements that no call has reported; any other keeps its
   * own.
   */
  lemma RebuiltWatchesUnreported(life: Life, n: nat, id: nat)
    requires WellLaidOut(life.watch) && n < |life.calls|
    ensures var r := life.Result(n);
      if r.Evaluation? && r.reset
      then id in life.State(n + 1).runtime.value.active <==> id in life.ids && !ReportedBefore(life, n, id)
      else r.Evaluation? ==> life.State(n + 1).runtime.value.active == life.State(n).runtime.value.active
  {
    hide Missing, Novel, ReportedBefore;
    TriggeredWasReported(life, n, id);
  }
}
