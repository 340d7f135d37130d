/**
 * Whole runs of the assembler: what any returned frame is made of, in which
 * order frames come out, and how many bytes are ever retained.
 */
module AssemblyRuns {
  import opened Common
  import opened SnapshotAssembly

  /** One call on the assembler. `Datagram(None, _)` is a packet the parser rejects. */
  datatype Input = Datagram(part: Option<Part>, now: real) | Reset

  function Step(c: Terms, a: Assembly, input: Input): (r: (Assembly, Option<Bytes>)) {
    match input
    case Reset => (EMPTY, None)
    case Datagram(None, _) => (a, None)
    case Datagram(Some(p), now) => FeedPart(c, a, p, now)
  }

  function StateAfter(c: Terms, start: Assembly, inputs: seq<Input>, n: nat): Assembly
    requires n <= |inputs|
  {
    if n == 0 then start else Step(c, StateAfter(c, start, inputs, n - 1), inputs[n - 1]).0
  }

  function OutputAt(c: Terms, start: Assembly, inputs: seq<Input>, n: nat): Option<Bytes>
    requires n < |inputs|
  {
    Step(c, StateAfter(c, start, inputs, n), inputs[n]).1
  }

  // ----- An observer that counts on an unbounded counter -----

  /** `epoch` counts resets and idle timeouts; `since` is the input that adopted the frame. */
  datatype Observer = Observer(a: Assembly, epoch: nat, position: nat, since: nat, emitted: seq<Emission>)

  datatype Emission = Emission(epoch: nat, position: nat, since: nat, at: nat, value: Bytes)

  predicate Expires(c: Terms, a: Assembly, now: real) {
    a.lastSeen.Some? && now - a.lastSeen.value >= c.timeout
  }

  /** Where the observer stands once input n has been dated and, maybe, adopted. */
  function Follow(c: Terms, o: Observer, n: nat, input: Input): (b: Observer)
    ensures b.emitted == o.emitted && b.a == o.a
  {
    match input
    case Reset => o.(epoch := o.epoch + 1)
    case Datagram(None, _) => o
    case Datagram(Some(p), now) =>
      if !Ours(c, p) then o
      else
        var e := Expire(c, o.a, now);
        var b := if Expires(c, o.a, now) then o.(epoch := o.epoch + 1) else o;
        var d := Distance(e, p);
        if d >= SEQUENCE_MODULUS / 2 || d == 0 then b
        else b.(position := if e.sequence.Some? then b.position + d else p.sequence, since := n)
  }

  /** One observed step: the assembler's own step, and the emission recorded if there was one. */
  function Next(c: Terms, o: Observer, n: nat, input: Input): Observer {
    var b := Follow(c, o, n, input);
    var (a, out) := Step(c, o.a, input);
    Record(b, a, out, n)
  }

  function Record(o: Observer, a: Assembly, out: Option<Bytes>, at: nat): Observer {
    o.(a := a, emitted := if out.Some?
                          then o.emitted + [Emission(o.epoch, o.position, o.since, at, out.value)]
                          else o.emitted)
  }

  function Observe(c: Terms, inputs: seq<Input>, n: nat): Observer
    requires n <= |inputs|
  {
    if n == 0 then Observer(EMPTY, 0, 0, 0, []) else Next(c, Observe(c, inputs, n - 1), n - 1, inputs[n - 1])
  }

  // ----- Soundness -----

  /** Some input in [from, to) delivered exactly this payload for this slot of this frame. */
  ghost predicate Delivered(c: Terms, inputs: seq<Input>, from: nat, to: nat,
                            sequence: nat, parts: nat, index: nat, values: Bytes)
    requires to <= |inputs|
  {
    exists j: nat :: from <= j < to && Carries(c, inputs[j], sequence, parts, index, values)
  }

  /** The serial and the watch count the list was installed with. */
  predicate IsOfSession(c: Terms, p: Part) { p.serial == c.serial && p.count == c.count }

  /** All of one length but the last, which may be shorter, and together one of the accepted sizes. */
  predicate IsOneCut(sizes: set<nat>, pieces: seq<Bytes>)
    requires pieces != []
  {
    && (forall i | 0 <= i < |pieces| - 1 :: |pieces[i]| == |pieces[0]|)
    && |pieces[|pieces| - 1]| <= |pieces[0]| && |Join(pieces)| in sizes
  }

  predicate Carries(c: Terms, input: Input, sequence: nat, parts: nat, index: nat, values: Bytes) {
    && input.Datagram? && input.part.Some?
    && IsOfSession(c, input.part.value)
    && input.part.value.sequence == sequence && input.part.value.parts == parts
    && input.part.value.index == index && input.part.value.values == values
  }

  /** Every input in [from, to) that is a part of this number says what these pieces say. */
  predicate NoneDiffers(c: Terms, inputs: seq<Input>, from: nat, to: nat, sequence: nat, pieces: seq<Bytes>)
    requires to <= |inputs|
  {
    forall j: nat | from <= j < to && IsNumbered(c, inputs[j], sequence) ::
      var p := inputs[j].part.value; p.parts == |pieces| && p.values == pieces[p.index]
  }

  /** A part of the session under this number. */
  predicate IsNumbered(c: Terms, input: Input, sequence: nat) {
    && input.Datagram? && input.part.Some? && IsOfSession(c, input.part.value) && input.part.value.sequence == sequence
  }

  ghost predicate MadeOf(c: Terms, inputs: seq<Input>, e: Emission, pieces: seq<Bytes>)
    requires e.at < |inputs|
  {
    && 1 <= |pieces| <= MAX_PARTS
    && IsOneCut(c.sizes, pieces)
    && e.value == Join(pieces)
    && (forall i: nat | i < |pieces| ::
          Delivered(c, inputs, e.since, e.at + 1, e.position % SEQUENCE_MODULUS, |pieces|, i, pieces[i]))
    && NoneDiffers(c, inputs, e.since, e.at + 1, e.position % SEQUENCE_MODULUS, pieces)
  }

  /** Every fragment of the value was fed since one adoption, under one number and part count. */
  ghost predicate SoundEmission(c: Terms, inputs: seq<Input>, e: Emission) {
    && e.since <= e.at < |inputs|
    && (forall j | e.since < j <= e.at :: inputs[j] != Reset)
    && exists pieces :: MadeOf(c, inputs, e, pieces)
  }

  predicate Before(e: Emission, f: Emission) {
    && (e.epoch < f.epoch || (e.epoch == f.epoch && e.position < f.position))
    && e.since < f.since && e.at < f.at
  }

  predicate FitsSome(c: Terms, a: Assembly) { exists s :: s in c.sizes && Held(a.fragments) <= s }

  ghost predicate Inv(c: Terms, inputs: seq<Input>, n: nat, o: Observer)
    requires n <= |inputs|
  {
    && Current(c, inputs, n, o)
    && FitsSome(c, o.a)
    && (forall e | e in o.emitted :: SoundEmission(c, inputs, e) && e.at < n && Past(o, e))
    && (forall i, j | 0 <= i < j < |o.emitted| :: Before(o.emitted[i], o.emitted[j]))
  }

  ghost predicate Current(c: Terms, inputs: seq<Input>, n: nat, o: Observer)
    requires n <= |inputs|
  {
    && (o.a.blocked || o.a.completed ==> o.a.fragments == map[])
    && (o.a.sequence.None? ==> o.a == EMPTY)
    && (o.a.sequence.Some? ==>
          && o.since < n && 1 <= o.a.parts <= MAX_PARTS
          && (forall j | o.since < j < n :: inputs[j] != Reset)
          && o.a.sequence.value == o.position % SEQUENCE_MODULUS
          && forall i | i in o.a.fragments ::
               i < o.a.parts && Delivered(c, inputs, o.since, n, o.a.sequence.value, o.a.parts, i, o.a.fragments[i]))
  }

  /** While a frame is open, every part of its number fed since its adoption is held as it came. */
  predicate Heard(c: Terms, inputs: seq<Input>, to: nat, o: Observer)
    requires to <= |inputs|
  {
    o.a.sequence.Some? && !o.a.blocked && !o.a.completed ==>
      forall j: nat | o.since <= j < to && IsNumbered(c, inputs[j], o.a.sequence.value) ::
        var p := inputs[j].part.value;
        p.parts == o.a.parts && p.index in o.a.fragments && o.a.fragments[p.index] == p.values
  }

  /** An emitted frame lies behind the observer, or is the completed current one. */
  predicate Past(o: Observer, e: Emission) {
    || (e.epoch < o.epoch && (o.a.sequence.Some? ==> e.since < o.since))
    || (e.epoch == o.epoch && o.a.sequence.Some? &&
        ((e.position < o.position && e.since < o.since) ||
         (e.position == o.position && e.since == o.since && o.a.completed)))
  }

  lemma HeldOfEmpty(n: nat)
    ensures HeldBelow(map[], n) == 0
  {
  }

  lemma DistancePosition(a: Assembly, p: Part, position: nat)
    requires a.sequence.Some? ==> a.sequence.value == position % SEQUENCE_MODULUS
    ensures a.sequence.Some? ==> (position + Distance(a, p)) % SEQUENCE_MODULUS == p.sequence
    ensures a.sequence.Some? && Distance(a, p) == 0 ==> p.sequence == a.sequence.value
  {
  }

  /** The observer's own bookkeeping for input n, before the fragment is absorbed. */
  lemma FollowKeeps(c: Terms, inputs: seq<Input>, n: nat, o: Observer, p: Part, now: real)
    requires n < |inputs| && inputs[n] == Datagram(Some(p), now) && Ours(c, p)
    requires Inv(c, inputs, n, o) && Heard(c, inputs, n, o)
    ensures
      var e := Expire(c, o.a, now);
      var d := Distance(e, p);
      var b := Follow(c, o, n, inputs[n]);
      d < SEQUENCE_MODULUS / 2 ==>
        var m := if d > 0 then Adopt(e, p) else e;
        && Inv(c, inputs, n + 1, b.(a := m)) && m.sequence == Some(p.sequence) && Heard(c, inputs, n, b.(a := m))
        && (m.sequence.value == b.position % SEQUENCE_MODULUS)
    ensures
      var e := Expire(c, o.a, now);
      Distance(e, p) >= SEQUENCE_MODULUS / 2 ==>
        var b := Follow(c, o, n, inputs[n]).(a := e); Inv(c, inputs, n + 1, b) && Heard(c, inputs, n + 1, b)
  {
    var e := Expire(c, o.a, now);
    HeldOfEmpty(MAX_PARTS);
    DistancePosition(e, p, o.position);
  }

  /** A value that comes out is made of what was fed since the adoption, and nothing fed since differs from it. */
  lemma EmissionIsMade(c: Terms, inputs: seq<Input>, n: nat, o: Observer, p: Part, now: real)
    requires n < |inputs| && inputs[n] == Datagram(Some(p), now) && Ours(c, p)
    requires Current(c, inputs, n + 1, o) && o.a.sequence == Some(p.sequence) && Heard(c, inputs, n, o)
    requires Absorb(c, o.a, p, now).1.Some?
    ensures MadeOf(c, inputs, Emission(o.epoch, o.position, o.since, n, Absorb(c, o.a, p, now).1.value),
                   InOrder(o.a.fragments[p.index := p.values], o.a.parts))
  {
    hide Join, HeldBelow, TooLarge;
    assert Carries(c, inputs[n], p.sequence, p.parts, p.index, p.values);
  }

  lemma AbsorbHears(c: Terms, inputs: seq<Input>, n: nat, o: Observer, p: Part, now: real)
    requires n < |inputs| && inputs[n] == Datagram(Some(p), now) && Ours(c, p)
    requires o.a.sequence == Some(p.sequence) && Heard(c, inputs, n, o)
    ensures Heard(c, inputs, n + 1, Record(o, Absorb(c, o.a, p, now).0, Absorb(c, o.a, p, now).1, n))
  {
    hide Join, HeldBelow, TooLarge, WellShaped;
  }

  lemma AbsorbKeepsCurrent(c: Terms, inputs: seq<Input>, n: nat, o: Observer, p: Part, now: real)
    requires n < |inputs| && inputs[n] == Datagram(Some(p), now) && Ours(c, p)
    requires Current(c, inputs, n + 1, o) && FitsSome(c, o.a) && o.a.sequence == Some(p.sequence)
    ensures
      var (a, out) := Absorb(c, o.a, p, now);
      && Current(c, inputs, n + 1, o.(a := a)) && FitsSome(c, a)
      && a.sequence == o.a.sequence && (o.a.completed ==> a.completed && out.None?) && (out.Some? ==> a.completed)
  {
    hide Join, HeldBelow, WellShaped;
    HeldOfEmpty(MAX_PARTS);
    assert Carries(c, inputs[n], p.sequence, p.parts, p.index, p.values);
  }

  /** Absorbing a fragment keeps the invariant; an emitted value is sound and last. */
  lemma AbsorbKeeps(c: Terms, inputs: seq<Input>, n: nat, o: Observer, p: Part, now: real)
    requires n < |inputs| && inputs[n] == Datagram(Some(p), now) && Ours(c, p)
    requires Inv(c, inputs, n + 1, o) && o.a.sequence == Some(p.sequence) && Heard(c, inputs, n, o)
    requires forall e | e in o.emitted :: e.at < n
    ensures
      var (a, out) := Absorb(c, o.a, p, now);
      Inv(c, inputs, n + 1, Record(o, a, out, n)) && Heard(c, inputs, n + 1, Record(o, a, out, n))
  {
    hide Absorb, MadeOf, Heard, Delivered, Held;
    AbsorbHears(c, inputs, n, o, p, now);
    AbsorbKeepsCurrent(c, inputs, n, o, p, now);
    if Absorb(c, o.a, p, now).1.Some? { EmissionIsMade(c, inputs, n, o, p, now); }
  }

  lemma NextKeeps(c: Terms, inputs: seq<Input>, n: nat, o: Observer)
    requires n < |inputs| && Inv(c, inputs, n, o) && Heard(c, inputs, n, o)
    ensures var next := Next(c, o, n, inputs[n]); Inv(c, inputs, n + 1, next) && Heard(c, inputs, n + 1, next)
  {
    match inputs[n]
    case Reset => HeldOfEmpty(MAX_PARTS);
    case Datagram(None, _) =>
    case Datagram(Some(p), now) =>
      if Ours(c, p) {
        FollowKeeps(c, inputs, n, o, p, now);
        var e := Expire(c, o.a, now);
        var d := Distance(e, p);
        if d < SEQUENCE_MODULUS / 2 {
          var b := Follow(c, o, n, inputs[n]);
          var m := if d > 0 then Adopt(e, p) else e;
          AbsorbKeeps(c, inputs, n, b.(a := m), p, now);
          assert Next(c, o, n, inputs[n]) == Record(b.(a := m), Absorb(c, m, p, now).0, Absorb(c, m, p, now).1, n);
        }
      }
  }

  lemma InitialInv(c: Terms, inputs: seq<Input>)
    requires c.Valid()
    ensures Inv(c, inputs, 0, Observer(EMPTY, 0, 0, 0, []))
  {
    HeldOfEmpty(MAX_PARTS);
    var s :| s in c.sizes;
    assert Held(EMPTY.fragments) <= s;
  }

  lemma {:induction false} ObserverInv(c: Terms, inputs: seq<Input>, n: nat)
    requires c.Valid() && n <= |inputs|
    ensures Inv(c, inputs, n, Observe(c, inputs, n)) && Heard(c, inputs, n, Observe(c, inputs, n))
  {
    hide Inv, Next;
    if n == 0 {
      InitialInv(c, inputs);
    } else {
      var o := Observe(c, inputs, n - 1);
      ObserverInv(c, inputs, n - 1);
      NextKeeps(c, inputs, n - 1, o);
    }
  }

  lemma {:induction false} ObserverFollowsRun(c: Terms, inputs: seq<Input>, n: nat)
    requires n <= |inputs|
    ensures var o := Observe(c, inputs, n);
      && o.a == StateAfter(c, EMPTY, inputs, n)
      && (forall e | e in o.emitted :: e.at < n && OutputAt(c, EMPTY, inputs, e.at) == Some(e.value))
      && (forall k: nat | k < n && OutputAt(c, EMPTY, inputs, k).Some? :: exists e :: e in o.emitted && e.at == k)
  {
    hide Step, Follow;
    if n > 0 {
      ObserverFollowsRun(c, inputs, n - 1);
      var o := Observe(c, inputs, n);
      var out := OutputAt(c, EMPTY, inputs, n - 1);
      if out.Some? {
        assert o.emitted[|o.emitted| - 1].at == n - 1;
      }
      var before := Observe(c, inputs, n - 1);
      assert forall e | e in before.emitted :: e in o.emitted;
    }
  }

  /**
   * The frames of a run are exactly the observer's emissions. Each is the in-order join of
   * fragments fed since one adoption under one number and one part count, no adoption yields
   * two, and inside an epoch they stand in strictly increasing order on a counter whose
   * remainder is the wire's sequence number.
   */
  lemma FramesAreSoundAndOrdered(c: Terms, inputs: seq<Input>)
    requires c.Valid()
    ensures var frames := Observe(c, inputs, |inputs|).emitted;
      && (forall e | e in frames ::
            e.at < |inputs| && OutputAt(c, EMPTY, inputs, e.at) == Some(e.value) && SoundEmission(c, inputs, e))
      && (forall k: nat | k < |inputs| && OutputAt(c, EMPTY, inputs, k).Some? :: exists e :: e in frames && e.at == k)
      && (forall i, j | 0 <= i < j < |frames| :: Before(frames[i], frames[j]))
  {
    ObserverInv(c, inputs, |inputs|);
    ObserverFollowsRun(c, inputs, |inputs|);
  }

  /** At every moment of every run the retained fragments fit in the largest accepted frame. */
  lemma RetainedBytesBounded(c: Terms, inputs: seq<Input>, n: nat)
    requires c.Valid() && n <= |inputs|
    ensures exists s :: s in c.sizes && Held(StateAfter(c, EMPTY, inputs, n).fragments) <= s
    ensures forall i | i in StateAfter(c, EMPTY, inputs, n).fragments :: i < MAX_PARTS
  {
    ObserverInv(c, inputs, n);
    ObserverFollowsRun(c, inputs, n);
  }

  // ----- Contradictions -----

  /** Two parts of one number that cannot belong to one sending. */
  predicate Contradict(p: Part, q: Part) {
    p.sequence == q.sequence && (p.parts != q.parts || (p.index == q.index && p.values != q.values))
  }

  /** No reset, no part of a newer number, and no part of the session after the idle timeout. */
  predicate Stays(c: Terms, a: Assembly, sequence: nat, input: Input) {
    && input.Datagram?
    && (input.part.Some? && IsOfSession(c, input.part.value) ==>
          && !Expires(c, a, input.now)
          && !(0 < (input.part.value.sequence - sequence) % SEQUENCE_MODULUS < SEQUENCE_MODULUS / 2))
  }

  /** Nothing more comes out under this number; or the frame is open and holds this part. */
  predicate Closed(a: Assembly, sequence: nat) { a.sequence == Some(sequence) && (a.blocked || a.completed) }

  predicate ClosedOrHolds(a: Assembly, p: Part) {
    || Closed(a, p.sequence)
    || (a.sequence == Some(p.sequence) && a.parts == p.parts && p.index in a.fragments && a.fragments[p.index] == p.values)
  }

  lemma StayingStep(c: Terms, a: Assembly, p: Part, input: Input)
    requires ClosedOrHolds(a, p) && Stays(c, a, p.sequence, input)
    ensures var (b, out) := Step(c, a, input);
      && ClosedOrHolds(b, p) && (Closed(a, p.sequence) ==> Closed(b, p.sequence) && out.None?)
      && (input.part.Some? && IsOfSession(c, input.part.value) && Contradict(p, input.part.value) ==>
            Closed(b, p.sequence) && out.None?)
  {
    hide WellShaped, TooLarge, Held;
  }

  lemma {:induction false} StaysClosedOrHolds(c: Terms, start: Assembly, inputs: seq<Input>, p: Part, i: nat, j: nat, n: nat)
    requires i < j < n <= |inputs| && ClosedOrHolds(StateAfter(c, start, inputs, i + 1), p)
    requires IsNumbered(c, inputs[j], p.sequence) && Contradict(p, inputs[j].part.value)
    requires forall k: nat | i < k < n :: Stays(c, StateAfter(c, start, inputs, k), p.sequence, inputs[k])
    ensures Closed(StateAfter(c, start, inputs, n), p.sequence) && OutputAt(c, start, inputs, n - 1).None?
  {
    hide Step, Closed, ClosedOrHolds;
    if j < n - 1 {
      StaysClosedOrHolds(c, start, inputs, p, i, j, n - 1);
      StillClosedOrHolds(c, start, inputs, p, i, n - 1);
    } else {
      StillClosedOrHolds(c, start, inputs, p, i, n - 1);
    }
    StayingStep(c, StateAfter(c, start, inputs, n - 1), p, inputs[n - 1]);
  }

  lemma {:induction false} StillClosedOrHolds(c: Terms, start: Assembly, inputs: seq<Input>, p: Part, i: nat, n: nat)
    requires i < n <= |inputs| && ClosedOrHolds(StateAfter(c, start, inputs, i + 1), p)
    requires forall k: nat | i < k < n :: Stays(c, StateAfter(c, start, inputs, k), p.sequence, inputs[k])
    ensures ClosedOrHolds(StateAfter(c, start, inputs, n), p)
  {
    hide Step, Closed, ClosedOrHolds;
    if i + 1 < n {
      StillClosedOrHolds(c, start, inputs, p, i, n - 1);
      StayingStep(c, StateAfter(c, start, inputs, n - 1), p, inputs[n - 1]);
    }
  }

  lemma TakenIn(c: Terms, a: Assembly, p: Part, now: real)
    requires FeedPart(c, a, p, now).0.sequence == Some(p.sequence) && IsOfSession(c, p)
    ensures ClosedOrHolds(FeedPart(c, a, p, now).0, p)
  {
    hide WellShaped, TooLarge, Held;
  }

  /**
   * Once two parts of one number contradict each other, the frame is given up: nothing comes out from then on,
   * whichever parts follow, until a reset, the idle timeout or a newer number.
   */
  lemma ContradictionSilences(c: Terms, start: Assembly, inputs: seq<Input>, i: nat, j: nat, n: nat)
    requires i < j <= n < |inputs| && inputs[i].Datagram? && inputs[i].part.Some? && IsOfSession(c, inputs[i].part.value)
    requires StateAfter(c, start, inputs, i + 1).sequence == Some(inputs[i].part.value.sequence)
    requires IsNumbered(c, inputs[j], inputs[i].part.value.sequence)
    requires Contradict(inputs[i].part.value, inputs[j].part.value)
    requires forall k: nat | i < k <= n ::
      Stays(c, StateAfter(c, start, inputs, k), inputs[i].part.value.sequence, inputs[k])
    ensures OutputAt(c, start, inputs, n).None?
  {
    hide FeedPart, ClosedOrHolds, Stays;
    var p := inputs[i].part.value;
    assert StateAfter(c, start, inputs, i + 1) == FeedPart(c, StateAfter(c, start, inputs, i), p, inputs[i].now).0;
    TakenIn(c, StateAfter(c, start, inputs, i), p, inputs[i].now);
    StaysClosedOrHolds(c, start, inputs, p, i, j, n + 1);
  }

  // ----- Completeness -----

  /** A value cut by the sender: nonempty parts, equal except a last one that may be shorter. */
  predicate WellCut(c: Terms, pieces: seq<Bytes>) {
    && 1 <= |pieces| <= MAX_PARTS
    && (forall i | 0 <= i < |pieces| :: pieces[i] != [])
    && IsOneCut(c.sizes, pieces)
  }

  /** A cut of one value under one sequence number. */
  datatype Cut = Cut(sequence: nat, pieces: seq<Bytes>)
  {
    predicate Valid(c: Terms) { sequence < SEQUENCE_MODULUS && WellCut(c, pieces) }

    function All(): set<nat> { set i: nat {:trigger pieces[i]} | i < |pieces| }
  }

  predicate IsPiece(c: Terms, cut: Cut, input: Input) {
    && input.Datagram? && input.part.Some?
    && var p := input.part.value;
       && IsOfSession(c, p) && p.sequence == cut.sequence && p.parts == |cut.pieces|
       && p.index < |cut.pieces| && p.values == cut.pieces[p.index]
  }

  /** Malformed, foreign, and delayed older packets: everything that may be mixed in. */
  predicate IsNoise(c: Terms, cut: Cut, input: Input) {
    && input.Datagram?
    && (input.part.None? || !IsOfSession(c, input.part.value)
        || (input.part.value.sequence - cut.sequence) % SEQUENCE_MODULUS >= SEQUENCE_MODULUS / 2)
  }

  predicate PiecesAndNoise(c: Terms, cut: Cut, inputs: seq<Input>) {
    forall i | 0 <= i < |inputs| :: IsPiece(c, cut, inputs[i]) || IsNoise(c, cut, inputs[i])
  }

  /** The indices that have arrived, and when the last of them arrived for the first time. */
  datatype Progress = Progress(arrived: set<nat>, last: Option<real>)

  function Count(c: Terms, cut: Cut, g: Progress, input: Input): Progress {
    if IsPiece(c, cut, input) && input.part.value.index !in g.arrived
    then Progress(g.arrived + {input.part.value.index}, Some(input.now))
    else g
  }

  function ProgressAfter(c: Terms, cut: Cut, inputs: seq<Input>, n: nat): Progress
    requires n <= |inputs|
  {
    if n == 0 then Progress({}, None) else Count(c, cut, ProgressAfter(c, cut, inputs, n - 1), inputs[n - 1])
  }

  /** A packet of the session does not lag a whole timeout behind the last progress. */
  predicate InTime(c: Terms, g: Progress, input: Input) {
    input.Datagram? && input.part.Some? && IsOfSession(c, input.part.value) && g.last.Some? ==>
      input.now - g.last.value < c.timeout
  }

  predicate InTimeAt(c: Terms, cut: Cut, inputs: seq<Input>, n: nat)
    requires n < |inputs|
  {
    InTime(c, ProgressAfter(c, cut, inputs, n), inputs[n])
  }

  predicate NoTimeoutGap(c: Terms, cut: Cut, inputs: seq<Input>) {
    forall n: nat | n < |inputs| :: InTimeAt(c, cut, inputs, n)
  }

  /** The number is ahead of what the assembler tracks, or it tracks nothing any more. */
  predicate Newer(c: Terms, start: Assembly, sequence: nat, now: real) {
    || start.sequence.None? || (start.lastSeen.Some? && now - start.lastSeen.value >= c.timeout)
    || 0 < (sequence - start.sequence.value) % SEQUENCE_MODULUS < SEQUENCE_MODULUS / 2
  }

  function Collected(cut: Cut, arrived: set<nat>): map<nat, Bytes>
    requires arrived <= cut.All()
  {
    map i | i in arrived :: cut.pieces[i]
  }

  lemma {:induction false} HeldWithin(cut: Cut, fragments: map<nat, Bytes>, n: nat)
    requires forall i | i in fragments :: i < |cut.pieces| && fragments[i] == cut.pieces[i]
    ensures HeldBelow(fragments, n) <= |Join(cut.pieces[..if n < |cut.pieces| then n else |cut.pieces|])|
  {
    if n > 0 {
      HeldWithin(cut, fragments, n - 1);
      if n <= |cut.pieces| {
        assert cut.pieces[..n] == cut.pieces[..n - 1] + [cut.pieces[n - 1]];
        JoinAppend(cut.pieces[..n - 1], cut.pieces[n - 1]);
      }
    }
  }

  /** What the assembler holds once the cut is current and some of its indices have arrived. */
  ghost predicate Assembling(c: Terms, cut: Cut, a: Assembly, g: Progress) {
    && g.arrived <= cut.All()
    && a.sequence == Some(cut.sequence) && a.parts == |cut.pieces| && !a.blocked
    && a.completed == (g.arrived == cut.All())
    && a.fragments == (if a.completed then map[] else Collected(cut, g.arrived))
    && a.lastSeen == g.last
  }

  /** The value comes out exactly when the last missing index arrives. */
  function Expected(cut: Cut, before: Progress, after: Progress): Option<Bytes> {
    if before.arrived != cut.All() && after.arrived == cut.All() then Some(Join(cut.pieces)) else None
  }

  lemma PiecesFit(c: Terms, cut: Cut, held: map<nat, Bytes>)
    requires cut.Valid(c) && forall i | i in held :: i < |cut.pieces| && held[i] == cut.pieces[i]
    ensures !TooLarge(c.sizes, Held(held))
  {
    HeldWithin(cut, held, MAX_PARTS);
    assert cut.pieces[..|cut.pieces|] == cut.pieces;
    assert Held(held) <= |Join(cut.pieces)|;
  }

  lemma AbsorbPiece(c: Terms, cut: Cut, a: Assembly, g: Progress, input: Input)
    requires c.Valid() && cut.Valid(c) && IsPiece(c, cut, input)
    requires Assembling(c, cut, a.(lastSeen := g.last), g) && (g.arrived != {} ==> a.lastSeen == g.last)
    ensures
      var (b, out) := Absorb(c, a, input.part.value, input.now);
      var g' := Count(c, cut, g, input);
      Assembling(c, cut, b, g') && out == Expected(cut, g, g')
  {
    var p := input.part.value;
    assert p.index in cut.All() by { assert cut.pieces[p.index] == p.values; }
    hide WellShaped, TooLarge, Held, HeldBelow, Join;
    if !a.completed {
      var held := a.fragments[p.index := p.values];
      assert held == Collected(cut, g.arrived + {p.index});
      PiecesFit(c, cut, held);
      if g.arrived + {p.index} == cut.All() {
        assert InOrder(held, a.parts) == cut.pieces;
      } else {
        var i :| i in cut.All() && i !in g.arrived + {p.index};
        assert i < a.parts && i !in held;
      }
    }
  }

  /** The adopting piece, from any state for which its number is newer. */
  lemma FirstPiece(c: Terms, cut: Cut, start: Assembly, input: Input)
    requires c.Valid() && cut.Valid(c) && IsPiece(c, cut, input)
    requires Newer(c, start, cut.sequence, input.now)
    ensures
      var (b, out) := Step(c, start, input);
      var g := Progress({}, None);
      var g' := Count(c, cut, g, input);
      Assembling(c, cut, b, g') && out == Expected(cut, g, g')
  {
    var e := Adopt(Expire(c, start, input.now), input.part.value);
    assert Collected(cut, {}) == map[];
    assert 0 in cut.All() by { assert cut.pieces[0] == cut.pieces[0]; }
    AbsorbPiece(c, cut, e, Progress({}, None), input);
  }

  /** A later packet: a piece fills its slot, noise changes nothing. */
  lemma LaterPacket(c: Terms, cut: Cut, a: Assembly, g: Progress, input: Input)
    requires c.Valid() && cut.Valid(c)
    requires IsPiece(c, cut, input) || IsNoise(c, cut, input)
    requires Assembling(c, cut, a, g) && InTime(c, g, input)
    ensures
      var (b, out) := Step(c, a, input);
      var g' := Count(c, cut, g, input);
      Assembling(c, cut, b, g') && out == Expected(cut, g, g')
  {
    if IsPiece(c, cut, input) {
      assert Expire(c, a, input.now) == a;
      AbsorbPiece(c, cut, a, g, input);
    }
  }

  /** After the adopting piece, the assembler's state is a function of what has arrived. */
  lemma {:induction false} RunAssembles(c: Terms, cut: Cut, start: Assembly, inputs: seq<Input>, n: nat)
    requires c.Valid() && cut.Valid(c) && n < |inputs|
    requires IsPiece(c, cut, inputs[0]) && Newer(c, start, cut.sequence, inputs[0].now)
    requires PiecesAndNoise(c, cut, inputs) && NoTimeoutGap(c, cut, inputs)
    ensures Assembling(c, cut, StateAfter(c, start, inputs, n + 1), ProgressAfter(c, cut, inputs, n + 1))
    ensures OutputAt(c, start, inputs, n) ==
      Expected(cut, ProgressAfter(c, cut, inputs, n), ProgressAfter(c, cut, inputs, n + 1))
  {
    if n == 0 {
      FirstPiece(c, cut, start, inputs[0]);
    } else {
      RunAssembles(c, cut, start, inputs, n - 1);
      assert InTimeAt(c, cut, inputs, n);
      LaterPacket(c, cut, StateAfter(c, start, inputs, n), ProgressAfter(c, cut, inputs, n), inputs[n]);
    }
  }

  /**
   * Completeness: once a piece of the cut has been adopted, its pieces in any order, repeated
   * and mixed with noise, give back exactly the value on the packet that fills the last slot,
   * and nothing at any other packet.
   */
  lemma CutIsReassembled(c: Terms, cut: Cut, start: Assembly, inputs: seq<Input>)
    requires c.Valid() && cut.Valid(c) && inputs != []
    requires IsPiece(c, cut, inputs[0]) && Newer(c, start, cut.sequence, inputs[0].now)
    requires PiecesAndNoise(c, cut, inputs) && NoTimeoutGap(c, cut, inputs)
    ensures forall n: nat | n < |inputs| ::
              OutputAt(c, start, inputs, n) ==
              Expected(cut, ProgressAfter(c, cut, inputs, n), ProgressAfter(c, cut, inputs, n + 1))
  {
    forall n: nat | n < |inputs|
      ensures OutputAt(c, start, inputs, n) ==
        Expected(cut, ProgressAfter(c, cut, inputs, n), ProgressAfter(c, cut, inputs, n + 1))
    {
      RunAssembles(c, cut, start, inputs, n);
    }
  }
}
