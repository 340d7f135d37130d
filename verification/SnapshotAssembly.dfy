/**
 * The RA15 frame assembler: one game/watch-list session, at most one frame in
 * flight, six-digit wrapping sequence numbers, and an idle timeout that lets a
 * restarted console begin again at any number.
 */
module SnapshotAssembly {
  import opened Common

  const SEQUENCE_MODULUS := 1000000
  const MAX_PARTS := 9

  /** A validated fragment; `index < parts` and the payload is never empty. */
  datatype SnapshotPart = SnapshotPart(
    serial: string, sequence: nat, count: nat, index: nat, parts: nat, values: Bytes)
  {
    predicate Valid() {
      sequence < SEQUENCE_MODULUS && index < parts <= MAX_PARTS && values != []
    }
  }

  type Part = p: SnapshotPart | p.Valid() witness SnapshotPart("", 0, 1, 0, 1, [0])

  /** The session a list was installed for: serial, watch count, accepted frame sizes. */
  datatype Terms = Terms(serial: string, count: nat, sizes: set<nat>, timeout: real)
  {
    predicate Valid() { sizes != {} && timeout > 0.0 }
  }

  /** The value of the assembler's fields; `parts` is 0 until a frame is adopted. */
  datatype Assembly = Assembly(
    sequence: Option<nat>, parts: nat, fragments: map<nat, Bytes>,
    blocked: bool, completed: bool, lastSeen: Option<real>)

  const EMPTY := Assembly(None, 0, map[], false, false, None)

  /** Bytes held for the fragments with index below n. */
  function HeldBelow(fragments: map<nat, Bytes>, n: nat): nat {
    if n == 0 then 0
    else HeldBelow(fragments, n - 1) + (if n - 1 in fragments then |fragments[n - 1]| else 0)
  }

  function Held(fragments: map<nat, Bytes>): nat { HeldBelow(fragments, MAX_PARTS) }

  /** The fragments 0..n in index order. */
  function InOrder(fragments: map<nat, Bytes>, n: nat): (r: seq<Bytes>)
    requires forall i: nat | i < n :: i in fragments
  {
    seq(n, i requires 0 <= i < n => fragments[i])
  }

  predicate TooLarge(sizes: set<nat>, held: nat) { forall s | s in sizes :: held > s }

  /** Equal lengths except a last part that may be shorter, and an accepted total. */
  predicate WellShaped(sizes: set<nat>, parts: seq<Bytes>)
    requires parts != []
  {
    && (forall i | 0 <= i < |parts| - 1 :: |parts[i]| == |parts[0]|)
    && |parts[|parts| - 1]| <= |parts[0]|
    && |Join(parts)| in sizes
  }

  function Expire(c: Terms, a: Assembly, now: real): Assembly {
    if a.lastSeen.Some? && now - a.lastSeen.value >= c.timeout then EMPTY else a
  }

  /** How far the fragment is ahead on the wrapping counter; 1 when nothing is tracked. */
  function Distance(a: Assembly, p: Part): nat {
    if a.sequence.Some? then (p.sequence - a.sequence.value) % SEQUENCE_MODULUS else 1
  }

  function Adopt(a: Assembly, p: Part): Assembly {
    a.(sequence := Some(p.sequence), parts := p.parts, fragments := map[],
       blocked := false, completed := false)
  }

  function Block(a: Assembly): Assembly { a.(blocked := true, fragments := map[]) }

  predicate Ours(c: Terms, p: Part) { p.serial == c.serial && p.count == c.count }

  /** What one fragment does to a frame that is already the current one. */
  function Absorb(c: Terms, a: Assembly, p: Part, now: real): (r: (Assembly, Option<Bytes>)) {
    if a.blocked || a.completed then (a, None)
    else if p.parts != a.parts then (Block(a), None)
    else if p.index in a.fragments && a.fragments[p.index] != p.values then (Block(a), None)
    else
      var held := a.fragments[p.index := p.values];
      if TooLarge(c.sizes, Held(held)) then (Block(a), None)
      else
        var b := a.(fragments := held,
                    lastSeen := if p.index in a.fragments then a.lastSeen else Some(now));
        if exists i: nat | i < b.parts :: i !in held then (b, None)
        else if !WellShaped(c.sizes, InOrder(held, b.parts)) then (Block(b), None)
        else (b.(completed := true, fragments := map[]), Some(Join(InOrder(held, b.parts))))
  }

  function FeedPart(c: Terms, a: Assembly, p: Part, now: real): (r: (Assembly, Option<Bytes>)) {
    if !Ours(c, p) then (a, None)
    else
      var e := Expire(c, a, now);
      var d := Distance(e, p);
      if d >= SEQUENCE_MODULUS / 2 then (e, None)
      else Absorb(c, if d > 0 then Adopt(e, p) else e, p, now)
  }

  lemma {:induction false} RangeCardinality(s: set<nat>, n: nat)
    requires forall i | i in s :: i < n
    ensures |s| <= n
    ensures |s| == n <==> forall i: nat | i < n :: i in s
  {
    if n > 0 {
      if n - 1 in s {
        assert |s - {n - 1}| == |s| - 1;
        RangeCardinality(s - {n - 1}, n - 1);
      } else {
        RangeCardinality(s, n - 1);
      }
    } else {
      assert s == {};
    }
  }

  /** The assembler object; a fragment that does not parse is reported as None. */
  class SnapshotAssembler {
    const terms: Terms
    var sequence: Option<nat>
    var parts: nat
    var fragments: map<nat, Bytes>
    var blocked: bool
    var completed: bool
    var lastSeen: Option<real>

    ghost predicate Valid()
      reads this
    {
      && terms.Valid()
      && forall i | i in fragments :: i < parts <= MAX_PARTS
    }

    function Model(): Assembly
      reads this
    {
      Assembly(sequence, parts, fragments, blocked, completed, lastSeen)
    }

    constructor (terms: Terms)
      requires terms.Valid()
      ensures Valid() && this.terms == terms && Model() == EMPTY
    {
      this.terms := terms;
      sequence, parts, fragments, blocked, completed, lastSeen := None, 0, map[], false, false, None;
    }

    method Reset()
      requires Valid()
      modifies this
      ensures Valid() && Model() == EMPTY
    {
      sequence, parts, fragments, blocked, completed, lastSeen := None, 0, map[], false, false, None;
    }

    /** The bytes of all fragments, summed slot by slot. */
    method Retained() returns (held: nat)
      requires Valid()
      ensures held == Held(fragments)
    {
      held := 0;
      for i := 0 to MAX_PARTS
        invariant held == HeldBelow(fragments, i)
      {
        if i in fragments { held := held + |fragments[i]|; }
      }
    }

    /** The fragments 0..parts joined in index order. */
    method Assemble() returns (pieces: seq<Bytes>, values: Bytes)
      requires Valid() && forall i: nat | i < parts :: i in fragments
      ensures pieces == InOrder(fragments, parts) && values == Join(pieces)
    {
      pieces, values := [], [];
      for i := 0 to parts
        invariant pieces == InOrder(fragments, i)
        invariant values == Join(pieces)
      {
        JoinAppend(pieces, fragments[i]);
        pieces, values := pieces + [fragments[i]], values + fragments[i];
      }
    }

    /** One fragment of the frame that is already current. */
    method Take(p: Part, now: real) returns (values: Option<Bytes>)
      requires Valid()
      modifies this
      ensures Valid()
      ensures (Model(), values) == Absorb(terms, old(Model()), p, now)
    {
      values := None;
      if blocked || completed { return; }
      var seen := p.index in fragments;
      if p.parts != parts || (seen && fragments[p.index] != p.values) {
        blocked, fragments := true, map[];
        return;
      }
      fragments := fragments[p.index := p.values];
      var held := Retained();
      if TooLarge(terms.sizes, held) {
        blocked, fragments := true, map[];
        return;
      }
      if !seen { lastSeen := Some(now); }
      RangeCardinality(fragments.Keys, parts);
      if |fragments| != parts {
        assert |fragments.Keys| == |fragments|;
        return;
      }
      var pieces, joined := Assemble();
      if WellShaped(terms.sizes, pieces) {
        completed, fragments := true, map[];
        values := Some(joined);
      } else {
        blocked, fragments := true, map[];
      }
    }

    method Feed(p: Part, now: real) returns (values: Option<Bytes>)
      requires Valid()
      modifies this
      ensures Valid()
      ensures (Model(), values) == FeedPart(terms, old(Model()), p, now)
    {
      values := None;
      if p.serial != terms.serial || p.count != terms.count { return; }
      if lastSeen.Some? && now - lastSeen.value >= terms.timeout { Reset(); }
      var distance := 1;
      if sequence.Some? {
        distance := (p.sequence - sequence.value) % SEQUENCE_MODULUS;
        if distance >= SEQUENCE_MODULUS / 2 { return; }
      }
      if distance > 0 {
        sequence, parts, fragments := Some(p.sequence), p.parts, map[];
        blocked, completed := false, false;
      }
      values := Take(p, now);
    }
  }
}
