/**
 * What the evaluated receiver makes of a result, a poll and a frame, exactly: when a list
 * is published and what is then in effect, and by whom a frame is evaluated.
 */
module SetPublications {
  import opened Common
  import opened WatchLists
  import opened WatchSessions
  import opened Receivers
  import opened ReceiverRuns
  import opened Evaluators
  import opened EvaluatedReceivers
  import opened AttributionRuns
  import ReceiverAnswers

  // ----- Publishing a set -----

  /** Neither lease nor job runs out at this moment. */
  predicate Lasts(l: Limits, r: ReceiverState, now: real) {
    !ReceiverAnswers.Idle(l, r, now) && !ReceiverAnswers.Late(l, r, now)
  }

  /** The bound account, the job that is pending, and the image it is about. */
  predicate IsAwaited(a: Adapter, job: Job, q: QualifiedSet) {
    && a.account == Some(q.context.account) && a.receiver.pending == Some(job)
    && job.identity.imageHash == q.context.imageHash
  }

  /** A set that the receiver and the native runtime both take. */
  predicate IsSound(job: Job, q: QualifiedSet) {
    && q.watch.Some? && WellLaidOut(q.watch.value) && 1 <= |q.ids| <= 4096 && q.activates
    && q.achievements <= 10000000 && ValidSerial(job.identity.serial)
  }

  lemma LastingIsNotExpired(l: Limits, a: Sane, now: real)
    requires Accounted(a)
    ensures Lasts(l, a.receiver, now) <==> Expired(l, a.receiver, now) == a.receiver
    ensures Lasts(l, a.receiver, now) ==> Ticked(l, a, now) == Reconciled(a)
    ensures !Lasts(l, a.receiver, now) ==> Ticked(l, a, now).receiver.pending.None?
    ensures InStep(Reconciled(a)) && Reconciled(a).receiver == a.receiver && Reconciled(a).account == a.account
    ensures InStep(a) ==> Reconciled(a) == a
  {
    ReconcileRestores(a, a.receiver);
  }

  /** A sound set for the pending job is published when nothing runs out on the way, and is then in effect. */
  lemma OfferedExactly(l: Limits, a: Sane, now: real, job: Job, q: QualifiedSet)
    requires InStep(a) && a.receiver.pending == Some(job)
    ensures var (s, outcome) := Offered(l, a, now, job, SetVerdict(q), q.ids, q.activates);
      && (outcome == Accepted <==> IsSound(job, q) && Lasts(l, a.receiver, now))
      && (outcome == Accepted ==>
            && s.evaluator == Some(NewEvaluator(q.watch.value, q.ids, s.receiver.watching.generation))
            && s.receiver.watching.watch == q.watch && s.receiver.identified == Some(job.identity)
            && s.receiver.title == q.title && s.receiver.achievements == q.achievements)
      && (outcome == Outcome.Raised ==> s.evaluator.None? && s.receiver.owner.None? && s.receiver.pending.None?)
      && (Lasts(l, a.receiver, now) ==> outcome == if IsSound(job, q) then Accepted else Outcome.Raised)
  {
    hide WellLaidOut, ValidSerial;
    LastingIsNotExpired(l, a, now);
    ReleasedKeeps(a);
  }

  /**
   * A qualified set is published, exactly: when it is for the bound account, the pending job and its image, when
   * lease and job last through all three readings of the clock, and when the set is sound. Then its
   * own evaluator, list, title and context are in effect. Otherwise, while nothing runs out, a set that is awaited
   * raises and leaves nothing at all; and one that is not is ignored, but gives up the job it came for.
   */
  lemma SetIsPublished(l: Limits, a: Sane, first: real, second: real, third: real, job: Job, q: QualifiedSet)
    requires Accounted(a)
    ensures var (s, outcome) := ConcludedSet(l, a, first, second, third, job, q);
      && (outcome == Accepted <==>
            && IsAwaited(a, job, q) && IsSound(job, q)
            && Lasts(l, a.receiver, first) && Lasts(l, a.receiver, second) && Lasts(l, a.receiver, third))
      && (outcome == Accepted ==>
            && s.context == Some(q.context)
            && s.evaluator == Some(NewEvaluator(q.watch.value, q.ids, s.receiver.watching.generation))
            && s.receiver.watching.watch == q.watch && s.receiver.identified == Some(job.identity)
            && s.receiver.title == q.title && s.receiver.achievements == q.achievements)
      && (outcome == Outcome.Raised ==> s.evaluator.None? && s.receiver.owner.None? && s.receiver.pending.None?)
      && (Lasts(l, a.receiver, first) && Lasts(l, a.receiver, second) && Lasts(l, a.receiver, third) ==>
            && (outcome == Ignored <==> !IsAwaited(a, job, q)) && s.account == a.account
            && (outcome == Ignored ==>
                  s.receiver == if a.receiver.pending == Some(job) then a.receiver.(pending := None, queued := None)
                                else a.receiver))
  {
    hide Ticked, Offered, IsSound, Lasts, Expired, Completed, Released, Reconciled;
    LastingIsNotExpired(l, a, first);
    var b := Reconciled(a);
    LastingIsNotExpired(l, b, second);
    TickedKeeps(l, a, first);
    ReleasedKeeps(Ticked(l, a, first));
    ReleasedIsEmpty(Ticked(l, a, first));
    ConcludedSetKeeps(l, a, first, second, third, job, q);
    if IsAwaited(a, job, q) && Lasts(l, a.receiver, first) && Lasts(l, a.receiver, second) {
      OfferedExactly(l, b, third, job, q);
      PendingIsCurrent(b, job);
    }
    if Lasts(l, a.receiver, second) { FailingGivesUp(l, b, second, job); }
    SoundHasList(job, q);
  }

  lemma ReleasedIsEmpty(a: Sane)
    requires Accounted(a)
    ensures var r := Released(a);
      && r.receiver.owner.None? && r.receiver.pending.None? && r.receiver.watching.watch.None?
      && r.evaluator.None? && r.context.None? && r.live == 0
  {
    ReleasedKeeps(a);
  }

  lemma PendingIsCurrent(a: Sane, job: Job)
    requires InStep(a) && a.receiver.pending == Some(job)
    ensures job.token == a.receiver.token
  {
  }

  lemma FailingGivesUp(l: Limits, a: Sane, now: real, job: Job)
    requires InStep(a) && Lasts(l, a.receiver, now)
    ensures var s := Completed(l, a.receiver, now, job, Failed).0;
      && s == (if a.receiver.pending == Some(job) then a.receiver.(pending := None, queued := None) else a.receiver)
      && Reconciled(a.(receiver := s)).receiver == s
  {
    LastingIsNotExpired(l, a, now);
  }

  lemma SoundHasList(job: Job, q: QualifiedSet)
    ensures IsSound(job, q) ==> q.watch.Some?
  {
  }

  // ----- Other results, and polls -----

  /** A list with an evaluator that can be built, for a serial and a count that are allowed. */
  predicate IsUsable(job: Job, v: Verdict, ids: set<nat>, activates: bool) {
    v.Qualified? ==>
      && v.watch.Some? && WellLaidOut(v.watch.value) && 1 <= |ids| <= 4096 && activates && !v.conflicting
      && v.achievements <= 10000000 && ValidSerial(if v.serial != "" then v.serial else job.identity.serial)
  }

  /** What is in effect after a result: a list with its own evaluator, a lack of support, or nothing. */
  predicate InEffect(s: Adapter, job: Job, v: Verdict, ids: set<nat>) {
    && s.receiver.pending.None? && s.context.None?
    && match v
       case Failed => s.receiver.identified.None? && s.evaluator.None?
       case NoSupport => s.receiver.identified == Some(job.identity) && s.receiver.unsupported && s.evaluator.None?
       case Qualified(watch, _, _, title, achievements) =>
         && s.receiver.identified == Some(job.identity) && !s.receiver.unsupported && watch.Some?
         && s.receiver.watching.watch == watch && s.receiver.title == title && s.receiver.achievements == achievements
         && s.evaluator == Some(NewEvaluator(watch.value, ids, s.receiver.watching.generation))
  }

  lemma OfferIsDecided(l: Limits, a: Sane, now: real, job: Job, v: Verdict, ids: set<nat>, activates: bool)
    requires InStep(a) && a.receiver.pending == Some(job) && v.Qualified?
    ensures var (s, outcome) := Offered(l, a, now, job, v, ids, activates);
      && (outcome == Accepted <==> IsUsable(job, v, ids, activates) && Lasts(l, a.receiver, now))
      && (outcome == Accepted ==> InEffect(s, job, v, ids))
      && (outcome == Outcome.Raised ==> s.evaluator.None? && s.receiver.owner.None? && s.receiver.pending.None?)
      && (Lasts(l, a.receiver, now) ==> outcome != Ignored)
  {
    hide WellLaidOut, ValidSerial;
    LastingIsNotExpired(l, a, now);
    ReleasedKeeps(a);
  }

  lemma OtherIsDecided(l: Limits, a: Sane, now: real, job: Job, v: Verdict)
    requires InStep(a) && a.receiver.pending == Some(job) && !v.Qualified?
    ensures var (s, outcome) := Completed(l, a.receiver, now, job, v);
      && outcome == (if Lasts(l, a.receiver, now) then Accepted else Ignored)
      && (outcome == Accepted ==> InEffect(Reconciled(a.(receiver := s)), job, v, {}))
  {
    LastingIsNotExpired(l, a, now);
  }

  /**
   * A result is published, exactly: for the pending job, while lease and job last, when it can be used. One that
   * cannot leaves nothing, and one for another job changes nothing.
   */
  lemma ResultIsPublished(l: Limits, a: Sane, first: real, second: real, job: Job, v: Verdict, ids: set<nat>, activates: bool)
    requires Accounted(a)
    ensures var (s, outcome) := Concluded(l, a, first, second, job, v, ids, activates);
      && (outcome == Accepted <==>
            && a.receiver.pending == Some(job) && Lasts(l, a.receiver, first) && Lasts(l, a.receiver, second)
            && IsUsable(job, v, ids, activates))
      && (outcome == Accepted ==> InEffect(s, job, v, ids))
      && (outcome == Outcome.Raised ==> s.evaluator.None? && s.receiver.owner.None? && s.receiver.pending.None?)
      && (Lasts(l, a.receiver, first) && Lasts(l, a.receiver, second) ==>
            && (outcome == Ignored <==> a.receiver.pending != Some(job))
            && (outcome == Ignored ==> s.receiver == a.receiver))
  {
    hide Ticked, Offered, IsUsable, Lasts, Expired, Completed, Released, Reconciled, InEffect;
    LastingIsNotExpired(l, a, first);
    TickedKeeps(l, a, first);
    var b := Reconciled(a);
    if a.receiver.pending == Some(job) && Lasts(l, a.receiver, first) {
      PendingIsCurrent(b, job);
      if v.Qualified? {
        OfferIsDecided(l, b, second, job, v, ids, activates);
      } else {
        OtherIsDecided(l, b, second, job, v);
        UnusedIds(Reconciled(b.(receiver := Completed(l, b.receiver, second, job, v).0)), job, v, ids, activates);
      }
    }
  }

  lemma UnusedIds(s: Adapter, job: Job, v: Verdict, ids: set<nat>, activates: bool)
    requires !v.Qualified?
    ensures (InEffect(s, job, v, ids) <==> InEffect(s, job, v, {})) && IsUsable(job, v, ids, activates)
  {
  }

  /** A poll hands out the queued job, once, while lease and job last through both readings of the clock. */
  lemma PollHandsOut(l: Limits, a: Sane, first: real, second: real)
    requires Accounted(a)
    ensures var (s, job) := TookJobs(l, a, first, second);
      && job == (if Lasts(l, a.receiver, first) && Lasts(l, a.receiver, second) then a.receiver.queued else None)
      && s.receiver.queued.None?
  {
    LastingIsNotExpired(l, a, first);
  }

  // ----- Frames -----

  /**
   * A frame is evaluated by the evaluator at hand, on its own values, generation and number and with what the native
   * runtime answers, and whatever comes of it is given the context at hand.
   */
  lemma FrameIsEvaluated(l: Limits, a: Sane, now: real, fedAt: real, peer: Option<Endpoint>, packet: Packet, n: NativeReply)
    requires Accounted(a)
    ensures var (s, output) := Handled(l, a, now, fedAt, peer, packet, n);
      && output.wire == Received(l, a.receiver, now, fedAt, peer, packet).1
      && (output.wire.frame.None? ==> output.evaluation.None? && output.context.None?)
      && (output.wire.frame.Some? ==>
            var f := output.wire.frame.value;
            && a.evaluator.Some?
            && var (e, result) := Evaluated(a.evaluator.value, Call(f.values, f.generation, f.sequence, n.peeks, n.events,
                                                                     n.rebuilt, n.recovered));
               output.evaluation == Some(result) && s.evaluator == Some(e) && output.context == a.context == s.context)
  {
    hide Received, Evaluated;
    ReceivedKeepsList(l, a.receiver, now, fedAt, peer, packet);
    if Received(l, a.receiver, now, fedAt, peer, packet).1.frame.Some? {
      FrameNeedsFullTransfer(l, a.receiver, now, fedAt, peer, packet);
    }
  }
}
