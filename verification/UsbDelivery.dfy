/** What becomes of a received frame (kernel/asix_usb/axusbnet.c): over any run of the
    protocol, which skbs reach the network stack, which are freed by the bottom half, and
    which URBs are not submitted again. */
module UsbDelivery {
  import opened UsbNet

  // ----- only accepted frames are delivered -----

  /** The step judges the frame in skb k. */
  predicate Judges(s: State, i: nat, t: Step, k: Id) { t.SJudge? && At(s, i).RxStarted? && At(s, i).skb == k }

  /** ... to be good, or at least a runt, which is processed too. */
  predicate Accepts(s: State, i: nat, t: Step, k: Id) { Judges(s, i, t, k) && (t.how.Success? || t.how.Short?) }

  /** ... to be lost: the device has stopped, or the transfer failed. */
  predicate Rejects(s: State, i: nat, t: Step, k: Id) { Judges(s, i, t, k) && (t.how.Block? || t.how.Failure?) }

  function AcceptedBy(s: State, i: nat, t: Step): set<Id> {
    if At(s, i).RxStarted? && Accepts(s, i, t, At(s, i).skb) then {At(s, i).skb} else {}
  }

  /** The skbs accepted in the first n steps. */
  function AcceptedIn(run: seq<State>, steps: seq<(nat, Step)>, n: nat): set<Id>
    requires IsRun(run, steps) && n <= |steps|
  {
    if n == 0 then {} else AcceptedIn(run, steps, n - 1) + AcceptedBy(run[n - 1], steps[n - 1].0, steps[n - 1].1)
  }

  /** Whatever is, or has been, on its way to the network stack is in ok. */
  ghost predicate OnlyFrom(s: State, ok: set<Id>) {
    && (forall k :: k in s.entry && s.entry[k].phase == RxDone ==> k in ok)
    && (forall a :: a in s.threads && a.RxJudged? && a.verdict == RxDone ==> a.skb in ok)
    && (forall a :: a in s.threads && a.Processing? ==> a.skb in ok)
    && (forall k :: k in s.delivered ==> k in ok)
  }

  lemma OnlyFromStep(s: State, i: nat, s': State, t: Step, ok: set<Id>)
    requires OnlyFrom(s, ok) && Steps(s, i, s', t)
    ensures OnlyFrom(s', ok + AcceptedBy(s, i, t))
  {
    if Submitting(t) { OnlyFromSubmitting(s, i, s', t, ok); }
    else if Ending(t) { OnlyFromEnding(s, i, s', t, ok); }
    else { OnlyFromServing(s, i, s', t, ok); }
  }

  lemma OnlyFromSubmitting(s: State, i: nat, s': State, t: Step, ok: set<Id>)
    requires Submitting(t) && OnlyFrom(s, ok) && Steps(s, i, s', t)
    ensures OnlyFrom(s', ok)
  {
  }

  lemma OnlyFromEnding(s: State, i: nat, s': State, t: Step, ok: set<Id>)
    requires Ending(t) && OnlyFrom(s, ok) && Steps(s, i, s', t)
    ensures OnlyFrom(s', ok + AcceptedBy(s, i, t))
  {
  }

  lemma OnlyFromServing(s: State, i: nat, s': State, t: Step, ok: set<Id>)
    requires Serving(t) && OnlyFrom(s, ok) && Steps(s, i, s', t)
    ensures OnlyFrom(s', ok)
  {
  }

  lemma OnlyFromNext(run: seq<State>, steps: seq<(nat, Step)>, n: nat)
    requires IsRun(run, steps) && n < |steps| && OnlyFrom(run[n], AcceptedIn(run, steps, n))
    ensures OnlyFrom(run[n + 1], AcceptedIn(run, steps, n + 1))
  {
    RunStep(run, steps, n);
    OnlyFromStep(run[n], steps[n].0, run[n + 1], steps[n].1, AcceptedIn(run, steps, n));
  }

  lemma {:induction false} RunOnlyFrom(run: seq<State>, steps: seq<(nat, Step)>, n: nat)
    requires IsRun(run, steps) && n < |run|
    ensures OnlyFrom(run[n], AcceptedIn(run, steps, n))
  {
    if n > 0 {
      RunOnlyFrom(run, steps, n - 1);
      OnlyFromNext(run, steps, n - 1);
    }
  }

  lemma {:induction false} AcceptedAt(run: seq<State>, steps: seq<(nat, Step)>, m: nat, k: Id) returns (n: nat)
    requires IsRun(run, steps) && m <= |steps| && k in AcceptedIn(run, steps, m)
    ensures n < m && Accepts(run[n], steps[n].0, steps[n].1, k)
  {
    n := m - 1;
    if k !in AcceptedBy(run[n], steps[n].0, steps[n].1) { n := AcceptedAt(run, steps, n, k); }
  }

  /** Every frame given to the network stack was accepted by its completion before. */
  lemma DeliveredAccepted(run: seq<State>, steps: seq<(nat, Step)>, m: nat, k: Id) returns (n: nat)
    requires IsRun(run, steps) && m < |run| && k in run[m].delivered
    ensures n < m && Accepts(run[n], steps[n].0, steps[n].1, k)
  {
    RunOnlyFrom(run, steps, m);
    n := AcceptedAt(run, steps, m, k);
  }

  // ----- a frame is judged once -----

  /** Nobody completes a received skb that has left rxq, or was never to be on it. */
  lemma PastNotStarted(s: State, i: nat, k: Id)
    requires Inv(s) && Past(s, k)
    ensures !(At(s, i).RxStarted? && At(s, i).skb == k)
  {
    if At(s, i).RxStarted? && At(s, i).skb == k {
      Judging(s, i, Rx, k);
      assert Occurs(s.rxq, k) == 0;
      var j := OverFind(s.threads, Joining, (Rx, k));
      assert false;
    }
  }

  lemma JudgedGone(run: seq<State>, steps: seq<(nat, Step)>, n: nat, m: nat, k: Id)
    requires IsRun(run, steps) && n < m < |steps| && Judges(run[n], steps[n].0, steps[n].1, k)
    ensures !Judges(run[m], steps[m].0, steps[m].1, k)
  {
    JudgedNow(run, steps, n, k);
    if l :| n < l < m && DefersRx(run[l], steps[l].0, steps[l].1, k) {
      DeferredGone(run, steps, l, m, k);
    } else {
      VerdictStays(run, steps, n + 1, m, steps[n].0, k);
      JudgedBusy(run, steps, m, steps[n].0, k);
    }
  }

  lemma JudgedNow(run: seq<State>, steps: seq<(nat, Step)>, n: nat, k: Id)
    requires IsRun(run, steps) && n < |steps| && Judges(run[n], steps[n].0, steps[n].1, k)
    ensures At(run[n + 1], steps[n].0).RxJudged? && At(run[n + 1], steps[n].0).skb == k
  {
    RunStep(run, steps, n);
  }

  lemma DeferredGone(run: seq<State>, steps: seq<(nat, Step)>, l: nat, m: nat, k: Id)
    requires IsRun(run, steps) && l < m < |steps| && DefersRx(run[l], steps[l].0, steps[l].1, k)
    ensures !Judges(run[m], steps[m].0, steps[m].1, k)
  {
    RunStep(run, steps, l);
    DeferredPast(run[l], steps[l].0, run[l + 1], k);
    PastForGood(run, steps, l + 1, m, k);
    RunKeeps(run, steps, m);
    PastNotStarted(run[m], steps[m].0, k);
  }

  lemma JudgedBusy(run: seq<State>, steps: seq<(nat, Step)>, m: nat, i: nat, k: Id)
    requires IsRun(run, steps) && m < |steps| && At(run[m], i).RxJudged? && At(run[m], i).skb == k
    ensures !Judges(run[m], steps[m].0, steps[m].1, k)
  {
    RunKeeps(run, steps, m);
    Judging(run[m], i, Rx, k);
  }

  /** No received skb is judged twice. */
  lemma JudgedOnce(run: seq<State>, steps: seq<(nat, Step)>, n: nat, m: nat, k: Id)
    requires IsRun(run, steps) && n < |steps| && m < |steps|
    requires Judges(run[n], steps[n].0, steps[n].1, k) && Judges(run[m], steps[m].0, steps[m].1, k)
    ensures n == m
  {
    if n < m { JudgedGone(run, steps, n, m, k); }
    if m < n { JudgedGone(run, steps, m, n, k); }
  }

  // ----- lost frames and sent ones -----

  /** A frame that was lost is never delivered. */
  lemma RejectedNotDelivered(run: seq<State>, steps: seq<(nat, Step)>, n: nat, m: nat, k: Id)
    requires IsRun(run, steps) && n < |steps| && m < |run| && Rejects(run[n], steps[n].0, steps[n].1, k)
    ensures k !in run[m].delivered
  {
    if k in run[m].delivered {
      var l := DeliveredAccepted(run, steps, m, k);
      JudgedOnce(run, steps, n, l, k);
    }
  }

  /** The step decides what the bottom half does with skb k. */
  predicate Handles(s: State, i: nat, t: Step, k: Id) {
    At(s, i) == Handling(k) && (t.SHandleRx? || t.SHandleFree? || t.SHandleBogus?)
  }

  /** When the bottom half comes to it, it frees the skb, and the URB if rx_complete has
      put that back. */
  lemma RejectedFreed(run: seq<State>, steps: seq<(nat, Step)>, n: nat, m: nat, k: Id)
    requires IsRun(run, steps) && n < |steps| && m < |steps| && Rejects(run[n], steps[n].0, steps[n].1, k)
    requires Handles(run[m], steps[m].0, steps[m].1, k)
    ensures steps[m].1 == SHandleFree && k in run[m + 1].freed && k !in run[m + 1].entry
    ensures Look(run[m], k).urb.To? ==>
              Refs(run[m + 1], Look(run[m], k).urb.id) == Refs(run[m], Look(run[m], k).urb.id) - 1
  {
    var s, i, s' := run[m], steps[m].0, run[m + 1];
    RunStep(run, steps, m);
    NeverBogus(s, i, s');
    if steps[m].1.SHandleRx? {
      RunOnlyFrom(run, steps, m);
      assert k in s.entry;
      var l := AcceptedAt(run, steps, m, k);
      JudgedOnce(run, steps, n, l, k);
    }
  }

  /** An skb in nobody's hands is not completed. */
  lemma NewIsPast(s: State, i: nat, s': State, k: Id)
    requires Inv(s) && Xmit(s, i, s', k)
    ensures Past(s', k)
  {
    assert Places(s, k) + Occurs(s.delivered, k) + Occurs(s.freed, k) == One(k in s.skbs);
    assert Occurs(s.rxq, k) == 0;
    forall a | a in s'.threads ensures !((a.Ready? || a.Entering?) && a.queue == Rx && a.skb == k) {
      if (a.Ready? || a.Entering?) && a.queue == Rx && a.skb == k {
        var j :| 0 <= j < |s.threads| && s'.threads[j] == a;
        OverAt(s.threads, Held, k, j);
      }
    }
  }

  lemma SkbsGrow(run: seq<State>, steps: seq<(nat, Step)>, n: nat)
    requires IsRun(run, steps) && n < |steps|
    ensures run[n].skbs <= run[n + 1].skbs
  {
    assert StepAt(run, steps, n);
  }

  lemma {:induction false} SkbsKnown(run: seq<State>, steps: seq<(nat, Step)>, n: nat, m: nat)
    requires IsRun(run, steps) && n <= m < |run|
    ensures run[n].skbs <= run[m].skbs
  {
    if n < m {
      SkbsKnown(run, steps, n, m - 1);
      SkbsGrow(run, steps, m - 1);
    }
  }

  /** An skb to be sent is never taken for a received frame. */
  lemma SentNotDelivered(run: seq<State>, steps: seq<(nat, Step)>, n: nat, m: nat, k: Id)
    requires IsRun(run, steps) && n < |steps| && m < |run| && steps[n].1 == SXmit(k)
    ensures k !in run[m].delivered
  {
    if k in run[m].delivered {
      var l := DeliveredAccepted(run, steps, m, k);
      var s, i := run[l], steps[l].0;
      RunStep(run, steps, n);
      RunStep(run, steps, l);
      if l <= n {
        Judging(s, i, Rx, k);
        assert Places(s, k) + Occurs(s.delivered, k) + Occurs(s.freed, k) == One(k in s.skbs);
        assert k in s.skbs;
        SkbsKnown(run, steps, l, n);
      } else {
        NewIsPast(run[n], steps[n].0, run[n + 1], k);
        PastForGood(run, steps, n + 1, l, k);
        PastNotStarted(s, i, k);
      }
    }
  }

  // ----- an accepted frame is processed -----

  /** The accepted frame in skb k has not got to rx_process yet. */
  ghost predicate Upcoming(s: State, k: Id) {
    || (exists a :: a in s.threads && a.RxJudged? && a.skb == k && a.verdict == RxDone)
    || ((k in s.done || Handling(k) in s.threads) && k in s.entry && s.entry[k].phase == RxDone)
  }

  /** Nobody but activity i, if anyone, has skb k at hand, and no completion of it can run. */
  ghost predicate Aside(s: State, i: nat, k: Id) {
    && k in s.skbs && k in s.entry && k !in s.rxq && k !in s.txq && (forall u :: u in s.flight ==> s.flight[u].1 != k)
    && forall j :: 0 <= j < |s.threads| && j != i ==> SkbOf(s.threads[j]) != To(k)
  }

  lemma NotQueued(s: State, i: nat, k: Id)
    requires Inv(s) && Places(s, k) == 1 && Queued(s, (Rx, k)) == 0 && Queued(s, (Tx, k)) == 0
    requires forall j :: 0 <= j < |s.threads| && j != i ==> Held(s.threads[j], k) == 0
    ensures Aside(s, i, k)
  {
    assert Places(s, k) + Occurs(s.delivered, k) + Occurs(s.freed, k) == One(k in s.skbs);
    assert Occurs(s.rxq, k) == 0 && Occurs(s.txq, k) == 0;
    forall u | u in s.flight ensures s.flight[u].1 != k { InFlight(s, u); }
    forall j | 0 <= j < |s.threads| && j != i ensures SkbOf(s.threads[j]) != To(k) {
      assert Relies(s, s.threads[j]);
      OverAt(s.threads, Completing, (Rx, k), j);
      OverAt(s.threads, Completing, (Tx, k), j);
    }
  }

  lemma DoneAside(s: State, k: Id)
    requires Inv(s) && k in s.done
    ensures Aside(s, |s.threads|, k)
  {
    assert Occurs(s.done, k) > 0;
    if Queued(s, (Rx, k)) > 0 { QueuedOnce(s, Rx, k); }
    if Queued(s, (Tx, k)) > 0 { QueuedOnce(s, Tx, k); }
    forall j | 0 <= j < |s.threads| ensures Held(s.threads[j], k) == 0 { OverAt(s.threads, Held, k, j); }
    NotQueued(s, |s.threads|, k);
  }

  lemma HandledAside(s: State, i: nat, k: Id)
    requires Inv(s) && At(s, i) == Handling(k)
    ensures Aside(s, i, k) && k !in s.done
  {
    OverAt(s.threads, Held, k, i);
    if Queued(s, (Rx, k)) > 0 { QueuedOnce(s, Rx, k); }
    if Queued(s, (Tx, k)) > 0 { QueuedOnce(s, Tx, k); }
    forall j | 0 <= j < |s.threads| && j != i ensures Held(s.threads[j], k) == 0 { OverTwo(s.threads, Held, k, i, j); }
    NotQueued(s, i, k);
    assert Occurs(s.done, k) == 0;
  }

  /** A step of another activity leaves the control block alone. */
  lemma AsideStays(s: State, i: nat, s': State, t: Step, j: nat, k: Id)
    requires Aside(s, j, k) && i != j && Steps(s, i, s', t)
    ensures k in s'.entry && s'.entry[k] == s.entry[k]
  {
    if Submitting(t) { AsideSubmitting(s, i, s', t, j, k); }
    else if Ending(t) { AsideEnding(s, i, s', t, j, k); }
    else { AsideServing(s, i, s', t, j, k); }
  }

  lemma AsideSubmitting(s: State, i: nat, s': State, t: Step, j: nat, k: Id)
    requires Submitting(t) && Aside(s, j, k) && i != j && Steps(s, i, s', t)
    ensures k in s'.entry && s'.entry[k] == s.entry[k]
  {
  }

  lemma AsideEnding(s: State, i: nat, s': State, t: Step, j: nat, k: Id)
    requires Ending(t) && Aside(s, j, k) && i != j && Steps(s, i, s', t)
    ensures k in s'.entry && s'.entry[k] == s.entry[k]
  {
  }

  lemma AsideServing(s: State, i: nat, s': State, t: Step, j: nat, k: Id)
    requires Serving(t) && Aside(s, j, k) && i != j && Steps(s, i, s', t)
    ensures k in s'.entry && s'.entry[k] == s.entry[k]
  {
  }

  /** Activities other than the one that steps stay where they are. */
  lemma OthersStay(s: State, i: nat, s': State, t: Step, j: nat)
    requires Steps(s, i, s', t) && j < |s.threads| && (i != j || t.SSpawn?)
    ensures j < |s'.threads| && s'.threads[j] == s.threads[j]
  {
    if Submitting(t) { OthersSubmitting(s, i, s', t, j); }
    else if Ending(t) { OthersEnding(s, i, s', t, j); }
    else { OthersServing(s, i, s', t, j); }
  }

  lemma OthersSubmitting(s: State, i: nat, s': State, t: Step, j: nat)
    requires Submitting(t) && Steps(s, i, s', t) && j < |s.threads| && i != j
    ensures j < |s'.threads| && s'.threads[j] == s.threads[j]
  {
  }

  lemma OthersEnding(s: State, i: nat, s': State, t: Step, j: nat)
    requires Ending(t) && Steps(s, i, s', t) && j < |s.threads| && i != j
    ensures j < |s'.threads| && s'.threads[j] == s.threads[j]
  {
  }

  lemma OthersServing(s: State, i: nat, s': State, t: Step, j: nat)
    requires Serving(t) && Steps(s, i, s', t) && j < |s.threads| && (i != j || t.SSpawn?)
    ensures j < |s'.threads| && s'.threads[j] == s.threads[j]
  {
  }

  /** What is on done stays there until the bottom half takes it. */
  lemma DoneStays(s: State, i: nat, s': State, t: Step, k: Id)
    requires k in s.done && Steps(s, i, s', t)
    ensures k in s'.done || Handling(k) in s'.threads
  {
    if t.SDequeue? {
      assert s.done == [s.done[0]] + s.done[1..];
      assert s'.threads[i] in s'.threads;
    } else {
      DoneGrows(s, i, s', t);
    }
  }

  lemma DoneGrows(s: State, i: nat, s': State, t: Step)
    requires Steps(s, i, s', t) && !t.SDequeue?
    ensures s.done <= s'.done
  {
  }

  lemma UpcomingDone(s: State, i: nat, s': State, t: Step, k: Id)
    requires Inv(s) && k in s.done && k in s.entry && s.entry[k].phase == RxDone && Steps(s, i, s', t)
    ensures Upcoming(s', k)
  {
    DoneAside(s, k);
    DoneStays(s, i, s', t, k);
    if i == |s.threads| { assert t.SSpawn?; } else { AsideStays(s, i, s', t, |s.threads|, k); }
  }

  lemma UpcomingHandled(s: State, i: nat, s': State, t: Step, j: nat, k: Id)
    requires Inv(s) && At(s, j) == Handling(k) && Steps(s, i, s', t) && !(Handles(s, i, t, k))
    requires k in s.entry && s.entry[k].phase == RxDone
    ensures Upcoming(s', k)
  {
    HandledAside(s, j, k);
    if i == j {
      assert t.SSpawn?;
    } else {
      AsideStays(s, i, s', t, j, k);
    }
    OthersStay(s, i, s', t, j);
    assert s'.threads[j] in s'.threads;
  }

  lemma UpcomingJudged(s: State, i: nat, s': State, t: Step, j: nat, k: Id)
    requires Inv(s) && At(s, j).RxJudged? && At(s, j).skb == k && At(s, j).verdict == RxDone && Steps(s, i, s', t)
    ensures Upcoming(s', k)
  {
    if DefersRx(s, i, t, k) {
      JudgedAlone(s, i, j, k);
      assert k in s'.done && s'.entry[k].phase == RxDone;
    } else {
      OneMoves(s, i, s', t, j);
      assert s'.threads[j] in s'.threads;
    }
  }

  /** An accepted frame stays on its way until the bottom half deals with it. */
  lemma UpcomingStays(s: State, i: nat, s': State, t: Step, k: Id)
    requires Inv(s) && Upcoming(s, k) && Steps(s, i, s', t) && !Handles(s, i, t, k)
    ensures Upcoming(s', k)
  {
    if a :| a in s.threads && a.RxJudged? && a.skb == k && a.verdict == RxDone {
      var j :| 0 <= j < |s.threads| && s.threads[j] == a;
      UpcomingJudged(s, i, s', t, j, k);
    } else if k in s.done {
      UpcomingDone(s, i, s', t, k);
    } else {
      var j :| 0 <= j < |s.threads| && s.threads[j] == Handling(k);
      UpcomingHandled(s, i, s', t, j, k);
    }
  }

  /** A completion of an skb that the bottom half has taken cannot be running. */
  lemma HandledNotJudged(s: State, i: nat, a: Activity, k: Id)
    requires Inv(s) && At(s, i) == Handling(k) && a in s.threads
    ensures !(a.RxJudged? && a.skb == k)
  {
    if a.RxJudged? && a.skb == k {
      var j :| 0 <= j < |s.threads| && s.threads[j] == a;
      Judging(s, j, Rx, k);
      QueuedOnce(s, Rx, k);
      assert false;
    }
  }

  /** What the bottom half then does is to process it. */
  lemma UpcomingProcessed(s: State, i: nat, s': State, t: Step, k: Id)
    requires Inv(s) && Upcoming(s, k) && Steps(s, i, s', t) && Handles(s, i, t, k)
    ensures t == SHandleRx && Processing(k) in s'.threads
  {
    forall a | a in s.threads ensures !(a.RxJudged? && a.skb == k) { HandledNotJudged(s, i, a, k); }
    assert k in s.entry && s.entry[k].phase == RxDone;
    HandledProcessed(s, i, s', t, k);
  }

  lemma HandledProcessed(s: State, i: nat, s': State, t: Step, k: Id)
    requires k in s.entry && s.entry[k].phase == RxDone && Steps(s, i, s', t) && Handles(s, i, t, k)
    ensures t == SHandleRx && Processing(k) in s'.threads
  {
    assert t == SHandleRx ==> s'.threads[i] in s'.threads;
  }

  lemma AcceptedUpcoming(run: seq<State>, steps: seq<(nat, Step)>, n: nat, k: Id)
    requires IsRun(run, steps) && n < |steps| && Accepts(run[n], steps[n].0, steps[n].1, k)
    ensures Upcoming(run[n + 1], k)
  {
    RunStep(run, steps, n);
    var a := run[n + 1].threads[steps[n].0];
    assert a in run[n + 1].threads && a.RxJudged? && a.skb == k && a.verdict == RxDone;
  }

  lemma UpcomingNext(run: seq<State>, steps: seq<(nat, Step)>, n: nat, k: Id)
    requires IsRun(run, steps) && n < |steps| && Upcoming(run[n], k) && !Handles(run[n], steps[n].0, steps[n].1, k)
    ensures Upcoming(run[n + 1], k)
  {
    RunStep(run, steps, n);
    UpcomingStays(run[n], steps[n].0, run[n + 1], steps[n].1, k);
  }

  lemma {:induction false} UpcomingUntil(run: seq<State>, steps: seq<(nat, Step)>, n: nat, m: nat, k: Id)
    requires IsRun(run, steps) && n < m < |run| && Accepts(run[n], steps[n].0, steps[n].1, k)
    requires forall l {:trigger steps[l]} | n < l < m :: !Handles(run[l], steps[l].0, steps[l].1, k)
    ensures Upcoming(run[m], k)
  {
    if n + 1 == m {
      AcceptedUpcoming(run, steps, n, k);
    } else {
      UpcomingUntil(run, steps, n, m - 1, k);
      UpcomingNext(run, steps, m - 1, k);
    }
  }

  /** The first thing the bottom half does with an accepted frame, a runt included, is to
      process it. */
  lemma AcceptedProcessed(run: seq<State>, steps: seq<(nat, Step)>, n: nat, m: nat, k: Id)
    requires IsRun(run, steps) && n < m < |steps| && Accepts(run[n], steps[n].0, steps[n].1, k)
    requires Handles(run[m], steps[m].0, steps[m].1, k)
    requires forall l {:trigger steps[l]} | n < l < m :: !Handles(run[l], steps[l].0, steps[l].1, k)
    ensures steps[m].1 == SHandleRx && Processing(k) in run[m + 1].threads
  {
    UpcomingUntil(run, steps, n, m, k);
    RunStep(run, steps, m);
    UpcomingProcessed(run[m], steps[m].0, run[m + 1], steps[m].1, k);
  }

  // ----- an unlinked URB is not submitted again -----

  lemma {:induction false} StaysUntil(run: seq<State>, steps: seq<(nat, Step)>, n: nat, m: nat, i: nat)
    requires IsRun(run, steps) && n <= m < |run| && i < |run[n].threads|
    requires forall l {:trigger steps[l]} | n <= l < m :: steps[l].0 != i || steps[l].1.SSpawn?
    ensures At(run[m], i) == At(run[n], i) && i < |run[m].threads|
  {
    if n < m {
      StaysUntil(run, steps, n, m - 1, i);
      RunStep(run, steps, m - 1);
      OthersStay(run[m - 1], steps[m - 1].0, run[m], steps[m - 1].1, i);
    }
  }

  /** If rx_complete finds the skb marked for unlinking, the next thing it does is to free
      the URB. */
  lemma UnlinkedFreed(run: seq<State>, steps: seq<(nat, Step)>, n: nat, m: nat, l: nat, k: Id)
    requires IsRun(run, steps) && m < l < |steps| && DefersRx(run[m], steps[m].0, steps[m].1, k)
    requires At(run[m], steps[m].0).held.To? && MarkLasts(run, steps, n, m, k)
    requires steps[l].0 == steps[m].0 && !steps[l].1.SSpawn?
    requires forall x {:trigger steps[x]} | m < x < l :: steps[x].0 != steps[m].0 || steps[x].1.SSpawn?
    ensures steps[l].1 == SFreeUrb
    ensures var u := At(run[m], steps[m].0).held.id; Refs(run[l + 1], u) == Refs(run[l], u) - 1
  {
    UnlinkSeen(run, steps, m, k);
    StaysUntil(run, steps, m + 1, l, steps[m].0);
    RunStep(run, steps, l);
  }

  /** A received skb is marked by unlink_urbs once only, unless its frame is found to be a
      runt in between: no URB is unlinked over and over again. */
  lemma MarkedOnce(run: seq<State>, steps: seq<(nat, Step)>, n: nat, m: nat, k: Id)
    requires IsRun(run, steps) && n < m < |steps| && Marks(run[n], steps[n].1, k)
    requires Marks(run[m], steps[m].1, k) && steps[m].1.queue == Rx
    ensures exists l :: n < l < m && Runt(run[l], steps[l].0, steps[l].1, k)
  {
    RunStep(run, steps, m);
    if forall l {:trigger steps[l]} | n < l < m :: !Runt(run[l], steps[l].0, steps[l].1, k) {
      assert k in run[m].rxq;
      MarkThere(run, steps, n, m, k);
    }
  }

  /** unlink_urbs takes the skbs of a queue one after the other: the one it marks is the
      first that has not been marked. */
  lemma MarksFirst(s: State, i: nat, s': State, t: Step, j: nat)
    requires t.SMark? && Steps(s, i, s', t) && j <= t.n
    ensures t.n < |Waiting(s, t.queue)| && j < |Waiting(s', t.queue)|
    ensures (Look(s, Waiting(s, t.queue)[j]).phase != UnlinkStart <==> j == t.n)
    ensures Look(s', Waiting(s', t.queue)[j]).phase == UnlinkStart
  {
  }

  // ----- a stopped device gets nothing submitted -----

  /** rx_complete of skb k, in activity i, has no URB of its own any more. */
  predicate Stopped(s: State, i: nat, k: Id) { At(s, i) == RxJudged(k, Null, RxCleanup) }

  /** The skb's URB waits in its control block for the bottom half. */
  ghost predicate Returned(s: State, i: nat, k: Id, u: Id) {
    Look(s, k).urb == To(u) && (Stopped(s, i, k) || k in s.done || Handling(k) in s.threads)
  }

  /** While rx_complete runs nobody else writes the URB of its skb. */
  ghost predicate UrbAlone(s: State, i: nat, k: Id) {
    && k in s.skbs && k in s.entry && (forall u :: u in s.flight ==> s.flight[u].1 != k)
    && forall j :: 0 <= j < |s.threads| && j != i && SkbOf(s.threads[j]) == To(k) ==>
         s.threads[j].Entering? || s.threads[j].Marked? || s.threads[j].Borrowed?
  }

  lemma StoppedAlone(s: State, i: nat, k: Id)
    requires Inv(s) && Stopped(s, i, k)
    ensures UrbAlone(s, i, k)
  {
    Judging(s, i, Rx, k);
    QueuedOnce(s, Rx, k);
    assert Places(s, k) + Occurs(s.delivered, k) + Occurs(s.freed, k) == One(k in s.skbs);
    assert Places(s, k) == One(k in s.entry);
    assert Queued(s, (Tx, k)) == 0;
    forall j | 0 <= j < |s.threads| && j != i && SkbOf(s.threads[j]) == To(k)
      ensures s.threads[j].Entering? || s.threads[j].Marked? || s.threads[j].Borrowed?
    {
      assert Completing(s.threads[j], (Rx, k)) == 0;
      OverAt(s.threads, Completing, (Tx, k), j);
    }
  }

  lemma UrbStays(s: State, i: nat, s': State, t: Step, j: nat, k: Id)
    requires UrbAlone(s, j, k) && Stopped(s, j, k) && Steps(s, i, s', t)
    ensures Look(s', k).urb == Look(s, k).urb
  {
    if Submitting(t) { UrbSubmitting(s, i, s', t, j, k); }
    else if Ending(t) { UrbEnding(s, i, s', t, j, k); }
    else { UrbServing(s, i, s', t, j, k); }
  }

  lemma UrbSubmitting(s: State, i: nat, s': State, t: Step, j: nat, k: Id)
    requires Submitting(t) && UrbAlone(s, j, k) && Stopped(s, j, k) && Steps(s, i, s', t)
    ensures Look(s', k).urb == Look(s, k).urb
  {
  }

  lemma UrbEnding(s: State, i: nat, s': State, t: Step, j: nat, k: Id)
    requires Ending(t) && UrbAlone(s, j, k) && Stopped(s, j, k) && Steps(s, i, s', t)
    ensures Look(s', k).urb == Look(s, k).urb
  {
  }

  lemma UrbServing(s: State, i: nat, s': State, t: Step, j: nat, k: Id)
    requires Serving(t) && UrbAlone(s, j, k) && Stopped(s, j, k) && Steps(s, i, s', t)
    ensures Look(s', k).urb == Look(s, k).urb
  {
  }

  lemma ReturnedStopped(s: State, i: nat, s': State, t: Step, j: nat, k: Id, u: Id)
    requires Inv(s) && Returned(s, j, k, u) && Stopped(s, j, k) && Steps(s, i, s', t)
    ensures Returned(s', j, k, u)
  {
    StoppedAlone(s, j, k);
    UrbStays(s, i, s', t, j, k);
    if DefersRx(s, i, t, k) { assert k in s'.done; } else { OneMoves(s, i, s', t, j); }
  }

  lemma ReturnedDone(s: State, i: nat, s': State, t: Step, j: nat, k: Id, u: Id)
    requires Inv(s) && Returned(s, j, k, u) && k in s.done && Steps(s, i, s', t)
    ensures Returned(s', j, k, u)
  {
    DoneAside(s, k);
    DoneStays(s, i, s', t, k);
    if i == |s.threads| { assert t.SSpawn?; } else { AsideStays(s, i, s', t, |s.threads|, k); }
  }

  lemma ReturnedHandled(s: State, i: nat, s': State, t: Step, j: nat, l: nat, k: Id, u: Id)
    requires Inv(s) && Returned(s, j, k, u) && At(s, l) == Handling(k) && Steps(s, i, s', t) && !Handles(s, i, t, k)
    ensures Returned(s', j, k, u)
  {
    HandledAside(s, l, k);
    if i == l { assert t.SSpawn?; } else { AsideStays(s, i, s', t, l, k); }
    OthersStay(s, i, s', t, l);
    assert s'.threads[l] in s'.threads;
  }

  lemma ReturnedStays(s: State, i: nat, s': State, t: Step, j: nat, k: Id, u: Id)
    requires Inv(s) && Returned(s, j, k, u) && Steps(s, i, s', t) && !Handles(s, i, t, k)
    ensures Returned(s', j, k, u)
  {
    if Stopped(s, j, k) {
      ReturnedStopped(s, i, s', t, j, k, u);
    } else if k in s.done {
      ReturnedDone(s, i, s', t, j, k, u);
    } else {
      var l :| 0 <= l < |s.threads| && s.threads[l] == Handling(k);
      ReturnedHandled(s, i, s', t, j, l, k, u);
    }
  }

  /** The step finds that the device has stopped. */
  predicate Blocks(s: State, i: nat, t: Step, k: Id, u: Id) { t == SJudge(Block) && At(s, i) == RxStarted(k, u) }

  lemma ReturnedNow(run: seq<State>, steps: seq<(nat, Step)>, n: nat, k: Id, u: Id)
    requires IsRun(run, steps) && n < |steps| && Blocks(run[n], steps[n].0, steps[n].1, k, u)
    ensures Returned(run[n + 1], steps[n].0, k, u) && Stopped(run[n + 1], steps[n].0, k)
  {
    RunStep(run, steps, n);
  }

  lemma ReturnedNext(run: seq<State>, steps: seq<(nat, Step)>, n: nat, j: nat, k: Id, u: Id)
    requires IsRun(run, steps) && n < |steps| && Returned(run[n], j, k, u)
    requires !Handles(run[n], steps[n].0, steps[n].1, k)
    ensures Returned(run[n + 1], j, k, u)
  {
    RunStep(run, steps, n);
    ReturnedStays(run[n], steps[n].0, run[n + 1], steps[n].1, j, k, u);
  }

  lemma {:induction false} ReturnedUntil(run: seq<State>, steps: seq<(nat, Step)>, n: nat, m: nat, k: Id, u: Id)
    requires IsRun(run, steps) && n < m < |run| && Blocks(run[n], steps[n].0, steps[n].1, k, u)
    requires forall l {:trigger steps[l]} | n < l < m :: !Handles(run[l], steps[l].0, steps[l].1, k)
    ensures Returned(run[m], steps[n].0, k, u)
  {
    if n + 1 == m {
      ReturnedNow(run, steps, n, k, u);
    } else {
      ReturnedUntil(run, steps, n, m - 1, k, u);
      ReturnedNext(run, steps, m - 1, steps[n].0, k, u);
    }
  }

  /** When the device has stopped, rx_complete is over once it has deferred the skb: it
      does not submit the URB again. */
  lemma BlockedEnds(run: seq<State>, steps: seq<(nat, Step)>, n: nat, m: nat, k: Id, u: Id)
    requires IsRun(run, steps) && n < m < |steps| && Blocks(run[n], steps[n].0, steps[n].1, k, u)
    requires DefersRx(run[m], steps[m].0, steps[m].1, k)
    ensures steps[m].0 == steps[n].0 && At(run[m + 1], steps[m].0) == Idle
  {
    ReturnedNow(run, steps, n, k, u);
    forall l | n + 1 <= l < m ensures !DefersRx(run[l], steps[l].0, steps[l].1, k) {
      if DefersRx(run[l], steps[l].0, steps[l].1, k) { DeferredOnce(run, steps, l, m, k); }
    }
    VerdictStays(run, steps, n + 1, m, steps[n].0, k);
    RunStep(run, steps, m);
    JudgedAlone(run[m], steps[n].0, steps[m].0, k);
  }

  /** The bottom half frees it, with the skb, when it first comes to that. */
  lemma BlockedFreed(run: seq<State>, steps: seq<(nat, Step)>, n: nat, m: nat, k: Id, u: Id)
    requires IsRun(run, steps) && n < m < |steps| && Blocks(run[n], steps[n].0, steps[n].1, k, u)
    requires Handles(run[m], steps[m].0, steps[m].1, k)
    requires forall l {:trigger steps[l]} | n < l < m :: !Handles(run[l], steps[l].0, steps[l].1, k)
    ensures steps[m].1 == SHandleFree && k in run[m + 1].freed && Refs(run[m + 1], u) == Refs(run[m], u) - 1
  {
    ReturnedUntil(run, steps, n, m, k, u);
    RejectedFreed(run, steps, n, m, k);
    RunKeeps(run, steps, m);
    HandledAside(run[m], steps[m].0, k);
  }

  // ----- the bottom half takes the skbs in the order of their completion -----

  /** The step puts skb k on done. */
  predicate Defers(s: State, i: nat, t: Step, k: Id) {
    (t.SDeferRx? && At(s, i).RxJudged? && At(s, i).skb == k) || (t.SDeferTx? && At(s, i).TxJudged? && At(s, i).skb == k)
  }

  predicate Takes(s: State, t: Step, k: Id) { t.SDequeue? && s.done != [] && s.done[0] == k }

  /** k is in the list, and l is not before it. */
  ghost predicate Ahead(done: seq<Id>, k: Id, l: Id) {
    exists i :: 0 <= i < |done| && done[i] == k && l !in done[..i + 1]
  }

  ghost predicate Before(s: State, k: Id, l: Id) { Ahead(s.done, k, l) }

  lemma AheadOfRest(done: seq<Id>, k: Id, l: Id)
    requires Ahead(done, k, l) && done[0] != k
    ensures Ahead(done[1..], k, l)
  {
    var n :| 0 <= n < |done| && done[n] == k && l !in done[..n + 1];
    assert done[1..][n - 1] == k && done[1..][..n] == done[..n + 1][1..];
  }

  lemma AheadOfMore(done: seq<Id>, done': seq<Id>, k: Id, l: Id)
    requires Ahead(done, k, l) && done <= done'
    ensures Ahead(done', k, l)
  {
    var n :| 0 <= n < |done| && done[n] == k && l !in done[..n + 1];
    assert done'[..n + 1] == done[..n + 1];
  }

  lemma BeforeStays(s: State, i: nat, s': State, t: Step, k: Id, l: Id)
    requires Before(s, k, l) && Steps(s, i, s', t) && !Takes(s, t, k)
    ensures Before(s', k, l)
  {
    if t.SDequeue? {
      AheadOfRest(s.done, k, l);
    } else {
      DoneGrows(s, i, s', t);
      AheadOfMore(s.done, s'.done, k, l);
    }
  }

  lemma NotTaken(s: State, t: Step, k: Id, l: Id)
    requires Before(s, k, l)
    ensures !Takes(s, t, l)
  {
    var n :| 0 <= n < |s.done| && s.done[n] == k && l !in s.done[..n + 1];
    assert s.done[0] == s.done[..n + 1][0];
  }

  lemma DeferredLast(s: State, i: nat, s': State, t: Step, l: Id)
    requires Inv(s) && Steps(s, i, s', t) && Defers(s, i, t, l)
    ensures l !in s.done && s'.done == s.done + [l]
  {
    var q := if t.SDeferRx? then Rx else Tx;
    Judging(s, i, q, l);
    QueuedOnce(s, q, l);
  }

  lemma OnDone(s: State, i: nat, s': State, t: Step, k: Id)
    requires k in s.done && Steps(s, i, s', t) && !Takes(s, t, k)
    ensures k in s'.done
  {
    if t.SDequeue? { assert s.done == [s.done[0]] + s.done[1..]; } else { DoneGrows(s, i, s', t); }
  }

  lemma {:induction false} OnDoneUntil(run: seq<State>, steps: seq<(nat, Step)>, n: nat, m: nat, k: Id)
    requires IsRun(run, steps) && n < m < |run| && Defers(run[n], steps[n].0, steps[n].1, k)
    requires forall x {:trigger steps[x]} | n < x < m :: !Takes(run[x], steps[x].1, k)
    ensures k in run[m].done
  {
    RunStep(run, steps, m - 1);
    if n + 1 == m {
      DeferredLast(run[n], steps[n].0, run[m], steps[n].1, k);
    } else {
      OnDoneUntil(run, steps, n, m - 1, k);
      OnDone(run[m - 1], steps[m - 1].0, run[m], steps[m - 1].1, k);
    }
  }

  lemma BeforeNow(run: seq<State>, steps: seq<(nat, Step)>, n: nat, k: Id, l: Id)
    requires IsRun(run, steps) && n < |steps| && Defers(run[n], steps[n].0, steps[n].1, l)
    requires k in run[n].done && k != l
    ensures Before(run[n + 1], k, l)
  {
    RunStep(run, steps, n);
    DeferredLast(run[n], steps[n].0, run[n + 1], steps[n].1, l);
    var i :| 0 <= i < |run[n].done| && run[n].done[i] == k;
    assert run[n + 1].done[..i + 1] == run[n].done[..i + 1];
  }

  lemma {:induction false} BeforeUntil(run: seq<State>, steps: seq<(nat, Step)>, n: nat, m: nat, k: Id, l: Id)
    requires IsRun(run, steps) && n <= m < |run| && Before(run[n], k, l)
    requires forall x {:trigger steps[x]} | n <= x < m :: !Takes(run[x], steps[x].1, k)
    ensures Before(run[m], k, l)
  {
    if n < m {
      BeforeUntil(run, steps, n, m - 1, k, l);
      RunStep(run, steps, m - 1);
      BeforeStays(run[m - 1], steps[m - 1].0, run[m], steps[m - 1].1, k, l);
    }
  }

  /** An skb that was completed before another one is dealt with before it. */
  lemma FirstComeFirstServed(run: seq<State>, steps: seq<(nat, Step)>, n: nat, n': nat, m: nat, k: Id, l: Id)
    requires IsRun(run, steps) && n < n' < m < |steps| && k != l
    requires Defers(run[n], steps[n].0, steps[n].1, k) && Defers(run[n'], steps[n'].0, steps[n'].1, l)
    requires Takes(run[m], steps[m].1, l)
    ensures exists x :: n < x < m && Takes(run[x], steps[x].1, k)
  {
    if forall x {:trigger steps[x]} | n < x < m :: !Takes(run[x], steps[x].1, k) {
      OnDoneUntil(run, steps, n, n', k);
      BeforeNow(run, steps, n', k, l);
      BeforeUntil(run, steps, n' + 1, m, k, l);
      NotTaken(run[m], steps[m].1, k, l);
    }
  }
}
