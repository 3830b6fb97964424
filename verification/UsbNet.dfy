/**
 * The URB and skb ownership protocol of the USB network driver
 * (kernel/asix_usb/axusbnet.c), as interleaved steps of any number of activities:
 * rx_submit, the completion handlers, unlink_urbs, start_xmit and the bottom half.
 * A step is what one activity does between two points at which others may run: a
 * region under a queue lock, or one unlocked access to an skb's control block.
 *
 * Steps do what the code does whether or not it is safe (a freed block is read as
 * garbage, a reference count may go below zero, an skb may be dropped); that none
 * of this happens is proved.
 */
module UsbNet {
  type Id = nat

  /** enum skb_state */
  datatype Phase = Illegal | TxStart | TxDone | RxStart | RxDone | RxCleanup | UnlinkStart

  datatype Queue = Rx | Tx

  datatype Pointer = Null | To(id: Id)

  /** struct skb_data, the control block in an skb. */
  datatype Entry = Entry(urb: Pointer, phase: Phase)

  const GARBAGE := Entry(Null, Illegal)

  /** Where an activity is in its function, with its local variables. */
  datatype Activity =
    | Idle
    | RxNew(urb: Id)                                   // rx_submit entered
    | TxNew(skb: Id)                                   // start_xmit, after tx_fixup
    | Ready(queue: Queue, skb: Id, urb: Id)            // control block filled in
    | Entering(queue: Queue, skb: Id)                  // URB submitted, lock held, skb not queued yet
    | RxStarted(skb: Id, urb: Id)                      // rx_complete, after entry->urb = NULL
    | RxJudged(skb: Id, held: Pointer, verdict: Phase) // rx_complete, before defer_bh
    | TxJudged(skb: Id)                                // tx_complete, before defer_bh
    | RxTail(urb: Id, was: Phase)                      // rx_complete, after defer_bh, urb not NULL
    | Marked(queue: Queue, skb: Id)                    // unlink_urbs, lock held, state set
    | Borrowed(queue: Queue, skb: Id, held: Pointer)   // unlink_urbs, lock held, entry->urb read
    | Unlinking(held: Pointer)                         // unlink_urbs, lock released, usb_unlink_urb
    | Handling(skb: Id)                                // bottom half, skb dequeued
    | Processing(skb: Id)                              // rx_process

  /** entry and refs are the allocated skbs and the URB reference counts the driver
      holds; flight is what the host controller will complete. skbs, delivered and
      freed record every skb that ever existed and what became of it. */
  datatype State = State(
    threads: seq<Activity>, rxq: seq<Id>, txq: seq<Id>, done: seq<Id>, locked: set<Queue>,
    entry: map<Id, Entry>, refs: map<Id, int>, flight: map<Id, (Queue, Id)>,
    skbs: set<Id>, delivered: seq<Id>, freed: seq<Id>)

  const START := State([], [], [], [], {}, map[], map[], map[], {}, [], [])

  /** How rx_complete judges the URB's status. */
  datatype Judgement = Success | Short | Block | Failure

  function Waiting(s: State, q: Queue): seq<Id> { if q == Rx then s.rxq else s.txq }

  function WithWaiting(s: State, q: Queue, w: seq<Id>): State { if q == Rx then s.(rxq := w) else s.(txq := w) }

  /** The control block at an address; freed memory holds garbage. */
  function Look(s: State, k: Id): Entry { if k in s.entry then s.entry[k] else GARBAGE }

  function Refs(s: State, u: Id): int { if u in s.refs then s.refs[u] else 0 }

  /** usb_get_urb and usb_free_urb; NULL is ignored. */
  function Count(s: State, p: Pointer, d: int): State {
    if p.Null? then s else s.(refs := s.refs[p.id := Refs(s, p.id) + d])
  }

  function Write(s: State, k: Id, e: Entry): State { s.(entry := s.entry[k := e]) }

  function FreeSkb(s: State, k: Id): State { s.(entry := s.entry - {k}, freed := s.freed + [k]) }

  /** __skb_unlink */
  function Remove(q: seq<Id>, k: Id): seq<Id> {
    if q == [] then [] else if q[0] == k then q[1..] else [q[0]] + Remove(q[1..], k)
  }

  /** The activity about to step. */
  function At(s: State, i: nat): (a: Activity)
    ensures a != Idle ==> i < |s.threads| && a == s.threads[i]
  {
    if i < |s.threads| then s.threads[i] else Idle
  }

  // ----- the steps: activity i of s steps to s' -----

  function Go(s: State, i: nat, a: Activity): State
    requires i < |s.threads|
  {
    s.(threads := s.threads[i := a])
  }

  /** usb_alloc_urb, and rx_submit is called. */
  predicate AllocRx(s: State, i: nat, s': State, u: Id) {
    i < |s.threads| && s.threads[i].Idle? && u !in s.refs && s' == Go(s.(refs := s.refs[u := 1]), i, RxNew(u))
  }

  /** rx_submit gives up: the error ratio is high, or there is no skb. */
  predicate KillRx(s: State, i: nat, s': State) {
    At(s, i).RxNew? && s' == Go(Count(s, To(s.threads[i].urb), -1), i, Idle)
  }

  /** rx_submit fills in a new skb's control block. */
  predicate AllocSkb(s: State, i: nat, s': State, k: Id) {
    At(s, i).RxNew? && k !in s.skbs &&
    var u := s.threads[i].urb;
    s' == Go(Write(s, k, Entry(To(u), RxStart)).(skbs := s.skbs + {k}), i, Ready(Rx, k, u))
  }

  /** start_xmit is called, and tx_fixup has returned an skb. */
  predicate Xmit(s: State, i: nat, s': State, k: Id) {
    i < |s.threads| && s.threads[i].Idle? && k !in s.skbs &&
    s' == Go(Write(s, k, GARBAGE).(skbs := s.skbs + {k}), i, TxNew(k))
  }

  /** start_xmit gets no URB. */
  predicate XmitDrop(s: State, i: nat, s': State) {
    At(s, i).TxNew? && s' == Go(FreeSkb(s, s.threads[i].skb), i, Idle)
  }

  predicate XmitUrb(s: State, i: nat, s': State, u: Id) {
    At(s, i).TxNew? && u !in s.refs &&
    var k := s.threads[i].skb;
    s' == Go(Write(s, k, Entry(To(u), TxStart)).(refs := s.refs[u := 1]), i, Ready(Tx, k, u))
  }

  /** The lock is taken and usb_submit_urb succeeds. */
  predicate Submit(s: State, i: nat, s': State) {
    At(s, i).Ready? &&
    var a := s.threads[i];
    a.queue !in s.locked &&
    s' == Go(s.(flight := s.flight[a.urb := (a.queue, a.skb)], locked := s.locked + {a.queue}), i,
             Entering(a.queue, a.skb))
  }

  /** The URB is not submitted: skb and URB are freed. */
  predicate Reject(s: State, i: nat, s': State) {
    At(s, i).Ready? && s.threads[i].queue !in s.locked &&
    s' == Go(Count(FreeSkb(s, s.threads[i].skb), To(s.threads[i].urb), -1), i, Idle)
  }

  /** __skb_queue_tail, and the lock is released. */
  predicate Enqueue(s: State, i: nat, s': State) {
    At(s, i).Entering? &&
    var a := s.threads[i];
    s' == Go(WithWaiting(s, a.queue, Waiting(s, a.queue) + [a.skb]).(locked := s.locked - {a.queue}), i, Idle)
  }

  /** rx_complete runs, up to entry->urb = NULL. */
  predicate CompleteRx(s: State, i: nat, s': State, u: Id) {
    i < |s.threads| && s.threads[i].Idle? && u in s.flight && s.flight[u].0 == Rx &&
    var k := s.flight[u].1;
    s' == Go(Write(s, k, Look(s, k).(urb := Null)).(flight := s.flight - {u}), i, RxStarted(k, u))
  }

  /** rx_complete judges the URB's status: a runt frame, a stopped device (the URB goes
      back into the skb) or another error is noted in the control block. */
  predicate Judge(s: State, i: nat, s': State, how: Judgement) {
    At(s, i).RxStarted? &&
    var k, u := s.threads[i].skb, s.threads[i].urb;
    s' == Go(s.(entry := match how
                         case Short => s.entry[k := Look(s, k).(phase := RxCleanup)]
                         case Block => s.entry[k := Look(s, k).(urb := To(u))]
                         case _ => s.entry), i,
             RxJudged(k, if how.Block? then Null else To(u), if how.Success? || how.Short? then RxDone else RxCleanup))
  }

  /** tx_complete runs, up to entry->state = tx_done. */
  predicate CompleteTx(s: State, i: nat, s': State, u: Id) {
    i < |s.threads| && s.threads[i].Idle? && u in s.flight && s.flight[u].0 == Tx &&
    var k := s.flight[u].1;
    s' == Go(Write(s, k, Look(s, k).(phase := TxDone)).(flight := s.flight - {u}), i, TxJudged(k))
  }

  /** defer_bh, with both locks held throughout. */
  function Deferred(s: State, q: Queue, k: Id, verdict: Phase): State {
    WithWaiting(Write(s, k, Look(s, k).(phase := verdict)), q, Remove(Waiting(s, q), k)).(done := s.done + [k])
  }

  predicate DeferRx(s: State, i: nat, s': State) {
    At(s, i).RxJudged? && Rx !in s.locked &&
    var a := s.threads[i];
    s' == Go(Deferred(s, Rx, a.skb, a.verdict), i,
             if a.held.Null? then Idle else RxTail(a.held.id, Look(s, a.skb).phase))
  }

  predicate DeferTx(s: State, i: nat, s': State) {
    At(s, i).TxJudged? && Tx !in s.locked && s' == Go(Deferred(s, Tx, s.threads[i].skb, TxDone), i, Idle)
  }

  /** The end of rx_complete. */
  predicate Resubmit(s: State, i: nat, s': State) {
    At(s, i).RxTail? && s.threads[i].was != UnlinkStart && s' == Go(s, i, RxNew(s.threads[i].urb))
  }

  predicate FreeUrb(s: State, i: nat, s': State) {
    At(s, i).RxTail? && s' == Go(Count(s, To(s.threads[i].urb), -1), i, Idle)
  }

  /** unlink_urbs takes the lock and marks the first skb not yet marked. */
  predicate Mark(s: State, i: nat, s': State, q: Queue, n: nat) {
    i < |s.threads| && s.threads[i].Idle? && q !in s.locked && n < |Waiting(s, q)| &&
    var k := Waiting(s, q)[n];
    Look(s, k).phase != UnlinkStart &&
    (forall j :: 0 <= j < n ==> Look(s, Waiting(s, q)[j]).phase == UnlinkStart) &&
    s' == Go(Write(s, k, Look(s, k).(phase := UnlinkStart)).(locked := s.locked + {q}), i, Marked(q, k))
  }

  /** urb = entry->urb */
  predicate Borrow(s: State, i: nat, s': State) {
    At(s, i).Marked? &&
    var a := s.threads[i];
    s' == Go(s, i, Borrowed(a.queue, a.skb, Look(s, a.skb).urb))
  }

  /** usb_get_urb, and the lock is released for usb_unlink_urb. */
  predicate GetUrb(s: State, i: nat, s': State) {
    At(s, i).Borrowed? &&
    var a := s.threads[i];
    s' == Go(Count(s, a.held, 1).(locked := s.locked - {a.queue}), i, Unlinking(a.held))
  }

  predicate PutUrb(s: State, i: nat, s': State) {
    At(s, i).Unlinking? && s' == Go(Count(s, s.threads[i].held, -1), i, Idle)
  }

  /** The bottom half takes the next skb. */
  predicate Dequeue(s: State, i: nat, s': State) {
    i < |s.threads| && s.threads[i].Idle? && s.done != [] && s' == Go(s.(done := s.done[1..]), i, Handling(s.done[0]))
  }

  predicate HandleRx(s: State, i: nat, s': State) {
    At(s, i).Handling? &&
    var k := s.threads[i].skb;
    Look(s, k).phase == RxDone && s' == Go(Write(s, k, Look(s, k).(phase := RxCleanup)), i, Processing(k))
  }

  predicate HandleFree(s: State, i: nat, s': State) {
    At(s, i).Handling? &&
    var k := s.threads[i].skb;
    Look(s, k).phase in {TxDone, RxCleanup} && s' == Go(FreeSkb(Count(s, Look(s, k).urb, -1), k), i, Idle)
  }

  /** "bogus skb state": the skb is forgotten. */
  predicate HandleBogus(s: State, i: nat, s': State) {
    At(s, i).Handling? && Look(s, s.threads[i].skb).phase !in {RxDone, TxDone, RxCleanup} && s' == Go(s, i, Idle)
  }

  /** rx_process */
  predicate Deliver(s: State, i: nat, s': State) {
    At(s, i).Processing? &&
    var k := s.threads[i].skb;
    s' == Go(s.(entry := s.entry - {k}, delivered := s.delivered + [k]), i, Idle)
  }

  predicate Requeue(s: State, i: nat, s': State) {
    At(s, i).Processing? && s' == Go(s.(done := s.done + [s.threads[i].skb]), i, Idle)
  }

  /** Which step is taken, and what the environment chose. */
  datatype Step =
    | SSpawn | SAllocRx(urb: Id) | SKillRx | SAllocSkb(skb: Id) | SXmit(skb: Id) | SXmitDrop | SXmitUrb(urb: Id)
    | SSubmit | SReject | SEnqueue | SCompleteRx(urb: Id) | SJudge(how: Judgement) | SCompleteTx(urb: Id)
    | SDeferRx | SDeferTx | SResubmit | SFreeUrb | SMark(queue: Queue, n: nat) | SBorrow | SGetUrb | SPutUrb
    | SDequeue | SHandleRx | SHandleFree | SHandleBogus | SDeliver | SRequeue

  predicate Steps(s: State, i: nat, s': State, t: Step) {
    match t
    case SSpawn => s' == s.(threads := s.threads + [Idle])
    case SAllocRx(u) => AllocRx(s, i, s', u)
    case SKillRx => KillRx(s, i, s')
    case SAllocSkb(k) => AllocSkb(s, i, s', k)
    case SXmit(k) => Xmit(s, i, s', k)
    case SXmitDrop => XmitDrop(s, i, s')
    case SXmitUrb(u) => XmitUrb(s, i, s', u)
    case SSubmit => Submit(s, i, s')
    case SReject => Reject(s, i, s')
    case SEnqueue => Enqueue(s, i, s')
    case SCompleteRx(u) => CompleteRx(s, i, s', u)
    case SJudge(how) => Judge(s, i, s', how)
    case SCompleteTx(u) => CompleteTx(s, i, s', u)
    case SDeferRx => DeferRx(s, i, s')
    case SDeferTx => DeferTx(s, i, s')
    case SResubmit => Resubmit(s, i, s')
    case SFreeUrb => FreeUrb(s, i, s')
    case SMark(q, n) => Mark(s, i, s', q, n)
    case SBorrow => Borrow(s, i, s')
    case SGetUrb => GetUrb(s, i, s')
    case SPutUrb => PutUrb(s, i, s')
    case SDequeue => Dequeue(s, i, s')
    case SHandleRx => HandleRx(s, i, s')
    case SHandleFree => HandleFree(s, i, s')
    case SHandleBogus => HandleBogus(s, i, s')
    case SDeliver => Deliver(s, i, s')
    case SRequeue => Requeue(s, i, s')
  }

  /** The steps in three groups: of submission, of completion, and all others. */
  predicate Submitting(t: Step) {
    t.SAllocRx? || t.SKillRx? || t.SAllocSkb? || t.SXmit? || t.SXmitDrop? || t.SXmitUrb? || t.SSubmit? || t.SReject? ||
    t.SEnqueue?
  }

  predicate Ending(t: Step) {
    t.SCompleteRx? || t.SJudge? || t.SCompleteTx? || t.SDeferRx? || t.SDeferTx? || t.SResubmit? || t.SFreeUrb?
  }

  predicate Serving(t: Step) { !Submitting(t) && !Ending(t) }

  predicate StepAt(run: seq<State>, steps: seq<(nat, Step)>, n: nat)
    requires n < |steps| < |run|
  {
    Steps(run[n], steps[n].0, run[n + 1], steps[n].1)
  }

  /** A run from the start: which activity takes which step. */
  predicate IsRun(run: seq<State>, steps: seq<(nat, Step)>) {
    && |run| == |steps| + 1 && run[0] == START
    && forall n :: 0 <= n < |steps| ==> StepAt(run, steps, n)
  }

  // ----- who holds what -----

  function One(b: bool): nat { if b then 1 else 0 }

  /** Only this activity can reach the skb. */
  function Held(a: Activity, k: Id): nat {
    One((a.TxNew? || a.Ready? || a.Entering? || a.Handling? || a.Processing?) && a.skb == k)
  }

  /** The activity must free the URB or pass it on. */
  function Kept(a: Activity, u: Id): nat {
    One(((a.RxNew? || a.RxStarted? || a.RxTail?) && a.urb == u) || (a.RxJudged? && a.held == To(u)))
  }

  /** The extra reference unlink_urbs takes. */
  function Extra(a: Activity, u: Id): nat { One(a.Unlinking? && a.held == To(u)) }

  /** The activity is running the completion of an skb on the queue. */
  function Completing(a: Activity, x: (Queue, Id)): nat {
    One((((a.RxStarted? || a.RxJudged?) && x.0 == Rx) || (a.TxJudged? && x.0 == Tx)) && a.skb == x.1)
  }

  function Joining(a: Activity, x: (Queue, Id)): nat { One(a == Entering(x.0, x.1)) }

  /** The activity holds the queue's lock. */
  function Holding(a: Activity, q: Queue): nat { One((a.Entering? || a.Marked? || a.Borrowed?) && a.queue == q) }

  /** A completion handler that has taken the URB out of the skb. */
  function Bound(a: Activity, x: (Id, Id)): nat {
    One((a.RxStarted? && (a.skb, a.urb) == x) || (a.RxJudged? && a.skb == x.0 && a.held == To(x.1)))
  }

  /** How often something is held, over all activities. */
  ghost function Over<T>(ts: seq<Activity>, f: (Activity, T) -> nat, x: T): nat {
    if ts == [] then 0 else Over(ts[..|ts| - 1], f, x) + f(ts[|ts| - 1], x)
  }

  lemma {:induction false} OverSet<T>(ts: seq<Activity>, f: (Activity, T) -> nat, x: T, i: nat, b: Activity)
    requires i < |ts|
    ensures Over(ts[i := b], f, x) + f(ts[i], x) == Over(ts, f, x) + f(b, x)
  {
    var n := |ts| - 1;
    if i == n {
      assert ts[i := b][..n] == ts[..n];
    } else {
      OverSet(ts[..n], f, x, i, b);
      assert ts[i := b][..n] == ts[..n][i := b];
    }
  }

  lemma OverAdd<T>(ts: seq<Activity>, f: (Activity, T) -> nat, x: T, b: Activity)
    ensures Over(ts + [b], f, x) == Over(ts, f, x) + f(b, x)
  {
    assert (ts + [b])[..|ts|] == ts;
  }

  lemma {:induction false} OverAt<T>(ts: seq<Activity>, f: (Activity, T) -> nat, x: T, i: nat)
    requires i < |ts|
    ensures f(ts[i], x) <= Over(ts, f, x)
  {
    var n := |ts| - 1;
    if i < n { OverAt(ts[..n], f, x, i); }
  }

  lemma {:induction false} OverTwo<T>(ts: seq<Activity>, f: (Activity, T) -> nat, x: T, i: nat, j: nat)
    requires i < |ts| && j < |ts| && i != j
    ensures f(ts[i], x) + f(ts[j], x) <= Over(ts, f, x)
  {
    var n := |ts| - 1;
    if i == n { OverAt(ts[..n], f, x, j); }
    else if j == n { OverAt(ts[..n], f, x, i); }
    else { OverTwo(ts[..n], f, x, i, j); }
  }

  lemma {:induction false} OverFind<T>(ts: seq<Activity>, f: (Activity, T) -> nat, x: T) returns (i: nat)
    requires Over(ts, f, x) > 0
    ensures i < |ts| && f(ts[i], x) > 0
  {
    i := |ts| - 1;
    if f(ts[i], x) == 0 { i := OverFind(ts[..i], f, x); }
  }

  ghost function Pick<V>(m: map<Id, V>): (k: Id)
    requires m != map[]
    ensures k in m
  {
    assert exists k :: k in m by { assert m.Keys != {}; }
    var k :| k in m; k
  }

  ghost function Total<V, T>(m: map<Id, V>, f: (V, T) -> nat, x: T): nat
    decreases |m|
  {
    if m == map[] then 0 else var k := Pick(m); f(m[k], x) + Total(m - {k}, f, x)
  }

  lemma {:induction false} TotalTake<V, T>(m: map<Id, V>, f: (V, T) -> nat, x: T, k: Id)
    requires k in m
    ensures Total(m, f, x) == f(m[k], x) + Total(m - {k}, f, x)
    decreases |m|
  {
    var p := Pick(m);
    if p != k {
      TotalTake(m - {p}, f, x, k);
      TotalTake(m - {k}, f, x, p);
      assert m - {p} - {k} == m - {k} - {p};
    }
  }

  lemma TotalPut<V, T>(m: map<Id, V>, f: (V, T) -> nat, x: T, k: Id, v: V)
    ensures Total(m[k := v], f, x) == f(v, x) + Total(m, f, x) - if k in m then f(m[k], x) else 0
  {
    TotalTake(m[k := v], f, x, k);
    assert m[k := v] - {k} == m - {k};
    if k in m { TotalTake(m, f, x, k); } else { assert m - {k} == m; }
  }

  /** The skb's control block owns the URB. */
  function UrbOf(e: Entry, u: Id): nat { One(e.urb == To(u)) }

  function Same(p: (Queue, Id), x: (Queue, Id)): nat { One(p == x) }

  function Occurs(w: seq<Id>, k: Id): nat { multiset(w)[k] }

  lemma {:induction false} RemoveOne(w: seq<Id>, k: Id, x: Id)
    requires k in w
    ensures Occurs(Remove(w, k), x) == Occurs(w, x) - One(x == k)
  {
    assert w == [w[0]] + w[1..];
    if w[0] != k { RemoveOne(w[1..], k, x); }
  }

  // ----- the invariant -----

  /** How many places the skb is in: the queues and the activities' own skbs. */
  ghost function Places(s: State, k: Id): nat {
    Occurs(s.rxq, k) + Occurs(s.txq, k) + Occurs(s.done, k) + Over(s.threads, Held, k)
  }

  /** Every skb that ever existed is in exactly one place: on one queue, in the hands
      of one activity, delivered or freed; the first two are the allocated ones. */
  ghost predicate Placed(s: State) {
    forall k: Id ::
      && Places(s, k) == One(k in s.entry)
      && Places(s, k) + Occurs(s.delivered, k) + Occurs(s.freed, k) == One(k in s.skbs)
  }

  ghost function Owners(s: State, u: Id): nat { Total(s.entry, UrbOf, u) + Over(s.threads, Kept, u) }

  /** Every URB has at most one owner, and its reference count is the number of its
      owners plus the references unlink_urbs holds. */
  ghost predicate Counted(s: State) {
    forall u: Id ::
      && Owners(s, u) <= 1 && Refs(s, u) == Owners(s, u) + Over(s.threads, Extra, u)
  }

  /** How often the skb is on the queue or about to be. */
  ghost function Queued(s: State, x: (Queue, Id)): nat { Occurs(Waiting(s, x.0), x.1) + Over(s.threads, Joining, x) }

  /** Every skb on a queue has exactly one completion to come. */
  ghost predicate Pending(s: State) {
    forall x: (Queue, Id) :: Total(s.flight, Same, x) + Over(s.threads, Completing, x) == Queued(s, x)
  }

  /** A lock is held by one activity at most. */
  ghost predicate Exclusive(s: State) {
    forall q: Queue :: Over(s.threads, Holding, q) == One(q in s.locked)
  }

  ghost predicate Finished(s: State, k: Id) {
    Look(s, k).phase in {TxDone, RxDone, RxCleanup} && (Look(s, k).phase == RxDone ==> Look(s, k).urb == Null)
  }

  /** What an activity relies on. */
  ghost predicate Relies(s: State, a: Activity) {
    match a
    case Ready(_, k, u) => Look(s, k).urb == To(u)
    case RxStarted(k, _) => Look(s, k).urb == Null
    case RxJudged(k, p, v) => (p.To? ==> Look(s, k).urb == Null) && v in {RxDone, RxCleanup} && (v == RxDone ==> p.To?)
    case Marked(q, k) => k in Waiting(s, q)
    case Borrowed(q, k, p) =>
      k in Waiting(s, q) && (p.To? ==> Look(s, k).urb == p || Over(s.threads, Bound, (k, p.id)) > 0)
    case Handling(k) => Finished(s, k)
    case Processing(k) => Look(s, k) == Entry(Null, RxCleanup)
    case TxNew(k) => Look(s, k).urb == Null
    case _ => true
  }

  ghost predicate Local(s: State) {
    && (forall j :: 0 <= j < |s.threads| ==> Relies(s, s.threads[j]))
    && (forall k :: k in s.done ==> Finished(s, k))
    && (forall u :: u in s.flight ==> Look(s, s.flight[u].1).urb == To(u))
  }

  ghost predicate Inv(s: State) { Placed(s) && Counted(s) && Pending(s) && Exclusive(s) && Local(s) }

  // ----- who can have an skb -----

  lemma {:induction false} JoiningHeld(ts: seq<Activity>, q: Queue, k: Id)
    ensures Over(ts, Joining, (q, k)) <= Over(ts, Held, k)
  {
    if ts != [] { JoiningHeld(ts[..|ts| - 1], q, k); }
  }

  lemma {:induction false} JoiningTwo(ts: seq<Activity>, q: Queue, k: Id, p: Queue)
    requires p != q
    ensures Over(ts, Joining, (q, k)) + Over(ts, Joining, (p, k)) <= Over(ts, Held, k)
  {
    if ts != [] { JoiningTwo(ts[..|ts| - 1], q, k, p); }
  }

  lemma {:induction false} JoiningOther(ts: seq<Activity>, q: Queue, k: Id, j: nat)
    requires j < |ts| && Held(ts[j], k) == 1 && ts[j] != Entering(q, k)
    ensures Over(ts, Joining, (q, k)) < Over(ts, Held, k)
  {
    var n := |ts| - 1;
    if j == n { JoiningHeld(ts[..n], q, k); } else { JoiningOther(ts[..n], q, k, j); }
  }

  /** A queued skb is allocated, and nobody else has it. */
  lemma QueuedOnce(s: State, q: Queue, k: Id)
    requires Placed(s) && Queued(s, (q, k)) > 0
    ensures k in s.entry && k !in s.done && Queued(s, (q, k)) == 1
    ensures forall j | 0 <= j < |s.threads| && Held(s.threads[j], k) == 1 :: s.threads[j] == Entering(q, k)
    ensures forall p | p != q :: Queued(s, (p, k)) == 0
  {
    assert Places(s, k) == One(k in s.entry);
    JoiningHeld(s.threads, q, k);
    forall j | 0 <= j < |s.threads| && Held(s.threads[j], k) == 1 ensures s.threads[j] == Entering(q, k) {
      if s.threads[j] != Entering(q, k) { JoiningOther(s.threads, q, k, j); }
    }
    forall p | p != q ensures Queued(s, (p, k)) == 0 {
      JoiningTwo(s.threads, q, k, p);
    }
  }

  /** An skb in flight is queued, or about to be, and its completion not yet running. */
  lemma InFlight(s: State, u: Id)
    requires Placed(s) && Pending(s) && u in s.flight
    ensures Queued(s, s.flight[u]) == 1 && s.flight[u].1 in s.entry
    ensures forall j | 0 <= j < |s.threads| :: Completing(s.threads[j], s.flight[u]) == 0
    ensures forall v | v in s.flight && v != u :: s.flight[v].1 != s.flight[u].1
  {
    var x := s.flight[u];
    TotalTake(s.flight, Same, x, u);
    assert Queued(s, x) > 0;
    QueuedOnce(s, x.0, x.1);
    forall j | 0 <= j < |s.threads| ensures Completing(s.threads[j], x) == 0 {
      OverAt(s.threads, Completing, x, j);
    }
    forall v | v in s.flight && v != u ensures s.flight[v].1 != x.1 {
      TotalTake(s.flight - {u}, Same, x, v);
      TotalTake(s.flight, Same, s.flight[v], v);
      assert Queued(s, s.flight[v]) > 0;
    }
  }

  /** So is an skb whose completion is running, in one handler only. */
  lemma Judging(s: State, i: nat, q: Queue, k: Id)
    requires Placed(s) && Pending(s) && i < |s.threads| && Completing(s.threads[i], (q, k)) == 1
    ensures Queued(s, (q, k)) == 1 && k in s.entry
    ensures forall j | 0 <= j < |s.threads| && j != i :: Completing(s.threads[j], (q, k)) == 0
    ensures forall v | v in s.flight :: s.flight[v].1 != k
  {
    OverAt(s.threads, Completing, (q, k), i);
    assert Queued(s, (q, k)) > 0;
    QueuedOnce(s, q, k);
    forall j | 0 <= j < |s.threads| && j != i ensures Completing(s.threads[j], (q, k)) == 0 {
      OverTwo(s.threads, Completing, (q, k), i, j);
    }
    forall v | v in s.flight ensures s.flight[v].1 != k {
      TotalTake(s.flight, Same, s.flight[v], v);
      assert Queued(s, s.flight[v]) > 0;
    }
  }

  /** While nobody holds the queue's lock, it is on the queue. */
  lemma OnQueue(s: State, i: nat, q: Queue, k: Id)
    requires Placed(s) && Pending(s) && Exclusive(s)
    requires i < |s.threads| && Completing(s.threads[i], (q, k)) == 1 && q !in s.locked
    ensures k in Waiting(s, q)
  {
    Judging(s, i, q, k);
    if Over(s.threads, Joining, (q, k)) > 0 {
      var j := OverFind(s.threads, Joining, (q, k));
      OverAt(s.threads, Holding, q, j);
      assert false;
    }
  }

  /** The skb an activity relies on. */
  function SkbOf(a: Activity): Pointer {
    if a.Idle? || a.RxNew? || a.RxTail? || a.Unlinking? then Null else To(a.skb)
  }

  /** Nobody but activity i has or relies on the skb. */
  ghost predicate Private(s: State, i: nat, k: Id) {
    && k !in s.done && k !in s.rxq && k !in s.txq && (forall u :: u in s.flight ==> s.flight[u].1 != k)
    && forall j :: 0 <= j < |s.threads| && j != i ==> SkbOf(s.threads[j]) != To(k)
  }

  lemma Unqueued(s: State, i: nat, k: Id)
    requires Placed(s) && Pending(s) && Local(s)
    requires forall q :: Queued(s, (q, k)) == 0
    requires forall j | 0 <= j < |s.threads| && j != i :: Held(s.threads[j], k) == 0
    requires k !in s.done
    ensures Private(s, i, k)
  {
    assert Queued(s, (Rx, k)) == 0 && Queued(s, (Tx, k)) == 0;
    forall u | u in s.flight ensures s.flight[u].1 != k { InFlight(s, u); }
    forall j | 0 <= j < |s.threads| && j != i ensures SkbOf(s.threads[j]) != To(k) {
      var a := s.threads[j];
      assert Relies(s, a);
      OverAt(s.threads, Completing, (Rx, k), j);
      OverAt(s.threads, Completing, (Tx, k), j);
    }
  }

  /** An skb in an activity's own hands is private to it. */
  lemma Unshared(s: State, i: nat, k: Id)
    requires Placed(s) && Pending(s) && Local(s)
    requires i < |s.threads| && Held(s.threads[i], k) == 1 && !s.threads[i].Entering?
    ensures Private(s, i, k) && k in s.entry && k in s.skbs
  {
    OverAt(s.threads, Held, k, i);
    assert Places(s, k) == One(k in s.entry);
    forall q ensures Queued(s, (q, k)) == 0 {
      if Queued(s, (q, k)) > 0 { QueuedOnce(s, q, k); }
    }
    forall j | 0 <= j < |s.threads| && j != i ensures Held(s.threads[j], k) == 0 {
      OverTwo(s.threads, Held, k, i, j);
    }
    Unqueued(s, i, k);
  }

  /** A new skb is private to whoever allocates it. */
  lemma Unused(s: State, i: nat, k: Id)
    requires Placed(s) && Pending(s) && Local(s) && k !in s.skbs
    ensures Private(s, i, k) && k !in s.entry
  {
    assert Places(s, k) == One(k in s.entry);
    forall q ensures Queued(s, (q, k)) == 0 {
      if Queued(s, (q, k)) > 0 { QueuedOnce(s, q, k); }
    }
    forall j | 0 <= j < |s.threads| && j != i ensures Held(s.threads[j], k) == 0 {
      OverAt(s.threads, Held, k, j);
    }
    Unqueued(s, i, k);
  }

  /** Apart from unlink_urbs on the same queue, nobody relies on a queued skb but its
      completion handler. */
  lemma QueuedShared(s: State, q: Queue, k: Id, j: nat)
    requires Placed(s) && Pending(s) && Local(s) && j < |s.threads|
    requires Queued(s, (q, k)) > 0 && SkbOf(s.threads[j]) == To(k)
    ensures var a := s.threads[j];
            ((a.Marked? || a.Borrowed?) && a.queue == q) || a == Entering(q, k) || Completing(a, (q, k)) == 1
  {
    var a := s.threads[j];
    assert Relies(s, a);
    QueuedOnce(s, q, k);
    assert Queued(s, (if q == Rx then Tx else Rx, k)) == 0;
    OverAt(s.threads, Completing, (if q == Rx then Tx else Rx, k), j);
  }

  // ----- every step keeps the invariant -----

  /** One activity moves from a to b: what this does to a sum over all of them. */
  ghost predicate Shifts<T(!new)>(ts: seq<Activity>, i: nat, b: Activity, f: (Activity, T) -> nat)
    requires i < |ts|
  {
    forall x: T :: Over(ts[i := b], f, x) == Over(ts, f, x) - f(ts[i], x) + f(b, x) && f(ts[i], x) <= Over(ts, f, x)
  }

  lemma Shift<T(!new)>(ts: seq<Activity>, i: nat, b: Activity, f: (Activity, T) -> nat)
    requires i < |ts|
    ensures Shifts(ts, i, b, f)
  {
    forall x: T
      ensures Over(ts[i := b], f, x) == Over(ts, f, x) - f(ts[i], x) + f(b, x) && f(ts[i], x) <= Over(ts, f, x)
    {
      OverSet(ts, f, x, i, b);
      OverAt(ts, f, x, i);
    }
  }

  lemma Flights(m: map<Id, (Queue, Id)>, u: Id, x: (Queue, Id))
    requires u !in m
    ensures forall y :: Total(m[u := x], Same, y) == Total(m, Same, y) + Same(x, y)
  {
    forall y ensures Total(m[u := x], Same, y) == Total(m, Same, y) + Same(x, y) { TotalPut(m, Same, y, u, x); }
  }

  lemma Landing(m: map<Id, (Queue, Id)>, u: Id)
    requires u in m
    ensures forall y :: Total(m - {u}, Same, y) == Total(m, Same, y) - Same(m[u], y)
  {
    forall y ensures Total(m - {u}, Same, y) == Total(m, Same, y) - Same(m[u], y) { TotalTake(m, Same, y, u); }
  }

  lemma Allocated(s: State, i: nat)
    requires Placed(s) && i < |s.threads| && SkbOf(s.threads[i]).To? && Held(s.threads[i], s.threads[i].skb) == 1
    ensures s.threads[i].skb in s.entry
  {
    OverAt(s.threads, Held, s.threads[i].skb, i);
    assert Places(s, s.threads[i].skb) > 0;
  }

  lemma NotAllocated(s: State, k: Id)
    requires Placed(s) && k !in s.skbs
    ensures k !in s.entry
  {
    assert Places(s, k) == One(k in s.entry);
  }

  lemma TwoOwners(m: map<Id, Entry>, u: Id, j: Id, k: Id)
    requires j in m && k in m && j != k && m[j].urb == m[k].urb == To(u)
    ensures Total(m, UrbOf, u) >= 2
  {
    TotalTake(m, UrbOf, u, j);
    TotalTake(m - {j}, UrbOf, u, k);
  }

  /** An URB about to be submitted is not in flight. */
  lemma NotInFlight(s: State, i: nat)
    requires Placed(s) && Counted(s) && Pending(s) && Local(s) && i < |s.threads| && s.threads[i].Ready?
    ensures s.threads[i].urb !in s.flight
  {
    var u, k := s.threads[i].urb, s.threads[i].skb;
    Unshared(s, i, k);
    assert Relies(s, s.threads[i]) && Owners(s, u) <= 1;
    if u in s.flight {
      InFlight(s, u);
      TwoOwners(s.entry, u, k, s.flight[u].1);
    }
  }

  /** No skb is lost, duplicated or invented when activity i becomes b. */
  lemma PlacedKept(s: State, i: nat, s': State, b: Activity)
    requires Placed(s) && i < |s.threads| && s'.threads == s.threads[i := b]
    requires forall k: Id ::
      Occurs(s'.rxq, k) + Occurs(s'.txq, k) + Occurs(s'.done, k) + Held(b, k) + One(k in s.entry) ==
      Occurs(s.rxq, k) + Occurs(s.txq, k) + Occurs(s.done, k) + Held(s.threads[i], k) + One(k in s'.entry)
    requires forall k: Id ::
      One(k in s'.entry) + Occurs(s'.delivered, k) + Occurs(s'.freed, k) + One(k in s.skbs) ==
      One(k in s.entry) + Occurs(s.delivered, k) + Occurs(s.freed, k) + One(k in s'.skbs)
    ensures Placed(s')
  {
    Shift(s.threads, i, b, Held);
    forall k: Id ensures Places(s', k) == One(k in s'.entry) {
      assert Places(s, k) == One(k in s.entry);
    }
  }

  lemma SamePlaces(s: State, i: nat, s': State, b: Activity)
    requires Placed(s) && i < |s.threads| && s'.threads == s.threads[i := b]
    requires forall k: Id :: Held(b, k) == Held(s.threads[i], k)
    requires forall k: Id :: Occurs(s'.rxq, k) + Occurs(s'.txq, k) + Occurs(s'.done, k) ==
                             Occurs(s.rxq, k) + Occurs(s.txq, k) + Occurs(s.done, k)
    requires s'.entry.Keys == s.entry.Keys && s'.delivered == s.delivered && s'.freed == s.freed && s'.skbs == s.skbs
    ensures Placed(s')
  {
    PlacedKept(s, i, s', b);
  }

  /** URBs are passed on, allocated and freed as they are counted. */
  lemma CountedKept(s: State, i: nat, s': State, b: Activity)
    requires Counted(s) && i < |s.threads| && s'.threads == s.threads[i := b]
    requires forall u: Id ::
      && Refs(s', u) - Total(s'.entry, UrbOf, u) - Kept(b, u) - Extra(b, u) ==
         Refs(s, u) - Total(s.entry, UrbOf, u) - Kept(s.threads[i], u) - Extra(s.threads[i], u)
      && Total(s'.entry, UrbOf, u) + Kept(b, u) <=
         Total(s.entry, UrbOf, u) + Kept(s.threads[i], u) + One(Refs(s, u) == 0)
    ensures Counted(s')
  {
    Shift(s.threads, i, b, Kept);
    Shift(s.threads, i, b, Extra);
    forall u: Id ensures Owners(s', u) <= 1 && Refs(s', u) == Owners(s', u) + Over(s'.threads, Extra, u) {
      assert Refs(s, u) == Owners(s, u) + Over(s.threads, Extra, u);
    }
  }

  lemma PendingKept(s: State, i: nat, s': State, b: Activity)
    requires Pending(s) && i < |s.threads| && s'.threads == s.threads[i := b]
    requires forall x: (Queue, Id) ::
      Total(s'.flight, Same, x) + Completing(b, x) + Occurs(Waiting(s, x.0), x.1) + Joining(s.threads[i], x) ==
      Total(s.flight, Same, x) + Completing(s.threads[i], x) + Occurs(Waiting(s', x.0), x.1) + Joining(b, x)
    ensures Pending(s')
  {
    Shift(s.threads, i, b, Completing);
    Shift(s.threads, i, b, Joining);
    forall x: (Queue, Id) ensures Total(s'.flight, Same, x) + Over(s'.threads, Completing, x) == Queued(s', x) {
      assert Total(s.flight, Same, x) + Over(s.threads, Completing, x) == Queued(s, x);
    }
  }

  lemma ExclusiveKept(s: State, i: nat, s': State, b: Activity)
    requires Exclusive(s) && i < |s.threads| && s'.threads == s.threads[i := b]
    requires forall q: Queue :: One(q in s'.locked) + Holding(s.threads[i], q) == One(q in s.locked) + Holding(b, q)
    ensures Exclusive(s')
  {
    Shift(s.threads, i, b, Holding);
  }

  /** Only the skbs in K change their control block or queue, and whoever is concerned
      with them, activity i included, has what it relies on. */
  lemma LocalKept(s: State, i: nat, s': State, b: Activity, K: set<Id>)
    requires Local(s) && i < |s.threads| && s'.threads == s.threads[i := b]
    requires forall j | 0 <= j < |s.threads| && j != i && SkbOf(s.threads[j]).To? && SkbOf(s.threads[j]).id in K ::
               Relies(s', s.threads[j])
    requires Relies(s', b)
    requires forall x | x !in K :: Look(s', x) == Look(s, x)
    requires forall q: Queue, x | x !in K && x in Waiting(s, q) :: x in Waiting(s', q)
    requires forall p: (Id, Id) | p.0 !in K :: Bound(b, p) >= Bound(s.threads[i], p)
    requires forall x | x in s'.done :: (x in s.done && x !in K) || Finished(s', x)
    requires forall u | u in s'.flight ::
               (u in s.flight && s'.flight[u] == s.flight[u] && s.flight[u].1 !in K) ||
               Look(s', s'.flight[u].1).urb == To(u)
    ensures Local(s')
  {
    Shift(s.threads, i, b, Bound);
    forall j | 0 <= j < |s'.threads| ensures Relies(s', s'.threads[j]) {
      if j != i { assert Relies(s, s.threads[j]); }
    }
  }

  /** A step on an skb nobody else can reach. */
  lemma PrivateLocal(s: State, i: nat, s': State, b: Activity, k: Id)
    requires Local(s) && i < |s.threads| && s'.threads == s.threads[i := b] && Private(s, i, k) && Relies(s', b)
    requires s'.rxq == s.rxq && s'.txq == s.txq && s'.flight == s.flight
    requires s'.done == s.done || s'.done == s.done + [k]
    requires k in s'.done ==> Finished(s', k)
    requires s'.entry - {k} == s.entry - {k} && !s.threads[i].RxStarted? && !s.threads[i].RxJudged?
    ensures Local(s')
  {
    forall x | x != k ensures Look(s', x) == Look(s, x) {
      assert x in s'.entry <==> x in s'.entry - {k};
      assert x in s.entry <==> x in s.entry - {k};
      if x in s'.entry { assert s'.entry[x] == (s'.entry - {k})[x] == (s.entry - {k})[x]; }
    }
    LocalKept(s, i, s', b, {k});
  }

  /** A step that leaves all skbs alone. */
  lemma QuietLocal(s: State, i: nat, s': State, b: Activity)
    requires Local(s) && i < |s.threads| && s'.threads == s.threads[i := b] && Relies(s', b)
    requires s'.rxq == s.rxq && s'.txq == s.txq && s'.flight == s.flight && s'.done == s.done && s'.entry == s.entry
    requires !s.threads[i].RxStarted? && !s.threads[i].RxJudged?
    ensures Local(s')
  {
    LocalKept(s, i, s', b, {});
  }

  /** A lock holder found the lock free when it came. */
  lemma Holder(s: State, i: nat, q: Queue)
    requires Exclusive(s) && i < |s.threads| && Holding(s.threads[i], q) == 1
    ensures q in s.locked
    ensures forall j | 0 <= j < |s.threads| && j != i :: Holding(s.threads[j], q) == 0
  {
    OverAt(s.threads, Holding, q, i);
    forall j | 0 <= j < |s.threads| && j != i ensures Holding(s.threads[j], q) == 0 {
      OverTwo(s.threads, Holding, q, i, j);
    }
  }

  lemma Entries(m: map<Id, Entry>, k: Id, e: Entry)
    ensures forall u :: Total(m[k := e], UrbOf, u) ==
                        Total(m, UrbOf, u) - (if k in m then UrbOf(m[k], u) else 0) + UrbOf(e, u)
    ensures k in m ==> forall u :: Total(m - {k}, UrbOf, u) == Total(m, UrbOf, u) - UrbOf(m[k], u)
  {
    forall u
      ensures Total(m[k := e], UrbOf, u) ==
              Total(m, UrbOf, u) - (if k in m then UrbOf(m[k], u) else 0) + UrbOf(e, u)
    {
      TotalPut(m, UrbOf, u, k, e);
    }
    if k in m {
      forall u ensures Total(m - {k}, UrbOf, u) == Total(m, UrbOf, u) - UrbOf(m[k], u) {
        TotalTake(m, UrbOf, u, k);
      }
    }
  }

  /** An activity ends by freeing or delivering its skb. */
  lemma GoneQueues(s: State, i: nat, s': State, k: Id)
    requires Placed(s) && Pending(s) && Exclusive(s) && Gone(s, i, s', k)
    ensures Placed(s') && Pending(s') && Exclusive(s')
  {
    GoneRest(s, i, s', k);
    Allocated(s, i);
    PlacedKept(s, i, s', Idle);
  }

  lemma GoneRest(s: State, i: nat, s': State, k: Id)
    requires Pending(s) && Exclusive(s) && Gone(s, i, s', k)
    ensures Pending(s') && Exclusive(s')
  {
    assert Exclusive(s') by { ExclusiveKept(s, i, s', Idle); }
    PendingKept(s, i, s', Idle);
  }

  ghost predicate Gone(s: State, i: nat, s': State, k: Id) {
    && i < |s.threads| && Held(s.threads[i], k) == 1 && !s.threads[i].Entering?
    && s' == Go(s, i, Idle).(entry := s.entry - {k}, refs := s'.refs, delivered := s'.delivered, freed := s'.freed)
    && ((s'.delivered == s.delivered + [k] && s'.freed == s.freed) ||
        (s'.delivered == s.delivered && s'.freed == s.freed + [k]))
  }

  lemma GoneKeeps(s: State, i: nat, s': State, k: Id)
    requires Inv(s) && Gone(s, i, s', k) && Counted(s')
    ensures Inv(s')
  {
    GoneQueues(s, i, s', k);
    Unshared(s, i, k);
    PrivateLocal(s, i, s', Idle, k);
  }

  /** A step of the completion handler of a queued skb, or its start. */
  lemma HandlerLocal(s: State, i: nat, s': State, q: Queue, k: Id)
    requires Placed(s) && Pending(s) && Local(s) && i < |s.threads| && i < |s'.threads| && Queued(s, (q, k)) == 1
    requires var b := s'.threads[i];
             s' == Go(s, i, b).(entry := s'.entry, flight := s'.flight) && Relies(s', b) && k in s.entry &&
             s'.entry == s.entry[k := Look(s', k)] &&
             (forall p: Id :: Look(s, k).urb == To(p) || Bound(s.threads[i], (k, p)) > 0 ==>
                              Look(s', k).urb == To(p) || Bound(b, (k, p)) > 0) &&
             (forall p: (Id, Id) :: p.0 != k ==> Bound(b, p) >= Bound(s.threads[i], p))
    requires forall j | 0 <= j < |s.threads| && j != i :: Completing(s.threads[j], (q, k)) == 0
    requires forall v | v in s'.flight :: v in s.flight && s'.flight[v] == s.flight[v] && s.flight[v].1 != k
    ensures Local(s')
  {
    var b := s'.threads[i];
    QueuedOnce(s, q, k);
    Shift(s.threads, i, b, Bound);
    forall j | 0 <= j < |s.threads| && j != i && SkbOf(s.threads[j]) == To(k) ensures Relies(s', s.threads[j]) {
      QueuedShared(s, q, k, j);
      assert Relies(s, s.threads[j]);
    }
    LocalKept(s, i, s', b, {k});
  }

  lemma AllocRxQueues(s: State, i: nat, s': State, u: Id)
    requires Placed(s) && Exclusive(s) && Pending(s) && AllocRx(s, i, s', u)
    ensures Placed(s') && Exclusive(s') && Pending(s')
  {
    assert Exclusive(s') by { ExclusiveKept(s, i, s', s'.threads[i]); }
    assert Pending(s') by { PendingKept(s, i, s', s'.threads[i]); }
    SamePlaces(s, i, s', s'.threads[i]);
  }

  lemma AllocRxKeeps(s: State, i: nat, s': State, u: Id)
    requires Inv(s) && AllocRx(s, i, s', u)
    ensures Inv(s')
  {
    AllocRxQueues(s, i, s', u);
    assert Counted(s') by { CountedKept(s, i, s', RxNew(u)); }
    QuietLocal(s, i, s', RxNew(u));
  }

  lemma KillRxQueues(s: State, i: nat, s': State)
    requires Placed(s) && Exclusive(s) && Pending(s) && KillRx(s, i, s')
    ensures Placed(s') && Exclusive(s') && Pending(s')
  {
    assert Exclusive(s') by { ExclusiveKept(s, i, s', s'.threads[i]); }
    assert Pending(s') by { PendingKept(s, i, s', s'.threads[i]); }
    SamePlaces(s, i, s', s'.threads[i]);
  }

  lemma KillRxKeeps(s: State, i: nat, s': State)
    requires Inv(s) && KillRx(s, i, s')
    ensures Inv(s')
  {
    KillRxQueues(s, i, s');
    assert Counted(s') by { CountedKept(s, i, s', Idle); }
    QuietLocal(s, i, s', Idle);
  }

  lemma AllocSkbCounted(s: State, i: nat, s': State, k: Id)
    requires Counted(s) && AllocSkb(s, i, s', k) && k !in s.entry
    ensures Counted(s')
  {
    Entries(s.entry, k, Entry(To(s.threads[i].urb), RxStart));
    CountedKept(s, i, s', s'.threads[i]);
  }

  lemma AllocSkbQueues(s: State, i: nat, s': State, k: Id)
    requires Placed(s) && Exclusive(s) && Pending(s) && AllocSkb(s, i, s', k)
    ensures Placed(s') && Exclusive(s') && Pending(s')
  {
    assert Exclusive(s') by { ExclusiveKept(s, i, s', s'.threads[i]); }
    assert Pending(s') by { PendingKept(s, i, s', s'.threads[i]); }
    NotAllocated(s, k);
    PlacedKept(s, i, s', s'.threads[i]);
  }

  lemma AllocSkbKeeps(s: State, i: nat, s': State, k: Id)
    requires Inv(s) && AllocSkb(s, i, s', k)
    ensures Inv(s')
  {
    AllocSkbQueues(s, i, s', k);
    AllocSkbLocal(s, i, s', k);
    AllocSkbCounted(s, i, s', k);
  }

  lemma AllocSkbLocal(s: State, i: nat, s': State, k: Id)
    requires Placed(s) && Pending(s) && Local(s) && AllocSkb(s, i, s', k)
    ensures k !in s.entry && Local(s')
  {
    Unused(s, i, k);
    PrivateLocal(s, i, s', s'.threads[i], k);
  }

  lemma XmitCounted(s: State, i: nat, s': State, k: Id)
    requires Counted(s) && Xmit(s, i, s', k) && k !in s.entry
    ensures Counted(s')
  {
    Entries(s.entry, k, GARBAGE);
    CountedKept(s, i, s', s'.threads[i]);
  }

  lemma XmitQueues(s: State, i: nat, s': State, k: Id)
    requires Placed(s) && Exclusive(s) && Pending(s) && Xmit(s, i, s', k)
    ensures Placed(s') && Exclusive(s') && Pending(s')
  {
    assert Exclusive(s') by { ExclusiveKept(s, i, s', s'.threads[i]); }
    assert Pending(s') by { PendingKept(s, i, s', s'.threads[i]); }
    NotAllocated(s, k);
    PlacedKept(s, i, s', s'.threads[i]);
  }

  lemma XmitKeeps(s: State, i: nat, s': State, k: Id)
    requires Inv(s) && Xmit(s, i, s', k)
    ensures Inv(s')
  {
    XmitQueues(s, i, s', k);
    XmitLocal(s, i, s', k);
    XmitCounted(s, i, s', k);
  }

  lemma XmitLocal(s: State, i: nat, s': State, k: Id)
    requires Placed(s) && Pending(s) && Local(s) && Xmit(s, i, s', k)
    ensures k !in s.entry && Local(s')
  {
    Unused(s, i, k);
    PrivateLocal(s, i, s', TxNew(k), k);
  }

  lemma XmitUrbCounted(s: State, i: nat, s': State, u: Id)
    requires Counted(s) && XmitUrb(s, i, s', u) && Look(s, s.threads[i].skb).urb == Null
    ensures Counted(s')
  {
    Entries(s.entry, s.threads[i].skb, Entry(To(u), TxStart));
    CountedKept(s, i, s', s'.threads[i]);
  }

  lemma XmitUrbQueues(s: State, i: nat, s': State, u: Id)
    requires Placed(s) && Exclusive(s) && Pending(s) && XmitUrb(s, i, s', u)
    ensures Placed(s') && Exclusive(s') && Pending(s')
  {
    assert Exclusive(s') by { ExclusiveKept(s, i, s', s'.threads[i]); }
    assert Pending(s') by { PendingKept(s, i, s', s'.threads[i]); }
    Allocated(s, i);
    SamePlaces(s, i, s', s'.threads[i]);
  }

  lemma XmitUrbKeeps(s: State, i: nat, s': State, u: Id)
    requires Inv(s) && XmitUrb(s, i, s', u)
    ensures Inv(s')
  {
    XmitUrbQueues(s, i, s', u);
    var k := s.threads[i].skb;
    Unshared(s, i, k);
    XmitUrbCounted(s, i, s', u);
    PrivateLocal(s, i, s', s'.threads[i], k);
  }

  lemma SubmitQueues(s: State, i: nat, s': State)
    requires Placed(s) && Exclusive(s) && Pending(s) && Submit(s, i, s') && s.threads[i].urb !in s.flight
    ensures Placed(s') && Exclusive(s') && Pending(s')
  {
    assert Exclusive(s') by { ExclusiveKept(s, i, s', s'.threads[i]); }
    assert Pending(s') by {
      Flights(s.flight, s.threads[i].urb, (s.threads[i].queue, s.threads[i].skb));
      PendingKept(s, i, s', s'.threads[i]);
    }
    SamePlaces(s, i, s', s'.threads[i]);
  }

  lemma SubmitKeeps(s: State, i: nat, s': State)
    requires Inv(s) && Submit(s, i, s')
    ensures Inv(s')
  {
    NotInFlight(s, i);
    SubmitQueues(s, i, s');
    SubmitCounted(s, i, s');
    SubmitLocal(s, i, s');
  }

  lemma SubmitCounted(s: State, i: nat, s': State)
    requires Counted(s) && Submit(s, i, s')
    ensures Counted(s')
  {
    CountedKept(s, i, s', s'.threads[i]);
  }

  lemma SubmitLocal(s: State, i: nat, s': State)
    requires Local(s) && Submit(s, i, s')
    ensures Local(s')
  {
    LocalKept(s, i, s', s'.threads[i], {});
  }

  lemma EnqueueWaiting(s: State, i: nat, s': State)
    requires Enqueue(s, i, s')
    ensures var a := s.threads[i];
            forall p, x :: Occurs(Waiting(s', p), x) == Occurs(Waiting(s, p), x) + One(p == a.queue && x == a.skb)
  {
  }

  lemma EnqueuePending(s: State, i: nat, s': State)
    requires Pending(s) && Enqueue(s, i, s')
    ensures Pending(s')
  {
    EnqueueWaiting(s, i, s');
    PendingKept(s, i, s', Idle);
  }

  lemma EnqueuePlaces(s: State, i: nat, s': State)
    requires Enqueue(s, i, s')
    ensures forall x :: Occurs(s'.rxq, x) + Occurs(s'.txq, x) ==
                        Occurs(s.rxq, x) + Occurs(s.txq, x) + Held(s.threads[i], x)
    ensures s'.done == s.done && s'.entry == s.entry
    ensures s'.delivered == s.delivered && s'.freed == s.freed && s'.skbs == s.skbs
    ensures s'.threads == s.threads[i := Idle]
  {
    EnqueueWaiting(s, i, s');
    forall x
      ensures Occurs(s'.rxq, x) + Occurs(s'.txq, x) == Occurs(s.rxq, x) + Occurs(s.txq, x) + Held(s.threads[i], x)
    {
      assert Occurs(Waiting(s', Rx), x) + Occurs(Waiting(s', Tx), x) ==
             Occurs(Waiting(s, Rx), x) + Occurs(Waiting(s, Tx), x) + One(x == s.threads[i].skb);
    }
  }

  lemma EnqueuePlaced(s: State, i: nat, s': State)
    requires Placed(s) && Enqueue(s, i, s')
    ensures Placed(s')
  {
    EnqueuePlaces(s, i, s');
    PlacedKept(s, i, s', Idle);
  }

  lemma EnqueueRest(s: State, i: nat, s': State)
    requires Counted(s) && Exclusive(s) && Local(s) && Enqueue(s, i, s')
    ensures Counted(s') && Exclusive(s') && Local(s')
  {
    assert Exclusive(s') by { Holder(s, i, s.threads[i].queue); ExclusiveKept(s, i, s', Idle); }
    assert Counted(s') by { CountedKept(s, i, s', Idle); }
    LocalKept(s, i, s', Idle, {});
  }

  lemma EnqueueKeeps(s: State, i: nat, s': State)
    requires Inv(s) && Enqueue(s, i, s')
    ensures Inv(s')
  {
    EnqueuePending(s, i, s');
    EnqueuePlaced(s, i, s');
    EnqueueRest(s, i, s');
  }

  lemma ResubmitQueues(s: State, i: nat, s': State)
    requires Placed(s) && Exclusive(s) && Pending(s) && Resubmit(s, i, s')
    ensures Placed(s') && Exclusive(s') && Pending(s')
  {
    assert Exclusive(s') by { ExclusiveKept(s, i, s', s'.threads[i]); }
    assert Pending(s') by { PendingKept(s, i, s', s'.threads[i]); }
    SamePlaces(s, i, s', s'.threads[i]);
  }

  lemma ResubmitKeeps(s: State, i: nat, s': State)
    requires Inv(s) && Resubmit(s, i, s')
    ensures Inv(s')
  {
    ResubmitQueues(s, i, s');
    assert Counted(s') by { CountedKept(s, i, s', s'.threads[i]); }
    QuietLocal(s, i, s', s'.threads[i]);
  }

  lemma FreeUrbCounted(s: State, i: nat, s': State)
    requires Counted(s) && FreeUrb(s, i, s')
    ensures Counted(s')
  {
    CountedKept(s, i, s', s'.threads[i]);
  }

  lemma FreeUrbQueues(s: State, i: nat, s': State)
    requires Placed(s) && Exclusive(s) && Pending(s) && FreeUrb(s, i, s')
    ensures Placed(s') && Exclusive(s') && Pending(s')
  {
    assert Exclusive(s') by { ExclusiveKept(s, i, s', s'.threads[i]); }
    assert Pending(s') by { PendingKept(s, i, s', s'.threads[i]); }
    SamePlaces(s, i, s', s'.threads[i]);
  }

  lemma FreeUrbKeeps(s: State, i: nat, s': State)
    requires Inv(s) && FreeUrb(s, i, s')
    ensures Inv(s')
  {
    FreeUrbQueues(s, i, s');
    FreeUrbCounted(s, i, s');
    QuietLocal(s, i, s', Idle);
  }

  lemma BorrowQueues(s: State, i: nat, s': State)
    requires Placed(s) && Exclusive(s) && Pending(s) && Borrow(s, i, s')
    ensures Placed(s') && Exclusive(s') && Pending(s')
  {
    assert Exclusive(s') by { ExclusiveKept(s, i, s', s'.threads[i]); }
    assert Pending(s') by { PendingKept(s, i, s', s'.threads[i]); }
    SamePlaces(s, i, s', s'.threads[i]);
  }

  lemma BorrowKeeps(s: State, i: nat, s': State)
    requires Inv(s) && Borrow(s, i, s')
    ensures Inv(s')
  {
    BorrowQueues(s, i, s');
    assert Counted(s') by { CountedKept(s, i, s', s'.threads[i]); }
    QuietLocal(s, i, s', s'.threads[i]);
  }

  lemma GetUrbCounted(s: State, i: nat, s': State)
    requires Counted(s) && GetUrb(s, i, s')
    ensures Counted(s')
  {
    CountedKept(s, i, s', s'.threads[i]);
  }

  lemma GetUrbQueues(s: State, i: nat, s': State)
    requires Placed(s) && Exclusive(s) && Pending(s) && GetUrb(s, i, s')
    ensures Placed(s') && Exclusive(s') && Pending(s')
  {
    assert Exclusive(s') by { Holder(s, i, s.threads[i].queue); ExclusiveKept(s, i, s', s'.threads[i]); }
    assert Pending(s') by { PendingKept(s, i, s', s'.threads[i]); }
    SamePlaces(s, i, s', s'.threads[i]);
  }

  lemma GetUrbKeeps(s: State, i: nat, s': State)
    requires Inv(s) && GetUrb(s, i, s')
    ensures Inv(s')
  {
    GetUrbQueues(s, i, s');
    GetUrbCounted(s, i, s');
    QuietLocal(s, i, s', s'.threads[i]);
  }

  lemma PutUrbCounted(s: State, i: nat, s': State)
    requires Counted(s) && PutUrb(s, i, s')
    ensures Counted(s')
  {
    CountedKept(s, i, s', s'.threads[i]);
  }

  lemma PutUrbQueues(s: State, i: nat, s': State)
    requires Placed(s) && Exclusive(s) && Pending(s) && PutUrb(s, i, s')
    ensures Placed(s') && Exclusive(s') && Pending(s')
  {
    assert Exclusive(s') by { ExclusiveKept(s, i, s', s'.threads[i]); }
    assert Pending(s') by { PendingKept(s, i, s', s'.threads[i]); }
    SamePlaces(s, i, s', s'.threads[i]);
  }

  lemma PutUrbKeeps(s: State, i: nat, s': State)
    requires Inv(s) && PutUrb(s, i, s')
    ensures Inv(s')
  {
    PutUrbQueues(s, i, s');
    PutUrbCounted(s, i, s');
    QuietLocal(s, i, s', Idle);
  }

  lemma DequeueQueues(s: State, i: nat, s': State)
    requires Placed(s) && Exclusive(s) && Pending(s) && Dequeue(s, i, s')
    ensures Placed(s') && Exclusive(s') && Pending(s')
  {
    assert Exclusive(s') by { ExclusiveKept(s, i, s', s'.threads[i]); }
    assert Pending(s') by { PendingKept(s, i, s', s'.threads[i]); }
    assert s.done == [s.done[0]] + s.done[1..];
    PlacedKept(s, i, s', s'.threads[i]);
  }

  lemma DequeueKeeps(s: State, i: nat, s': State)
    requires Inv(s) && Dequeue(s, i, s')
    ensures Inv(s')
  {
    DequeueQueues(s, i, s');
    assert Counted(s') by { CountedKept(s, i, s', s'.threads[i]); }
    assert Local(s') by { assert s.done[0] in s.done; LocalKept(s, i, s', s'.threads[i], {}); }
  }

  lemma HandleRxCounted(s: State, i: nat, s': State)
    requires Counted(s) && HandleRx(s, i, s')
    ensures Counted(s')
  {
    Entries(s.entry, s.threads[i].skb, s'.entry[s.threads[i].skb]);
    CountedKept(s, i, s', s'.threads[i]);
  }

  lemma HandleRxQueues(s: State, i: nat, s': State)
    requires Placed(s) && Exclusive(s) && Pending(s) && HandleRx(s, i, s')
    ensures Placed(s') && Exclusive(s') && Pending(s')
  {
    assert Exclusive(s') by { ExclusiveKept(s, i, s', s'.threads[i]); }
    assert Pending(s') by { PendingKept(s, i, s', s'.threads[i]); }
    Allocated(s, i);
    SamePlaces(s, i, s', s'.threads[i]);
  }

  lemma HandleRxKeeps(s: State, i: nat, s': State)
    requires Inv(s) && HandleRx(s, i, s')
    ensures Inv(s')
  {
    HandleRxQueues(s, i, s');
    HandleRxCounted(s, i, s');
    HandleRxLocal(s, i, s');
  }

  lemma HandleRxLocal(s: State, i: nat, s': State)
    requires Placed(s) && Pending(s) && Local(s) && HandleRx(s, i, s')
    ensures Local(s')
  {
    var k := s.threads[i].skb;
    Unshared(s, i, k);
    PrivateLocal(s, i, s', Processing(k), k);
  }

  lemma RequeueCounted(s: State, i: nat, s': State)
    requires Counted(s) && Requeue(s, i, s')
    ensures Counted(s')
  {
    CountedKept(s, i, s', s'.threads[i]);
  }

  lemma RequeueQueues(s: State, i: nat, s': State)
    requires Placed(s) && Exclusive(s) && Pending(s) && Requeue(s, i, s')
    ensures Placed(s') && Exclusive(s') && Pending(s')
  {
    assert Exclusive(s') by { ExclusiveKept(s, i, s', s'.threads[i]); }
    assert Pending(s') by { PendingKept(s, i, s', s'.threads[i]); }
    PlacedKept(s, i, s', s'.threads[i]);
  }

  lemma RequeueKeeps(s: State, i: nat, s': State)
    requires Inv(s) && Requeue(s, i, s')
    ensures Inv(s')
  {
    RequeueQueues(s, i, s');
    var k := s.threads[i].skb;
    Unshared(s, i, k);
    RequeueCounted(s, i, s');
    PrivateLocal(s, i, s', Idle, k);
  }

  lemma XmitDropCounted(s: State, i: nat, s': State)
    requires Counted(s) && XmitDrop(s, i, s') && s.threads[i].skb in s.entry && Relies(s, s.threads[i])
    ensures Counted(s')
  {
    Entries(s.entry, s.threads[i].skb, GARBAGE);
    CountedKept(s, i, s', Idle);
  }

  lemma XmitDropKeeps(s: State, i: nat, s': State)
    requires Inv(s) && XmitDrop(s, i, s')
    ensures Inv(s')
  {
    Unshared(s, i, s.threads[i].skb);
    XmitDropCounted(s, i, s');
    GoneKeeps(s, i, s', s.threads[i].skb);
  }

  lemma RejectCounted(s: State, i: nat, s': State)
    requires Counted(s) && Reject(s, i, s') && s.threads[i].skb in s.entry && Relies(s, s.threads[i])
    ensures Counted(s')
  {
    Entries(s.entry, s.threads[i].skb, GARBAGE);
    CountedKept(s, i, s', Idle);
  }

  lemma RejectKeeps(s: State, i: nat, s': State)
    requires Inv(s) && Reject(s, i, s')
    ensures Inv(s')
  {
    Unshared(s, i, s.threads[i].skb);
    RejectCounted(s, i, s');
    GoneKeeps(s, i, s', s.threads[i].skb);
  }

  lemma HandleFreeCounted(s: State, i: nat, s': State)
    requires Counted(s) && HandleFree(s, i, s') && s.threads[i].skb in s.entry && Relies(s, s.threads[i])
    ensures Counted(s')
  {
    Entries(s.entry, s.threads[i].skb, GARBAGE);
    CountedKept(s, i, s', Idle);
  }

  lemma HandleFreeKeeps(s: State, i: nat, s': State)
    requires Inv(s) && HandleFree(s, i, s')
    ensures Inv(s')
  {
    Unshared(s, i, s.threads[i].skb);
    HandleFreeCounted(s, i, s');
    GoneKeeps(s, i, s', s.threads[i].skb);
  }

  lemma DeliverCounted(s: State, i: nat, s': State)
    requires Counted(s) && Deliver(s, i, s') && s.threads[i].skb in s.entry && Relies(s, s.threads[i])
    ensures Counted(s')
  {
    Entries(s.entry, s.threads[i].skb, GARBAGE);
    CountedKept(s, i, s', Idle);
  }

  lemma DeliverKeeps(s: State, i: nat, s': State)
    requires Inv(s) && Deliver(s, i, s')
    ensures Inv(s')
  {
    Unshared(s, i, s.threads[i].skb);
    DeliverCounted(s, i, s');
    GoneKeeps(s, i, s', s.threads[i].skb);
  }

  lemma CompleteRxCounted(s: State, i: nat, s': State, u: Id)
    requires Counted(s) && CompleteRx(s, i, s', u) && s.flight[u].1 in s.entry && Look(s, s.flight[u].1).urb == To(u)
    ensures Counted(s')
  {
    Entries(s.entry, s.flight[u].1, Look(s', s.flight[u].1));
    CountedKept(s, i, s', s'.threads[i]);
  }

  lemma CompleteRxQueues(s: State, i: nat, s': State, u: Id)
    requires Placed(s) && Exclusive(s) && Pending(s) && CompleteRx(s, i, s', u)
    ensures s.flight[u].1 in s.entry && Placed(s') && Exclusive(s') && Pending(s')
  {
    assert Exclusive(s') by { ExclusiveKept(s, i, s', s'.threads[i]); }
    assert Pending(s') by { Landing(s.flight, u);  PendingKept(s, i, s', s'.threads[i]); }
    assert s.flight[u].1 in s.entry by { InFlight(s, u); }
    SamePlaces(s, i, s', s'.threads[i]);
  }

  lemma CompleteRxLocal(s: State, i: nat, s': State, u: Id)
    requires Placed(s) && Pending(s) && Local(s) && CompleteRx(s, i, s', u)
    ensures Local(s')
  {
    InFlight(s, u);
    HandlerLocal(s, i, s', Rx, s.flight[u].1);
  }

  lemma CompleteRxKeeps(s: State, i: nat, s': State, u: Id)
    requires Inv(s) && CompleteRx(s, i, s', u)
    ensures Inv(s')
  {
    CompleteRxQueues(s, i, s', u);
    CompleteRxCounted(s, i, s', u);
    CompleteRxLocal(s, i, s', u);
  }

  lemma CompleteTxCounted(s: State, i: nat, s': State, u: Id)
    requires Counted(s) && CompleteTx(s, i, s', u) && s.flight[u].1 in s.entry
    ensures Counted(s')
  {
    Entries(s.entry, s.flight[u].1, Look(s', s.flight[u].1));
    CountedKept(s, i, s', s'.threads[i]);
  }

  lemma CompleteTxQueues(s: State, i: nat, s': State, u: Id)
    requires Placed(s) && Exclusive(s) && Pending(s) && CompleteTx(s, i, s', u)
    ensures s.flight[u].1 in s.entry && Placed(s') && Exclusive(s') && Pending(s')
  {
    assert Exclusive(s') by { ExclusiveKept(s, i, s', s'.threads[i]); }
    assert Pending(s') by { Landing(s.flight, u);  PendingKept(s, i, s', s'.threads[i]); }
    assert s.flight[u].1 in s.entry by { InFlight(s, u); }
    SamePlaces(s, i, s', s'.threads[i]);
  }

  lemma CompleteTxLocal(s: State, i: nat, s': State, u: Id)
    requires Placed(s) && Pending(s) && Local(s) && CompleteTx(s, i, s', u)
    ensures Local(s')
  {
    InFlight(s, u);
    HandlerLocal(s, i, s', Tx, s.flight[u].1);
  }

  lemma CompleteTxKeeps(s: State, i: nat, s': State, u: Id)
    requires Inv(s) && CompleteTx(s, i, s', u)
    ensures Inv(s')
  {
    CompleteTxQueues(s, i, s', u);
    CompleteTxCounted(s, i, s', u);
    CompleteTxLocal(s, i, s', u);
  }

  lemma JudgeCounted(s: State, i: nat, s': State, how: Judgement)
    requires Counted(s) && Judge(s, i, s', how) && s.threads[i].skb in s.entry && Relies(s, s.threads[i])
    ensures Counted(s')
  {
    Entries(s.entry, s.threads[i].skb, Look(s', s.threads[i].skb));
    CountedKept(s, i, s', s'.threads[i]);
  }

  lemma JudgeQueues(s: State, i: nat, s': State, how: Judgement)
    requires Placed(s) && Exclusive(s) && Pending(s) && Judge(s, i, s', how)
    ensures s.threads[i].skb in s.entry && Placed(s') && Exclusive(s') && Pending(s')
  {
    assert Exclusive(s') by { ExclusiveKept(s, i, s', s'.threads[i]); }
    assert Pending(s') by { PendingKept(s, i, s', s'.threads[i]); }
    assert s.threads[i].skb in s.entry by { Judging(s, i, Rx, s.threads[i].skb); }
    SamePlaces(s, i, s', s'.threads[i]);
  }

  lemma JudgeLocal(s: State, i: nat, s': State, how: Judgement)
    requires Placed(s) && Pending(s) && Local(s) && Judge(s, i, s', how)
    ensures Local(s')
  {
    Judging(s, i, Rx, s.threads[i].skb);
    HandlerLocal(s, i, s', Rx, s.threads[i].skb);
  }

  lemma JudgeKeeps(s: State, i: nat, s': State, how: Judgement)
    requires Inv(s) && Judge(s, i, s', how)
    ensures Inv(s')
  {
    JudgeQueues(s, i, s', how);
    JudgeCounted(s, i, s', how);
    JudgeLocal(s, i, s', how);
  }

  /** defer_bh, called by an activity that becomes b. */
  ghost predicate Defers(s: State, i: nat, s': State, q: Queue, k: Id, verdict: Phase) {
    && i < |s.threads| && i < |s'.threads| && Completing(s.threads[i], (q, k)) == 1
    && q !in s.locked && k in Waiting(s, q) && k in s.entry
    && s' == Go(Deferred(s, q, k, verdict), i, s'.threads[i]) && SkbOf(s'.threads[i]) == Null
    && forall u :: Kept(s'.threads[i], u) == Kept(s.threads[i], u) && Extra(s'.threads[i], u) == 0
  }

  lemma DeferCounted(s: State, i: nat, s': State, q: Queue, k: Id, verdict: Phase)
    requires Counted(s) && Exclusive(s) && Defers(s, i, s', q, k, verdict)
    ensures Counted(s') && Exclusive(s')
  {
    assert Exclusive(s') by { ExclusiveKept(s, i, s', s'.threads[i]); }
    Entries(s.entry, k, Look(s', k));
    CountedKept(s, i, s', s'.threads[i]);
  }

  lemma DeferWaiting(s: State, i: nat, s': State, q: Queue, k: Id, verdict: Phase)
    requires Defers(s, i, s', q, k, verdict)
    ensures forall p, x :: Occurs(Waiting(s', p), x) == Occurs(Waiting(s, p), x) - One(p == q && x == k)
    ensures forall p, x | x != k && x in Waiting(s, p) :: x in Waiting(s', p)
  {
    forall p, x ensures Occurs(Waiting(s', p), x) == Occurs(Waiting(s, p), x) - One(p == q && x == k) {
      if p == q { RemoveOne(Waiting(s, q), k, x); }
    }
    forall p, x | x != k && x in Waiting(s, p) ensures x in Waiting(s', p) {
      assert Occurs(Waiting(s', p), x) == Occurs(Waiting(s, p), x);
    }
  }

  lemma DeferPending(s: State, i: nat, s': State, q: Queue, k: Id, verdict: Phase)
    requires Pending(s) && Defers(s, i, s', q, k, verdict)
    ensures Pending(s')
  {
    DeferWaiting(s, i, s', q, k, verdict);
    PendingKept(s, i, s', s'.threads[i]);
  }

  lemma DeferPlaces(s: State, i: nat, s': State, q: Queue, k: Id, verdict: Phase)
    requires Defers(s, i, s', q, k, verdict)
    ensures forall x :: Occurs(s'.rxq, x) + Occurs(s'.txq, x) + Occurs(s'.done, x) ==
                        Occurs(s.rxq, x) + Occurs(s.txq, x) + Occurs(s.done, x)
    ensures s'.entry.Keys == s.entry.Keys && s'.delivered == s.delivered && s'.freed == s.freed && s'.skbs == s.skbs
    ensures s'.threads == s.threads[i := s'.threads[i]]
  {
    DeferWaiting(s, i, s', q, k, verdict);
    forall x ensures Occurs(s'.rxq, x) + Occurs(s'.txq, x) == Occurs(s.rxq, x) + Occurs(s.txq, x) - One(x == k) {
      assert Occurs(Waiting(s', Rx), x) + Occurs(Waiting(s', Tx), x) ==
             Occurs(Waiting(s, Rx), x) + Occurs(Waiting(s, Tx), x) - One(x == k);
    }
  }

  /** Nobody else relies on the skb, unlink_urbs being kept out by the lock. */
  lemma DeferAlone(s: State, i: nat, s': State, q: Queue, k: Id, verdict: Phase)
    requires Placed(s) && Pending(s) && Exclusive(s) && Local(s) && Defers(s, i, s', q, k, verdict)
    ensures forall j | 0 <= j < |s.threads| && j != i :: SkbOf(s.threads[j]) != To(k)
    ensures k !in s.done && forall v | v in s.flight :: s.flight[v].1 != k
  {
    Judging(s, i, q, k);
    QueuedOnce(s, q, k);
    forall j | 0 <= j < |s.threads| && j != i ensures SkbOf(s.threads[j]) != To(k) {
      if SkbOf(s.threads[j]) == To(k) {
        QueuedShared(s, q, k, j);
        OverAt(s.threads, Holding, q, j);
      }
    }
  }

  lemma DeferLocal(s: State, i: nat, s': State, k: Id)
    requires Local(s) && i < |s.threads| && i < |s'.threads| && s'.threads == s.threads[i := s'.threads[i]]
    requires SkbOf(s'.threads[i]) == Null
    requires SkbOf(s.threads[i]) == To(k)
    requires forall j | 0 <= j < |s.threads| && j != i :: SkbOf(s.threads[j]) != To(k)
    requires k !in s.done && forall v | v in s.flight :: s.flight[v].1 != k
    requires s'.flight == s.flight && s'.done == s.done + [k] && Finished(s', k)
    requires forall x | x != k :: Look(s', x) == Look(s, x)
    requires forall p, x | x != k && x in Waiting(s, p) :: x in Waiting(s', p)
    ensures Local(s')
  {
    LocalKept(s, i, s', s'.threads[i], {k});
  }

  lemma DeferRelies(s: State, i: nat, s': State, q: Queue, k: Id, verdict: Phase)
    requires Placed(s) && Pending(s) && Exclusive(s) && Local(s) && Defers(s, i, s', q, k, verdict)
    requires verdict in {TxDone, RxDone, RxCleanup} && (verdict == RxDone ==> s.entry[k].urb == Null)
    ensures Local(s')
  {
    DeferAlone(s, i, s', q, k, verdict);
    DeferWaiting(s, i, s', q, k, verdict);
    DeferLocal(s, i, s', k);
  }

  lemma DeferPlaced(s: State, i: nat, s': State, q: Queue, k: Id, verdict: Phase)
    requires Placed(s) && Defers(s, i, s', q, k, verdict)
    ensures Placed(s')
  {
    DeferPlaces(s, i, s', q, k, verdict);
    SamePlaces(s, i, s', s'.threads[i]);
  }

  lemma DeferRxKeeps(s: State, i: nat, s': State)
    requires Inv(s) && DeferRx(s, i, s')
    ensures Inv(s')
  {
    var a := s.threads[i];
    OnQueue(s, i, Rx, a.skb);
    assert Relies(s, a);
    DeferCounted(s, i, s', Rx, a.skb, a.verdict);
    DeferPending(s, i, s', Rx, a.skb, a.verdict);
    DeferPlaced(s, i, s', Rx, a.skb, a.verdict);
    DeferRelies(s, i, s', Rx, a.skb, a.verdict);
  }

  lemma DeferTxKeeps(s: State, i: nat, s': State)
    requires Inv(s) && DeferTx(s, i, s')
    ensures Inv(s')
  {
    var a := s.threads[i];
    OnQueue(s, i, Tx, a.skb);
    assert Relies(s, a);
    DeferCounted(s, i, s', Tx, a.skb, TxDone);
    DeferPending(s, i, s', Tx, a.skb, TxDone);
    DeferPlaced(s, i, s', Tx, a.skb, TxDone);
    DeferRelies(s, i, s', Tx, a.skb, TxDone);
  }

  lemma MarkQueues(s: State, i: nat, s': State, q: Queue, n: nat)
    requires Placed(s) && Pending(s) && Exclusive(s) && Mark(s, i, s', q, n)
    ensures Placed(s') && Pending(s') && Exclusive(s') && Waiting(s, q)[n] in s.entry
  {
    var k, b := Waiting(s, q)[n], s'.threads[i];
    assert k in s.entry by { assert k in Waiting(s, q) && Places(s, k) > 0; }
    assert Exclusive(s') by { ExclusiveKept(s, i, s', b); }
    assert Pending(s') by { PendingKept(s, i, s', b); }
    SamePlaces(s, i, s', b);
  }

  lemma MarkCounted(s: State, i: nat, s': State, q: Queue, n: nat)
    requires Counted(s) && Mark(s, i, s', q, n) && Waiting(s, q)[n] in s.entry
    ensures Counted(s')
  {
    Entries(s.entry, Waiting(s, q)[n], Look(s', Waiting(s, q)[n]));
    CountedKept(s, i, s', s'.threads[i]);
  }

  lemma MarkKeeps(s: State, i: nat, s': State, q: Queue, n: nat)
    requires Inv(s) && Mark(s, i, s', q, n)
    ensures Inv(s')
  {
    MarkQueues(s, i, s', q, n);
    MarkCounted(s, i, s', q, n);
    MarkLocal(s, i, s', q, n);
  }

  lemma MarkLocal(s: State, i: nat, s': State, q: Queue, n: nat)
    requires Placed(s) && Pending(s) && Local(s) && Mark(s, i, s', q, n) && Waiting(s, q)[n] in s.entry
    ensures Local(s')
  {
    var k, b := Waiting(s, q)[n], s'.threads[i];
    assert k in Waiting(s, q);
    QueuedOnce(s, q, k);
    forall j | 0 <= j < |s.threads| && j != i && SkbOf(s.threads[j]) == To(k) ensures Relies(s', s.threads[j]) {
      MarkRelies(s, i, s', q, n, j);
    }
    LocalKept(s, i, s', b, {k});
  }

  /** The mark matters to no other activity that has the skb. */
  lemma MarkRelies(s: State, i: nat, s': State, q: Queue, n: nat, j: nat)
    requires Placed(s) && Pending(s) && Local(s) && Mark(s, i, s', q, n) && Waiting(s, q)[n] in s.entry
    requires j < |s.threads| && j != i && SkbOf(s.threads[j]) == To(Waiting(s, q)[n])
    ensures Relies(s', s.threads[j])
  {
    Shift(s.threads, i, s'.threads[i], Bound);
    assert Waiting(s, q)[n] in Waiting(s, q);
    QueuedShared(s, q, Waiting(s, q)[n], j);
    assert Relies(s, s.threads[j]);
  }

  lemma SpawnKeeps(s: State)
    requires Inv(s)
    ensures Inv(s.(threads := s.threads + [Idle]))
  {
    var s' := s.(threads := s.threads + [Idle]);
    assert Placed(s') by { SpawnPlaced(s, s'); }
    assert Counted(s') by { SpawnCounted(s, s'); }
    assert Pending(s') by { SpawnPending(s, s'); }
    forall q ensures Over(s'.threads, Holding, q) == Over(s.threads, Holding, q) {
      OverAdd(s.threads, Holding, q, Idle);
    }
    forall x ensures Over(s'.threads, Bound, x) == Over(s.threads, Bound, x) { OverAdd(s.threads, Bound, x, Idle); }
    forall j | 0 <= j < |s'.threads| ensures Relies(s', s'.threads[j]) {
      if j < |s.threads| { assert Relies(s, s.threads[j]); }
    }
  }

  lemma SpawnPlaced(s: State, s': State)
    requires Placed(s) && s' == s.(threads := s.threads + [Idle])
    ensures Placed(s')
  {
    forall k: Id ensures Places(s', k) == Places(s, k) { OverAdd(s.threads, Held, k, Idle); }
  }

  lemma SpawnCounted(s: State, s': State)
    requires Counted(s) && s' == s.(threads := s.threads + [Idle])
    ensures Counted(s')
  {
    forall u: Id ensures Owners(s', u) == Owners(s, u) && Over(s'.threads, Extra, u) == Over(s.threads, Extra, u) {
      OverAdd(s.threads, Kept, u, Idle);
      OverAdd(s.threads, Extra, u, Idle);
    }
  }

  lemma SpawnPending(s: State, s': State)
    requires Pending(s) && s' == s.(threads := s.threads + [Idle])
    ensures Pending(s')
  {
    forall x
      ensures Queued(s', x) == Queued(s, x) && Over(s'.threads, Completing, x) == Over(s.threads, Completing, x)
    {
      OverAdd(s.threads, Completing, x, Idle);
      OverAdd(s.threads, Joining, x, Idle);
    }
  }

  /** An skb the bottom half has taken is in a state it knows. */
  lemma NeverBogus(s: State, i: nat, s': State)
    requires Inv(s)
    ensures !HandleBogus(s, i, s')
  {
    assert i < |s.threads| ==> Relies(s, s.threads[i]);
  }

  lemma StepKeeps(s: State, i: nat, s': State, t: Step)
    requires Inv(s) && Steps(s, i, s', t)
    ensures Inv(s')
  {
    match t
    case SSpawn => SpawnKeeps(s);
    case SAllocRx(u) => AllocRxKeeps(s, i, s', u);
    case SKillRx => KillRxKeeps(s, i, s');
    case SAllocSkb(k) => AllocSkbKeeps(s, i, s', k);
    case SXmit(k) => XmitKeeps(s, i, s', k);
    case SXmitDrop => XmitDropKeeps(s, i, s');
    case SXmitUrb(u) => XmitUrbKeeps(s, i, s', u);
    case SSubmit => SubmitKeeps(s, i, s');
    case SReject => RejectKeeps(s, i, s');
    case SEnqueue => EnqueueKeeps(s, i, s');
    case SCompleteRx(u) => CompleteRxKeeps(s, i, s', u);
    case SJudge(how) => JudgeKeeps(s, i, s', how);
    case SCompleteTx(u) => CompleteTxKeeps(s, i, s', u);
    case SDeferRx => DeferRxKeeps(s, i, s');
    case SDeferTx => DeferTxKeeps(s, i, s');
    case SResubmit => ResubmitKeeps(s, i, s');
    case SFreeUrb => FreeUrbKeeps(s, i, s');
    case SMark(q, n) => MarkKeeps(s, i, s', q, n);
    case SBorrow => BorrowKeeps(s, i, s');
    case SGetUrb => GetUrbKeeps(s, i, s');
    case SPutUrb => PutUrbKeeps(s, i, s');
    case SDequeue => DequeueKeeps(s, i, s');
    case SHandleRx => HandleRxKeeps(s, i, s');
    case SHandleFree => HandleFreeKeeps(s, i, s');
    case SHandleBogus => NeverBogus(s, i, s');
    case SDeliver => DeliverKeeps(s, i, s');
    case SRequeue => RequeueKeeps(s, i, s');
  }

  // ----- whole runs -----

  lemma {:induction false} RunKeeps(run: seq<State>, steps: seq<(nat, Step)>, n: nat)
    requires IsRun(run, steps) && n < |run|
    ensures Inv(run[n])
  {
    if n > 0 {
      RunKeeps(run, steps, n - 1);
      assert StepAt(run, steps, n - 1);
      NextKeeps(run, steps, n - 1);
    }
  }

  lemma NextKeeps(run: seq<State>, steps: seq<(nat, Step)>, n: nat)
    requires n < |steps| < |run| && StepAt(run, steps, n) && Inv(run[n])
    ensures Inv(run[n + 1])
  {
    StepKeeps(run[n], steps[n].0, run[n + 1], steps[n].1);
  }

  /** One step of a run, which starts in a state with the invariant. */
  lemma RunStep(run: seq<State>, steps: seq<(nat, Step)>, n: nat)
    requires IsRun(run, steps) && n < |steps|
    ensures Inv(run[n]) && Steps(run[n], steps[n].0, run[n + 1], steps[n].1)
  {
    RunKeeps(run, steps, n);
    assert StepAt(run, steps, n);
  }

  /** In every reachable state each skb is in exactly one place. */
  lemma OnePlace(run: seq<State>, steps: seq<(nat, Step)>, n: nat, k: Id)
    requires IsRun(run, steps) && n < |run| && k in run[n].skbs
    ensures var s := run[n];
            Occurs(s.rxq, k) + Occurs(s.txq, k) + Occurs(s.done, k) + Over(s.threads, Held, k)
            + Occurs(s.delivered, k) + Occurs(s.freed, k) == 1
  {
    RunKeeps(run, steps, n);
  }

  /** In every reachable state everything on done is in a state the bottom half knows. */
  lemma DoneKnown(run: seq<State>, steps: seq<(nat, Step)>, n: nat)
    requires IsRun(run, steps) && n < |run|
    ensures forall k | k in run[n].done :: Look(run[n], k).phase in {TxDone, RxDone, RxCleanup}
  {
    RunKeeps(run, steps, n);
  }

  /** The URB an activity points to. */
  function UrbAt(a: Activity): Pointer {
    match a
    case RxNew(u) => To(u)
    case Ready(_, _, u) => To(u)
    case RxStarted(_, u) => To(u)
    case RxJudged(_, p, _) => p
    case RxTail(u, _) => To(u)
    case Borrowed(_, _, p) => p
    case Unlinking(p) => p
    case _ => Null
  }

  ghost predicate LiveSkb(s: State, p: Pointer) { p.To? ==> p.id in s.entry }

  ghost predicate LiveUrb(s: State, p: Pointer) { p.To? ==> Refs(s, p.id) > 0 }

  /** Nothing points to freed memory: no activity, no queue, no control block, and not
      the host controller. */
  ghost predicate NoDangling(s: State) {
    && (forall j :: 0 <= j < |s.threads| ==> LiveSkb(s, SkbOf(s.threads[j])) && LiveUrb(s, UrbAt(s.threads[j])))
    && (forall k :: k in s.rxq || k in s.txq || k in s.done ==> k in s.entry)
    && (forall k :: k in s.entry ==> LiveUrb(s, s.entry[k].urb))
    && (forall u :: u in s.flight ==> Refs(s, u) > 0 && s.flight[u].1 in s.entry)
  }

  lemma EntryLive(s: State, k: Id)
    requires Counted(s) && k in s.entry
    ensures LiveUrb(s, s.entry[k].urb)
  {
    if s.entry[k].urb.To? {
      TotalTake(s.entry, UrbOf, s.entry[k].urb.id, k);
      assert Owners(s, s.entry[k].urb.id) > 0;
    }
  }

  lemma QueueLive(s: State, k: Id)
    requires Placed(s) && (k in s.rxq || k in s.txq || k in s.done)
    ensures k in s.entry
  {
    assert Places(s, k) > 0;
  }

  lemma ActivitySkb(s: State, j: nat)
    requires Inv(s) && j < |s.threads|
    ensures LiveSkb(s, SkbOf(s.threads[j]))
  {
    var a := s.threads[j];
    assert Relies(s, a);
    if SkbOf(a).To? {
      if a.Marked? || a.Borrowed? {
        QueueLive(s, a.skb);
      } else if a.RxStarted? || a.RxJudged? || a.TxJudged? {
        Judging(s, j, if a.TxJudged? then Tx else Rx, a.skb);
      } else {
        OverAt(s.threads, Held, a.skb, j);
        assert Places(s, a.skb) > 0;
      }
    }
  }

  lemma {:induction false} BoundKept(ts: seq<Activity>, x: (Id, Id))
    ensures Over(ts, Bound, x) <= Over(ts, Kept, x.1)
  {
    if ts != [] { BoundKept(ts[..|ts| - 1], x); }
  }

  lemma ActivityUrb(s: State, j: nat)
    requires Inv(s) && j < |s.threads|
    ensures LiveUrb(s, UrbAt(s.threads[j]))
  {
    var a := s.threads[j];
    ActivitySkb(s, j);
    assert Relies(s, a);
    if UrbAt(a).To? {
      var u := UrbAt(a).id;
      OverAt(s.threads, Kept, u, j);
      OverAt(s.threads, Extra, u, j);
      assert Refs(s, u) == Owners(s, u) + Over(s.threads, Extra, u);
      if a.Ready? || a.Borrowed? {
        EntryLive(s, a.skb);
        BoundKept(s.threads, (a.skb, u));
      }
    }
  }

  /** No use after free, in any reachable state. */
  lemma NothingDangles(run: seq<State>, steps: seq<(nat, Step)>, n: nat)
    requires IsRun(run, steps) && n < |run|
    ensures NoDangling(run[n])
  {
    var s := run[n];
    RunKeeps(run, steps, n);
    forall j | 0 <= j < |s.threads| ensures LiveSkb(s, SkbOf(s.threads[j])) && LiveUrb(s, UrbAt(s.threads[j])) {
      ActivitySkb(s, j);
      ActivityUrb(s, j);
    }
    forall k | k in s.rxq || k in s.txq || k in s.done ensures k in s.entry { QueueLive(s, k); }
    forall k | k in s.entry ensures LiveUrb(s, s.entry[k].urb) { EntryLive(s, k); }
    forall u | u in s.flight ensures Refs(s, u) > 0 && s.flight[u].1 in s.entry {
      InFlight(s, u);
      EntryLive(s, s.flight[u].1);
    }
  }

  /** defer_bh finds the skb on its queue, and no URB is submitted twice at a time. */
  lemma QueuesIntact(run: seq<State>, steps: seq<(nat, Step)>, n: nat)
    requires IsRun(run, steps) && n < |steps|
    ensures var s, i, t := run[n], steps[n].0, steps[n].1;
            && !t.SHandleBogus?
            && (t.SDeferRx? ==> At(s, i).RxJudged? && At(s, i).skb in s.rxq)
            && (t.SDeferTx? ==> At(s, i).TxJudged? && At(s, i).skb in s.txq)
            && (t.SSubmit? ==> At(s, i).Ready? && At(s, i).urb !in s.flight)
  {
    var s, i, t := run[n], steps[n].0, steps[n].1;
    RunStep(run, steps, n);
    if t.SHandleBogus? { NeverBogus(s, i, run[n + 1]); }
    if t.SDeferRx? { OnQueue(s, i, Rx, s.threads[i].skb); }
    if t.SDeferTx? { OnQueue(s, i, Tx, s.threads[i].skb); }
    if t.SSubmit? { NotInFlight(s, i); }
  }

  /** A freed URB stays freed: with NothingDangles, it is freed once. */
  lemma FreedForGood(s: State, i: nat, s': State, t: Step, u: Id)
    requires Inv(s) && Steps(s, i, s', t) && Freed(s, u)
    ensures Freed(s', u)
  {
    if i < |s.threads| {
      ActivityUrb(s, i);
      ActivitySkb(s, i);
      if t.SHandleFree? { EntryLive(s, s.threads[i].skb); }
      OneCount(s, i, s', t, u);
    }
  }

  predicate Freed(s: State, u: Id) { u in s.refs && s.refs[u] == 0 }

  /** A step counts only the URB its activity points to or, in the bottom half, the one
      in its skb. */
  lemma OneCount(s: State, i: nat, s': State, t: Step, u: Id)
    requires Steps(s, i, s', t) && i < |s.threads| && u in s.refs && UrbAt(s.threads[i]) != To(u)
    requires t.SHandleFree? ==> Look(s, s.threads[i].skb).urb != To(u)
    ensures u in s'.refs && s'.refs[u] == s.refs[u]
  {
    if Submitting(t) { OneCountSubmitting(s, i, s', t, u); }
    else if Ending(t) { OneCountEnding(s, i, s', t, u); }
    else { OneCountServing(s, i, s', t, u); }
  }

  lemma OneCountSubmitting(s: State, i: nat, s': State, t: Step, u: Id)
    requires Submitting(t) && Steps(s, i, s', t) && u in s.refs && UrbAt(s.threads[i]) != To(u)
    ensures u in s'.refs && s'.refs[u] == s.refs[u]
  {
  }

  lemma OneCountEnding(s: State, i: nat, s': State, t: Step, u: Id)
    requires Ending(t) && Steps(s, i, s', t) && u in s.refs && UrbAt(s.threads[i]) != To(u)
    ensures u in s'.refs && s'.refs[u] == s.refs[u]
  {
  }

  lemma OneCountServing(s: State, i: nat, s': State, t: Step, u: Id)
    requires Serving(t) && Steps(s, i, s', t) && i < |s.threads| && u in s.refs && UrbAt(s.threads[i]) != To(u)
    requires t.SHandleFree? ==> Look(s, s.threads[i].skb).urb != To(u)
    ensures u in s'.refs && s'.refs[u] == s.refs[u]
  {
  }

  lemma FreedNext(run: seq<State>, steps: seq<(nat, Step)>, n: nat, u: Id)
    requires IsRun(run, steps) && n < |steps| && Freed(run[n], u)
    ensures Freed(run[n + 1], u)
  {
    RunStep(run, steps, n);
    FreedForGood(run[n], steps[n].0, run[n + 1], steps[n].1, u);
  }

  lemma {:induction false} FreedOnce(run: seq<State>, steps: seq<(nat, Step)>, n: nat, m: nat, u: Id)
    requires IsRun(run, steps) && n <= m < |run| && Freed(run[n], u)
    ensures Freed(run[m], u)
  {
    if n < m {
      FreedOnce(run, steps, n, m - 1, u);
      FreedNext(run, steps, m - 1, u);
    }
  }

  /** Nothing leaks: when every activity has ended and the queues are empty, every URB
      is freed, and every skb was freed or delivered, once. */
  lemma NoLeak(run: seq<State>, steps: seq<(nat, Step)>, n: nat)
    requires IsRun(run, steps) && n < |run|
    requires run[n].rxq == run[n].txq == run[n].done == []
    requires forall j | 0 <= j < |run[n].threads| :: run[n].threads[j] == Idle
    ensures forall u | u in run[n].refs :: run[n].refs[u] == 0
    ensures run[n].entry == map[] && run[n].flight == map[]
    ensures forall k | k in run[n].skbs :: Occurs(run[n].delivered, k) + Occurs(run[n].freed, k) == 1
  {
    var s := run[n];
    RunKeeps(run, steps, n);
    forall k: Id ensures k !in s.entry {
      AllIdle(s.threads, k);
      assert Places(s, k) == 0;
    }
    assert s.entry == map[];
    forall u | u in s.flight ensures false { InFlight(s, u); }
    assert s.flight == map[];
    forall u | u in s.refs ensures s.refs[u] == 0 {
      AllIdle(s.threads, u);
      assert Refs(s, u) == Owners(s, u) + Over(s.threads, Extra, u);
    }
    forall k | k in s.skbs ensures Occurs(s.delivered, k) + Occurs(s.freed, k) == 1 {
      AllIdle(s.threads, k);
      assert Places(s, k) == 0;
    }
  }

  lemma {:induction false} AllIdle(ts: seq<Activity>, k: Id)
    requires forall j :: 0 <= j < |ts| ==> ts[j] == Idle
    ensures Over(ts, Held, k) == 0 && Over(ts, Kept, k) == 0 && Over(ts, Extra, k) == 0
  {
    if ts != [] { AllIdle(ts[..|ts| - 1], k); }
  }

  ghost predicate RunTo(run: seq<State>, steps: seq<(nat, Step)>, s: State) {
    IsRun(run, steps) && run[|steps|] == s
  }

  ghost predicate Extends(steps: seq<(nat, Step)>, steps': seq<(nat, Step)>) { forall t :: t in steps ==> t in steps' }

  /** A run goes on. */
  lemma Longer(run: seq<State>, steps: seq<(nat, Step)>, s: State, s': State, t: Step)
    returns (run': seq<State>, steps': seq<(nat, Step)>)
    requires RunTo(run, steps, s) && Steps(s, 0, s', t)
    ensures RunTo(run', steps', s') && (0, t) in steps' && Extends(steps, steps')
  {
    run', steps' := run + [s'], steps + [(0, t)];
    forall n | 0 <= n < |steps'| ensures StepAt(run', steps', n) {
      if n < |steps| { assert StepAt(run, steps, n) && steps'[n] == steps[n]; }
    }
  }

  /** An URB in flight with skb 0, which is on rxq. */
  const RECEIVING := START.(threads := [Idle], rxq := [0], entry := map[0 := Entry(To(0), RxStart)],
                            refs := map[0 := 1], flight := map[0 := (Rx, 0)], skbs := {0})

  /** Its frame is on done, and the URB is free. */
  const RECEIVED := RECEIVING.(rxq := [], done := [0], entry := map[0 := Entry(Null, RxDone)],
                               refs := map[0 := 0], flight := map[])

  lemma FrameReceiving() returns (run: seq<State>, steps: seq<(nat, Step)>)
    ensures RunTo(run, steps, RECEIVING)
  {
    run, steps := [START], [];
    var s1 := START.(threads := [Idle]);
    run, steps := Longer(run, steps, START, s1, SSpawn);
    var s2 := s1.(threads := [RxNew(0)], refs := map[0 := 1]);
    run, steps := Longer(run, steps, s1, s2, SAllocRx(0));
    run, steps := FrameSubmitted(run, steps, s2);
  }

  lemma FrameSubmitted(run0: seq<State>, steps0: seq<(nat, Step)>, s: State)
    returns (run: seq<State>, steps: seq<(nat, Step)>)
    requires RunTo(run0, steps0, s) && s == START.(threads := [RxNew(0)], refs := map[0 := 1])
    ensures RunTo(run, steps, RECEIVING)
  {
    var s3 := s.(threads := [Ready(Rx, 0, 0)], entry := map[0 := Entry(To(0), RxStart)], skbs := {0});
    assert AllocSkb(s, 0, s3, 0);
    run, steps := Longer(run0, steps0, s, s3, SAllocSkb(0));
    var s4 := s3.(threads := [Entering(Rx, 0)], flight := map[0 := (Rx, 0)], locked := {Rx});
    assert Submit(s3, 0, s4);
    run, steps := Longer(run, steps, s3, s4, SSubmit);
    assert Enqueue(s4, 0, RECEIVING);
    run, steps := Longer(run, steps, s4, RECEIVING, SEnqueue);
  }

  lemma FrameReceived(run0: seq<State>, steps0: seq<(nat, Step)>) returns (run: seq<State>, steps: seq<(nat, Step)>)
    requires RunTo(run0, steps0, RECEIVING)
    ensures RunTo(run, steps, RECEIVED)
  {
    var s1 := RECEIVING.(threads := [RxStarted(0, 0)], entry := map[0 := Entry(Null, RxStart)], flight := map[]);
    assert CompleteRx(RECEIVING, 0, s1, 0) by { assert RECEIVING.flight - {0} == map[]; }
    run, steps := Longer(run0, steps0, RECEIVING, s1, SCompleteRx(0));
    var s2 := s1.(threads := [RxJudged(0, To(0), RxDone)]);
    assert Judge(s1, 0, s2, Success);
    run, steps := Longer(run, steps, s1, s2, SJudge(Success));
    run, steps := FrameDeferred(run, steps, s2);
  }

  lemma FrameDeferred(run0: seq<State>, steps0: seq<(nat, Step)>, s: State)
    returns (run: seq<State>, steps: seq<(nat, Step)>)
    requires RunTo(run0, steps0, s)
    requires s == RECEIVING.(threads := [RxJudged(0, To(0), RxDone)], entry := map[0 := Entry(Null, RxStart)],
                             flight := map[])
    ensures RunTo(run, steps, RECEIVED)
  {
    var s3 := s.(threads := [RxTail(0, RxStart)], rxq := [], done := [0], entry := map[0 := Entry(Null, RxDone)]);
    assert DeferRx(s, 0, s3) by { assert Remove(s.rxq, 0) == []; }
    run, steps := Longer(run0, steps0, s, s3, SDeferRx);
    assert FreeUrb(s3, 0, RECEIVED);
    run, steps := Longer(run, steps, s3, RECEIVED, SFreeUrb);
  }

  /** A frame's way to the network stack: such a run exists, and it ends with the frame
      delivered and the URB freed. */
  lemma FrameDelivered() returns (run: seq<State>, steps: seq<(nat, Step)>)
    ensures RunTo(run, steps, RECEIVED.(done := [], entry := map[], delivered := [0]))
  {
    run, steps := FrameReceiving();
    run, steps := FrameReceived(run, steps);
    run, steps := FrameHandled(run, steps);
  }

  lemma FrameHandled(run0: seq<State>, steps0: seq<(nat, Step)>) returns (run: seq<State>, steps: seq<(nat, Step)>)
    requires RunTo(run0, steps0, RECEIVED)
    ensures RunTo(run, steps, RECEIVED.(done := [], entry := map[], delivered := [0]))
  {
    var s1 := RECEIVED.(threads := [Handling(0)], done := []);
    assert Dequeue(RECEIVED, 0, s1);
    run, steps := Longer(run0, steps0, RECEIVED, s1, SDequeue);
    var s2 := s1.(threads := [Processing(0)], entry := map[0 := Entry(Null, RxCleanup)]);
    assert HandleRx(s1, 0, s2);
    run, steps := Longer(run, steps, s1, s2, SHandleRx);
    run, steps := FrameProcessed(run, steps, s2);
  }

  lemma FrameProcessed(run0: seq<State>, steps0: seq<(nat, Step)>, s: State)
    returns (run: seq<State>, steps: seq<(nat, Step)>)
    requires RunTo(run0, steps0, s)
    requires s == RECEIVED.(threads := [Processing(0)], entry := map[0 := Entry(Null, RxCleanup)], done := [])
    ensures RunTo(run, steps, RECEIVED.(done := [], entry := map[], delivered := [0]))
  {
    var s3 := RECEIVED.(done := [], entry := map[], delivered := [0]);
    assert Deliver(s, 0, s3) by { assert s.entry - {0} == map[]; }
    run, steps := Longer(run0, steps0, s, s3, SDeliver);
  }

  // ----- runt frames and unlinking -----

  /** Nobody can free an skb on rxq, move it, or write its state, but unlink_urbs and
      its own rx_complete. */
  ghost predicate RxAlone(s: State, i: nat, k: Id) {
    var a := At(s, i);
    && k in s.skbs && (forall u :: u in s.flight && s.flight[u].0 == Tx ==> s.flight[u].1 != k)
    && Held(a, k) == 0 && !(a.TxJudged? && a.skb == k)
  }

  lemma OnRxAlone(s: State, i: nat, k: Id)
    requires Inv(s) && k in s.rxq
    ensures RxAlone(s, i, k)
  {
    assert Places(s, k) + Occurs(s.delivered, k) + Occurs(s.freed, k) == One(k in s.skbs);
    QueuedOnce(s, Rx, k);
    forall u | u in s.flight && s.flight[u].0 == Tx ensures s.flight[u].1 != k { InFlight(s, u); }
    if i < |s.threads| {
      if Held(s.threads[i], k) == 1 { OverAt(s.threads, Joining, (Rx, k), i); }
      assert Queued(s, (Tx, k)) == 0;
      OverAt(s.threads, Completing, (Tx, k), i);
    }
  }

  lemma {:induction false} RemoveOther(w: seq<Id>, x: Id, k: Id)
    requires k in w && x != k
    ensures k in Remove(w, x)
  {
    if w[0] != x && w[0] != k { RemoveOther(w[1..], x, k); }
  }

  /** The step judges the frame in skb k a runt. */
  predicate Runt(s: State, i: nat, t: Step, k: Id) { t == SJudge(Short) && At(s, i).RxStarted? && At(s, i).skb == k }

  /** The step is defer_bh for the received skb k. */
  predicate DefersRx(s: State, i: nat, t: Step, k: Id) { t == SDeferRx && At(s, i).RxJudged? && At(s, i).skb == k }

  /** The step marks skb k as being unlinked. */
  predicate Marks(s: State, t: Step, k: Id) {
    t.SMark? && t.n < |Waiting(s, t.queue)| && Waiting(s, t.queue)[t.n] == k
  }

  lemma StaysQueued(s: State, i: nat, s': State, t: Step, k: Id)
    requires k in s.rxq && Steps(s, i, s', t) && !DefersRx(s, i, t, k)
    ensures k in s'.rxq
  {
    if t.SDeferRx? { RemoveOther(s.rxq, s.threads[i].skb, k); }
  }

  /** An skb on rxq loses the mark of unlink_urbs before its defer_bh exactly if its frame
      is judged a runt. */
  lemma MarkStays(s: State, i: nat, s': State, t: Step, k: Id)
    requires Inv(s) && k in s.rxq && Look(s, k).phase == UnlinkStart
    requires Steps(s, i, s', t) && !DefersRx(s, i, t, k)
    ensures k in s'.rxq && (Look(s', k).phase == UnlinkStart <==> !Runt(s, i, t, k))
  {
    OnRxAlone(s, i, k);
    StaysQueued(s, i, s', t, k);
    PhaseStays(s, i, s', t, k);
  }

  lemma PhaseStays(s: State, i: nat, s': State, t: Step, k: Id)
    requires RxAlone(s, i, k) && Look(s, k).phase == UnlinkStart
    requires Steps(s, i, s', t) && !DefersRx(s, i, t, k)
    ensures Look(s', k).phase == UnlinkStart <==> !Runt(s, i, t, k)
  {
    if Ending(t) { PhaseStaysEnding(s, i, s', t, k); } else { PhaseStaysElse(s, i, s', t, k); }
  }

  lemma PhaseStaysEnding(s: State, i: nat, s': State, t: Step, k: Id)
    requires RxAlone(s, i, k) && Look(s, k).phase == UnlinkStart
    requires Ending(t) && Steps(s, i, s', t) && !DefersRx(s, i, t, k)
    ensures Look(s', k).phase == UnlinkStart <==> !Runt(s, i, t, k)
  {
  }

  lemma PhaseStaysElse(s: State, i: nat, s': State, t: Step, k: Id)
    requires RxAlone(s, i, k) && Look(s, k).phase == UnlinkStart
    requires !Ending(t) && Steps(s, i, s', t)
    ensures Look(s', k).phase == UnlinkStart
  {
    if Submitting(t) { PhaseStaysSubmitting(s, i, s', t, k); }
  }

  lemma PhaseStaysSubmitting(s: State, i: nat, s': State, t: Step, k: Id)
    requires RxAlone(s, i, k) && Look(s, k).phase == UnlinkStart
    requires Submitting(t) && Steps(s, i, s', t)
    ensures Look(s', k).phase == UnlinkStart
  {
  }

  /** Nothing but unlink_urbs writes the mark. */
  lemma MarkNew(s: State, i: nat, s': State, t: Step, k: Id)
    requires Local(s) && Steps(s, i, s', t) && Look(s', k).phase == UnlinkStart
    ensures Marks(s, t, k) || (Look(s, k).phase == UnlinkStart && !Runt(s, i, t, k))
  {
    if t.SDeferRx? { assert Relies(s, s.threads[i]); }
    if Submitting(t) { MarkNewSubmitting(s, i, s', t, k); }
    else if Ending(t) { MarkNewEnding(s, i, s', t, k); }
    else { MarkNewServing(s, i, s', t, k); }
  }

  lemma MarkNewSubmitting(s: State, i: nat, s': State, t: Step, k: Id)
    requires Submitting(t) && Steps(s, i, s', t) && Look(s', k).phase == UnlinkStart
    ensures Look(s, k).phase == UnlinkStart
  {
  }

  lemma MarkNewEnding(s: State, i: nat, s': State, t: Step, k: Id)
    requires Ending(t) && Steps(s, i, s', t) && Look(s', k).phase == UnlinkStart
    requires t.SDeferRx? ==> s.threads[i].verdict != UnlinkStart
    ensures Look(s, k).phase == UnlinkStart && !Runt(s, i, t, k)
  {
  }

  lemma MarkNewServing(s: State, i: nat, s': State, t: Step, k: Id)
    requires Serving(t) && Steps(s, i, s', t) && Look(s', k).phase == UnlinkStart
    ensures Marks(s, t, k) || Look(s, k).phase == UnlinkStart
  {
  }

  /** The skb has been on rxq and left it, or is one to be sent. */
  predicate Past(s: State, k: Id) {
    k in s.skbs && k !in s.rxq &&
    forall a :: a in s.threads ==> !((a.Ready? || a.Entering?) && a.queue == Rx && a.skb == k)
  }

  lemma {:induction false} RemoveNothingNew(w: seq<Id>, x: Id, k: Id)
    requires k !in w
    ensures k !in Remove(w, x)
  {
    if w != [] && w[0] != x { RemoveNothingNew(w[1..], x, k); }
  }

  lemma PastStays(s: State, i: nat, s': State, t: Step, k: Id)
    requires Past(s, k) && Steps(s, i, s', t)
    ensures Past(s', k)
  {
    if Submitting(t) { PastStaysSubmitting(s, i, s', t, k); }
    else if Ending(t) { PastStaysEnding(s, i, s', t, k); }
    else { PastStaysServing(s, i, s', t, k); }
  }

  lemma PastStaysSubmitting(s: State, i: nat, s': State, t: Step, k: Id)
    requires Submitting(t) && Past(s, k) && Steps(s, i, s', t)
    ensures Past(s', k)
  {
  }

  lemma PastStaysEnding(s: State, i: nat, s': State, t: Step, k: Id)
    requires Ending(t) && Past(s, k) && Steps(s, i, s', t)
    ensures Past(s', k)
  {
    if t.SDeferRx? { RemoveNothingNew(s.rxq, s.threads[i].skb, k); }
  }

  lemma PastStaysServing(s: State, i: nat, s': State, t: Step, k: Id)
    requires Serving(t) && Past(s, k) && Steps(s, i, s', t)
    ensures Past(s', k)
  {
  }

  lemma {:induction false} PastForGood(run: seq<State>, steps: seq<(nat, Step)>, n: nat, m: nat, k: Id)
    requires IsRun(run, steps) && n <= m < |run| && Past(run[n], k)
    ensures Past(run[m], k)
  {
    if n < m {
      PastForGood(run, steps, n, m - 1, k);
      PastNext(run, steps, m - 1, k);
    }
  }

  lemma PastNext(run: seq<State>, steps: seq<(nat, Step)>, n: nat, k: Id)
    requires IsRun(run, steps) && n < |steps| && Past(run[n], k)
    ensures Past(run[n + 1], k)
  {
    RunStep(run, steps, n);
    PastStays(run[n], steps[n].0, run[n + 1], steps[n].1, k);
  }

  /** Each received skb is deferred at most once. */
  lemma DeferredPast(s: State, i: nat, s': State, k: Id)
    requires Inv(s) && DeferRx(s, i, s') && s.threads[i].skb == k
    ensures k in s.rxq && Past(s', k)
  {
    OnQueue(s, i, Rx, k);
    OnRxAlone(s, i, k);
    QueuedOnce(s, Rx, k);
    RemoveOne(s.rxq, k, k);
    assert Occurs(s'.rxq, k) == 0;
    forall a | a in s'.threads ensures !((a.Ready? || a.Entering?) && a.queue == Rx && a.skb == k) {
      if (a.Ready? || a.Entering?) && a.queue == Rx && a.skb == k {
        var j :| 0 <= j < |s.threads| && s'.threads[j] == a;
        OnRxAlone(s, j, k);
      }
    }
  }

  /** An skb on txq is one to be sent. */
  lemma SentPast(s: State, k: Id)
    requires Inv(s) && k in s.txq
    ensures Past(s, k)
  {
    assert Places(s, k) + Occurs(s.delivered, k) + Occurs(s.freed, k) == One(k in s.skbs);
    QueuedOnce(s, Tx, k);
    assert Queued(s, (Rx, k)) == 0;
  }

  /** Step n of the run marks skb k, and no later one before m judges its frame a runt. */
  ghost predicate MarkLasts(run: seq<State>, steps: seq<(nat, Step)>, n: nat, m: nat, k: Id)
    requires IsRun(run, steps) && m <= |steps|
  {
    && n < m && Marks(run[n], steps[n].1, k)
    && forall l {:trigger steps[l]} | n < l < m :: !Runt(run[l], steps[l].0, steps[l].1, k)
  }

  /** A mark that is there has been made, and no runt was found since. */
  lemma {:induction false} MarkFound(run: seq<State>, steps: seq<(nat, Step)>, m: nat, k: Id) returns (n: nat)
    requires IsRun(run, steps) && m < |run| && Look(run[m], k).phase == UnlinkStart
    ensures MarkLasts(run, steps, n, m, k)
  {
    n := m - 1;
    MarkBefore(run, steps, n, k);
    if !Marks(run[n], steps[n].1, k) {
      n := MarkFound(run, steps, n, k);
      LastsBefore(run, steps, n, m - 1, k);
    }
  }

  lemma MarkBefore(run: seq<State>, steps: seq<(nat, Step)>, n: nat, k: Id)
    requires IsRun(run, steps) && n < |steps| && Look(run[n + 1], k).phase == UnlinkStart
    ensures Marks(run[n], steps[n].1, k) ||
            (Look(run[n], k).phase == UnlinkStart && !Runt(run[n], steps[n].0, steps[n].1, k))
  {
    RunStep(run, steps, n);
    MarkNew(run[n], steps[n].0, run[n + 1], steps[n].1, k);
  }

  /** A mark made is there until the skb is deferred, unless a runt was found since. */
  lemma {:induction false} MarkThere(run: seq<State>, steps: seq<(nat, Step)>, n: nat, m: nat, k: Id)
    requires IsRun(run, steps) && m < |run| && MarkLasts(run, steps, n, m, k) && !Past(run[m], k)
    ensures k in run[m].rxq && Look(run[m], k).phase == UnlinkStart
  {
    NotPastBefore(run, steps, m - 1, k);
    if n == m - 1 {
      MarkMade(run, steps, n, k);
    } else {
      LastsBefore(run, steps, n, m - 1, k);
      MarkThere(run, steps, n, m - 1, k);
      MarkAfter(run, steps, m - 1, k);
    }
  }

  lemma LastsBefore(run: seq<State>, steps: seq<(nat, Step)>, n: nat, m: nat, k: Id)
    requires IsRun(run, steps) && n < m < |steps|
    ensures MarkLasts(run, steps, n, m + 1, k) <==>
              MarkLasts(run, steps, n, m, k) && !Runt(run[m], steps[m].0, steps[m].1, k)
  {
  }

  lemma NotPastBefore(run: seq<State>, steps: seq<(nat, Step)>, n: nat, k: Id)
    requires IsRun(run, steps) && n < |steps| && !Past(run[n + 1], k)
    ensures !Past(run[n], k)
  {
    if Past(run[n], k) { PastNext(run, steps, n, k); }
  }

  lemma MarkMade(run: seq<State>, steps: seq<(nat, Step)>, n: nat, k: Id)
    requires IsRun(run, steps) && n < |steps| && Marks(run[n], steps[n].1, k) && !Past(run[n], k)
    ensures k in run[n + 1].rxq && Look(run[n + 1], k).phase == UnlinkStart
  {
    RunStep(run, steps, n);
    if steps[n].1.queue == Tx { SentPast(run[n], k); }
  }

  lemma MarkAfter(run: seq<State>, steps: seq<(nat, Step)>, n: nat, k: Id)
    requires IsRun(run, steps) && n < |steps| && k in run[n].rxq && Look(run[n], k).phase == UnlinkStart
    requires !Runt(run[n], steps[n].0, steps[n].1, k) && !Past(run[n + 1], k)
    ensures k in run[n + 1].rxq && Look(run[n + 1], k).phase == UnlinkStart
  {
    RunStep(run, steps, n);
    var s, i, t := run[n], steps[n].0, steps[n].1;
    if DefersRx(s, i, t, k) { DeferredPast(s, i, run[n + 1], k); }
    MarkStays(s, i, run[n + 1], t, k);
  }

  /** When rx_complete defers a received skb it finds the skb marked by unlink_urbs if
      and only if some step has marked it and no later one has found its frame a runt:
      so the URB of a runt frame can be resubmitted although it is being unlinked, unless
      unlink_urbs comes round again in between. */
  lemma UnlinkSeen(run: seq<State>, steps: seq<(nat, Step)>, m: nat, k: Id)
    requires IsRun(run, steps) && m < |steps| && DefersRx(run[m], steps[m].0, steps[m].1, k)
    ensures var s, i, s' := run[m], steps[m].0, run[m + 1];
            && (Look(s, k).phase == UnlinkStart <==> exists n :: MarkLasts(run, steps, n, m, k))
            && (At(s, i).held.To? ==> At(s', i) == RxTail(At(s, i).held.id, Look(s, k).phase))
  {
    var s, i := run[m], steps[m].0;
    RunStep(run, steps, m);
    DeferredPast(s, i, run[m + 1], k);
    if Look(s, k).phase == UnlinkStart { var n := MarkFound(run, steps, m, k); }
    forall n | MarkLasts(run, steps, n, m, k) ensures Look(s, k).phase == UnlinkStart {
      MarkThere(run, steps, n, m, k);
    }
  }

  /** Once judged, rx_complete has its verdict until it defers the skb. */
  lemma {:induction false} VerdictStays(run: seq<State>, steps: seq<(nat, Step)>, n: nat, m: nat, i: nat, k: Id)
    requires IsRun(run, steps) && n <= m < |run|
    requires At(run[n], i).RxJudged? && At(run[n], i).skb == k
    requires forall l {:trigger steps[l]} | n <= l < m :: !DefersRx(run[l], steps[l].0, steps[l].1, k)
    ensures At(run[m], i) == At(run[n], i)
  {
    if n < m {
      VerdictStays(run, steps, n, m - 1, i, k);
      VerdictNext(run, steps, m - 1, i);
    }
  }

  lemma VerdictNext(run: seq<State>, steps: seq<(nat, Step)>, n: nat, i: nat)
    requires IsRun(run, steps) && n < |steps| && At(run[n], i).RxJudged?
    requires !DefersRx(run[n], steps[n].0, steps[n].1, At(run[n], i).skb)
    ensures At(run[n + 1], i) == At(run[n], i)
  {
    RunStep(run, steps, n);
    OneMoves(run[n], steps[n].0, run[n + 1], steps[n].1, i);
  }

  /** A step moves its own activity only, and rx_complete moves on only by defer_bh. */
  lemma OneMoves(s: State, i: nat, s': State, t: Step, j: nat)
    requires Steps(s, i, s', t) && At(s, j).RxJudged? && !DefersRx(s, i, t, At(s, j).skb)
    ensures At(s', j) == At(s, j)
  {
    if Ending(t) { OneMovesEnding(s, i, s', t, j); } else { OneMovesElse(s, i, s', t, j); }
  }

  lemma OneMovesEnding(s: State, i: nat, s': State, t: Step, j: nat)
    requires Ending(t) && Steps(s, i, s', t) && At(s, j).RxJudged? && !DefersRx(s, i, t, At(s, j).skb)
    ensures At(s', j) == At(s, j)
  {
  }

  lemma OneMovesElse(s: State, i: nat, s': State, t: Step, j: nat)
    requires !Ending(t) && Steps(s, i, s', t) && At(s, j).RxJudged?
    ensures At(s', j) == At(s, j)
  {
    if Submitting(t) { OneMovesSubmitting(s, i, s', t, j); }
  }

  lemma OneMovesSubmitting(s: State, i: nat, s': State, t: Step, j: nat)
    requires Submitting(t) && Steps(s, i, s', t) && At(s, j).RxJudged?
    ensures At(s', j) == At(s, j)
  {
  }

  lemma RuntHeld(run: seq<State>, steps: seq<(nat, Step)>, n: nat, m: nat, k: Id)
    requires IsRun(run, steps) && n < m < |steps|
    requires Runt(run[n], steps[n].0, steps[n].1, k) && DefersRx(run[m], steps[m].0, steps[m].1, k)
    ensures At(run[m], steps[n].0) == RxJudged(k, To(At(run[n], steps[n].0).urb), RxDone)
  {
    RunStep(run, steps, n);
    forall l | n + 1 <= l < m ensures !DefersRx(run[l], steps[l].0, steps[l].1, k) {
      if DefersRx(run[l], steps[l].0, steps[l].1, k) { DeferredOnce(run, steps, l, m, k); }
    }
    VerdictStays(run, steps, n + 1, m, steps[n].0, k);
  }

  /** Only one activity completes the skb. */
  lemma JudgedAlone(s: State, i: nat, j: nat, k: Id)
    requires Inv(s) && At(s, i).RxJudged? && At(s, i).skb == k && At(s, j).RxJudged? && At(s, j).skb == k
    ensures i == j
  {
    Judging(s, i, Rx, k);
  }

  /** rx_complete marks a runt frame rx_cleanup, but defer_bh overwrites the mark: however
      the activities interleave, a runt frame goes to the bottom half as rx_done, and
      its URB to the end of rx_complete. */
  lemma RuntProcessed(run: seq<State>, steps: seq<(nat, Step)>, n: nat, m: nat, k: Id)
    requires IsRun(run, steps) && n < m < |steps|
    requires Runt(run[n], steps[n].0, steps[n].1, k) && DefersRx(run[m], steps[m].0, steps[m].1, k)
    ensures steps[m].0 == steps[n].0 && Look(run[m + 1], k).phase == RxDone
    ensures At(run[m + 1], steps[m].0) == RxTail(At(run[n], steps[n].0).urb, Look(run[m], k).phase)
  {
    RuntHeld(run, steps, n, m, k);
    RunStep(run, steps, m);
    JudgedAlone(run[m], steps[n].0, steps[m].0, k);
  }

  lemma DeferredOnce(run: seq<State>, steps: seq<(nat, Step)>, n: nat, m: nat, k: Id)
    requires IsRun(run, steps) && n < m < |steps|
    requires DefersRx(run[n], steps[n].0, steps[n].1, k)
    ensures !DefersRx(run[m], steps[m].0, steps[m].1, k)
  {
    RunStep(run, steps, n);
    DeferredPast(run[n], steps[n].0, run[n + 1], k);
    PastForGood(run, steps, n + 1, m, k);
    if DefersRx(run[m], steps[m].0, steps[m].1, k) {
      RunStep(run, steps, m);
      DeferredPast(run[m], steps[m].0, run[m + 1], k);
    }
  }

  /** The unlinked URB is being submitted again, and the runt frame waits as rx_done. */
  const RESUBMITTED := RECEIVING.(threads := [RxNew(0)], rxq := [], done := [0], entry := map[0 := Entry(Null, RxDone)],
                                  flight := map[])

  /** Such a run exists: unlink_urbs marks skb 0, its completion finds a runt frame, the
      frame goes to the bottom half as rx_done, and the unlinked URB is resubmitted. */
  lemma RuntResubmitted() returns (run: seq<State>, steps: seq<(nat, Step)>)
    ensures RunTo(run, steps, RESUBMITTED) && (0, SMark(Rx, 0)) in steps && (0, SJudge(Short)) in steps
  {
    run, steps := FrameReceiving();
    run, steps := FrameUnlinked(run, steps);
    run, steps := RuntJudged(run, steps);
  }

  lemma RuntJudged(run0: seq<State>, steps0: seq<(nat, Step)>) returns (run: seq<State>, steps: seq<(nat, Step)>)
    requires RunTo(run0, steps0, UNLINKED)
    ensures RunTo(run, steps, RESUBMITTED) && (0, SJudge(Short)) in steps && Extends(steps0, steps)
  {
    var s1 := UNLINKED.(threads := [RxStarted(0, 0)], entry := map[0 := Entry(Null, UnlinkStart)], flight := map[]);
    assert CompleteRx(UNLINKED, 0, s1, 0) by { assert UNLINKED.flight - {0} == map[]; }
    run, steps := Longer(run0, steps0, UNLINKED, s1, SCompleteRx(0));
    var s2 := s1.(threads := [RxJudged(0, To(0), RxDone)], entry := map[0 := Entry(Null, RxCleanup)]);
    assert Judge(s1, 0, s2, Short);
    run, steps := Longer(run, steps, s1, s2, SJudge(Short));
    run, steps := RuntDeferred(run, steps, s2);
  }

  /** The URB has been unlinked; the transfer is still in flight. */
  const UNLINKED := RECEIVING.(entry := map[0 := Entry(To(0), UnlinkStart)])

  lemma FrameUnlinked(run0: seq<State>, steps0: seq<(nat, Step)>) returns (run: seq<State>, steps: seq<(nat, Step)>)
    requires RunTo(run0, steps0, RECEIVING)
    ensures RunTo(run, steps, UNLINKED) && (0, SMark(Rx, 0)) in steps
  {
    var s1 := UNLINKED.(threads := [Marked(Rx, 0)], locked := {Rx});
    assert Mark(RECEIVING, 0, s1, Rx, 0);
    run, steps := Longer(run0, steps0, RECEIVING, s1, SMark(Rx, 0));
    var s2 := s1.(threads := [Borrowed(Rx, 0, To(0))]);
    assert Borrow(s1, 0, s2);
    run, steps := Longer(run, steps, s1, s2, SBorrow);
    run, steps := FrameReleased(run, steps, s2);
  }

  lemma FrameReleased(run0: seq<State>, steps0: seq<(nat, Step)>, s: State)
    returns (run: seq<State>, steps: seq<(nat, Step)>)
    requires RunTo(run0, steps0, s) && s == UNLINKED.(threads := [Borrowed(Rx, 0, To(0))], locked := {Rx})
    ensures RunTo(run, steps, UNLINKED) && Extends(steps0, steps)
  {
    var s1 := UNLINKED.(threads := [Unlinking(To(0))], refs := map[0 := 2]);
    assert GetUrb(s, 0, s1);
    run, steps := Longer(run0, steps0, s, s1, SGetUrb);
    assert PutUrb(s1, 0, UNLINKED);
    run, steps := Longer(run, steps, s1, UNLINKED, SPutUrb);
  }

  lemma RuntDeferred(run0: seq<State>, steps0: seq<(nat, Step)>, s: State)
    returns (run: seq<State>, steps: seq<(nat, Step)>)
    requires RunTo(run0, steps0, s)
    requires s == RECEIVING.(threads := [RxJudged(0, To(0), RxDone)], entry := map[0 := Entry(Null, RxCleanup)],
                             flight := map[])
    ensures RunTo(run, steps, RESUBMITTED) && Extends(steps0, steps)
  {
    var s1 := RESUBMITTED.(threads := [RxTail(0, RxCleanup)]);
    assert DeferRx(s, 0, s1) by { assert Remove(s.rxq, 0) == []; }
    run, steps := Longer(run0, steps0, s, s1, SDeferRx);
    assert Resubmit(s1, 0, RESUBMITTED);
    run, steps := Longer(run, steps, s1, RESUBMITTED, SResubmit);
  }
}
