/**
 * internal/workers/click_workers.go: one click worker draining its events with a bounded
 * retry-and-backoff loop around CreateClick, and the start-up loop that numbers the workers.
 *
 * The channel becomes the sequence of events one worker dequeues. Sleeps are returned as a list
 * of durations in milliseconds; log lines are a ghost trace.
 */
module ClickWorkers {
  import opened Wrappers
  import opened Models
  import opened Repository

  /** Attempts per event, and the first pause in milliseconds (lines 30-31). */
  const MaxAttempts: nat := 3
  const InitialBackoffMs: nat := 100

  /** The log lines a worker writes. */
  datatype LogEntry =
    | InvalidEvent(worker: nat, event: ClickEvent)
    | Saved(worker: nat, linkId: nat)
    | AttemptFailed(worker: nat, linkId: nat, attempt: nat, err: Error)
    | Abandoned(worker: nat, linkId: nat, err: Error)

  function Pow2(n: nat): (p: nat)
    ensures p >= 1
  {
    if n == 0 then 1 else 2 * Pow2(n - 1)
  }

  /** The pauses after the first n failed attempts: 100 ms, doubling each time. */
  function Backoffs(n: nat): (s: seq<nat>)
    ensures |s| == n
    ensures forall i :: 0 <= i < n ==> s[i] == InitialBackoffMs * Pow2(i)
  {
    if n == 0 then [] else Backoffs(n - 1) + [InitialBackoffMs * Pow2(n - 1)]
  }

  /** How many of the first `cap` queued write outcomes are failures, counting until the first success. */
  function LeadingFails(q: seq<Fault>, cap: nat): (n: nat)
    ensures n <= cap && n <= |q|
    ensures forall j :: 0 <= j < n ==> q[j].Fail?
    ensures n < cap ==> NextWrite(q[n..]).Pass?
  {
    if cap == 0 || q == [] || q[0].Pass? then 0
    else 1 + LeadingFails(q[1..], cap - 1)
  }

  /** The write queue after n writes. */
  function AfterWrites(q: seq<Fault>, n: nat): (r: seq<Fault>)
    ensures n <= |q| ==> r == q[n..]
    ensures n > |q| ==> r == []
  {
    if n == 0 then q else AfterWrites(AfterWrite(q), n - 1)
  }

  /** The error the store reports for a failed write. */
  function FailureOf(f: Fault): Error
    requires f.Fail?
  {
    StoreFailure(f.code)
  }

  /** The failure log lines of attempts 1..n, whose outcomes are the first n of the queue. */
  function FailureLog(worker: nat, linkId: nat, q: seq<Fault>, n: nat): (log: seq<LogEntry>)
    requires n <= |q| && forall j :: 0 <= j < n ==> q[j].Fail?
    ensures |log| == n
  {
    if n == 0 then []
    else FailureLog(worker, linkId, q, n - 1) + [AttemptFailed(worker, linkId, n, FailureOf(q[n - 1]))]
  }

  /** The same click, n times. */
  function Repeat(c: Click, n: nat): (s: seq<Click>)
    ensures |s| == n && forall i :: 0 <= i < n ==> s[i] == c
  {
    if n == 0 then [] else Repeat(c, n - 1) + [c]
  }

  /** What persisting one click does: the final error, the CreateClick calls made, the pauses,
    * the log lines and the write queue left over. */
  datatype Persisted = Persisted(err: Option<Error>, calls: nat, sleeps: seq<nat>, log: seq<LogEntry>, rest: seq<Fault>)

  /** Persisting a click against write queue q, read off the run of failures at its head: the
    * attempts stop at the first success, or after three failures. */
  function Persist(worker: nat, click: Click, q: seq<Fault>): (p: Persisted)
    ensures 1 <= p.calls <= MaxAttempts
    ensures p.err.Some? ==> p.calls == MaxAttempts
    ensures |p.log| == p.calls + (if p.err.Some? then 1 else 0)
  {
    var fails := LeadingFails(q, MaxAttempts);
    if fails == MaxAttempts then
      var e := FailureOf(q[MaxAttempts - 1]);
      Persisted(Some(e), MaxAttempts, Backoffs(MaxAttempts - 1),
                FailureLog(worker, click.linkId, q, MaxAttempts) + [Abandoned(worker, click.linkId, e)],
                AfterWrites(q, MaxAttempts))
    else
      Persisted(None, fails + 1, Backoffs(fails),
                FailureLog(worker, click.linkId, q, fails) + [Saved(worker, click.linkId)],
                AfterWrites(q, fails + 1))
  }

  /** The run of failures at the head of q is exactly n long. */
  lemma {:induction false} LeadingFailsIs(q: seq<Fault>, cap: nat, n: nat)
    requires n <= cap && n <= |q|
    requires forall j :: 0 <= j < n ==> q[j].Fail?
    requires n < cap ==> NextWrite(q[n..]).Pass?
    ensures LeadingFails(q, cap) == n
  {
    if n > 0 {
      assert q[1..][n - 1..] == q[n..];
      LeadingFailsIs(q[1..], cap - 1, n - 1);
    }
  }

  /** Attempt a is the first to succeed: a - 1 failures logged, a - 1 pauses, a calls. */
  lemma PersistSavedAt(worker: nat, click: Click, q: seq<Fault>, a: nat)
    requires 1 <= a <= MaxAttempts && a - 1 <= |q|
    requires forall j :: 0 <= j < a - 1 ==> q[j].Fail?
    requires NextWrite(AfterWrites(q, a - 1)).Pass?
    ensures Persist(worker, click, q)
            == Persisted(None, a, Backoffs(a - 1),
                         FailureLog(worker, click.linkId, q, a - 1) + [Saved(worker, click.linkId)],
                         AfterWrites(q, a))
  {
    LeadingFailsIs(q, MaxAttempts, a - 1);
  }

  /** All three attempts fail: the click is abandoned with the third write's error. */
  lemma PersistAbandonedAt(worker: nat, click: Click, q: seq<Fault>)
    requires MaxAttempts <= |q|
    requires forall j :: 0 <= j < MaxAttempts ==> q[j].Fail?
    ensures Persist(worker, click, q)
            == Persisted(Some(FailureOf(q[MaxAttempts - 1])), MaxAttempts, Backoffs(MaxAttempts - 1),
                         FailureLog(worker, click.linkId, q, MaxAttempts)
                           + [Abandoned(worker, click.linkId, FailureOf(q[MaxAttempts - 1]))],
                         AfterWrites(q, MaxAttempts))
  {
    LeadingFailsIs(q, MaxAttempts, MaxAttempts);
  }

  /** Lines 50-72: up to three CreateClick calls, pausing between them with a doubling backoff. */
  method PersistClick(worker: nat, click: Click, repo: ClickRepository)
    returns (err: Option<Error>, sleeps: seq<nat>, ghost log: seq<LogEntry>)
    modifies repo.db
    ensures var p := old(Persist(worker, click, repo.db.writeFaults));
            && err == p.err && sleeps == p.sleeps && log == p.log
            && repo.db.writeFaults == p.rest
            && repo.db.clickCalls == old(repo.db.clickCalls) + Repeat(click, p.calls)
            && repo.db.clicks == old(repo.db.clicks) + (if p.err.None? then [click] else [])
    ensures repo.db.links == old(repo.db.links)
    ensures repo.db.lookupFault == old(repo.db.lookupFault) && repo.db.countFault == old(repo.db.countFault)
  {
    ghost var q0 := repo.db.writeFaults;
    ghost var calls0 := repo.db.clickCalls;
    ghost var clicks0 := repo.db.clicks;
    err, sleeps, log := None, [], [];
    var backoff := InitialBackoffMs;
    var attempt := 1;
    while attempt <= MaxAttempts
      invariant 1 <= attempt <= MaxAttempts + 1
      invariant attempt - 1 <= |q0| && forall j :: 0 <= j < attempt - 1 ==> q0[j].Fail?
      invariant repo.db.writeFaults == AfterWrites(q0, attempt - 1)
      invariant repo.db.clickCalls == calls0 + Repeat(click, attempt - 1)
      invariant repo.db.clicks == clicks0
      invariant repo.db.links == old(repo.db.links)
      invariant repo.db.lookupFault == old(repo.db.lookupFault) && repo.db.countFault == old(repo.db.countFault)
      invariant log == FailureLog(worker, click.linkId, q0, attempt - 1)
      invariant attempt <= MaxAttempts ==> sleeps == Backoffs(attempt - 1) && backoff == InitialBackoffMs * Pow2(attempt - 1)
      invariant attempt > MaxAttempts ==> sleeps == Backoffs(MaxAttempts - 1)
      invariant attempt > 1 ==> err == Some(FailureOf(q0[attempt - 2]))
      decreases MaxAttempts + 1 - attempt
    {
      err := repo.CreateClick(click);
      if err.None? {
        log := log + [Saved(worker, click.linkId)];
        PersistSavedAt(worker, click, q0, attempt);
        assert AfterWrites(q0, attempt) == AfterWrite(AfterWrites(q0, attempt - 1));
        assert Repeat(click, attempt) == Repeat(click, attempt - 1) + [click];
        return;
      }
      log := log + [AttemptFailed(worker, click.linkId, attempt, err.value)];
      if attempt < MaxAttempts {
        sleeps := sleeps + [backoff];
        backoff := backoff * 2;
      }
      attempt := attempt + 1;
    }
    PersistAbandonedAt(worker, click, q0);
    log := log + [Abandoned(worker, click.linkId, err.value)];
  }

  /** The events a worker persists: those with a non-zero link key, in dequeue order. */
  function ValidEvents(events: seq<ClickEvent>): (vs: seq<ClickEvent>)
    ensures |vs| <= |events|
    ensures forall e :: e in vs ==> e in events && e.linkId != 0
  {
    if events == [] then []
    else
      var last := events[|events| - 1];
      ValidEvents(events[..|events| - 1]) + (if last.linkId != 0 then [last] else [])
  }

  /** The events whose link key is `linkId`. */
  function EventsFor(events: seq<ClickEvent>, linkId: nat): nat
  {
    if events == [] then 0
    else EventsFor(events[..|events| - 1], linkId) + (if events[|events| - 1].linkId == linkId then 1 else 0)
  }

  /** What draining a run of events does: the clicks stored, every click handed to CreateClick,
    * the pauses, the log and the write queue left over. */
  datatype Drained = Drained(stored: seq<Click>, calls: seq<Click>, sleeps: seq<nat>, log: seq<LogEntry>, rest: seq<Fault>)

  /** Lines 34-73 over a finite run of events, against write queue q: convert, skip a zero key,
    * otherwise persist. */
  function Drain(worker: nat, events: seq<ClickEvent>, q: seq<Fault>): (d: Drained)
    ensures |d.log| >= |events|
  {
    if events == [] then Drained([], [], [], [], q)
    else
      var before := Drain(worker, events[..|events| - 1], q);
      var event := events[|events| - 1];
      var click := ToClick(event);
      if click.linkId == 0 then
        before.(log := before.log + [InvalidEvent(worker, event)])
      else
        var p := Persist(worker, click, before.rest);
        Drained(before.stored + (if p.err.None? then [click] else []),
                before.calls + Repeat(click, p.calls),
                before.sleeps + p.sleeps,
                before.log + p.log,
                p.rest)
  }

  /** clickWorker over the events it dequeues, until the channel is closed. */
  method ClickWorker(worker: nat, events: seq<ClickEvent>, repo: ClickRepository)
    returns (sleeps: seq<nat>, ghost log: seq<LogEntry>)
    modifies repo.db
    ensures var d := old(Drain(worker, events, repo.db.writeFaults));
            && sleeps == d.sleeps && log == d.log
            && repo.db.writeFaults == d.rest
            && repo.db.clicks == old(repo.db.clicks) + d.stored
            && repo.db.clickCalls == old(repo.db.clickCalls) + d.calls
    ensures repo.db.links == old(repo.db.links)
    ensures repo.db.lookupFault == old(repo.db.lookupFault) && repo.db.countFault == old(repo.db.countFault)
  {
    ghost var q0 := repo.db.writeFaults;
    sleeps, log := [], [];
    for i := 0 to |events|
      invariant var d := Drain(worker, events[..i], q0);
                && sleeps == d.sleeps && log == d.log
                && repo.db.writeFaults == d.rest
                && repo.db.clicks == old(repo.db.clicks) + d.stored
                && repo.db.clickCalls == old(repo.db.clickCalls) + d.calls
      invariant repo.db.links == old(repo.db.links)
      invariant repo.db.lookupFault == old(repo.db.lookupFault) && repo.db.countFault == old(repo.db.countFault)
    {
      assert events[..i + 1][..i] == events[..i];
      var event := events[i];
      var click := ToClick(event);
      if click.linkId == 0 {
        log := log + [InvalidEvent(worker, event)];
        continue;
      }
      var err, pauses, lines := PersistClick(worker, click, repo);
      sleeps, log := sleeps + pauses, log + lines;
    }
    assert events[..|events|] == events;
  }

  /** Lines 15-20: the workers started get the keys 1..workerCount; none for a count below one. */
  method StartClickWorkers(workerCount: int) returns (ids: seq<nat>)
    ensures workerCount <= 0 ==> ids == []
    ensures workerCount > 0 ==> |ids| == workerCount
    ensures forall i :: 0 <= i < |ids| ==> ids[i] == i + 1
  {
    ids := [];
    var i := 0;
    while i < workerCount
      invariant workerCount > 0 ==> 0 <= i <= workerCount
      invariant workerCount <= 0 ==> i == 0
      invariant |ids| == i && forall j :: 0 <= j < i ==> ids[j] == j + 1
    {
      var workerId := i + 1;
      ids := ids + [workerId];
      i := i + 1;
    }
  }

  // ---- properties of one event ----

  /** Line j of the failure log reports attempt j + 1 and the error of write j. */
  lemma {:induction false} FailureLogAt(worker: nat, linkId: nat, q: seq<Fault>, n: nat, j: nat)
    requires n <= |q| && forall k :: 0 <= k < n ==> q[k].Fail?
    requires j < n
    ensures FailureLog(worker, linkId, q, n)[j] == AttemptFailed(worker, linkId, j + 1, FailureOf(q[j]))
  {
    if j < n - 1 {
      FailureLogAt(worker, linkId, q, n - 1, j);
    }
  }

  /** Every attempt that fails is logged with its number and the store's error, in order; the
    * last line says whether the click was saved or abandoned with the last error. */
  lemma PersistLog(worker: nat, click: Click, q: seq<Fault>)
    ensures var p := Persist(worker, click, q);
            && (forall j :: 0 <= j < |p.log| - 1 ==>
                  && q[j].Fail?
                  && p.log[j] == AttemptFailed(worker, click.linkId, j + 1, StoreFailure(q[j].code)))
            && p.log[|p.log| - 1] == if p.err.None? then Saved(worker, click.linkId)
                                     else Abandoned(worker, click.linkId, p.err.value)
  {
    var p := Persist(worker, click, q);
    var fails := LeadingFails(q, MaxAttempts);
    forall j | 0 <= j < |p.log| - 1
      ensures q[j].Fail? && p.log[j] == AttemptFailed(worker, click.linkId, j + 1, StoreFailure(q[j].code))
    {
      FailureLogAt(worker, click.linkId, q, fails, j);
    }
  }

  /** CreateClick is called one to three times, and a pause separates consecutive calls: at most
    * two pauses, 100 ms and then 200 ms, and none after the last attempt. */
  lemma PersistBounds(worker: nat, click: Click, q: seq<Fault>)
    ensures var p := Persist(worker, click, q);
            && 1 <= p.calls <= MaxAttempts
            && |p.sleeps| == p.calls - 1
            && p.sleeps <= [100, 200]
  {
    assert Backoffs(1) == [100];
    assert Backoffs(2) == [100, 200];
  }

  /** The event is stored exactly when one of the first three writes succeeds, and then the
    * attempts stop at that first success. */
  lemma PersistStopsAtFirstSuccess(worker: nat, click: Click, q: seq<Fault>)
    ensures var p := Persist(worker, click, q);
            && (p.err.None? <==> exists j :: 0 <= j < MaxAttempts && NextWrite(AfterWrites(q, j)).Pass?)
            && (p.err.None? ==> NextWrite(AfterWrites(q, p.calls - 1)).Pass?
                                && forall j :: 0 <= j < p.calls - 1 ==> NextWrite(AfterWrites(q, j)).Fail?)
  {
    var fails := LeadingFails(q, MaxAttempts);
    if fails < MaxAttempts {
      assert NextWrite(AfterWrites(q, fails)).Pass?;
    } else {
      forall j | 0 <= j < MaxAttempts ensures NextWrite(AfterWrites(q, j)).Fail? {
        assert q[j].Fail?;
      }
    }
    forall j | 0 <= j < fails ensures NextWrite(AfterWrites(q, j)).Fail? {
      assert q[j].Fail?;
    }
  }

  /** After three failed writes the event is abandoned with the last store error, logged once per
    * attempt and once more as abandoned; nothing is stored and nothing is re-queued. */
  lemma AllAttemptsFailAbandons(worker: nat, click: Click, a: nat, b: nat, c: nat, q: seq<Fault>)
    ensures var p := Persist(worker, click, [Fail(a), Fail(b), Fail(c)] + q);
            && p.err == Some(StoreFailure(c))
            && p.calls == 3 && p.sleeps == [100, 200] && p.rest == q
            && p.log == [AttemptFailed(worker, click.linkId, 1, StoreFailure(a)),
                         AttemptFailed(worker, click.linkId, 2, StoreFailure(b)),
                         AttemptFailed(worker, click.linkId, 3, StoreFailure(c)),
                         Abandoned(worker, click.linkId, StoreFailure(c))]
  {
    var q' := [Fail(a), Fail(b), Fail(c)] + q;
    assert LeadingFails(q', MaxAttempts) == 3 by {
      assert q'[1..] == [Fail(b), Fail(c)] + q;
      assert q'[1..][1..] == [Fail(c)] + q;
      assert LeadingFails([Fail(c)] + q, 1) == 1 by {
        assert ([Fail(c)] + q)[1..] == q;
      }
    }
    assert Backoffs(2) == [100, 200];
    assert q'[3..] == q;
    assert FailureLog(worker, click.linkId, q', 1) == [AttemptFailed(worker, click.linkId, 1, StoreFailure(a))];
    assert FailureLog(worker, click.linkId, q', 2) == [AttemptFailed(worker, click.linkId, 1, StoreFailure(a)),
                                                       AttemptFailed(worker, click.linkId, 2, StoreFailure(b))];
  }

  /** "fail, fail, succeed": three calls, two failure lines, pauses of 100 and 200 ms, one insert. */
  lemma FailFailSucceed(worker: nat, click: Click, a: nat, b: nat, q: seq<Fault>)
    ensures var p := Persist(worker, click, [Fail(a), Fail(b), Pass] + q);
            && p.err == None
            && p.calls == 3 && p.sleeps == [100, 200] && p.rest == q
            && p.log == [AttemptFailed(worker, click.linkId, 1, StoreFailure(a)),
                         AttemptFailed(worker, click.linkId, 2, StoreFailure(b)),
                         Saved(worker, click.linkId)]
  {
    var q' := [Fail(a), Fail(b), Pass] + q;
    assert LeadingFails(q', MaxAttempts) == 2 by {
      assert q'[1..] == [Fail(b), Pass] + q;
      assert q'[1..][1..] == [Pass] + q;
      assert LeadingFails([Pass] + q, 1) == 0;
    }
    assert Backoffs(2) == [100, 200];
    assert q'[3..] == q;
    assert FailureLog(worker, click.linkId, q', 1) == [AttemptFailed(worker, click.linkId, 1, StoreFailure(a))];
  }

  // ---- properties of a drained run of events ----

  /** With a store that never fails, every attempt is the first and only one: no pause, one
    * call per stored click, and the queue stays empty. */
  lemma {:induction false} NeverFailingStoreNeverRetries(worker: nat, events: seq<ClickEvent>)
    ensures var d := Drain(worker, events, []);
            d.calls == d.stored && d.sleeps == [] && d.rest == []
  {
    if events != [] {
      var init := events[..|events| - 1];
      var last := events[|events| - 1];
      NeverFailingStoreNeverRetries(worker, init);
      if last.linkId != 0 {
        var click := ToClick(last);
        PersistOnEmptyQueue(worker, click);
        assert Repeat(click, 1) == [click];
      }
    }
  }

  /** With a store that never fails, every valid event is stored once, converted, in dequeue
    * order, after a single call and without any pause. */
  lemma {:induction false} NeverFailingStoreStoresEveryValidEvent(worker: nat, events: seq<ClickEvent>)
    ensures var d := Drain(worker, events, []);
            && d.stored == ToClicks(ValidEvents(events))
            && d.calls == d.stored
            && d.sleeps == []
            && d.rest == []
  {
    NeverFailingStoreNeverRetries(worker, events);
    if events != [] {
      var init := events[..|events| - 1];
      var last := events[|events| - 1];
      NeverFailingStoreStoresEveryValidEvent(worker, init);
      NeverFailingStoreNeverRetries(worker, init);
      if last.linkId != 0 {
        var click := ToClick(last);
        ToClicksAppend(ValidEvents(init), [last]);
        PersistOnEmptyQueue(worker, click);
        assert ValidEvents(events) == ValidEvents(init) + [last];
        assert ToClicks([last]) == [click];
      } else {
        assert ValidEvents(events) == ValidEvents(init) + [];
      }
    }
  }

  /** A store with no failures left takes the click at the first call. */
  lemma PersistOnEmptyQueue(worker: nat, click: Click)
    ensures Persist(worker, click, []) == Persisted(None, 1, [], [Saved(worker, click.linkId)], [])
  {
    assert LeadingFails([], MaxAttempts) == 0;
  }

  /** Converting distributes over concatenation. */
  lemma {:induction false} ToClicksAppend(a: seq<ClickEvent>, b: seq<ClickEvent>)
    ensures ToClicks(a + b) == ToClicks(a) + ToClicks(b)
  {
    if a != [] {
      assert (a + b)[1..] == a[1..] + b;
      ToClicksAppend(a[1..], b);
    } else {
      assert a + b == b;
    }
  }

  /** At most three calls per valid event and none for an event with a zero key; every click
    * handed to the store, and every one stored, is a converted valid event. */
  lemma {:induction false} DrainCallBound(worker: nat, events: seq<ClickEvent>, q: seq<Fault>)
    ensures var d := Drain(worker, events, q);
            && |d.calls| <= MaxAttempts * |ValidEvents(events)|
            && |d.stored| <= |ValidEvents(events)|
            && (forall c :: c in d.calls ==> c.id == 0 && c.linkId != 0 && EventOf(c) in events)
            && (forall c :: c in d.stored ==> c in d.calls)
  {
    if events != [] {
      var init := events[..|events| - 1];
      var last := events[|events| - 1];
      DrainCallBound(worker, init, q);
      var before := Drain(worker, init, q);
      if last.linkId != 0 {
        PersistBounds(worker, ToClick(last), before.rest);
        var p := Persist(worker, ToClick(last), before.rest);
        var d := Drain(worker, events, q);
        assert d.calls == before.calls + Repeat(ToClick(last), p.calls);
        forall c | c in d.calls ensures c.id == 0 && c.linkId != 0 && EventOf(c) in events {
          if c in before.calls {
            assert EventOf(c) in init;
          }
        }
        forall c | c in d.stored ensures c in d.calls {
          if c !in before.stored {
            assert c == ToClick(last);
            assert d.calls[|before.calls|] == c;
          }
        }
      } else {
        forall c | c in before.calls ensures EventOf(c) in events {
          assert EventOf(c) in init;
        }
      }
    }
  }

  /** With a store that never fails, the count for a link grows by the number of its events. */
  lemma {:induction false} NeverFailingStoreCounts(worker: nat, events: seq<ClickEvent>, clicks: seq<Click>, linkId: nat)
    requires linkId != 0
    ensures CountFor(clicks + Drain(worker, events, []).stored, linkId) == CountFor(clicks, linkId) + EventsFor(events, linkId)
  {
    NeverFailingStoreStoresEveryValidEvent(worker, events);
    CountForAppend(clicks, Drain(worker, events, []).stored, linkId);
    StoredCount(events, linkId);
  }

  /** The converted valid events hold as many clicks for a non-zero key as there are events for it. */
  lemma {:induction false} StoredCount(events: seq<ClickEvent>, linkId: nat)
    requires linkId != 0
    ensures CountFor(ToClicks(ValidEvents(events)), linkId) == EventsFor(events, linkId)
  {
    if events != [] {
      var init := events[..|events| - 1];
      var last := events[|events| - 1];
      var tail := if last.linkId != 0 then [last] else [];
      StoredCount(init, linkId);
      ToClicksAppend(ValidEvents(init), tail);
      CountForAppend(ToClicks(ValidEvents(init)), ToClicks(tail), linkId);
      if last.linkId != 0 {
        assert ToClicks(tail) == [ToClick(last)];
        assert ToClicks(tail)[1..] == [];
      }
    }
  }
}
