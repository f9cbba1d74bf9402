/** The trailing-edge debounce (lodash `debounce(fn, 1000)`) a note wraps its
    remote update in, without real timers.

    Two views are given. `Run` is the per-key pending-slot machine: a call
    arms (or re-arms) the key's slot with its payload, replacing any payload
    already waiting; the key's timer expiring sends whatever waits and empties
    the slot. `Trailing` is the timed view of one slot: given the calls with
    their times, it lists the writes that fire and when. `TimedMatchesSlots`
    shows the two agree. */
module Debounce {
  import opened Seqs

  datatype Event<K, P> = Call(key: K, payload: P) | Expire(key: K)

  /** A remote write that left the scheduler. */
  datatype Sent<K, P> = Sent(key: K, payload: P)

  /** The waiting payloads after a run of events, and what was sent, in order. */
  datatype RunResult<K, P> = RunResult(pending: map<K, P>, sent: seq<Sent<K, P>>)

  /** One event. A call arms its key's slot with the payload, replacing what
      waited there, and sends nothing; an expiry sends what waited for its
      key, if anything, and empties that slot. Other slots are untouched. */
  function Step<K, P>(pending: map<K, P>, e: Event<K, P>): (r: RunResult<K, P>)
    ensures r.pending - {e.key} == pending - {e.key}
    ensures e.Call? ==> r.sent == [] && e.key in r.pending && r.pending[e.key] == e.payload
    ensures e.Expire? ==> e.key !in r.pending
    ensures e.Expire? && e.key in pending ==> r.sent == [Sent(e.key, pending[e.key])]
    ensures e.Expire? && e.key !in pending ==> r.sent == []
  {
    match e
    case Call(k, p) => RunResult(pending[k := p], [])
    case Expire(k) =>
      if k in pending then RunResult(pending - {k}, [Sent(k, pending[k])])
      else RunResult(pending, [])
  }

  /** The write `x` carries a payload that was waiting at the start or was
      given by a call in `events`, and its key's timer expired in `events`. */
  ghost predicate Accounted<K, P>(pending: map<K, P>, events: seq<Event<K, P>>, x: Sent<K, P>) {
    && ((x.key in pending && pending[x.key] == x.payload) || Call(x.key, x.payload) in events)
    && Expire(x.key) in events
  }

  /** A sequence of events, from the given waiting payloads: each event is
      one `Step`, and the writes are sent in event order, at most one per
      event. */
  function Run<K, P>(pending: map<K, P>, events: seq<Event<K, P>>): (r: RunResult<K, P>)
    ensures |r.sent| <= |events|
    decreases |events|
  {
    if |events| == 0 then RunResult(pending, [])
    else
      var first := Step(pending, events[0]);
      var rest := Run(first.pending, events[1..]);
      RunResult(rest.pending, first.sent + rest.sent)
  }

  /** Nothing is sent from nowhere: every write a run sends is for a key
      whose timer expired during the run, and carries a payload that was
      already waiting or that a call during the run supplied. */
  lemma {:induction false} RunSendsOnlyAccounted<K, P>(pending: map<K, P>, events: seq<Event<K, P>>)
    ensures forall i :: 0 <= i < |Run(pending, events).sent| ==> Accounted(pending, events, Run(pending, events).sent[i])
    decreases |events|
  {
    if |events| > 0 {
      var first := Step(pending, events[0]);
      var rest := Run(first.pending, events[1..]);
      RunSendsOnlyAccounted(first.pending, events[1..]);
      AccountedStep(pending, events, rest.sent);
    }
  }

  /** A write accounted for after the first event is accounted for from the
      start. */
  lemma AccountedStep<K, P>(pending: map<K, P>, events: seq<Event<K, P>>, later: seq<Sent<K, P>>)
    requires |events| > 0
    requires forall i :: 0 <= i < |later| ==> Accounted(Step(pending, events[0]).pending, events[1..], later[i])
    ensures forall i :: 0 <= i < |later| ==> Accounted(pending, events, later[i])
  {
    var e := events[0];
    var mid := Step(pending, e).pending;
    assert events == [e] + events[1..];
    forall i | 0 <= i < |later|
      ensures Accounted(pending, events, later[i])
    {
      var x := later[i];
      assert Accounted(mid, events[1..], x);
      if x.key in mid && mid[x.key] == x.payload && x.key != e.key {
        assert x.key in mid - {e.key};
      }
    }
  }

  /** `n` calls for one key. */
  function Calls<K, P>(k: K, payloads: seq<P>): (r: seq<Event<K, P>>)
    ensures |r| == |payloads|
    ensures forall i :: 0 <= i < |r| ==> r[i] == Call(k, payloads[i])
  {
    if |payloads| == 0 then [] else [Call(k, payloads[0])] + Calls(k, payloads[1..])
  }

  /** Running two event sequences one after the other. */
  lemma {:induction false} RunAppend<K, P>(pending: map<K, P>, a: seq<Event<K, P>>, b: seq<Event<K, P>>)
    ensures Run(pending, a + b).pending == Run(Run(pending, a).pending, b).pending
    ensures Run(pending, a + b).sent == Run(pending, a).sent + Run(Run(pending, a).pending, b).sent
    decreases |a|
  {
    if |a| == 0 {
      assert a + b == b;
    } else {
      assert (a + b)[0] == a[0];
      assert (a + b)[1..] == a[1..] + b;
      RunAppend(Step(pending, a[0]).pending, a[1..], b);
    }
  }

  /** Calls alone send nothing; the slot then holds the last payload. */
  lemma {:induction false} CallsOnlyArm<K, P>(pending: map<K, P>, k: K, payloads: seq<P>)
    requires |payloads| > 0
    ensures Run(pending, Calls(k, payloads)).sent == []
    ensures Run(pending, Calls(k, payloads)).pending == pending[k := payloads[|payloads| - 1]]
    decreases |payloads|
  {
    if |payloads| > 1 {
      assert Calls(k, payloads)[1..] == Calls(k, payloads[1..]);
      CallsOnlyArm(pending[k := payloads[0]], k, payloads[1..]);
      assert pending[k := payloads[0]][k := payloads[|payloads| - 1]] == pending[k := payloads[|payloads| - 1]];
    }
  }

  /** Coalescing: a burst of calls for one key followed by the key's timer
      expiring sends exactly one write, carrying the last payload, and leaves
      the slot empty. */
  lemma BurstSendsLast<K, P>(pending: map<K, P>, k: K, payloads: seq<P>)
    requires |payloads| > 0
    ensures Run(pending, Calls(k, payloads) + [Expire(k)]).sent == [Sent(k, payloads[|payloads| - 1])]
    ensures Run(pending, Calls(k, payloads) + [Expire(k)]).pending == pending - {k}
  {
    RunAppend(pending, Calls(k, payloads), [Expire(k)]);
    CallsOnlyArm(pending, k, payloads);
    var armed := pending[k := payloads[|payloads| - 1]];
    assert armed - {k} == pending - {k};
  }

  /** Expiring a key with nothing waiting sends nothing. */
  lemma IdleExpireSendsNothing<K, P>(pending: map<K, P>, k: K)
    requires k !in pending
    ensures Run(pending, [Expire(k)]) == RunResult(pending, [])
  {
  }

  /** Two calls on different keys, then both timers: each call is sent, in
      the order the timers fire, and nothing waits afterwards. */
  lemma TwoKeysBothSent<K, P>(k1: K, p1: P, k2: K, p2: P)
    requires k1 != k2
    ensures Run(map[], [Call(k1, p1), Call(k2, p2), Expire(k1), Expire(k2)])
            == RunResult(map[], [Sent(k1, p1), Sent(k2, p2)])
  {
    var events := [Call(k1, p1), Call(k2, p2), Expire(k1), Expire(k2)];
    var m1 := map[k1 := p1];
    var m2 := m1[k2 := p2];
    assert Run(map[], events) == Run(m1, events[1..]);
    assert Run(m1, events[1..]) == Run(m2, events[2..]);
    assert m2 - {k1} == map[k2 := p2];
    assert Run(m2, events[2..]) == RunResult(map[], [Sent(k1, p1)] + Run(map[k2 := p2], events[3..]).sent);
    assert map[k2 := p2] - {k2} == map[];
  }

  // ---------------------------------------------------------------------
  // Independence of keys

  /** The predicate "this event is about key `k`". */
  function EventKeyIs<K(==), P>(k: K): Event<K, P> -> bool {
    (e: Event<K, P>) => e.key == k
  }

  /** The predicate "this write is for key `k`". */
  function SentKeyIs<K(==), P>(k: K): Sent<K, P> -> bool {
    (x: Sent<K, P>) => x.key == k
  }

  /** The events about key `k`. */
  function EventsFor<K(==), P>(events: seq<Event<K, P>>, k: K): seq<Event<K, P>> {
    Filter(events, EventKeyIs(k))
  }

  /** The writes for key `k`. */
  function SentFor<K(==), P>(sent: seq<Sent<K, P>>, k: K): seq<Sent<K, P>> {
    Filter(sent, SentKeyIs(k))
  }

  /** The slot of key `k` alone. */
  function SlotOf<K(==), P>(pending: map<K, P>, k: K): (r: map<K, P>)
    ensures r.Keys <= {k}
    ensures k in r <==> k in pending
    ensures k in r ==> r[k] == pending[k]
  {
    if k in pending then map[k := pending[k]] else map[]
  }

  /** One step for another key leaves the slot of `k` alone and sends nothing
      for `k`. */
  lemma StepElsewhere<K, P>(pending: map<K, P>, e: Event<K, P>, k: K)
    requires e.key != k
    ensures SlotOf(Step(pending, e).pending, k) == SlotOf(pending, k)
    ensures SentFor(Step(pending, e).sent, k) == []
  {
    FilterDropsAll(Step(pending, e).sent, SentKeyIs(k));
  }

  /** One step for key `k` behaves on `k` as if no other slot existed. */
  lemma StepHere<K, P>(pending: map<K, P>, e: Event<K, P>, k: K)
    requires e.key == k
    ensures SlotOf(Step(pending, e).pending, k) == Step(SlotOf(pending, k), e).pending
    ensures SentFor(Step(pending, e).sent, k) == Step(SlotOf(pending, k), e).sent
  {
    FilterKeepsAll(Step(pending, e).sent, SentKeyIs(k));
  }

  /** The claim of `KeysAreIndependent` for one run. */
  ghost predicate IndependentOn<K, P>(pending: map<K, P>, events: seq<Event<K, P>>, k: K) {
    && SentFor(Run(pending, events).sent, k) == Run(SlotOf(pending, k), EventsFor(events, k)).sent
    && SlotOf(Run(pending, events).pending, k) == Run(SlotOf(pending, k), EventsFor(events, k)).pending
  }

  /** The inductive step when the first event is about `k`. */
  lemma IndependentHere<K, P>(pending: map<K, P>, events: seq<Event<K, P>>, k: K)
    requires |events| > 0 && events[0].key == k
    requires IndependentOn(Step(pending, events[0]).pending, events[1..], k)
    ensures IndependentOn(pending, events, k)
  {
    var e := events[0];
    var first := Step(pending, e);
    var rest := Run(first.pending, events[1..]);
    FilterAppend(first.sent, rest.sent, SentKeyIs(k));
    StepHere(pending, e, k);
    var only := EventsFor(events, k);
    assert only == [e] + EventsFor(events[1..], k);
    assert only[0] == e && only[1..] == EventsFor(events[1..], k);
  }

  /** The inductive step when the first event is about another key. */
  lemma IndependentElsewhere<K, P>(pending: map<K, P>, events: seq<Event<K, P>>, k: K)
    requires |events| > 0 && events[0].key != k
    requires IndependentOn(Step(pending, events[0]).pending, events[1..], k)
    ensures IndependentOn(pending, events, k)
  {
    var e := events[0];
    var first := Step(pending, e);
    var rest := Run(first.pending, events[1..]);
    FilterAppend(first.sent, rest.sent, SentKeyIs(k));
    StepElsewhere(pending, e, k);
    assert EventsFor(events, k) == EventsFor(events[1..], k);
  }

  /** Independence: what is sent for key `k` depends only on the events about
      `k` and on `k`'s own slot; calls for other keys never delay, replace or
      drop a write for `k`. */
  lemma {:induction false} KeysAreIndependent<K, P>(pending: map<K, P>, events: seq<Event<K, P>>, k: K)
    ensures SentFor(Run(pending, events).sent, k) == Run(SlotOf(pending, k), EventsFor(events, k)).sent
    ensures SlotOf(Run(pending, events).pending, k) == Run(SlotOf(pending, k), EventsFor(events, k)).pending
    decreases |events|
  {
    if |events| == 0 {
      FilterDropsAll(Run(pending, events).sent, SentKeyIs(k));
    } else {
      KeysAreIndependent(Step(pending, events[0]).pending, events[1..], k);
      if events[0].key == k {
        IndependentHere(pending, events, k);
      } else {
        IndependentElsewhere(pending, events, k);
      }
    }
  }

  // ---------------------------------------------------------------------
  // The timed view of one slot

  /** A call at time `at` (milliseconds), or a write fired at time `at`. */
  datatype Timed<P> = Timed(at: real, payload: P)

  /** The call at index `i` is followed by a quiet period of `wait`: it is the
      last call, or the next one comes at least `wait` later. */
  predicate QuietAfter<P>(calls: seq<Timed<P>>, i: nat, wait: real)
    requires i < |calls|
  {
    i == |calls| - 1 || calls[i + 1].at - calls[i].at >= wait
  }

  /** The writes a trailing-edge debounce of `wait` fires for one slot: a call
      whose quiet period runs out is sent `wait` after it was made; a call
      followed sooner by another is superseded and never sent. */
  function Trailing<P>(calls: seq<Timed<P>>, wait: real): (r: seq<Timed<P>>)
    ensures |r| <= |calls|
    ensures |calls| > 0 ==> |r| > 0 && r[|r| - 1] == Timed(calls[|calls| - 1].at + wait, calls[|calls| - 1].payload)
  {
    if |calls| == 0 then []
    else
      var head := if QuietAfter(calls, 0, wait) then [Timed(calls[0].at + wait, calls[0].payload)] else [];
      head + Trailing(calls[1..], wait)
  }

  /** A burst (every gap shorter than the window) yields exactly one write,
      `wait` after the last call, carrying the last payload. */
  lemma {:induction false} BurstFiresOnce<P>(calls: seq<Timed<P>>, wait: real)
    requires |calls| > 0
    requires forall i :: 0 <= i < |calls| - 1 ==> calls[i + 1].at - calls[i].at < wait
    ensures Trailing(calls, wait) == [Timed(calls[|calls| - 1].at + wait, calls[|calls| - 1].payload)]
  {
    if |calls| > 1 {
      BurstFiresOnce(calls[1..], wait);
    }
  }

  /** Calls spaced at least the window apart each yield their own write. */
  lemma {:induction false} SpacedCallsAllFire<P>(calls: seq<Timed<P>>, wait: real)
    requires forall i :: 0 <= i < |calls| - 1 ==> calls[i + 1].at - calls[i].at >= wait
    ensures |Trailing(calls, wait)| == |calls|
    ensures forall i :: 0 <= i < |calls| ==> Trailing(calls, wait)[i] == Timed(calls[i].at + wait, calls[i].payload)
  {
    if |calls| > 0 {
      SpacedCallsAllFire(calls[1..], wait);
    }
  }

  /** The calls at 0, 200 and 400 ms with a 1000 ms window give one write, at
      1400 ms, carrying the payload of the call at 400 ms. */
  lemma ThreeQuickCalls<P>(a: P, b: P, c: P)
    ensures Trailing([Timed(0.0, a), Timed(200.0, b), Timed(400.0, c)], 1000.0) == [Timed(1400.0, c)]
  {
    BurstFiresOnce([Timed(0.0, a), Timed(200.0, b), Timed(400.0, c)], 1000.0);
  }

  /** The slot-machine events of a timed call sequence: each call, followed by
      its key's timer expiring when its quiet period runs out. */
  function TimedEvents<K, P>(k: K, calls: seq<Timed<P>>, wait: real): seq<Event<K, P>> {
    if |calls| == 0 then []
    else
      [Call(k, calls[0].payload)]
        + (if QuietAfter(calls, 0, wait) then [Expire(k)] else [])
        + TimedEvents(k, calls[1..], wait)
  }

  /** The payloads of a list of writes. */
  function Payloads<K, P>(sent: seq<Sent<K, P>>): seq<P> {
    Map(sent, (x: Sent<K, P>) => x.payload)
  }

  /** The payloads of timed writes. */
  function TimedPayloads<P>(writes: seq<Timed<P>>): seq<P> {
    Map(writes, (x: Timed<P>) => x.payload)
  }

  /** The two views agree: driving the slot machine with the timed calls and
      the expiries their quiet periods imply sends exactly the payloads the
      timed view fires, in the same order. */
  lemma {:induction false} TimedMatchesSlots<K, P>(pending: map<K, P>, k: K, calls: seq<Timed<P>>, wait: real)
    requires |calls| > 0
    ensures Payloads(Run(pending, TimedEvents(k, calls, wait)).sent) == TimedPayloads(Trailing(calls, wait))
    decreases |calls|
  {
    var call := [Call(k, calls[0].payload)];
    var expire: seq<Event<K, P>> := if QuietAfter(calls, 0, wait) then [Expire(k)] else [];
    var tail := TimedEvents(k, calls[1..], wait);
    assert TimedEvents(k, calls, wait) == (call + expire) + tail;
    RunAppend(pending, call + expire, tail);
    RunAppend(pending, call, expire);
    var armed := pending[k := calls[0].payload];
    assert Run(pending, call).pending == armed;
    var mid := Run(pending, call + expire);
    var head: seq<Timed<P>> := if QuietAfter(calls, 0, wait) then [Timed(calls[0].at + wait, calls[0].payload)] else [];
    assert Trailing(calls, wait) == head + Trailing(calls[1..], wait);
    if QuietAfter(calls, 0, wait) {
      assert mid.sent == [Sent(k, calls[0].payload)];
    } else {
      assert mid.sent == [];
    }
    if |calls| > 1 {
      TimedMatchesSlots(mid.pending, k, calls[1..], wait);
    } else {
      assert tail == [];
    }
    MapAppend(mid.sent, Run(mid.pending, tail).sent, (x: Sent<K, P>) => x.payload);
    MapAppend(head, Trailing(calls[1..], wait), (x: Timed<P>) => x.payload);
  }
}
