/** The asynchronous sender: packets wait in a list for their time or for their socket. */
module AsyncSend {
  import opened Wrappers
  import opened CodeLength
  import opened SeqTools

  const SECOND: int := 1000000
  const FINALIZE_SENDTO_DELAY: int := 500   // milliseconds

  // ---------- time ----------

  datatype TimeVal = TimeVal(sec: int, usec: int)

  function Micros(t: TimeVal): int {
    t.sec * SECOND + t.usec
  }

  /** What the clock returns. */
  predicate Normal(t: TimeVal) {
    0 <= t.usec < SECOND
  }

  /** What the carry test leaves: a full second may stay in the microseconds. */
  predicate NearlyNormal(t: TimeVal) {
    0 <= t.usec <= SECOND
  }

  /** t plus a delay in milliseconds, with one carry when the microseconds exceed a second. */
  function Plus(t: TimeVal, delay: nat): (r: TimeVal)
    requires Normal(t)
    ensures NearlyNormal(r) && Micros(r) == Micros(t) + 1000 * delay
  {
    var sec, usec := t.sec + delay / 1000, t.usec + delay % 1000 * 1000;
    if usec > SECOND then TimeVal(sec + 1, usec - SECOND) else TimeVal(sec, usec)
  }

  lemma CarryCanBeMissed()
    ensures Plus(TimeVal(7, 999000), 1) == TimeVal(7, SECOND)
    ensures !Normal(Plus(TimeVal(7, 999000), 1))
  {
  }

  /** The test of get_sendto_fds. */
  predicate DueBy(ts: TimeVal, now: TimeVal) {
    ts.sec < now.sec || (ts.sec == now.sec && ts.usec <= now.usec)
  }

  /** The test of get_next_scheduled_send. */
  predicate Earlier(a: TimeVal, b: TimeVal) {
    a.sec < b.sec || (a.sec == b.sec && a.usec < b.usec)
  }

  lemma SecondsDecide(a: TimeVal, b: TimeVal)
    requires NearlyNormal(a) && NearlyNormal(b) && a.sec < b.sec
    ensures Micros(a) <= Micros(b) && (Micros(a) == Micros(b) ==> b.usec == 0 && a.usec == SECOND)
  {
    assert (b.sec - a.sec - 1) * SECOND >= 0;
  }

  /** Despite the carry, the field-wise tests are tests on the true times. */
  lemma DueIsTrueOrder(ts: TimeVal, now: TimeVal)
    requires NearlyNormal(ts) && Normal(now)
    ensures DueBy(ts, now) <==> Micros(ts) <= Micros(now)
  {
    if ts.sec < now.sec {
      SecondsDecide(ts, now);
    } else if now.sec < ts.sec {
      SecondsDecide(now, ts);
    }
  }

  lemma EarlierIsTrueOrder(a: TimeVal, b: TimeVal)
    requires NearlyNormal(a) && NearlyNormal(b)
    ensures if Earlier(a, b) then Micros(a) <= Micros(b) else Micros(b) <= Micros(a)
  {
    if a.sec < b.sec {
      SecondsDecide(a, b);
    } else if b.sec < a.sec {
      SecondsDecide(b, a);
    }
  }

  /** The deadline test of finalize_sendto is right but for one instant: a deadline whose microseconds
      were left at a full second counts as over when it is reached. */
  lemma DeadlineTest(now: TimeVal, deadline: TimeVal)
    requires Normal(now) && NearlyNormal(deadline)
    ensures Earlier(deadline, now) <==>
      Micros(deadline) < Micros(now) || (Micros(deadline) == Micros(now) && deadline.usec == SECOND)
  {
    if deadline.sec < now.sec {
      SecondsDecide(deadline, now);
    } else if now.sec < deadline.sec {
      SecondsDecide(now, deadline);
    }
  }

  /** For instance: half a second after s + 0.5 seconds is s + 1 seconds, and a reading of just that is
      taken for a later time. */
  lemma DeadlineExample(s: int)
    ensures var deadline, now := Plus(TimeVal(s, 500000), FINALIZE_SENDTO_DELAY), TimeVal(s + 1, 0);
            Normal(now) && Micros(deadline) == Micros(now) && Earlier(deadline, now)
  {
  }

  // ---------- packets ----------

  datatype SendState = EScheduled | EWaitReady | ESendNow

  /** The result of one sendto call. */
  datatype Outcome = Sent(count: nat) | Interrupted | WouldBlock | Failed

  predicate Final(o: Outcome) {
    o.Sent? || o.Failed?
  }

  /** id stands for the address of the element; queuedAt and delay remember the request. */
  datatype Packet = Packet(
    id: nat, queuedAt: TimeVal, delay: nat, ts: TimeVal, state: SendState,
    sockfd: int, data: seq<Byte>)

  /** When the packet may leave. */
  function Due(p: Packet): int {
    Micros(p.queuedAt) + 1000 * p.delay
  }

  /** What happens to packets. */
  datatype Event =
    | Direct(id: nat, outcome: Outcome)                  // the attempt at the time of the request
    | Attempt(id: nat, p: Packet, outcome: Outcome, at: int)   // by try_sendto; at is the latest time read
    | Flush(id: nat, outcome: Outcome)                   // by finalize_sendto
    | Dropped(id: nat)                                   // by finalize_sendto, past its deadline
    | Refused(id: nat)                                   // no clock or no memory: the caller is told

  /** The packet's last event. Only while shutting down does an interrupted call count as one. */
  predicate Ending(e: Event) {
    match e
    case Direct(_, outcome) => Final(outcome)
    case Attempt(_, _, outcome, _) => Final(outcome)
    case Flush(_, outcome) => !outcome.WouldBlock?
    case _ => true
  }

  /** send_list, and the history that led to it. */
  datatype Scheduler = Scheduler(queue: seq<Packet>, events: seq<Event>, next: nat, clock: int)

  const INITIAL := Scheduler([], [], 0, 0)

  function Max(a: int, b: int): int {
    if a < b then b else a
  }

  // ---------- the operations ----------

  datatype Request = Request(sockfd: int, data: seq<Byte>, delay: nat)

  function StateAfter(o: Outcome): (r: SendState) {
    if o.WouldBlock? then EWaitReady else ESendNow
  }

  /** sendto_schedule2; now is None when the clock fails. */
  function Scheduled(s: Scheduler, req: Request, outcome: Outcome, now: Option<TimeVal>, memory: bool): (r: Scheduler)
    requires now.Some? ==> Normal(now.value)
  {
    var tried := if req.delay == 0 then [Direct(s.next, outcome)] else [];
    var t := s.(events := s.events + tried, next := s.next + 1);
    if req.delay == 0 && Final(outcome) then t
    else if now.None? || !memory then t.(events := t.events + [Refused(s.next)])
    else
      var state := if req.delay == 0 then StateAfter(outcome) else EScheduled;
      var p := Packet(s.next, now.value, req.delay, Plus(now.value, req.delay), state, req.sockfd, req.data);
      t.(queue := [p] + t.queue, clock := Max(t.clock, Micros(now.value)))
  }

  /** What get_sendto_fds counts. */
  predicate Busy(p: Packet, now: TimeVal) {
    p.state == EWaitReady || DueBy(p.ts, now)
  }

  /** The sockets of the first n packets that wait for their socket. */
  ghost function Blocked(q: seq<Packet>, n: nat): set<int>
    requires n <= |q|
  {
    set k | 0 <= k < n && q[k].state == EWaitReady :: q[k].sockfd
  }

  lemma BlockedNone(q: seq<Packet>, now: TimeVal)
    ensures Blocked(q, 0) == {} && BusyAt(q, 0, now) == {}
  {
  }

  ghost predicate AtMost(s: set<int>, max: int) {
    forall x :: x in s ==> x <= max
  }

  /** The result of get_sendto_fds for the first i packets. */
  ghost predicate Scanned(q: seq<Packet>, i: nat, now: TimeVal, writefds: set<int>, maxFd: int,
                          n: nat, fds: set<int>, max: int)
    requires i <= |q|
  {
    && n == |BusyAt(q, i, now)| && fds == writefds + Blocked(q, i)
    && maxFd <= max && AtMost(Blocked(q, i), max)
  }

  lemma ScanStart(q: seq<Packet>, writefds: set<int>, maxFd: int, now: TimeVal)
    ensures Scanned(q, 0, now, writefds, maxFd, 0, writefds, maxFd)
  {
    BlockedNone(q, now);
  }

  lemma ScanEnd(q: seq<Packet>, now: TimeVal, writefds: set<int>, maxFd: int, n: nat, fds: set<int>, max: int)
    requires Scanned(q, |q|, now, writefds, maxFd, n, fds, max)
    ensures n == |BusyAt(q, |q|, now)| && fds == writefds + Blocked(q, |q|)
    ensures maxFd <= max && AtMost(Blocked(q, |q|), max)
  {
  }

  lemma ScanStep(q: seq<Packet>, i: nat, now: TimeVal, writefds: set<int>, maxFd: int, n: nat, fds: set<int>, max: int)
    requires i < |q| && Scanned(q, i, now, writefds, maxFd, n, fds, max)
    ensures q[i].state == EWaitReady ==>
      Scanned(q, i + 1, now, writefds, maxFd, n + 1, fds + {q[i].sockfd}, if q[i].sockfd > max
          then q[i].sockfd else max)
    ensures q[i].state != EWaitReady ==>
      Scanned(q, i + 1, now, writefds, maxFd, if DueBy(q[i].ts, now) then n + 1 else n, fds, max)
  {
    hide Blocked, BusyAt, DueBy;
    BlockedNext(q, i);
    BusyNext(q, i, now);
  }

  lemma BlockedNext(q: seq<Packet>, n: nat)
    requires n < |q|
    ensures Blocked(q, n + 1) == Blocked(q, n) + if q[n].state == EWaitReady then {q[n].sockfd} else {}
  {
  }

  /** Where among the first n packets the counted ones are. */
  ghost function BusyAt(q: seq<Packet>, n: nat, now: TimeVal): set<int>
    requires n <= |q|
  {
    set k | 0 <= k < n && Busy(q[k], now)
  }

  lemma BusyNext(q: seq<Packet>, n: nat, now: TimeVal)
    requires n < |q|
    ensures |BusyAt(q, n + 1, now)| == |BusyAt(q, n, now)| + if Busy(q[n], now) then 1 else 0
  {
    var more := if Busy(q[n], now) then {n} else {};
    assert BusyAt(q, n + 1, now) == BusyAt(q, n, now) + more;
  }

  function MarkedOne(p: Packet, now: TimeVal): (r: Packet) {
    if p.state != EWaitReady && DueBy(p.ts, now) then p.(state := ESendNow) else p
  }

  /** get_sendto_fds on the list. */
  function Marked(q: seq<Packet>, now: TimeVal): (r: seq<Packet>)
    ensures |r| == |q| && forall k :: 0 <= k < |q| ==> r[k] == MarkedOne(q[k], now)
  {
    if q == [] then [] else [MarkedOne(q[0], now)] + Marked(q[1..], now)
  }

  /** The first n packets have been marked. */
  ghost predicate MarkedUpTo(q: seq<Packet>, r: seq<Packet>, n: nat, now: TimeVal)
    requires n <= |q|
  {
    r == Marked(q[..n], now) + q[n..]
  }

  lemma MarkedStart(q: seq<Packet>, now: TimeVal)
    ensures MarkedUpTo(q, q, 0, now)
  {
    assert q[..0] == [] && [] + q[0..] == q;
  }

  lemma MarkedStep(q: seq<Packet>, r: seq<Packet>, n: nat, now: TimeVal)
    requires n < |q| && MarkedUpTo(q, r, n, now)
    ensures |r| == |q| && r[n] == q[n]
    ensures MarkedUpTo(q, r[n := MarkedOne(q[n], now)], n + 1, now)
    ensures MarkedOne(q[n], now) == q[n] ==> MarkedUpTo(q, r, n + 1, now)
  {
    hide Marked;
    assert Marked(q[..n + 1], now) == Marked(q[..n], now) + [MarkedOne(q[n], now)];
  }

  lemma MarkedIs(q: seq<Packet>, r: seq<Packet>, now: TimeVal)
    requires MarkedUpTo(q, r, |q|, now)
    ensures r == Marked(q, now)
  {
    assert q[..|q|] == q && Marked(q, now) + q[|q|..] == Marked(q, now);
  }

  predicate Eligible(p: Packet, ready: set<int>) {
    p.state == ESendNow || (p.state == EWaitReady && p.sockfd in ready)
  }

  function TriedOne(p: Packet, ready: set<int>, outcome: nat -> Outcome): (r: seq<Packet>) {
    if !Eligible(p, ready) then [p]
    else if Final(outcome(p.id)) then []
    else [p.(state := StateAfter(outcome(p.id)))]
  }

  function EventOne(p: Packet, ready: set<int>, outcome: nat -> Outcome, at: int): (r: seq<Event>) {
    if Eligible(p, ready) then [Attempt(p.id, p, outcome(p.id), at)] else []
  }

  /** try_sendto: the list afterwards, and the attempts made. */
  function Tried(q: seq<Packet>, ready: set<int>, outcome: nat -> Outcome): (r: seq<Packet>) {
    if q == [] then [] else TriedOne(q[0], ready, outcome) + Tried(q[1..], ready, outcome)
  }

  function TriedEvents(q: seq<Packet>, ready: set<int>, outcome: nat -> Outcome, at: int): (r: seq<Event>) {
    if q == [] then [] else EventOne(q[0], ready, outcome, at) + TriedEvents(q[1..], ready, outcome, at)
  }

  lemma TriedNext(q: seq<Packet>, ready: set<int>, outcome: nat -> Outcome, at: int)
    requires q != []
    ensures Tried(q, ready, outcome) == TriedOne(q[0], ready, outcome) + Tried(q[1..], ready, outcome)
    ensures TriedEvents(q, ready, outcome, at) == EventOne(q[0], ready, outcome, at) +
      TriedEvents(q[1..], ready, outcome, at)
    ensures Failures(q, ready, outcome) ==
      (if Eligible(q[0], ready) && outcome(q[0].id).Failed? then -1 else 0) + Failures(q[1..], ready, outcome)
  {
  }

  lemma TriedNothing(ready: set<int>, outcome: nat -> Outcome, at: int)
    ensures Tried([], ready, outcome) == [] && TriedEvents([], ready, outcome, at) == []
      && Failures([], ready, outcome) == 0
  {
  }

  /** Minus the number of hard errors. */
  function Failures(q: seq<Packet>, ready: set<int>, outcome: nat -> Outcome): (r: int) {
    if q == [] then 0
    else (if Eligible(q[0], ready) && outcome(q[0].id).Failed? then -1 else 0) + Failures(q[1..], ready, outcome)
  }

  function FlushedOne(p: Packet, outcome: nat -> Outcome): (r: seq<Packet>) {
    if outcome(p.id).WouldBlock? then [p] else []
  }

  /** One pass of finalize_sendto: every packet is tried, whatever its time. */
  function Flushed(q: seq<Packet>, outcome: nat -> Outcome): (r: seq<Packet>) {
    if q == [] then [] else FlushedOne(q[0], outcome) + Flushed(q[1..], outcome)
  }

  function FlushedEvents(q: seq<Packet>, outcome: nat -> Outcome): (r: seq<Event>) {
    if q == [] then [] else [Flush(q[0].id, outcome(q[0].id))] + FlushedEvents(q[1..], outcome)
  }

  function Drops(q: seq<Packet>): (r: seq<Event>) {
    if q == [] then [] else [Dropped(q[0].id)] + Drops(q[1..])
  }

  /** The environment of one pass: the results of sendto, the clock, and whether select works. */
  datatype Round = Round(outcome: nat -> Outcome, now: Option<TimeVal>, selected: bool)

  /** finalize_sendto, for as long as there are rounds. */
  function Finalized(s: Scheduler, deadline: TimeVal, rounds: seq<Round>): (r: Scheduler)
    decreases |rounds|
  {
    if s.queue == [] || rounds == [] then s
    else
      var t := s.(queue := Flushed(s.queue, rounds[0].outcome), events := s.events +
          FlushedEvents(s.queue, rounds[0].outcome));
      if rounds[0].now.None? then t
      else if Earlier(deadline, rounds[0].now.value) then t.(queue := [], events := t.events + Drops(t.queue))
      else if t.queue != [] && !rounds[0].selected then t
      else Finalized(t, deadline, rounds[1..])
  }

  datatype Op =
    | Schedule(req: Request, outcome: Outcome, now: Option<TimeVal>, memory: bool)
    | Select(time: TimeVal)
    | Try(ready: set<int>, outcomes: nat -> Outcome)
    | Finalize(start: Option<TimeVal>, rounds: seq<Round>)

  predicate OpOk(op: Op) {
    match op
    case Schedule(_, _, now, _) => now.Some? ==> Normal(now.value)
    case Select(time) => Normal(time)
    case Try(_, _) => true
    case Finalize(start, rounds) => start.Some? ==> Normal(start.value)
  }

  function Step(s: Scheduler, op: Op): (r: Scheduler)
    requires OpOk(op)
  {
    match op
    case Schedule(req, outcome, now, memory) => Scheduled(s, req, outcome, now, memory)
    case Select(time) => s.(queue := Marked(s.queue, time), clock := Max(s.clock, Micros(time)))
    case Try(ready, outcomes) =>
      s.(queue := Tried(s.queue, ready, outcomes), events := s.events + TriedEvents(s.queue, ready, outcomes, s.clock))
    case Finalize(start, rounds) =>
      if start.None? then s else Finalized(s, Plus(start.value, FINALIZE_SENDTO_DELAY), rounds)
  }

  lemma SelectStep(s: Scheduler, now: TimeVal)
    requires Normal(now)
    ensures Step(s, Select(now)) == s.(queue := Marked(s.queue, now), clock := Max(s.clock, Micros(now)))
  {
  }

  function Run(s: Scheduler, ops: seq<Op>): (r: Scheduler)
    requires forall k :: 0 <= k < |ops| ==> OpOk(ops[k])
    decreases |ops|
  {
    if ops == [] then s else Run(Step(s, ops[0]), ops[1..])
  }

  // ---------- the invariant ----------

  predicate Waiting(q: seq<Packet>, id: nat) {
    exists k :: 0 <= k < |q| && q[k].id == id
  }

  predicate Ended(events: seq<Event>, id: nat) {
    exists j :: 0 <= j < |events| && events[j].id == id && Ending(events[j])
  }

  predicate PacketOk(p: Packet, clock: int) {
    && NearlyNormal(p.ts) && Micros(p.ts) == Due(p)
    && (p.state != EScheduled ==> Due(p) <= clock)
  }

  /** Every packet ever taken is either waiting or over, never both. */
  ghost predicate Conserved(q: seq<Packet>, events: seq<Event>, next: nat) {
    && (forall id: nat :: id < next ==> (Waiting(q, id) <==> !Ended(events, id)))
    && (forall k :: 0 <= k < |q| ==> q[k].id < next)
    && (forall j :: 0 <= j < |events| ==> events[j].id < next)
  }

  ghost predicate Distinct(q: seq<Packet>) {
    forall i, k :: 0 <= i < k < |q| ==> q[i].id != q[k].id
  }

  /** Nothing happens to a packet after its last event: in particular there is only one such event. */
  ghost predicate EndsOnce(events: seq<Event>) {
    forall j, k :: 0 <= j < k < |events| && Ending(events[j]) ==> events[k].id != events[j].id
  }

  /** No attempt of try_sendto comes before the packet's time. */
  ghost predicate NeverEarly(events: seq<Event>) {
    forall j :: 0 <= j < |events| && events[j].Attempt? ==> Due(events[j].p) <= events[j].at
  }

  ghost predicate Inv(s: Scheduler) {
    && Distinct(s.queue) && Conserved(s.queue, s.events, s.next) && EndsOnce(s.events) && NeverEarly(s.events)
    && forall k :: 0 <= k < |s.queue| ==> PacketOk(s.queue[k], s.clock)
  }

  lemma EndedSnoc(events: seq<Event>, e: Event, id: nat)
    ensures Ended(events + [e], id) <==> Ended(events, id) || (e.id == id && Ending(e))
  {
    var all := events + [e];
    if Ended(events, id) {
      var j :| 0 <= j < |events| && events[j].id == id && Ending(events[j]);
      assert all[j] == events[j];
    }
    if e.id == id && Ending(e) {
      assert all[|events|] == e;
    }
  }

  lemma WaitingSplit(a: seq<Packet>, b: seq<Packet>, id: nat)
    ensures Waiting(a + b, id) <==> Waiting(a, id) || Waiting(b, id)
  {
    var all := a + b;
    if Waiting(a, id) {
      var k :| 0 <= k < |a| && a[k].id == id;
      assert all[k] == a[k];
    }
    if Waiting(b, id) {
      var k :| 0 <= k < |b| && b[k].id == id;
      assert all[|a| + k] == b[k];
    }
  }

  lemma DistinctSplit(a: seq<Packet>, b: seq<Packet>)
    ensures Distinct(a + b) <==> Distinct(a) && Distinct(b) && forall k :: 0 <= k < |a| ==> !Waiting(b, a[k].id)
  {
    var all := a + b;
    if Distinct(all) {
      assert forall i, k :: 0 <= i < k < |a| ==> all[i] == a[i] && all[k] == a[k];
      forall i, k | 0 <= i < k < |b|
        ensures b[i].id != b[k].id
      {
        assert all[|a| + i].id != all[|a| + k].id;
      }
      forall i | 0 <= i < |a|
        ensures !Waiting(b, a[i].id)
      {
        forall k | 0 <= k < |b|
          ensures b[k].id != a[i].id
        {
          assert all[i] == a[i] && all[|a| + k] == b[k];
        }
      }
    }
  }

  /** The element at hand after one event: gone if the event ends it, with another state otherwise. */
  ghost predicate Outcomes(p: Packet, r: seq<Packet>, e: Event, clock: int) {
    && e.id == p.id && (e.Attempt? ==> Due(e.p) <= e.at)
    && (if Ending(e) then r == [] else |r| == 1 && r[0].id == p.id && PacketOk(r[0], clock))
  }

  lemma EndsOnceSnoc(events: seq<Event>, e: Event)
    requires EndsOnce(events) && !Ended(events, e.id)
    ensures EndsOnce(events + [e])
  {
  }

  lemma OneDistinct(a: seq<Packet>, p: Packet, b: seq<Packet>, r: seq<Packet>)
    requires Distinct(a + ([p] + b)) && (r == [] || (|r| == 1 && r[0].id == p.id))
    ensures Distinct(a + (r + b)) && !Waiting(a, p.id) && !Waiting(b, p.id)
  {
    DistinctSplit(a, [p] + b);
    DistinctSplit([p], b);
    DistinctSplit(r, b);
    DistinctSplit(a, r + b);
    assert Waiting([p], p.id) by { assert [p][0] == p; }
    forall k | 0 <= k < |a|
      ensures !Waiting(r + b, a[k].id)
    {
      WaitingSplit([p], b, a[k].id);
      WaitingSplit(r, b, a[k].id);
      assert [p][0].id == p.id;
    }
    if Waiting(a, p.id) {
      var k :| 0 <= k < |a| && a[k].id == p.id;
      WaitingSplit([p], b, a[k].id);
    }
  }

  lemma OneConserved(a: seq<Packet>, p: Packet, b: seq<Packet>, r: seq<Packet>, events: seq<Event>, e: Event, next: nat)
    requires Distinct(a + ([p] + b)) && Conserved(a + ([p] + b), events, next)
    requires e.id == p.id && if Ending(e) then r == [] else |r| == 1 && r[0].id == p.id
    ensures Conserved(a + (r + b), events + [e], next) && !Ended(events, p.id)
  {
    hide Waiting, Ended, Distinct, Ending;
    OneDistinct(a, p, b, r);
    assert (a + ([p] + b))[|a|] == p;
    Self(a + ([p] + b), |a|);
    forall id: nat | id < next
      ensures Waiting(a + (r + b), id) <==> !Ended(events + [e], id)
    {
      EndedSnoc(events, e, id);
      WaitingAround(a, [p], b, id);
      WaitingAround(a, r, b, id);
      WaitingOne(p, id);
      if r != [] {
        assert r == [r[0]];
        WaitingOne(r[0], id);
      }
    }
    OneIds(a, p, b, r, next);
  }

  lemma Self(q: seq<Packet>, k: nat)
    requires k < |q|
    ensures Waiting(q, q[k].id)
  {
  }

  lemma WaitingOne(p: Packet, id: nat)
    ensures Waiting([p], id) <==> p.id == id
    ensures !Waiting([], id)
  {
    assert [p][0] == p;
  }

  lemma WaitingAround(a: seq<Packet>, r: seq<Packet>, b: seq<Packet>, id: nat)
    ensures Waiting(a + (r + b), id) <==> Waiting(a, id) || Waiting(r, id) || Waiting(b, id)
  {
    hide Waiting;
    WaitingSplit(a, r + b, id);
    WaitingSplit(r, b, id);
  }

  lemma OneIds(a: seq<Packet>, p: Packet, b: seq<Packet>, r: seq<Packet>, next: nat)
    requires forall k :: 0 <= k < |a + ([p] + b)| ==> (a + ([p] + b))[k].id < next
    requires r == [] || (|r| == 1 && r[0].id == p.id)
    ensures forall k :: 0 <= k < |a + (r + b)| ==> (a + (r + b))[k].id < next
  {
    var q := a + ([p] + b);
    assert q[|a|] == p;
    assert forall i :: 0 <= i < |a| ==> q[i] == a[i];
    assert forall i :: 0 <= i < |b| ==> q[|a| + 1 + i] == b[i];
  }

  /** One event keeps the invariant. */
  lemma OneKeeps(s: Scheduler, a: seq<Packet>, p: Packet, b: seq<Packet>, r: seq<Packet>, e: Event)
    requires Inv(s) && s.queue == a + ([p] + b) && Outcomes(p, r, e, s.clock)
    ensures Inv(s.(queue := a + (r + b), events := s.events + [e]))
  {
    hide Conserved, Distinct, EndsOnce, PacketOk, Ending;
    OneDistinct(a, p, b, r);
    OneConserved(a, p, b, r, s.events, e, s.next);
    EndsOnceSnoc(s.events, e);
    assert forall i :: 0 <= i < |a| ==> s.queue[i] == a[i];
    assert forall i :: 0 <= i < |b| ==> s.queue[|a| + 1 + i] == b[i];
  }

  // ---------- every operation keeps it ----------

  lemma {:induction false} TriedKeeps(s: Scheduler, a: seq<Packet>, b: seq<Packet>, ready: set<int>,
    outcome: nat -> Outcome)
    requires Inv(s) && s.queue == a + b
    ensures Inv(s.(queue := a + Tried(b, ready, outcome), events := s.events + TriedEvents(b, ready, outcome, s.clock)))
    decreases |b|
  {
    if b == [] {
      assert s.(queue := a + [], events := s.events + []) == s;
      return;
    }
    hide Inv;
    var p, rest := b[0], b[1..];
    assert b == [p] + rest;
    var r, e := TriedOne(p, ready, outcome), EventOne(p, ready, outcome, s.clock);
    var t := s.(queue := a + (r + rest), events := s.events + e);
    assert Inv(t) by {
      if Eligible(p, ready) {
        HeadOk(s, a, p, rest);
        OneKeeps(s, a, p, rest, r, e[0]);
      } else {
        assert t == s;
      }
    }
    Assoc(a, r, rest);
    TriedKeeps(t, a + r, rest, ready, outcome);
    Assoc(a, r, Tried(rest, ready, outcome));
    Assoc(s.events, e, TriedEvents(rest, ready, outcome, s.clock));
  }

  lemma HeadOk(s: Scheduler, a: seq<Packet>, p: Packet, rest: seq<Packet>)
    requires Inv(s) && s.queue == a + ([p] + rest)
    ensures PacketOk(p, s.clock)
  {
    assert s.queue[|a|] == p;
  }

  lemma {:induction false} FlushedKeeps(s: Scheduler, a: seq<Packet>, b: seq<Packet>, outcome: nat -> Outcome)
    requires Inv(s) && s.queue == a + b
    ensures Inv(s.(queue := a + Flushed(b, outcome), events := s.events + FlushedEvents(b, outcome)))
    decreases |b|
  {
    if b == [] {
      assert s.(queue := a + [], events := s.events + []) == s;
      return;
    }
    hide Inv;
    var p, rest := b[0], b[1..];
    assert b == [p] + rest;
    var r := FlushedOne(p, outcome);
    var e := Flush(p.id, outcome(p.id));
    var t := s.(queue := a + (r + rest), events := s.events + [e]);
    HeadOk(s, a, p, rest);
    OneKeeps(s, a, p, rest, r, e);
    Assoc(a, r, rest);
    FlushedKeeps(t, a + r, rest, outcome);
    Assoc(a, r, Flushed(rest, outcome));
    Assoc(s.events, [e], FlushedEvents(rest, outcome));
  }

  lemma {:induction false} DropsKeep(s: Scheduler)
    requires Inv(s)
    ensures Inv(s.(queue := [], events := s.events + Drops(s.queue)))
    decreases |s.queue|
  {
    if s.queue == [] {
      assert s.(queue := [], events := s.events + []) == s;
      return;
    }
    hide Inv;
    var p, rest := s.queue[0], s.queue[1..];
    var e := Dropped(p.id);
    assert s.queue == [] + ([p] + rest) && [] + ([] + rest) == rest;
    OneKeeps(s, [], p, rest, [], e);
    var t := s.(queue := rest, events := s.events + [e]);
    DropsKeep(t);
    Assoc(s.events, [e], Drops(rest));
  }

  lemma {:induction false} FinalizedKeeps(s: Scheduler, deadline: TimeVal, rounds: seq<Round>)
    requires Inv(s)
    ensures Inv(Finalized(s, deadline, rounds))
    decreases |rounds|
  {
    if s.queue != [] && rounds != [] {
      hide Inv;
      var t := s.(queue := Flushed(s.queue, rounds[0].outcome), events := s.events +
          FlushedEvents(s.queue, rounds[0].outcome));
      assert [] + s.queue == s.queue && [] + Flushed(s.queue, rounds[0].outcome) == t.queue;
      FlushedKeeps(s, [], s.queue, rounds[0].outcome);
      DropsKeep(t);
      FinalizedKeeps(t, deadline, rounds[1..]);
    }
  }

  lemma LaterKeeps(s: Scheduler, clock: int)
    requires Inv(s) && s.clock <= clock
    ensures Inv(s.(clock := clock))
  {
    hide Conserved, Distinct, EndsOnce, NeverEarly;
    assert forall k :: 0 <= k < |s.queue| ==> PacketOk(s.queue[k], s.clock);
  }

  lemma MarkedWaits(q: seq<Packet>, now: TimeVal, id: nat)
    ensures Waiting(Marked(q, now), id) <==> Waiting(q, id)
  {
    if Waiting(q, id) {
      var k :| 0 <= k < |q| && q[k].id == id;
      assert Marked(q, now)[k].id == id;
    }
  }

  lemma MarkedConserved(q: seq<Packet>, now: TimeVal, events: seq<Event>, next: nat)
    requires Distinct(q) && Conserved(q, events, next)
    ensures Distinct(Marked(q, now)) && Conserved(Marked(q, now), events, next)
  {
    hide Ended, Waiting, DueBy;
    forall id: nat | id < next
      ensures Waiting(Marked(q, now), id) <==> !Ended(events, id)
    {
      MarkedWaits(q, now, id);
    }
  }

  lemma MarkedKeeps(s: Scheduler, now: TimeVal)
    requires Inv(s) && Normal(now)
    ensures Inv(s.(queue := Marked(s.queue, now), clock := Max(s.clock, Micros(now))))
  {
    hide Conserved, Distinct, EndsOnce, NeverEarly;
    var q := Marked(s.queue, now);
    MarkedConserved(s.queue, now, s.events, s.next);
    forall k | 0 <= k < |q|
      ensures PacketOk(q[k], Max(s.clock, Micros(now)))
    {
      assert PacketOk(s.queue[k], s.clock);
      DueIsTrueOrder(s.queue[k].ts, now);
    }
  }

  /** A new packet enters the list. */
  lemma EnqueuedKeeps(s: Scheduler, p: Packet)
    requires Inv(s) && p.id == s.next && PacketOk(p, s.clock)
    ensures Inv(s.(queue := [p] + s.queue, next := s.next + 1))
  {
    hide PacketOk, Ending;
    var q := [p] + s.queue;
    assert !Waiting(s.queue, s.next) && !Ended(s.events, s.next);
    DistinctSplit([p], s.queue);
    assert q[0] == p;
    forall id: nat | id < s.next + 1
      ensures Waiting(q, id) <==> !Ended(s.events, id)
    {
      WaitingSplit([p], s.queue, id);
      assert Waiting([p], p.id) by { assert [p][0] == p; }
    }
  }

  /** A packet that is not to be kept: it enters and leaves. */
  lemma TransientKeeps(s: Scheduler, first: seq<Event>, last: Event)
    requires Inv(s) && (first == [] || (|first| == 1 && first[0].id == s.next && first[0].Direct? && !Ending(first[0])))
    requires last.id == s.next && !last.Attempt? && Ending(last)
    ensures Inv(s.(events := s.events + first + [last], next := s.next + 1))
  {
    hide Inv, Ending;
    var p := Packet(s.next, TimeVal(0, 0), 0, TimeVal(0, 0), EScheduled, 0, []);
    var q := s.queue;
    EnqueuedKeeps(s, p);
    var t := s.(queue := [p] + q, next := s.next + 1);
    assert [] + ([p] + q) == [p] + q && [] + ([] + q) == q;
    if first != [] {
      OneKeeps(t, [], p, q, [p], first[0]);
      assert first == [first[0]];
      t := t.(events := s.events + first);
    } else {
      assert s.events + first == s.events;
    }
    OneKeeps(t, [], p, q, [], last);
  }

  lemma ScheduledKeeps(s: Scheduler, req: Request, outcome: Outcome, now: Option<TimeVal>, memory: bool)
    requires Inv(s) && (now.Some? ==> Normal(now.value))
    ensures Inv(Scheduled(s, req, outcome, now, memory))
  {
    hide Inv;
    var tried := if req.delay == 0 then [Direct(s.next, outcome)] else [];
    if req.delay == 0 && Final(outcome) {
      assert s.events + [] + tried == s.events + tried;
      TransientKeeps(s, [], tried[0]);
    } else if now.None? || !memory {
      TransientKeeps(s, tried, Refused(s.next));
    } else {
      var state := if req.delay == 0 then StateAfter(outcome) else EScheduled;
      var p := Packet(s.next, now.value, req.delay, Plus(now.value, req.delay), state, req.sockfd, req.data);
      var t := s.(clock := Max(s.clock, Micros(now.value)));
      LaterKeeps(s, t.clock);
      EnqueuedKeeps(t, p);
      t := t.(queue := [p] + s.queue, next := s.next + 1);
      if req.delay == 0 {
        assert [] + ([p] + s.queue) == [p] + s.queue;
        OneKeeps(t, [], p, s.queue, [p], tried[0]);
      } else {
        assert s.events + tried == s.events;
      }
    }
  }

  lemma StepKeeps(s: Scheduler, op: Op)
    requires Inv(s) && OpOk(op)
    ensures Inv(Step(s, op))
  {
    hide Inv;
    match op {
      case Schedule(req, outcome, now, memory) => ScheduledKeeps(s, req, outcome, now, memory);
      case Select(time) => MarkedKeeps(s, time);
      case Try(ready, outcomes) =>
        var q := Tried(s.queue, ready, outcomes);
        assert [] + s.queue == s.queue && [] + q == q;
        TriedKeeps(s, [], s.queue, ready, outcomes);
      case Finalize(start, rounds) =>
        if start.Some? {
          FinalizedKeeps(s, Plus(start.value, FINALIZE_SENDTO_DELAY), rounds);
        }
    }
  }

  lemma {:induction false} RunKeeps(s: Scheduler, ops: seq<Op>)
    requires Inv(s) && forall k :: 0 <= k < |ops| ==> OpOk(ops[k])
    ensures Inv(Run(s, ops))
    decreases |ops|
  {
    if ops != [] {
      hide Inv, Step;
      StepKeeps(s, ops[0]);
      RunKeeps(Step(s, ops[0]), ops[1..]);
    }
  }

  /** Over every run: each packet taken is waiting or has had exactly one last event, and try_sendto
      never sends a packet before the time of its request plus the delay. */
  lemma EveryRun(ops: seq<Op>)
    requires forall k :: 0 <= k < |ops| ==> OpOk(ops[k])
    ensures var s := Run(INITIAL, ops);
            && (forall id: nat :: id < s.next ==> (Waiting(s.queue, id) <==> !Ended(s.events, id)))
            && (forall j, k :: 0 <= j < k < |s.events| && Ending(s.events[j]) ==> s.events[k].id != s.events[j].id)
            && (forall j :: 0 <= j < |s.events| && s.events[j].Attempt? ==> Due(s.events[j].p) <= s.events[j].at)
  {
    hide Run;
    RunKeeps(INITIAL, ops);
  }

  // ---------- what is sent ----------

  /** The requests of a run, in order: a packet's id is the position of its request. */
  function Requests(ops: seq<Op>): seq<Op> {
    if ops == [] then [] else (if ops[0].Schedule? then [ops[0]] else []) + Requests(ops[1..])
  }

  /** The packet carries what was to be sent, where and when. */
  predicate Carries(p: Packet, rs: seq<Op>) {
    && p.id < |rs| && rs[p.id].Schedule?
    && p.sockfd == rs[p.id].req.sockfd && p.data == rs[p.id].req.data && p.delay == rs[p.id].req.delay
    && rs[p.id].now == Some(p.queuedAt)
  }

  predicate AllCarry(q: seq<Packet>, rs: seq<Op>) {
    forall k :: 0 <= k < |q| ==> Carries(q[k], rs)
  }

  predicate EventsCarry(events: seq<Event>, rs: seq<Op>) {
    forall j :: 0 <= j < |events| && events[j].Attempt? ==> events[j].id == events[j].p.id && Carries(events[j].p, rs)
  }

  predicate Faithful(s: Scheduler, rs: seq<Op>) {
    s.next == |rs| && AllCarry(s.queue, rs) && EventsCarry(s.events, rs)
  }

  lemma CarriesMore(s: Scheduler, rs: seq<Op>, op: Op)
    requires AllCarry(s.queue, rs) && EventsCarry(s.events, rs)
    ensures AllCarry(s.queue, rs + [op]) && EventsCarry(s.events, rs + [op])
  {
    assert forall p: Packet :: Carries(p, rs) ==> Carries(p, rs + [op]);
  }

  lemma {:induction false} TriedCarry(q: seq<Packet>, ready: set<int>, outcome: nat -> Outcome, at: int, rs: seq<Op>)
    requires AllCarry(q, rs)
    ensures AllCarry(Tried(q, ready, outcome), rs) && EventsCarry(TriedEvents(q, ready, outcome, at), rs)
  {
    if q != [] {
      hide Carries, Eligible;
      assert Carries(q[0], rs);
      assert AllCarry(q[1..], rs);
      TriedCarry(q[1..], ready, outcome, at, rs);
      OneCarries(q[0], ready, outcome, at, rs);
      CarryConcat(TriedOne(q[0], ready, outcome), Tried(q[1..], ready, outcome), rs);
      EventsConcat(EventOne(q[0], ready, outcome, at), TriedEvents(q[1..], ready, outcome, at), rs);
    }
  }

  lemma OneCarries(p: Packet, ready: set<int>, outcome: nat -> Outcome, at: int, rs: seq<Op>)
    requires Carries(p, rs)
    ensures AllCarry(TriedOne(p, ready, outcome), rs) && EventsCarry(EventOne(p, ready, outcome, at), rs)
  {
  }

  lemma CarryConcat(a: seq<Packet>, b: seq<Packet>, rs: seq<Op>)
    requires AllCarry(a, rs) && AllCarry(b, rs)
    ensures AllCarry(a + b, rs)
  {
  }

  lemma EventsConcat(a: seq<Event>, b: seq<Event>, rs: seq<Op>)
    requires EventsCarry(a, rs) && EventsCarry(b, rs)
    ensures EventsCarry(a + b, rs)
  {
  }

  lemma {:induction false} FlushedCarry(q: seq<Packet>, outcome: nat -> Outcome, rs: seq<Op>)
    requires AllCarry(q, rs)
    ensures AllCarry(Flushed(q, outcome), rs) && EventsCarry(FlushedEvents(q, outcome), rs)
  {
    if q != [] {
      hide Carries;
      assert AllCarry(q[1..], rs) && AllCarry(FlushedOne(q[0], outcome), rs);
      FlushedCarry(q[1..], outcome, rs);
      CarryConcat(FlushedOne(q[0], outcome), Flushed(q[1..], outcome), rs);
      EventsConcat([Flush(q[0].id, outcome(q[0].id))], FlushedEvents(q[1..], outcome), rs);
    }
  }

  lemma {:induction false} DropsCarry(q: seq<Packet>, rs: seq<Op>)
    ensures EventsCarry(Drops(q), rs)
  {
    if q != [] {
      DropsCarry(q[1..], rs);
      EventsConcat([Dropped(q[0].id)], Drops(q[1..]), rs);
    }
  }

  lemma {:induction false} FinalizedCarry(s: Scheduler, deadline: TimeVal, rounds: seq<Round>, rs: seq<Op>)
    requires Faithful(s, rs)
    ensures Faithful(Finalized(s, deadline, rounds), rs)
    decreases |rounds|
  {
    if s.queue != [] && rounds != [] {
      hide AllCarry, EventsCarry;
      var out := rounds[0].outcome;
      FlushedCarry(s.queue, out, rs);
      EventsConcat(s.events, FlushedEvents(s.queue, out), rs);
      var t := s.(queue := Flushed(s.queue, out), events := s.events + FlushedEvents(s.queue, out));
      DropsCarry(t.queue, rs);
      EventsConcat(t.events, Drops(t.queue), rs);
      NoneCarry(rs);
      FinalizedCarry(t, deadline, rounds[1..], rs);
    }
  }

  lemma NoneCarry(rs: seq<Op>)
    ensures AllCarry([], rs) && EventsCarry([], rs)
  {
  }

  lemma MarkedCarry(q: seq<Packet>, now: TimeVal, rs: seq<Op>)
    requires AllCarry(q, rs)
    ensures AllCarry(Marked(q, now), rs)
  {
    hide Marked;
    assert forall k :: 0 <= k < |q| ==> Carries(q[k], rs);
  }

  lemma ScheduledCarry(s: Scheduler, op: Op, rs: seq<Op>)
    requires Faithful(s, rs) && op.Schedule? && OpOk(op)
    ensures Faithful(Step(s, op), rs + [op])
  {
    hide Carries, AllCarry, EventsCarry;
    var all := rs + [op];
    CarriesMore(s, rs, op);
    assert all[s.next] == op;
    var tried := if op.req.delay == 0 then [Direct(s.next, op.outcome)] else [];
    OtherEvents(tried, all);
    OtherEvents([Refused(s.next)], all);
    EventsConcat(s.events, tried, all);
    EventsConcat(s.events + tried, [Refused(s.next)], all);
    if op.now.Some? {
      var state := if op.req.delay == 0 then StateAfter(op.outcome) else EScheduled;
      var p := Packet(s.next, op.now.value, op.req.delay, Plus(op.now.value, op.req.delay), state, op.req.sockfd,
                      op.req.data);
      NewCarries(p, all);
      CarryConcat([p], s.queue, all);
    }
  }

  lemma NewCarries(p: Packet, rs: seq<Op>)
    requires p.id < |rs| && rs[p.id].Schedule? && rs[p.id].now == Some(p.queuedAt)
    requires p.sockfd == rs[p.id].req.sockfd && p.data == rs[p.id].req.data && p.delay == rs[p.id].req.delay
    ensures AllCarry([p], rs)
  {
  }

  lemma OtherEvents(events: seq<Event>, rs: seq<Op>)
    requires forall j :: 0 <= j < |events| ==> !events[j].Attempt?
    ensures EventsCarry(events, rs)
  {
  }

  lemma StepCarries(s: Scheduler, op: Op, rs: seq<Op>)
    requires Faithful(s, rs) && OpOk(op)
    ensures Faithful(Step(s, op), if op.Schedule? then rs + [op] else rs)
  {
    hide AllCarry, EventsCarry;
    match op {
      case Schedule(_, _, _, _) => ScheduledCarry(s, op, rs);
      case Select(time) => MarkedCarry(s.queue, time, rs);
      case Try(ready, outcomes) =>
        TriedCarry(s.queue, ready, outcomes, s.clock, rs);
        EventsConcat(s.events, TriedEvents(s.queue, ready, outcomes, s.clock), rs);
      case Finalize(start, rounds) =>
        if start.Some? {
          FinalizedCarry(s, Plus(start.value, FINALIZE_SENDTO_DELAY), rounds, rs);
        }
    }
  }

  lemma {:induction false} RunCarries(s: Scheduler, ops: seq<Op>, rs: seq<Op>)
    requires Faithful(s, rs) && forall k :: 0 <= k < |ops| ==> OpOk(ops[k])
    ensures Faithful(Run(s, ops), rs + Requests(ops))
    decreases |ops|
  {
    hide Faithful, Step;
    if ops != [] {
      var rs' := if ops[0].Schedule? then rs + [ops[0]] else rs;
      StepCarries(s, ops[0], rs);
      RunCarries(Step(s, ops[0]), ops[1..], rs');
      if ops[0].Schedule? {
        Assoc(rs, [ops[0]], Requests(ops[1..]));
      } else {
        assert [] + Requests(ops[1..]) == Requests(ops[1..]);
      }
    } else {
      assert rs + [] == rs;
    }
  }

  /** Over every run: a packet in the list, and a packet that try_sendto attempts, is what the request
      with its number asked to be sent, on the same socket and with the same delay. */
  lemma EveryRunCarries(ops: seq<Op>)
    requires forall k :: 0 <= k < |ops| ==> OpOk(ops[k])
    ensures var (s, rs) := (Run(INITIAL, ops), Requests(ops));
            && s.next == |rs|
            && (forall k :: 0 <= k < |s.queue| ==> Carries(s.queue[k], rs))
            && (forall j :: 0 <= j < |s.events| && s.events[j].Attempt? ==>
                  s.events[j].id == s.events[j].p.id && Carries(s.events[j].p, rs))
  {
    hide Run;
    RunCarries(INITIAL, ops, []);
    assert [] + Requests(ops) == Requests(ops);
  }

  // ---------- finalize_sendto ----------

  lemma {:induction false} FlushedBlocked(q: seq<Packet>, outcome: nat -> Outcome)
    ensures forall p :: p in Flushed(q, outcome) <==> p in q && outcome(p.id).WouldBlock?
  {
    if q != [] {
      FlushedBlocked(q[1..], outcome);
      assert q == [q[0]] + q[1..];
    }
  }

  lemma {:induction false} FinalizedFrom(s: Scheduler, deadline: TimeVal, rounds: seq<Round>)
    ensures forall p :: p in Finalized(s, deadline, rounds).queue ==> p in s.queue
    decreases |rounds|
  {
    hide Flushed, FlushedEvents, Drops;
    if s.queue != [] && rounds != [] {
      FlushedBlocked(s.queue, rounds[0].outcome);
      var t := s.(queue := Flushed(s.queue, rounds[0].outcome),
                  events := s.events + FlushedEvents(s.queue, rounds[0].outcome));
      FinalizedFrom(t, deadline, rounds[1..]);
    }
  }

  /** As long as the clock and select work, finalize_sendto leaves a packet only if sending it would have
      blocked in every round. */
  lemma {:induction false} LeftBlocked(s: Scheduler, deadline: TimeVal, rounds: seq<Round>)
    requires forall k :: 0 <= k < |rounds| ==> rounds[k].now.Some? && rounds[k].selected
    ensures forall p, k :: p in Finalized(s, deadline, rounds).queue && 0 <= k < |rounds| ==>
      p in s.queue && rounds[k].outcome(p.id).WouldBlock?
    decreases |rounds|
  {
    hide Flushed, FlushedEvents, Drops;
    FinalizedFrom(s, deadline, rounds);
    if s.queue != [] && rounds != [] {
      FlushedBlocked(s.queue, rounds[0].outcome);
      var t := s.(queue := Flushed(s.queue, rounds[0].outcome),
                  events := s.events + FlushedEvents(s.queue, rounds[0].outcome));
      FinalizedFrom(t, deadline, rounds[1..]);
      LeftBlocked(t, deadline, rounds[1..]);
      forall p, k | p in Finalized(s, deadline, rounds).queue && 0 <= k < |rounds|
        ensures rounds[k].outcome(p.id).WouldBlock?
      {
        if k > 0 {
          assert rounds[k] == rounds[1..][k - 1];
        }
      }
    }
  }

  // ---------- one cycle of get_sendto_fds and try_sendto ----------

  predicate HasEvent(events: seq<Event>, id: nat) {
    exists j :: 0 <= j < |events| && events[j].id == id
  }

  /** try_sendto attempts the eligible packets and no other. */
  lemma {:induction false} AttemptsEligible(q: seq<Packet>, ready: set<int>, outcome: nat -> Outcome, at: int, id: nat)
    ensures HasEvent(TriedEvents(q, ready, outcome, at), id) <==>
      exists k :: 0 <= k < |q| && q[k].id == id && Eligible(q[k], ready)
  {
    if q == [] {
      assert !HasEvent([], id);
    } else {
      hide Eligible, HasEvent, EventOne;
      var head, tail := EventOne(q[0], ready, outcome, at), TriedEvents(q[1..], ready, outcome, at);
      AttemptsEligible(q[1..], ready, outcome, at, id);
      EventsJoin(head, tail, id);
      HeadEvent(q[0], ready, outcome, at, id);
      if k :| 0 <= k < |q| && q[k].id == id && Eligible(q[k], ready) {
        assert k > 0 ==> q[1..][k - 1] == q[k];
      }
      if k :| 0 <= k < |q[1..]| && q[1..][k].id == id && Eligible(q[1..][k], ready) {
        assert q[k + 1] == q[1..][k];
      }
    }
  }

  lemma EventsJoin(head: seq<Event>, tail: seq<Event>, id: nat)
    ensures HasEvent(head + tail, id) <==> HasEvent(head, id) || HasEvent(tail, id)
  {
    assert forall j :: 0 <= j < |head| ==> (head + tail)[j] == head[j];
    assert forall j :: 0 <= j < |tail| ==> (head + tail)[|head| + j] == tail[j];
  }

  lemma HeadEvent(p: Packet, ready: set<int>, outcome: nat -> Outcome, at: int, id: nat)
    ensures HasEvent(EventOne(p, ready, outcome, at), id) <==> p.id == id && Eligible(p, ready)
  {
    var head := EventOne(p, ready, outcome, at);
    if Eligible(p, ready) {
      assert head[0].id == p.id;
    }
  }

  /** In one cycle a packet that waits for its time is attempted if and only if the time has come. */
  lemma AttemptedWhenDue(q: seq<Packet>, clock: int, k: nat, now: TimeVal, ready: set<int>, outcome: nat -> Outcome,
    at: int)
    requires Distinct(q) && k < |q| && PacketOk(q[k], clock) && q[k].state == EScheduled && Normal(now)
    ensures HasEvent(TriedEvents(Marked(q, now), ready, outcome, at), q[k].id) <==> Due(q[k]) <= Micros(now)
  {
    hide HasEvent;
    var marked := Marked(q, now);
    AttemptsEligible(marked, ready, outcome, at, q[k].id);
    DueIsTrueOrder(q[k].ts, now);
    assert forall i :: 0 <= i < |q| && marked[i].id == q[k].id ==> i == k;
    assert marked[k] == MarkedOne(q[k], now);
  }

  /** Waiting until the time that get_next_scheduled_send reports is just right: at no earlier time is
      any packet due, and from then on one is. */
  lemma NextSendDecides(q: seq<Packet>, clock: int, earliest: nat, now: TimeVal)
    requires forall k :: 0 <= k < |q| ==> PacketOk(q[k], clock)
    requires earliest < |q| && Normal(now) && forall k :: 0 <= k < |q| ==> Micros(q[earliest].ts) <= Due(q[k])
    ensures (exists k :: 0 <= k < |q| && DueBy(q[k].ts, now)) <==> DueBy(q[earliest].ts, now)
  {
    DueIsTrueOrder(q[earliest].ts, now);
    if k :| 0 <= k < |q| && DueBy(q[k].ts, now) {
      DueIsTrueOrder(q[k].ts, now);
    }
  }

  /** Packets that are not attempted stay as they are; attempted ones leave only by a final outcome. */
  lemma {:induction false} TriedExactly(q: seq<Packet>, ready: set<int>, outcome: nat -> Outcome, k: nat)
    requires k < |q|
    ensures !Eligible(q[k], ready) ==> q[k] in Tried(q, ready, outcome)
    ensures Eligible(q[k], ready) && !Final(outcome(q[k].id)) ==>
      q[k].(state := StateAfter(outcome(q[k].id))) in Tried(q, ready, outcome)
    ensures Eligible(q[k], ready) && Final(outcome(q[k].id)) && Distinct(q) ==>
      !Waiting(Tried(q, ready, outcome), q[k].id)
  {
    hide Eligible, Final;
    var head, tail := TriedOne(q[0], ready, outcome), Tried(q[1..], ready, outcome);
    if k > 0 {
      TriedExactly(q[1..], ready, outcome, k - 1);
    }
    if Eligible(q[k], ready) && Final(outcome(q[k].id)) && Distinct(q) {
      WaitingSplit(head, tail, q[k].id);
      if k == 0 && Waiting(tail, q[0].id) {
        TriedFrom(q[1..], ready, outcome, q[0].id);
        assert false;
      }
    }
  }

  lemma {:induction false} TriedFrom(q: seq<Packet>, ready: set<int>, outcome: nat -> Outcome, id: nat)
    requires Waiting(Tried(q, ready, outcome), id)
    ensures Waiting(q, id)
  {
    hide Eligible, Final;
    if q != [] {
      var head, tail := TriedOne(q[0], ready, outcome), Tried(q[1..], ready, outcome);
      WaitingSplit(head, tail, id);
      if Waiting(tail, id) {
        TriedFrom(q[1..], ready, outcome, id);
        var k :| 0 <= k < |q[1..]| && q[1..][k].id == id;
        assert q[k + 1].id == id;
      }
    }
  }

  /** After a call that would have blocked, a packet is attempted again once its socket is ready; after an
      interrupted one, at the next occasion. */
  lemma AttemptedAgain(q: seq<Packet>, k: nat, ready: set<int>, outcome: nat -> Outcome,
                       ready': set<int>, outcome': nat -> Outcome, at: int)
    requires Distinct(q) && k < |q| && Eligible(q[k], ready)
    ensures var again := HasEvent(TriedEvents(Tried(q, ready, outcome), ready', outcome', at), q[k].id);
            && (outcome(q[k].id).WouldBlock? ==> (again <==> q[k].sockfd in ready'))
            && (outcome(q[k].id).Interrupted? ==> again)
            && (outcome(q[k].id).Sent? || outcome(q[k].id).Failed? ==> !again)
  {
    hide HasEvent, TriedEvents, Tried, Distinct;
    var q' := Tried(q, ready, outcome);
    var p := q[k].(state := StateAfter(outcome(q[k].id)));
    TriedExactly(q, ready, outcome, k);
    AttemptsEligible(q', ready', outcome', at, q[k].id);
    TriedDistinct(q, ready, outcome);
    if !Final(outcome(q[k].id)) {
      var j :| 0 <= j < |q'| && q'[j] == p;
      OnlyOne(q', j, q[k].id);
    }
  }

  lemma OnlyOne(q: seq<Packet>, j: nat, id: nat)
    requires Distinct(q) && j < |q| && q[j].id == id
    ensures forall i :: 0 <= i < |q| && q[i].id == id ==> i == j
  {
  }

  lemma {:induction false} TriedDistinct(q: seq<Packet>, ready: set<int>, outcome: nat -> Outcome)
    requires Distinct(q)
    ensures Distinct(Tried(q, ready, outcome))
  {
    if q != [] {
      hide Eligible, Final;
      var head, tail := TriedOne(q[0], ready, outcome), Tried(q[1..], ready, outcome);
      TriedDistinct(q[1..], ready, outcome);
      DistinctSplit(head, tail);
      forall i | 0 <= i < |head|
        ensures !Waiting(tail, head[i].id)
      {
        if Waiting(tail, head[i].id) {
          TriedFrom(q[1..], ready, outcome, head[i].id);
          NotLater(q);
        }
      }
    }
  }

  lemma NotLater(q: seq<Packet>)
    requires Distinct(q) && q != []
    ensures !Waiting(q[1..], q[0].id)
  {
  }

  // ---------- the code ----------

  class AsyncSender {
    var queue: seq<Packet>        // send_list
    var next: nat
    ghost var events: seq<Event>
    ghost var clock: int

    ghost function Snapshot(): Scheduler
      reads this
    {
      Scheduler(queue, events, next, clock)
    }

    constructor ()
      ensures Snapshot() == INITIAL
    {
      queue, next, events, clock := [], 0, [], 0;
    }

    method SendtoSchedule2(req: Request, outcome: Outcome, now: Option<TimeVal>, memory: bool) returns (n: int)
      requires now.Some? ==> Normal(now.value)
      modifies this
      ensures Snapshot() == Scheduled(old(Snapshot()), req, outcome, now, memory)
      ensures n == 0 && !(req.delay == 0 && outcome.Sent?) ==> |queue| == |old(queue)| + 1 && queue[0].id == old(next)
      ensures n == -1 ==> Ended(events, old(next))
      ensures req.delay == 0 && outcome.Sent? ==> n == outcome.count
    {
      var state := EScheduled;
      var id := next;
      next := next + 1;
      if req.delay == 0 {
        events := events + [Direct(id, outcome)];
        EndedSnoc(old(events), Direct(id, outcome), id);
        match outcome {
          case Sent(count) => return count;
          case WouldBlock => state := EWaitReady;
          case Interrupted => state := ESendNow;
          case Failed => return -1;
        }
      }
      if now.None? || !memory {
        EndedSnoc(events, Refused(id), id);
        events := events + [Refused(id)];
        return -1;
      }
      var tv := now.value;
      var ts := TimeVal(tv.sec + req.delay / 1000, tv.usec + req.delay % 1000 * 1000);
      if ts.usec > SECOND {
        ts := TimeVal(ts.sec + 1, ts.usec - SECOND);
      }
      var elt := Packet(id, tv, req.delay, ts, state, req.sockfd, req.data);
      queue := [elt] + queue;
      clock := Max(clock, Micros(tv));
      return 0;
    }

    /** The earliest time in the list, in true order, although the fields are compared one by one. */
    method GetNextScheduledSend() returns (n: nat, nextSend: TimeVal)
      requires Inv(Snapshot())
      ensures n == |queue|
      ensures n > 0 ==> NearlyNormal(nextSend) && exists k :: 0 <= k < |queue| && queue[k].ts == nextSend
      ensures forall k :: 0 <= k < |queue| ==> Micros(nextSend) <= Due(queue[k])
    {
      n, nextSend := 0, TimeVal(0, 0);
      hide Distinct, Conserved, EndsOnce, NeverEarly;
      while n < |queue|
        invariant n <= |queue|
        invariant n > 0 ==> NearlyNormal(nextSend) && exists k :: 0 <= k < n && queue[k].ts == nextSend
        invariant forall k :: 0 <= k < n ==> Micros(nextSend) <= Due(queue[k])
      {
        var elt := queue[n];
        assert PacketOk(elt, clock);
        if n > 0 {
          EarlierIsTrueOrder(elt.ts, nextSend);
        }
        if n == 0 || Earlier(elt.ts, nextSend) {
          nextSend := elt.ts;
        }
        n := n + 1;
      }
    }

    /** Marks what is due and collects the sockets to wait for; n counts both. */
    method GetSendtoFds(writefds: set<int>, maxFd: int, now: TimeVal) returns (n: nat, fds: set<int>, max: int)
      requires Normal(now)
      modifies this
      ensures Snapshot() == Step(old(Snapshot()), Select(now))
      ensures fds == writefds + Blocked(old(queue), |old(queue)|)
      ensures maxFd <= max && AtMost(Blocked(old(queue), |old(queue)|), max)
      ensures n == |BusyAt(old(queue), |old(queue)|, now)|
    {
      hide DueBy, Step, Marked, MarkedUpTo, Scanned;
      ghost var q := queue;
      MarkedStart(q, now);
      ScanStart(q, writefds, maxFd, now);
      n, fds, max := 0, writefds, maxFd;
      var i := 0;
      while i < |queue|
        invariant i <= |queue| == |q| && next == old(next) && events == old(events) && clock == old(clock)
        invariant MarkedUpTo(q, queue, i, now)
        invariant Scanned(q, i, now, writefds, maxFd, n, fds, max)
      {
        MarkedStep(q, queue, i, now);
        ScanStep(q, i, now, writefds, maxFd, n, fds, max);
        var elt := queue[i];
        if elt.state == EWaitReady {
          fds := fds + {elt.sockfd};
          max := if elt.sockfd > max then elt.sockfd else max;
          n := n + 1;
        } else if DueBy(elt.ts, now) {
          queue := queue[i := elt.(state := ESendNow)];
          n := n + 1;
        }
        i := i + 1;
      }
      MarkedIs(q, queue, now);
      ScanEnd(q, now, writefds, maxFd, n, fds, max);
      clock := Max(clock, Micros(now));
      SelectStep(old(Snapshot()), now);
    }

    method TrySendto(ready: set<int>, outcome: nat -> Outcome) returns (ret: int)
      modifies this
      ensures Snapshot() == Step(old(Snapshot()), Try(ready, outcome))
      ensures ret == Failures(old(queue), ready, outcome)
    {
      hide Eligible, Scheduled, Finalized, Marked, Tried, TriedEvents, Failures, Splits;
      ret := 0;
      var i := 0;
      ghost var packets, attempts := Tried(queue, ready, outcome), events + TriedEvents(queue, ready, outcome, clock);
      SplitsStart(packets);
      SplitsIs(attempts, events, TriedEvents(queue, ready, outcome, clock));
      assert queue[..0] == [] && queue[0..] == queue;
      while i < |queue|
        invariant i <= |queue| && next == old(next) && clock == old(clock)
        invariant Splits(packets, queue[..i], Tried(queue[i..], ready, outcome))
        invariant Splits(attempts, events, TriedEvents(queue[i..], ready, outcome, clock))
        invariant ret + Failures(queue[i..], ready, outcome) == Failures(old(queue), ready, outcome)
        decreases |queue| - i
      {
        DropNext(queue, i);
        ghost var rest := queue[i + 1..];
        ghost var before := queue[..i];
        var elt := queue[i];
        TriedNext(queue[i..], ready, outcome, clock);
        SplitsMove(packets, before, TriedOne(elt, ready, outcome), Tried(rest, ready, outcome));
        SplitsMove(attempts, events, EventOne(elt, ready, outcome, clock), TriedEvents(rest, ready, outcome, clock));
        assert events + [] == events;
        if Eligible(elt, ready) {
          var n := outcome(elt.id);
          events := events + [Attempt(elt.id, elt, n, clock)];
          if n.Interrupted? {
            queue := queue[i := elt.(state := ESendNow)];
          } else if n.WouldBlock? {
            queue := queue[i := elt.(state := EWaitReady)];
          } else {
            if n.Failed? {
              ret := ret - 1;
            }
            queue := queue[..i] + queue[i + 1..];
            assert queue[..i] == before + [] && queue[i..] == rest;
            continue;
          }
        }
        i := i + 1;
        assert queue[i..] == rest;
        assert queue[..i] == before + TriedOne(elt, ready, outcome);
      }
      assert queue[..i] == queue && queue[i..] == [];
      TriedNothing(ready, outcome, clock);
      SplitsEnd(packets, queue);
      SplitsEnd(attempts, events);
    }

    /** One pass of finalize_sendto over the list. */
    method FlushAll(outcome: nat -> Outcome)
      modifies this
      ensures queue == Flushed(old(queue), outcome) && events == old(events) + FlushedEvents(old(queue), outcome)
      ensures next == old(next) && clock == old(clock)
    {
      var i := 0;
      assert queue[..0] + Flushed(queue[0..], outcome) == Flushed(queue, outcome) && queue[0..] == queue;
      while i < |queue|
        invariant i <= |queue| && next == old(next) && clock == old(clock)
        invariant queue[..i] + Flushed(queue[i..], outcome) == Flushed(old(queue), outcome)
        invariant events + FlushedEvents(queue[i..], outcome) == old(events) + FlushedEvents(old(queue), outcome)
        decreases |queue| - i
      {
        DropNext(queue, i);
        ghost var rest := queue[i + 1..];
        ghost var before := queue[..i];
        var elt := queue[i];
        var n := outcome(elt.id);
        Assoc(before, FlushedOne(elt, outcome), Flushed(rest, outcome));
        Assoc(events, [Flush(elt.id, n)], FlushedEvents(rest, outcome));
        events := events + [Flush(elt.id, n)];
        if n.WouldBlock? {
          i := i + 1;
        } else {
          queue := queue[..i] + queue[i + 1..];
        }
        assert queue[i..] == rest;
        assert queue[..i] == before + FlushedOne(elt, outcome);
      }
      assert queue[..i] == queue;
    }

    method DropAll()
      modifies this
      ensures queue == [] && events == old(events) + Drops(old(queue)) && next == old(next) && clock == old(clock)
    {
      while queue != []
        invariant events + Drops(queue) == old(events) + Drops(old(queue)) && next == old(next) && clock == old(clock)
        decreases |queue|
      {
        Assoc(events, [Dropped(queue[0].id)], Drops(queue[1..]));
        events := events + [Dropped(queue[0].id)];
        queue := queue[1..];
      }
    }

    method FinalizeSendto(start: Option<TimeVal>, rounds: seq<Round>)
      requires start.Some? ==> Normal(start.value)
      modifies this
      ensures Snapshot() == Step(old(Snapshot()), Finalize(start, rounds))
    {
      if start.None? {
        return;
      }
      var deadline := TimeVal(start.value.sec, start.value.usec + FINALIZE_SENDTO_DELAY * 1000);
      if deadline.usec > SECOND {
        deadline := TimeVal(deadline.sec + 1, deadline.usec - SECOND);
      }
      assert deadline == Plus(start.value, FINALIZE_SENDTO_DELAY);
      var i := 0;
      assert rounds[0..] == rounds;
      while queue != [] && i < |rounds|
        invariant i <= |rounds|
        invariant Finalized(Snapshot(), deadline, rounds[i..]) == Finalized(old(Snapshot()), deadline, rounds)
        decreases |rounds| - i
      {
        DropNext(rounds, i);
        var round := rounds[i];
        FlushAll(round.outcome);
        if round.now.None? {
          return;
        }
        if Earlier(deadline, round.now.value) {
          DropAll();
          return;
        }
        if queue != [] && !round.selected {
          return;
        }
        i := i + 1;
      }
    }
  }
}
