/** Clients that sleep until a point in time: the time-ordered queue of their requests. */
module SleepQueue {
  import opened CTypes

  newtype CARD32 = x: int | 0 <= x < 0x1_0000_0000

  /** A server time: the milliseconds since the start, and how often they have wrapped. */
  datatype TimeStamp = TimeStamp(months: CARD32, milliseconds: CARD32)

  const EARLIER := -1
  const SAMETIME := 0
  const LATER := 1

  function CompareTimeStamps(a: TimeStamp, b: TimeStamp): int {
    if a.months < b.months then EARLIER
    else if a.months > b.months then LATER
    else if a.milliseconds < b.milliseconds then EARLIER
    else if a.milliseconds > b.milliseconds then LATER
    else SAMETIME
  }

  /** The milliseconds since the start, without wrapping. */
  function Ticks(t: TimeStamp): (n: nat)
    ensures n < 0x1_0000_0000_0000_0000
  {
    t.months as int * 0x1_0000_0000 + t.milliseconds as int
  }

  /** Comparing stamps is comparing times. */
  lemma CompareIsOrder(a: TimeStamp, b: TimeStamp)
    ensures CompareTimeStamps(a, b) == LATER <==> Ticks(a) > Ticks(b)
    ensures CompareTimeStamps(a, b) == EARLIER <==> Ticks(a) < Ticks(b)
    ensures CompareTimeStamps(a, b) == SAMETIME <==> a == b
  {}

  function Increment(months: CARD32): CARD32 {
    ((months as int + 1) % 0x1_0000_0000) as CARD32
  }

  /** The time the two handlers work with, made of the clock and the server's last time stamp. */
  function HandlerNow(clock: CARD32, current: TimeStamp): TimeStamp {
    TimeStamp(if Int32(clock as int - current.milliseconds as int) < 0 then Increment(current.months) else current.months,
              clock)
  }

  /** The time UpdateCurrentTime makes of the same two. */
  function UpdatedTime(clock: CARD32, current: TimeStamp): TimeStamp {
    TimeStamp(if clock < current.milliseconds then Increment(current.months) else current.months, clock)
  }

  /** The clock of a server whose unwrapped time is t. */
  function Clock(t: nat): CARD32 { (t % 0x1_0000_0000) as CARD32 }

  /**
   * Less than one clock period after the last time stamp, UpdateCurrentTime finds the true time; the handlers find
   * it exactly when at least half a period has passed if and only if the clock has wrapped.
   */
  lemma HandlerTime(current: TimeStamp, passed: nat)
    requires passed < 0x1_0000_0000 && current.months < 0xFFFF_FFFF
    ensures var clock := Clock(Ticks(current) + passed);
            && Ticks(UpdatedTime(clock, current)) == Ticks(current) + passed
            && (Ticks(HandlerNow(clock, current)) == Ticks(current) + passed
                <==> (passed >= 0x8000_0000 <==> clock < current.milliseconds))
  {
    var m, ms := current.months as int, current.milliseconds as int;
    var sum := ms + passed;
    assert (Ticks(current) + passed) % 0x1_0000_0000 == sum % 0x1_0000_0000;
    assert sum % 0x1_0000_0000 == if sum < 0x1_0000_0000 then sum else sum - 0x1_0000_0000;
  }

  /** One millisecond before the wrap the next millisecond is taken for the start of the same period. */
  lemma HandlerTimeAtWrap(months: CARD32)
    requires months < 0xFFFF_FFFF
    ensures var current := TimeStamp(months, 0xFFFF_FFFF);
            var due := UpdatedTime(0, current);
            && Ticks(due) == Ticks(current) + 1
            && CompareTimeStamps(due, HandlerNow(0, current)) == LATER
  {}

  /** AdjustWaitForDelay(wt, newdelay); a negative timeout waits for ever. */
  function AdjustWaitForDelay(timeout: int, newdelay: int): int {
    if timeout < 0 || newdelay < timeout then newdelay else timeout
  }

  /** The delay the block handler computes for a request that is later than now. */
  function Delay(revive: TimeStamp, now: TimeStamp): int {
    Int32(revive.milliseconds as int - now.milliseconds as int)
  }

  /** It is the time left exactly when less than half a clock period is left. */
  lemma DelayIsTimeLeft(revive: TimeStamp, now: TimeStamp)
    requires CompareTimeStamps(revive, now) == LATER
    ensures Delay(revive, now) == Ticks(revive) - Ticks(now) <==> Ticks(revive) - Ticks(now) < 0x8000_0000
  {
    var d := revive.milliseconds as int - now.milliseconds as int;
    assert d % 0x1_0000_0000 == if d < 0 then d + 0x1_0000_0000 else d;
  }

  /** The time left, as a 32-bit clock sees it. */
  function LeftOnClock(revive: TimeStamp, now: TimeStamp): nat {
    (Ticks(revive) - Ticks(now)) % 0x1_0000_0000
  }

  /**
   * For every later request: the delay is negative, and the wait then endless whatever it was, exactly when the time
   * left has at least half a clock period over whole ones; otherwise the delay is what is left over whole periods.
   */
  lemma DelayForEver(revive: TimeStamp, now: TimeStamp)
    ensures Delay(revive, now) < 0 <==> LeftOnClock(revive, now) >= 0x8000_0000
    ensures Delay(revive, now) == LeftOnClock(revive, now) - if Delay(revive, now) < 0 then 0x1_0000_0000 else 0
    ensures Delay(revive, now) < 0 <==> forall timeout :: AdjustWaitForDelay(timeout, Delay(revive, now)) < 0
  {
    hide Int32, AdjustWaitForDelay;
    var d := revive.milliseconds as int - now.milliseconds as int;
    var m := revive.months as int - now.months as int;
    assert LeftOnClock(revive, now) == d % 0x1_0000_0000 by { WholePeriods(m, d); }
    DelayOnClock(d);
    NegativeForEver(Delay(revive, now));
  }

  lemma WholePeriods(m: int, d: int)
    ensures (m * 0x1_0000_0000 + d) % 0x1_0000_0000 == d % 0x1_0000_0000
  {}

  lemma DelayOnClock(d: int)
    ensures Int32(d) < 0 <==> d % 0x1_0000_0000 >= 0x8000_0000
    ensures Int32(d) == d % 0x1_0000_0000 - if Int32(d) < 0 then 0x1_0000_0000 else 0
  {
    var q, r := d / 0x1_0000_0000, d % 0x1_0000_0000;
    assert d == q * 0x1_0000_0000 + r;
    WholePeriods(q, r + 0x8000_0000);
  }

  lemma NegativeForEver(delay: int)
    ensures delay < 0 <==> forall timeout :: AdjustWaitForDelay(timeout, delay) < 0
  {
    if delay >= 0 {
      assert AdjustWaitForDelay(-1, delay) >= 0;
    }
  }

  /** With one period and five milliseconds left the server waits five milliseconds, and then computes anew. */
  lemma DelayPastPeriod(now: TimeStamp)
    requires now.months < 0xFFFF_FFFE && now.milliseconds < 0xFFFF_FFF0
    ensures var revive := TimeStamp(now.months + 1, now.milliseconds + 5);
            Ticks(revive) - Ticks(now) == 0x1_0000_0005 && Delay(revive, now) == 5
  {}

  type ClientId = nat
  type XID = nat

  datatype NotifyFunc = NoFunc | ClientAwaken | Custom(proc: nat)

  class Sertafied {
    const revive: TimeStamp
    const client: ClientId
    const id: XID
    const closure: nat
    var notifyFunc: NotifyFunc

    constructor (client: ClientId, revive: TimeStamp, id: XID, closure: nat)
      ensures this.client == client && this.revive == revive && this.id == id && this.closure == closure
      ensures notifyFunc == NoFunc
    {
      this.client, this.revive, this.id, this.closure, notifyFunc := client, revive, id, closure, NoFunc;
    }
  }

  /** The requests of a queue that are not later than a time. */
  predicate DueBy(q: seq<Sertafied>, now: TimeStamp) {
    forall i :: 0 <= i < |q| ==> CompareTimeStamps(q[i].revive, now) != LATER
  }

  predicate LaterThan(q: seq<Sertafied>, now: TimeStamp) {
    forall i :: 0 <= i < |q| ==> CompareTimeStamps(q[i].revive, now) == LATER
  }

  /** In a queue a comes before b: it is due earlier, or at the same time and was accepted earlier. */
  ghost predicate Before(arrival: map<Sertafied, nat>, a: Sertafied, b: Sertafied) {
    && a in arrival && b in arrival
    && (Ticks(a.revive) < Ticks(b.revive) || (a.revive == b.revive && arrival[a] < arrival[b]))
  }

  ghost predicate Sorted(q: seq<Sertafied>, arrival: map<Sertafied, nat>) {
    forall i, j :: 0 <= i < j < |q| ==> Before(arrival, q[i], q[j])
  }

  ghost predicate Distinct(q: seq<Sertafied>) {
    forall i, j :: 0 <= i < j < |q| ==> q[i] != q[j]
  }

  /** The accepted requests are those that wait and those whose notify function was called, each once. */
  ghost predicate Accounted(pending: seq<Sertafied>, notified: seq<Sertafied>, arrival: map<Sertafied, nat>) {
    && Distinct(pending) && Distinct(notified)
    && (forall r :: r in arrival ==> r in pending || r in notified)
    && (forall r :: r in notified ==> r in arrival)
    && (forall r :: r in pending ==> r in arrival && r !in notified)
  }

  /** Every request that waits is a resource under its own id, and no other resource of this type exists. */
  ghost predicate Filed(pending: seq<Sertafied>, resources: map<XID, Sertafied>) {
    && (forall r :: r in pending ==> r.id in resources && resources[r.id] == r)
    && (forall x :: x in resources ==> resources[x] in pending && resources[x].id == x)
  }

  ghost predicate Numbered(arrival: map<Sertafied, nat>) {
    forall r :: r in arrival ==> arrival[r] < |arrival|
  }

  lemma NextNumber(arrival: map<Sertafied, nat>, r: Sertafied)
    requires Numbered(arrival) && r !in arrival
    ensures Numbered(arrival[r := |arrival|])
  {}

  /** The queue without its element at i. */
  function Unlinked<T>(q: seq<T>, i: nat): seq<T>
    requires i < |q|
  {
    q[..i] + q[i + 1..]
  }

  lemma UnlinkedAt<T>(q: seq<T>, i: nat, k: nat)
    requires i < |q| && k < |q| - 1
    ensures |Unlinked(q, i)| == |q| - 1 && Unlinked(q, i)[k] == q[if k < i then k else k + 1]
  {}

  lemma UnlinkedWithin<T>(q: seq<T>, i: nat)
    requires i < |q|
    ensures forall r :: r in Unlinked(q, i) ==> r in q
  {}

  lemma UnlinkedHas<T>(q: seq<T>, i: nat, r: T)
    requires i < |q| && r in q && r != q[i]
    ensures r in Unlinked(q, i)
  {
    var k :| 0 <= k < |q| && q[k] == r;
    assert Unlinked(q, i)[if k < i then k else k - 1] == r;
  }

  /** Taking one request off the queue and calling its notify function keeps the books in order. */
  lemma StillAccounted(q: seq<Sertafied>, notified: seq<Sertafied>, arrival: map<Sertafied, nat>, i: nat)
    requires i < |q| && Accounted(q, notified, arrival)
    ensures Accounted(Unlinked(q, i), notified + [q[i]], arrival)
  {
    var u := Unlinked(q, i);
    forall k | 0 <= k < |u| ensures u[k] in q && u[k] != q[i] { UnlinkedAt(q, i, k); }
    forall j, k | 0 <= j < k < |u| ensures u[j] != u[k] {
      UnlinkedAt(q, i, j);
      UnlinkedAt(q, i, k);
    }
    forall r | r in q && r != q[i] ensures r in u { UnlinkedHas(q, i, r); }
    var n := notified + [q[i]];
    assert forall r :: r in n <==> r in notified || r == q[i];
    assert q[i] in q;
  }

  lemma StillSorted(q: seq<Sertafied>, arrival: map<Sertafied, nat>, i: nat)
    requires i < |q| && Sorted(q, arrival)
    ensures Sorted(Unlinked(q, i), arrival)
  {
    hide Before;
    var u := Unlinked(q, i);
    forall j, k | 0 <= j < k < |u| ensures Before(arrival, u[j], u[k]) {
      UnlinkedAt(q, i, j);
      UnlinkedAt(q, i, k);
    }
  }

  lemma StillFiled(q: seq<Sertafied>, resources: map<XID, Sertafied>, i: nat)
    requires i < |q| && Filed(q, resources) && Distinct(q)
    ensures Filed(Unlinked(q, i), resources - {q[i].id})
  {
    var u := Unlinked(q, i);
    forall k | 0 <= k < |u| ensures u[k] in q && u[k] != q[i] { UnlinkedAt(q, i, k); }
    forall r | r in q && r != q[i] ensures r in u { UnlinkedHas(q, i, r); }
  }

  /** A request filed behind all that are not later than it and before all that are. */
  lemma InsertSorted(q: seq<Sertafied>, arrival: map<Sertafied, nat>, i: nat, r: Sertafied, n: nat)
    requires Sorted(q, arrival) && i <= |q| && r !in arrival && n == |arrival| && Numbered(arrival)
    requires forall x :: x in q ==> x in arrival
    requires DueBy(q[..i], r.revive) && LaterThan(q[i..], r.revive)
    ensures Sorted(q[..i] + [r] + q[i..], arrival[r := n])
  {
    hide Ticks;
    var a, s := arrival[r := n], q[..i] + [r] + q[i..];
    forall j, k | 0 <= j < k < |s| ensures Before(a, s[j], s[k]) {
      if j == i {
        assert s[k] == q[i..][k - i - 1];
        CompareIsOrder(s[k].revive, r.revive);
      } else if k == i {
        assert s[j] == q[..i][j];
        CompareIsOrder(s[j].revive, r.revive);
      } else {
        assert Before(arrival, q[if j < i then j else j - 1], q[if k < i then k else k - 1]);
      }
    }
  }

  /** The number of requests of a queue that come before a new one for time t. */
  function Place(q: seq<Sertafied>, t: TimeStamp): (i: nat)
    ensures i <= |q| && DueBy(q[..i], t)
    ensures i < |q| ==> CompareTimeStamps(q[i].revive, t) == LATER
  {
    if q == [] || CompareTimeStamps(q[0].revive, t) == LATER then 0 else 1 + Place(q[1..], t)
  }

  /** One request was put at its place among those of a queue. */
  ghost predicate Inserted(before: seq<Sertafied>, after: seq<Sertafied>, t: TimeStamp) {
    && |after| == |before| + 1
    && var i := Place(before, t); after == before[..i] + [after[i]] + before[i..]
  }

  /** One request was taken off a queue. */
  ghost predicate Removed(before: seq<Sertafied>, after: seq<Sertafied>, r: Sertafied) {
    exists i :: 0 <= i < |before| && before[i] == r && after == Unlinked(before, i)
  }

  lemma {:induction false} PlaceIs(q: seq<Sertafied>, t: TimeStamp, i: nat)
    requires i <= |q| && DueBy(q[..i], t) && (i < |q| ==> CompareTimeStamps(q[i].revive, t) == LATER)
    ensures i == Place(q, t)
  {
    hide CompareTimeStamps;
    if i > 0 {
      assert q[..i][0] == q[0];
      assert q[1..][..i - 1] == q[..i][1..];
      PlaceIs(q[1..], t, i - 1);
    }
  }

  /** A run of a handler woke exactly the requests that are not later than now, in the order of the queue. */
  ghost predicate Woken(before: seq<Sertafied>, doneBefore: seq<Sertafied>, after: seq<Sertafied>,
                        doneAfter: seq<Sertafied>, now: TimeStamp)
  {
    var n := Place(before, now);
    after == before[n..] && doneAfter == doneBefore + before[..n] && DueBy(before[..n], now) && LaterThan(after, now)
  }

  lemma NothingWoken(done: seq<Sertafied>, now: TimeStamp)
    ensures Woken([], done, [], done, now)
  {}

  lemma WokenMeans(before: seq<Sertafied>, doneBefore: seq<Sertafied>, after: seq<Sertafied>,
                   doneAfter: seq<Sertafied>, now: TimeStamp)
    requires Woken(before, doneBefore, after, doneAfter, now)
    ensures |after| == |before| - Place(before, now)
    ensures after != [] ==> CompareTimeStamps(after[0].revive, now) == LATER
  {}

  lemma RemovedFirst(before: seq<Sertafied>, after: seq<Sertafied>)
    requires before != [] && Distinct(before) && Removed(before, after, before[0])
    ensures after == before[1..]
  {}

  lemma FirstFiled(q: seq<Sertafied>, resources: map<XID, Sertafied>)
    requires q != [] && Filed(q, resources)
    ensures q[0].id in resources && resources[q[0].id] == q[0]
  {}

  lemma OneMoreDue(q: seq<Sertafied>, n: nat, now: TimeStamp)
    requires n < |q| && DueBy(q[..n], now) && CompareTimeStamps(q[n].revive, now) != LATER
    ensures DueBy(q[..n + 1], now) && q[..n] + [q[n]] == q[..n + 1] && q[n..][1..] == q[n + 1..]
  {}

  lemma InsertedAt(q: seq<Sertafied>, i: nat, r: Sertafied)
    requires i <= |q| && i == Place(q, r.revive)
    ensures Inserted(q, q[..i] + [r] + q[i..], r.revive)
    ensures forall x :: x in q[..i] + [r] + q[i..] ==> x == r || x in q
  {
    hide Place;
    InsertedElements(q, i, r);
  }

  lemma InsertedElements<T>(q: seq<T>, i: nat, r: T)
    requires i <= |q|
    ensures (q[..i] + [r] + q[i..])[i] == r && |q[..i] + [r] + q[i..]| == |q| + 1
    ensures forall x :: x in q[..i] + [r] + q[i..] ==> x == r || x in q
  {
    var s := q[..i] + [r] + q[i..];
    forall k | 0 <= k < |s| ensures s[k] == r || s[k] in q {
      if k != i { assert s[k] == q[if k < i then k else k - 1]; }
    }
  }

  lemma Arrived(q: seq<Sertafied>, notified: seq<Sertafied>, arrival: map<Sertafied, nat>)
    requires Accounted(q, notified, arrival)
    ensures Distinct(q) && forall r :: r in q ==> r in arrival
  {}

  /** In a sorted queue everything from a later request on is later. */
  lemma LaterOn(q: seq<Sertafied>, arrival: map<Sertafied, nat>, i: nat, t: TimeStamp)
    requires Sorted(q, arrival) && i <= |q| && (i < |q| ==> CompareTimeStamps(q[i].revive, t) == LATER)
    ensures LaterThan(q[i..], t)
  {
    hide Ticks;
    forall k | i <= k < |q| ensures CompareTimeStamps(q[k].revive, t) == LATER {
      if k > i { assert Before(arrival, q[i], q[k]); }
      CompareIsOrder(q[i].revive, t);
      CompareIsOrder(q[k].revive, t);
    }
  }

  lemma InsertAccounted(q: seq<Sertafied>, notified: seq<Sertafied>, arrival: map<Sertafied, nat>, i: nat,
                        r: Sertafied, n: nat)
    requires Accounted(q, notified, arrival) && i <= |q| && r !in arrival
    ensures Accounted(q[..i] + [r] + q[i..], notified, arrival[r := n])
  {
    var s := q[..i] + [r] + q[i..];
    assert forall x :: x in s <==> x == r || x in q by {
      assert q == q[..i] + q[i..];
    }
    forall j, k | 0 <= j < k < |s| ensures s[j] != s[k] {
      if j != i { assert s[j] == q[if j < i then j else j - 1]; }
      if k != i { assert s[k] == q[if k < i then k else k - 1]; }
    }
  }

  lemma InsertFiled(q: seq<Sertafied>, resources: map<XID, Sertafied>, i: nat, r: Sertafied)
    requires Filed(q, resources) && i <= |q| && r.id !in resources
    ensures Filed(q[..i] + [r] + q[i..], resources[r.id := r])
  {
    var s := q[..i] + [r] + q[i..];
    assert forall x :: x in s <==> x == r || x in q by {
      assert q == q[..i] + q[i..];
    }
  }

  class Queue {
    var pending: seq<Sertafied>
    var blockHandlerRegistered: bool
    /** The resources of type ClientSleep. */
    var resources: map<XID, Sertafied>
    /** The requests whose notify function was called, in the order of the calls. */
    var notified: seq<Sertafied>
    /** When each request was accepted. */
    ghost var arrival: map<Sertafied, nat>

    ghost predicate Valid()
      reads this, pending
    {
      && Sorted(pending, arrival) && Accounted(pending, notified, arrival) && Filed(pending, resources)
      && Numbered(arrival) && (pending != [] ==> blockHandlerRegistered)
      && (forall r :: r in pending ==> r.notifyFunc != NoFunc)
    }

    constructor ()
      ensures Valid() && pending == [] && notified == []
    {
      pending, blockHandlerRegistered, resources, notified, arrival := [], false, map[], [], map[];
    }

    /** SertafiedDelete: unlinks a request, if it is in the queue, and calls its notify function, if it has one. */
    method SertafiedDelete(request: Sertafied)
      modifies this`pending, this`notified
      ensures request.notifyFunc != NoFunc ==> notified == old(notified) + [request]
      ensures request.notifyFunc == NoFunc ==> notified == old(notified)
      ensures request !in old(pending) ==> pending == old(pending)
      ensures request in old(pending) ==> Removed(old(pending), pending, request)
    {
      var i := 0;
      while i < |pending|
        invariant i <= |pending| && pending == old(pending) && request !in pending[..i]
      {
        if pending[i] == request {
          pending := Unlinked(pending, i);
          break;
        }
        i := i + 1;
      }
      if request.notifyFunc != NoFunc {
        notified := notified + [request];
      }
    }

    /** FreeResource, for an id that may name a request: the handlers call it, and so does the end of a client. */
    method FreeResource(id: XID)
      requires Valid()
      modifies this
      ensures Valid() && arrival == old(arrival) && blockHandlerRegistered == old(blockHandlerRegistered)
      ensures id !in old(resources) ==>
                pending == old(pending) && notified == old(notified) && resources == old(resources)
      ensures id in old(resources) ==>
                && notified == old(notified) + [old(resources)[id]]
                && Removed(old(pending), pending, old(resources)[id])
    {
      hide Sorted, Accounted, Distinct, Numbered, Unlinked;
      if id !in resources {
        return;
      }
      var request := resources[id];
      resources := resources - {id};
      ghost var q, done := pending, notified;
      SertafiedDelete(request);
      ghost var i :| 0 <= i < |q| && q[i] == request && pending == Unlinked(q, i);
      StillSorted(q, arrival, i);
      StillAccounted(q, done, arrival, i);
      Arrived(q, done, arrival);
      StillFiled(q, old(resources), i);
      UnlinkedWithin(q, i);
    }

    /** Inserts a request, now a resource, into the time-ordered queue. */
    method Enqueue(request: Sertafied)
      requires Valid() && request.id !in resources && request !in arrival && request.notifyFunc != NoFunc
      requires blockHandlerRegistered
      modifies this`pending, this`resources, this`arrival
      ensures Valid() && resources == old(resources)[request.id := request]
      ensures arrival == old(arrival)[request := |old(arrival)|]
      ensures Inserted(old(pending), pending, request.revive) && pending[Place(old(pending), request.revive)] == request
    {
      hide Sorted, Accounted, Distinct, Filed, CompareTimeStamps, Numbered, Inserted, LaterThan;
      ghost var q := pending;
      resources := resources[request.id := request];
      var i := 0;
      while i < |pending|
        invariant i <= |pending| && DueBy(pending[..i], request.revive)
        invariant pending == q
      {
        if CompareTimeStamps(pending[i].revive, request.revive) == LATER {
          break;
        }
        i := i + 1;
      }
      PlaceIs(q, request.revive, i);
      LaterOn(q, arrival, i, request.revive);
      Arrived(q, notified, arrival);
      InsertSorted(q, arrival, i, request, |arrival|);
      InsertAccounted(q, notified, arrival, i, request, |arrival|);
      InsertFiled(q, old(resources), i, request);
      pending := pending[..i] + [request] + pending[i..];
      NextNumber(arrival, request);
      arrival := arrival[request := |arrival|];
      InsertedAt(q, i, request);
    }

    /** Puts a client to sleep; the two flags tell whether the handlers and the resource can be added. */
    method ClientSleepUntil(client: ClientId, revive: TimeStamp, notifyFunc: NotifyFunc, closure: nat, id: XID,
                            handlersAdded: bool, resourceAdded: bool) returns (ok: bool)
      requires Valid() && id !in resources
      modifies this
      ensures Valid() && notified == old(notified)
      ensures ok <==> (old(blockHandlerRegistered) || handlersAdded) && resourceAdded
      ensures !ok ==> pending == old(pending) && arrival == old(arrival) && resources == old(resources)
      ensures ok ==> blockHandlerRegistered
      ensures ok ==> Inserted(old(pending), pending, revive) && fresh(pending[Place(old(pending), revive)])
      ensures ok ==>
        var r := pending[Place(old(pending), revive)];
        && arrival == old(arrival)[r := |old(arrival)|] && r.client == client && r.revive == revive
        && r.closure == closure && r.id == id
        && r.notifyFunc == (if notifyFunc == NoFunc then ClientAwaken else notifyFunc)
    {
      hide Sorted, Accounted, Distinct, Filed;
      var request := new Sertafied(client, revive, id, closure);
      if !blockHandlerRegistered {
        if !handlersAdded {
          return false;
        }
        blockHandlerRegistered := true;
      }
      if !resourceAdded {
        // AddResource calls the delete function when it fails.
        SertafiedDelete(request);
        return false;
      }
      request.notifyFunc := if notifyFunc == NoFunc then ClientAwaken else notifyFunc;
      Enqueue(request);
      ok := true;
    }

    /** The loop of the handlers: every request that is not later than now is freed, the first one first. */
    method WakeDue(now: TimeStamp, wt: int) returns (timeout: int)
      requires Valid()
      modifies this
      ensures Valid() && arrival == old(arrival) && blockHandlerRegistered == old(blockHandlerRegistered)
      ensures Woken(old(pending), old(notified), pending, notified, now)
      ensures timeout == if Place(old(pending), now) > 0 then 0 else wt
    {
      hide Sorted, Accounted, Distinct, Filed, CompareTimeStamps, Numbered, Removed, LaterThan;
      timeout := wt;
      ghost var n := 0;
      ghost var q, done := pending, notified;
      while |pending| > 0
        invariant Valid() && arrival == old(arrival) && blockHandlerRegistered == old(blockHandlerRegistered)
        invariant n <= |q| && pending == q[n..] && DueBy(q[..n], now)
        invariant notified == done + q[..n]
        invariant timeout == if n > 0 then 0 else wt
        decreases |pending|
      {
        var request := pending[0];
        if CompareTimeStamps(request.revive, now) == LATER {
          break;
        }
        ghost var rest := pending;
        Arrived(pending, notified, arrival);
        FirstFiled(pending, resources);
        FreeResource(request.id);
        RemovedFirst(rest, pending);
        OneMoreDue(q, n, now);
        timeout := AdjustWaitForDelay(timeout, 0);
        n := n + 1;
      }
      PlaceIs(q, now, n);
      LaterOn(q, arrival, n, now);
    }

    /** Before the server blocks: wakes what is due, and shortens the wait to the first request that is not. */
    method BlockHandler(clock: CARD32, currentTime: TimeStamp, wt: int) returns (timeout: int)
      requires Valid()
      modifies this
      ensures Valid() && arrival == old(arrival) && blockHandlerRegistered == old(blockHandlerRegistered)
      ensures Woken(old(pending), old(notified), pending, notified, HandlerNow(clock, currentTime))
      ensures pending == [] && old(pending) == [] ==> timeout == wt
      ensures pending == [] && old(pending) != [] ==> timeout == 0
      ensures pending != [] ==>
        var left := LeftOnClock(pending[0].revive, HandlerNow(clock, currentTime));
        && Ticks(pending[0].revive) > Ticks(HandlerNow(clock, currentTime))
        && (left < 0x8000_0000 ==> timeout == if |pending| < |old(pending)| then 0 else
                                              if 0 <= wt <= left then wt else left)
        && (left >= 0x8000_0000 ==> timeout == left - 0x1_0000_0000 < 0)
    {
      hide Sorted, Accounted, Distinct, Filed, Numbered, Woken, HandlerNow, Delay, LeftOnClock;
      if pending == [] {
        NothingWoken(notified, HandlerNow(clock, currentTime));
        return wt;
      }
      var now := HandlerNow(clock, currentTime);
      timeout := WakeDue(now, wt);
      WokenMeans(old(pending), old(notified), pending, notified, now);
      if pending == [] {
        return;
      }
      var delay := Delay(pending[0].revive, now);
      CompareIsOrder(pending[0].revive, now);
      DelayForEver(pending[0].revive, now);
      timeout := AdjustWaitForDelay(timeout, delay);
    }

    /** After the server blocked: wakes what is due, and leaves the handlers when nothing waits any more. */
    method WakeupHandler(clock: CARD32, currentTime: TimeStamp)
      requires Valid()
      modifies this
      ensures Valid() && arrival == old(arrival)
      ensures Woken(old(pending), old(notified), pending, notified, HandlerNow(clock, currentTime))
      ensures blockHandlerRegistered <==> old(blockHandlerRegistered) && pending != []
    {
      hide Sorted, Accounted, Distinct, Filed, Numbered, Woken, HandlerNow, Place;
      var _ := WakeDue(HandlerNow(clock, currentTime), 0);
      if pending == [] {
        blockHandlerRegistered := false;
      }
    }

    /** Over any run, an accepted request is notified once if it has left the queue, and not at all before. */
    lemma NotifiedOnce(r: Sertafied)
      requires Valid() && r in arrival
      ensures multiset(notified)[r] == if r in pending then 0 else 1
      ensures multiset(pending)[r] == if r in pending then 1 else 0
    {
      DistinctCount(notified, r);
      DistinctCount(pending, r);
    }
  }

  lemma {:induction false} DistinctCount(q: seq<Sertafied>, r: Sertafied)
    requires Distinct(q)
    ensures multiset(q)[r] == if r in q then 1 else 0
  {
    if q != [] {
      DistinctCount(q[1..], r);
      assert q == [q[0]] + q[1..];
    }
  }
}
