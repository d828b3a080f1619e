/** The message thread's timer queue as functions on its state, and what holds over every
    run.  Time is a positive number that never decreases. */
module TimerQueue {
  import opened Options

  datatype Message = Message(id: nat, deliverAt: real, interval: real)

  /** `deadline` is when the message was due: for a message posted without a delay, the
      moment it was taken up. */
  datatype Delivery = Delivery(id: nat, deadline: real, at: real)

  datatype Timer = Timer(
    queue: seq<Message>,
    batch: seq<Message>,          // due, taken out of the queue, not delivered yet
    current: Option<Message>,     // being delivered
    cancelCurrent: bool,
    nextId: nat,
    now: real,
    log: seq<Delivery>,
    posted: map<nat, Message>,    // every message as it was posted
    over: map<nat, nat>)          // ids cancelled, and how often each was delivered by then

  datatype Action =
    | Post(delay: real, interval: real, now: real)
    | Cancel(id: nat)
    | CancelSelf
    | Collect(now: real)          // the thread wakes up and takes out what is due
    | Begin(now: real)            // it calls the next message of the batch
    | Finish                      // the call returns

  const NEW_TIMER: Timer := Timer([], [], None, false, 1, 1.0, [], map[], map[])

  // --------------------------------------------------------------------- the queue

  predicate Sorted(q: seq<Message>) {
    forall i, j :: 0 <= i < j < |q| ==> q[i].deliverAt <= q[j].deliverAt
  }

  /** Where a message goes: behind every message that is due no later. */
  function Place(q: seq<Message>, at: real): (k: nat)
    ensures k <= |q|
    ensures forall i :: 0 <= i < k ==> q[i].deliverAt <= at
    ensures k < |q| ==> q[k].deliverAt > at
  {
    if q == [] || q[0].deliverAt > at then 0 else Place(q[1..], at) + 1
  }

  function Insert(q: seq<Message>, m: Message): seq<Message> {
    var k := Place(q, m.deliverAt);
    q[..k] + [m] + q[k..]
  }

  lemma InsertKeepsSorted(q: seq<Message>, m: Message)
    requires Sorted(q)
    ensures Sorted(Insert(q, m))
  {
  }

  predicate Due(m: Message, now: real) {
    m.deliverAt == 0.0 || now >= m.deliverAt
  }

  function Collected(q: seq<Message>, now: real): seq<Message> {
    if q == [] then [] else (if Due(q[0], now) then [q[0]] else []) + Collected(q[1..], now)
  }

  function Remaining(q: seq<Message>, now: real): seq<Message> {
    if q == [] then [] else (if Due(q[0], now) then [] else [q[0]]) + Remaining(q[1..], now)
  }

  function Dropped(q: seq<Message>, id: nat): seq<Message> {
    if q == [] then [] else (if q[0].id == id then [] else [q[0]]) + Dropped(q[1..], id)
  }

  lemma {:induction false} NothingDue(q: seq<Message>, now: real)
    requires forall i :: 0 <= i < |q| ==> !Due(q[i], now)
    ensures Collected(q, now) == [] && Remaining(q, now) == q
  {
    if q != [] {
      NothingDue(q[1..], now);
    }
  }

  lemma {:induction false} DueSplits(q: seq<Message>, now: real, k: nat)
    requires k <= |q|
    requires forall i :: 0 <= i < k ==> Due(q[i], now)
    requires forall i :: k <= i < |q| ==> !Due(q[i], now)
    ensures Collected(q, now) == q[..k] && Remaining(q, now) == q[k..]
  {
    if k == 0 {
      NothingDue(q, now);
    } else {
      var rest := q[1..];
      DueSplits(rest, now, k - 1);
      assert [q[0]] + rest[..k - 1] == q[..k] && rest[k - 1..] == q[k..];
    }
  }

  /** In a sorted queue what is due is a prefix, and everything after it is due later. */
  lemma {:induction false} DueIsAPrefix(q: seq<Message>, now: real) returns (k: nat)
    requires Sorted(q) && now > 0.0
    ensures k <= |q| && Collected(q, now) == q[..k] && Remaining(q, now) == q[k..]
    ensures forall i :: 0 <= i < |q| ==> (i < k <==> q[i].deliverAt <= now)
  {
    k := Place(q, now);
    forall i | k <= i < |q| ensures q[i].deliverAt > now {
      assert k < i ==> q[k].deliverAt <= q[i].deliverAt;
    }
    DueSplits(q, now, k);
  }

  /** The wait the thread computes ends with the earliest deadline, or never without one. */
  function WaitUntil(q: seq<Message>): Option<real> {
    if q == [] then None else Some(q[0].deliverAt)
  }

  lemma WaitEndsInTime(q: seq<Message>, m: Message)
    requires Sorted(q) && m in q
    ensures WaitUntil(q).Some? && WaitUntil(q).value <= m.deliverAt
  {
    var i :| 0 <= i < |q| && q[i] == m;
  }

  // ---------------------------------------------------------------------- the steps

  function Posted(s: Timer, delay: real, interval: real, now: real): Timer {
    var m := Message(s.nextId, if delay == 0.0 then 0.0 else now + delay, interval);
    s.(queue := Insert(s.queue, m), nextId := s.nextId + 1, now := now, posted := s.posted[m.id := m])
  }

  function Cancelled(s: Timer, id: nat): Timer {
    s.(queue := Dropped(s.queue, id),
       over := if InSeq(s.queue, id) then s.over[id := |Deadlines(s.log, id)|] else s.over)
  }

  function Begun(s: Timer, now: real): Timer
    requires s.batch != []
  {
    var m := s.batch[0];
    var taken := if m.deliverAt == 0.0 then m.(deliverAt := now) else m;
    s.(batch := s.batch[1..], current := Some(taken), cancelCurrent := false, now := now,
       log := s.log + [Delivery(m.id, taken.deliverAt, now)])
  }

  function Finished(s: Timer): Timer
    requires s.current.Some?
  {
    var m := s.current.value;
    var s1 := s.(current := None);
    if s.cancelCurrent then s1.(over := s.over[m.id := |Deadlines(s.log, m.id)|])
    else if m.interval > 0.0 then s1.(queue := Insert(s.queue, m.(deliverAt := m.deliverAt + m.interval)))
    else s1
  }

  /** The thread holds the mutex from waking up until the whole batch is delivered: what is
      due is posted and cancelled before that, or by the message being delivered. */
  predicate Unlocked(s: Timer) {
    s.batch == [] || s.current.Some?
  }

  /** A step that is not possible changes nothing. */
  function Step(s: Timer, a: Action): Timer {
    match a
    case Post(delay, interval, now) =>
      if Unlocked(s) && delay >= 0.0 && now >= s.now then Posted(s, delay, interval, now) else s
    case Cancel(id) => if Unlocked(s) then Cancelled(s, id) else s
    case CancelSelf => if s.current.Some? then s.(cancelCurrent := true) else s
    case Collect(now) =>
      if now >= s.now && s.batch == [] && s.current.None?
      then s.(batch := Collected(s.queue, now), queue := Remaining(s.queue, now), now := now) else s
    case Begin(now) => if now >= s.now && s.batch != [] && s.current.None? then Begun(s, now) else s
    case Finish => if s.current.Some? then Finished(s) else s
  }

  function Run(s: Timer, acts: seq<Action>): Timer
    decreases |acts|
  {
    if acts == [] then s else Step(Run(s, acts[..|acts| - 1]), acts[|acts| - 1])
  }

  // ---------------------------------------------------------------- what is observed

  predicate InSeq(q: seq<Message>, id: nat) {
    exists m :: m in q && m.id == id
  }

  predicate Live(s: Timer, id: nat) {
    InSeq(s.queue, id) || InSeq(s.batch, id) || (s.current.Some? && s.current.value.id == id)
  }

  /** The deadlines at which a message was delivered. */
  function Deadlines(log: seq<Delivery>, id: nat): seq<real> {
    if log == [] then []
    else
      var before := Deadlines(log[..|log| - 1], id);
      if log[|log| - 1].id == id then before + [log[|log| - 1].deadline] else before
  }

  predicate Progression(d: seq<real>, interval: real) {
    forall n :: 0 <= n < |d| ==> d[n] == d[0] + n as real * interval
  }

  // -------------------------------------------------------------------- the invariant

  predicate Unique(q: seq<Message>) {
    forall i, j :: 0 <= i < j < |q| ==> q[i].id != q[j].id
  }

  predicate Apart(a: seq<Message>, b: seq<Message>) {
    forall x, y :: x in a && y in b ==> x.id != y.id
  }

  /** Every id is live at most once. */
  predicate OneInstance(s: Timer) {
    && Unique(s.queue) && Unique(s.batch) && Apart(s.queue, s.batch)
    && (s.current.Some? ==> Apart([s.current.value], s.queue) && Apart([s.current.value], s.batch))
  }

  /** A waiting message is due when it was posted for, or one interval after its last delivery. */
  predicate NextDue(s: Timer, m: Message) {
    && m.id in s.posted && m.interval == s.posted[m.id].interval
    && var d := Deadlines(s.log, m.id);
       if d == [] then m == s.posted[m.id] && m.deliverAt >= 0.0
       else m.interval > 0.0 && m.deliverAt == d[|d| - 1] + m.interval > 0.0
  }

  predicate WaitingRight(s: Timer) {
    && (forall m :: m in s.queue ==> NextDue(s, m))
    && (forall m :: m in s.batch ==> NextDue(s, m))
  }

  predicate CurrentRight(s: Timer) {
    s.current.Some? ==>
      var m := s.current.value;
      var d := Deadlines(s.log, m.id);
      && m.id in s.posted && m.interval == s.posted[m.id].interval && d != [] && d[|d| - 1] == m.deliverAt > 0.0
      && (m.interval <= 0.0 ==> |d| == 1)
  }

  /** The deadlines of a message run from the time it was posted for in steps of its interval. */
  predicate RightDeadlines(s: Timer, id: nat) {
    var d := Deadlines(s.log, id);
    if id !in s.posted then d == []
    else
      && Progression(d, s.posted[id].interval)
      && (d != [] && s.posted[id].deliverAt != 0.0 ==> d[0] == s.posted[id].deliverAt)
  }

  predicate NothingEarly(log: seq<Delivery>) {
    forall i :: 0 <= i < |log| ==> log[i].deadline <= log[i].at
  }

  predicate InTime(s: Timer) {
    && s.now > 0.0 && Sorted(s.queue) && Sorted(s.batch)
    && (forall m :: m in s.batch ==> m.deliverAt <= s.now)
    && NothingEarly(s.log)
  }

  predicate Known(s: Timer) {
    s.nextId > 0 && forall id :: id in s.posted ==> 0 < id < s.nextId
  }

  /** What was cancelled is not live and was not delivered since. */
  predicate OverIsOver(s: Timer) {
    forall id :: id in s.over ==> !Live(s, id) && id in s.posted && |Deadlines(s.log, id)| == s.over[id]
  }

  /** What was posted is live, or cancelled, or was delivered the one time it asked for. */
  predicate NothingLost(s: Timer) {
    forall id :: id in s.posted && !Live(s, id) && id !in s.over ==>
      s.posted[id].interval <= 0.0 && |Deadlines(s.log, id)| == 1
  }

  ghost predicate Invariant(s: Timer) {
    && OneInstance(s) && WaitingRight(s) && CurrentRight(s) && (forall id :: RightDeadlines(s, id))
    && InTime(s) && Known(s) && OverIsOver(s) && NothingLost(s)
  }

  // ------------------------------------------------------------ the queue operations

  lemma InsertAdds(q: seq<Message>, m: Message)
    ensures forall x :: x in Insert(q, m) <==> x in q || x == m
    ensures Unique(q) && Apart([m], q) ==> Unique(Insert(q, m))
  {
    var k, r := Place(q, m.deliverAt), Insert(q, m);
    forall x ensures x in r <==> x in q || x == m {
      if x in q {
        var i :| 0 <= i < |q| && q[i] == x;
        assert r[if i < k then i else i + 1] == x;
      }
      assert r[k] == m;
    }
    if Unique(q) && Apart([m], q) {
      assert m in [m];
      forall i | 0 <= i < |q| ensures q[i].id != m.id { assert q[i] in q; }
    }
  }

  lemma {:induction false} DroppedHolds(q: seq<Message>, id: nat)
    ensures forall x :: x in Dropped(q, id) <==> x in q && x.id != id
  {
    if q != [] {
      DroppedHolds(q[1..], id);
      assert forall x :: x in q <==> x == q[0] || x in q[1..];
    }
  }

  lemma FirstAndRest(q: seq<Message>)
    requires q != []
    ensures Unique(q) <==> Unique(q[1..]) && forall x :: x in q[1..] ==> x.id != q[0].id
    ensures Sorted(q) <==> Sorted(q[1..]) && forall x :: x in q[1..] ==> q[0].deliverAt <= x.deliverAt
  {
    var rest := q[1..];
    assert forall i :: 0 < i < |q| ==> q[i] == rest[i - 1] && q[i] in rest;
  }

  lemma {:induction false} DroppedDrops(q: seq<Message>, id: nat)
    ensures forall x :: x in Dropped(q, id) <==> x in q && x.id != id
    ensures Unique(q) ==> Unique(Dropped(q, id))
    ensures Sorted(q) ==> Sorted(Dropped(q, id))
  {
    hide Unique, Sorted;
    DroppedHolds(q, id);
    if q == [] {
      NothingIsInOrder();
    } else {
      DroppedDrops(q[1..], id);
      FirstAndRest(q);
      var r := Dropped(q, id);
      if q[0].id != id {
        assert r[1..] == Dropped(q[1..], id);
        FirstAndRest(r);
      } else {
        assert r == Dropped(q[1..], id);
      }
    }
  }

  lemma NothingIsInOrder()
    ensures Unique([]) && Sorted([])
  {
  }

  lemma DeadlinesAppend(log: seq<Delivery>, x: Delivery, id: nat)
    ensures Deadlines(log + [x], id) ==
            if x.id == id then Deadlines(log, id) + [x.deadline] else Deadlines(log, id)
  {
    assert (log + [x])[..|log|] == log;
  }

  // ------------------------------------------------------------------ every step keeps it

  lemma PostKeeps(s: Timer, delay: real, interval: real, now: real)
    requires Invariant(s) && delay >= 0.0 && now >= s.now
    ensures Invariant(Posted(s, delay, interval, now))
  {
    hide Insert, Deadlines;
    var s1 := Posted(s, delay, interval, now);
    var m := s1.posted[s.nextId];
    assert Known(s) && RightDeadlines(s, m.id);
    forall x | x in s.queue || x in s.batch ensures x.id in s.posted { assert NextDue(s, x); }
    InsertAdds(s.queue, m);
    InsertKeepsSorted(s.queue, m);
    forall id ensures RightDeadlines(s1, id) { assert RightDeadlines(s, id); }
    forall x | x in s1.queue ensures NextDue(s1, x) { assert x != m ==> NextDue(s, x); }
    forall x | x in s1.batch ensures NextDue(s1, x) { assert NextDue(s, x); }
    forall id ensures Live(s1, id) <==> Live(s, id) || id == m.id { }
  }

  lemma CancelKeeps(s: Timer, id: nat)
    requires Invariant(s)
    ensures Invariant(Cancelled(s, id))
  {
    hide Dropped, Deadlines, Progression;
    var s1 := Cancelled(s, id);
    DroppedDrops(s.queue, id);
    forall x ensures RightDeadlines(s1, x) { assert RightDeadlines(s, x); }
    forall x | x in s1.queue || x in s1.batch ensures NextDue(s1, x) { assert NextDue(s, x); }
    forall x | Live(s, x) ensures x in s.posted { KnownLive(s, x); }
    forall x ensures Live(s1, x) <==> Live(s, x) && !(x == id && InSeq(s.queue, id)) {
      if InSeq(s.queue, x) { OnlyOnce(s, x); }
    }
  }

  lemma KnownLive(s: Timer, id: nat)
    requires WaitingRight(s) && CurrentRight(s) && Live(s, id)
    ensures id in s.posted
  {
    forall m | m in s.queue || m in s.batch ensures m.id in s.posted { assert NextDue(s, m); }
  }

  lemma OnlyOnce(s: Timer, id: nat)
    requires OneInstance(s) && InSeq(s.queue, id)
    ensures !InSeq(s.batch, id) && (s.current.Some? ==> s.current.value.id != id)
  {
    if s.current.Some? {
      assert s.current.value in [s.current.value];
    }
  }

  /** Two parts of a queue hold what the queue held. */
  lemma SplitParts(q: seq<Message>, a: seq<Message>, b: seq<Message>)
    requires q == a + b
    ensures forall m :: m in q <==> m in a || m in b
    ensures forall id :: InSeq(q, id) <==> InSeq(a, id) || InSeq(b, id)
    ensures Unique(q) ==> Unique(a) && Unique(b) && Apart(b, a)
    ensures Sorted(q) ==> Sorted(a) && Sorted(b)
  {
    forall m ensures m in q <==> m in a || m in b { }
    if Unique(q) {
      forall x, y | x in b && y in a ensures x.id != y.id {
        var i :| 0 <= i < |b| && b[i] == x;
        var j :| 0 <= j < |a| && a[j] == y;
        assert q[|a| + i] == x && q[j] == y;
      }
      forall i, j | 0 <= i < j < |b| ensures b[i].id != b[j].id { assert q[|a| + i] == b[i] && q[|a| + j] == b[j]; }
      forall i, j | 0 <= i < j < |a| ensures a[i].id != a[j].id { assert q[i] == a[i] && q[j] == a[j]; }
    }
    if Sorted(q) {
      forall i, j | 0 <= i < j < |b| ensures b[i].deliverAt <= b[j].deliverAt {
        assert q[|a| + i] == b[i] && q[|a| + j] == b[j];
      }
      forall i, j | 0 <= i < j < |a| ensures a[i].deliverAt <= a[j].deliverAt { assert q[i] == a[i] && q[j] == a[j]; }
    }
  }

  lemma CollectKeeps(s: Timer, now: real)
    requires Invariant(s) && now >= s.now && s.batch == [] && s.current.None?
    ensures Invariant(Step(s, Collect(now)))
  {
    hide Collected, Remaining, Deadlines, Progression, InSeq;
    var s1 := Step(s, Collect(now));
    var k := DueIsAPrefix(s.queue, now);
    SplitParts(s.queue, s1.batch, s1.queue);
    forall m | m in s1.batch ensures m.deliverAt <= now {
      var j :| 0 <= j < |s1.batch| && s1.batch[j] == m;
      assert s.queue[j] == m;
    }
    hide Sorted, Unique, Apart;
    forall x ensures RightDeadlines(s1, x) { assert RightDeadlines(s, x); }
    forall m | m in s1.queue || m in s1.batch ensures NextDue(s1, m) { assert NextDue(s, m); }
    hide NextDue, RightDeadlines, Live;
    forall x ensures Live(s1, x) <==> Live(s, x) { SameLive(s, s1, x); }
  }

  lemma SameLive(s: Timer, s1: Timer, id: nat)
    requires s.batch == [] && s.current.None? && s1.current.None?
    requires InSeq(s.queue, id) <==> InSeq(s1.batch, id) || InSeq(s1.queue, id)
    ensures Live(s1, id) <==> Live(s, id)
  {
  }

  /** One more delivery of a message that was waiting. */
  lemma DeliveryIsDue(s: Timer, m: Message, now: real, x: nat)
    requires NextDue(s, m) && RightDeadlines(s, x) && RightDeadlines(s, m.id) && now > 0.0
    ensures var taken := if m.deliverAt == 0.0 then now else m.deliverAt;
            RightDeadlines(s.(log := s.log + [Delivery(m.id, taken, now)]), x)
  {
    hide Deadlines;
    var taken := if m.deliverAt == 0.0 then now else m.deliverAt;
    DeadlinesAppend(s.log, Delivery(m.id, taken, now), x);
    var d := Deadlines(s.log, m.id);
    if x == m.id && d != [] {
      var n, interval := |d| - 1, m.interval;
      assert d[n] == d[0] + n as real * interval;
      assert (n + 1) as real * interval == n as real * interval + interval;
    }
  }

  lemma BeginKeepsWaiting(s: Timer, now: real)
    requires Invariant(s) && now >= s.now && s.batch != [] && s.current.None?
    ensures WaitingRight(Begun(s, now)) && CurrentRight(Begun(s, now))
    ensures forall x :: RightDeadlines(Begun(s, now), x)
  {
    hide Progression, Deadlines, Sorted;
    var m, s1 := s.batch[0], Begun(s, now);
    var taken := s1.current.value.deliverAt;
    assert m in s.batch && NextDue(s, m);
    forall x ensures RightDeadlines(s1, x) {
      assert RightDeadlines(s, x) && RightDeadlines(s, m.id);
      DeliveryIsDue(s, m, now, x);
    }
    forall x: nat ensures Deadlines(s1.log, x) == if x == m.id then Deadlines(s.log, x) + [taken] else Deadlines(s.log, x) {
      DeadlinesAppend(s.log, Delivery(m.id, taken, now), x);
    }
    forall y | y in s1.queue || y in s1.batch ensures NextDue(s1, y) {
      assert NextDue(s, y) && y.id != m.id by {
        if y in s1.batch { Later(s.batch, y); }
      }
    }
  }

  lemma Later(q: seq<Message>, y: Message)
    requires q != [] && Unique(q) && y in q[1..]
    ensures y in q && y.id != q[0].id
  {
    var i :| 0 <= i < |q[1..]| && q[1..][i] == y;
    assert q[i + 1] == y;
  }

  lemma BeginKeepsOne(s: Timer, now: real)
    requires Invariant(s) && now >= s.now && s.batch != [] && s.current.None?
    ensures OneInstance(Begun(s, now)) && InTime(Begun(s, now)) && Known(Begun(s, now))
    ensures forall x :: Live(Begun(s, now), x) <==> Live(s, x)
  {
    hide WaitingRight, OverIsOver, NothingLost, InSeq;
    var m, s1 := s.batch[0], Begun(s, now);
    assert s.batch == [m] + s1.batch;
    SplitParts(s.batch, [m], s1.batch);
    assert m in s.batch && m in [m];
    forall y | y in [s1.current.value] ensures y.id == m.id { }
    forall x ensures InSeq([m], x) <==> x == m.id { OnlyElement(m, x); }
  }

  lemma OnlyElement(m: Message, id: nat)
    ensures InSeq([m], id) <==> id == m.id
  {
    assert m in [m];
  }

  lemma BeginKeeps(s: Timer, now: real)
    requires Invariant(s) && now >= s.now && s.batch != [] && s.current.None?
    ensures Invariant(Begun(s, now))
  {
    hide Progression, Deadlines, RightDeadlines, NextDue, OneInstance, InTime, WaitingRight, CurrentRight;
    var m, s1 := s.batch[0], Begun(s, now);
    var taken := s1.current.value.deliverAt;
    BeginKeepsWaiting(s, now);
    BeginKeepsOne(s, now);
    assert m in s.batch;
    hide Live, InSeq;
    forall x: nat ensures Deadlines(s1.log, x) == if x == m.id then Deadlines(s.log, x) + [taken] else Deadlines(s.log, x) {
      DeadlinesAppend(s.log, Delivery(m.id, taken, now), x);
    }
    LiveInBatch(s);
  }

  lemma LiveInBatch(s: Timer)
    requires s.batch != []
    ensures Live(s, s.batch[0].id)
  {
  }

  lemma {:induction false} FinishKeepsOne(s: Timer)
    requires OneInstance(s) && InTime(s) && s.current.Some?
    ensures var m, s1 := s.current.value, Finished(s);
            && OneInstance(s1) && InTime(s1)
            && (forall y :: y in s1.queue ==> y in s.queue || y == m.(deliverAt := m.deliverAt + m.interval))
            && (forall x :: Live(s1, x) <==> Live(s, x) && (x == m.id ==> !s.cancelCurrent && m.interval > 0.0))
  {
    hide Insert;
    var m, s1 := s.current.value, Finished(s);
    var next := m.(deliverAt := m.deliverAt + m.interval);
    assert m in [m];
    InsertAdds(s.queue, next);
    InsertKeepsSorted(s.queue, next);
  }

  lemma {:induction false} FinishKeeps(s: Timer)
    requires Invariant(s) && s.current.Some?
    ensures Invariant(Finished(s))
  {
    hide Insert, Deadlines, OneInstance, InTime, RightDeadlines, WaitingRight, CurrentRight;
    FinishKeepsOne(s);
    FinishKeepsDue(s);
    hide Live, InSeq;
    assert CurrentRight(Finished(s)) by { assert Finished(s).current.None?; NobodyIsRight(Finished(s)); }
    LastDeliveryOnly(s);
  }

  lemma NobodyIsRight(s: Timer)
    requires s.current.None?
    ensures CurrentRight(s)
  {
  }

  lemma LastDeliveryOnly(s: Timer)
    requires CurrentRight(s) && s.current.Some?
    ensures var m := s.current.value;
            && m.id in s.posted && m.interval == s.posted[m.id].interval
            && (m.interval <= 0.0 ==> |Deadlines(s.log, m.id)| == 1)
  {
  }

  lemma {:induction false} FinishKeepsDue(s: Timer)
    requires WaitingRight(s) && CurrentRight(s) && s.current.Some?
    requires forall x :: RightDeadlines(s, x)
    ensures WaitingRight(Finished(s)) && forall x :: RightDeadlines(Finished(s), x)
  {
    hide Insert, Deadlines, Progression;
    var m, s1 := s.current.value, Finished(s);
    InsertAdds(s.queue, m.(deliverAt := m.deliverAt + m.interval));
    forall x ensures RightDeadlines(s1, x) { assert RightDeadlines(s, x); }
    forall y | y in s1.queue ensures NextDue(s1, y) { assert y in s.queue ==> NextDue(s, y); }
    forall y | y in s1.batch ensures NextDue(s1, y) { assert NextDue(s, y); }
  }

  lemma StepKeepsInvariant(s: Timer, a: Action)
    requires Invariant(s)
    ensures Invariant(Step(s, a))
  {
    hide Invariant, Posted, Cancelled, Begun, Finished, Collected, Remaining;
    match a
    case Post(delay, interval, now) =>
      if Unlocked(s) && delay >= 0.0 && now >= s.now { PostKeeps(s, delay, interval, now); }
    case Cancel(id) => if Unlocked(s) { CancelKeeps(s, id); }
    case CancelSelf => SelfKeeps(s);
    case Collect(now) =>
      if now >= s.now && s.batch == [] && s.current.None? { CollectKeeps(s, now); }
    case Begin(now) => if now >= s.now && s.batch != [] && s.current.None? { BeginKeeps(s, now); }
    case Finish => if s.current.Some? { FinishKeeps(s); }
  }

  lemma SelfKeeps(s: Timer)
    requires Invariant(s)
    ensures Invariant(s.(cancelCurrent := true))
  {
    hide Progression, Deadlines, Sorted, Unique, Apart;
    var s1 := s.(cancelCurrent := true);
    forall x ensures RightDeadlines(s1, x) { assert RightDeadlines(s, x); }
    forall y | y in s1.queue || y in s1.batch ensures NextDue(s1, y) { assert NextDue(s, y); }
    forall x ensures Live(s1, x) <==> Live(s, x) { }
  }

  lemma {:induction false} RunKeepsInvariant(acts: seq<Action>)
    ensures Invariant(Run(NEW_TIMER, acts))
    decreases |acts|
  {
    hide Step;
    if acts == [] {
      NothingYet();
    } else {
      hide Invariant;
      RunKeepsInvariant(acts[..|acts| - 1]);
      StepKeepsInvariant(Run(NEW_TIMER, acts[..|acts| - 1]), acts[|acts| - 1]);
    }
  }

  lemma NothingYet()
    ensures Invariant(NEW_TIMER)
  {
  }

  // ------------------------------------------------------------------- what it means

  /** In every run the queue is sorted, each id is live at most once, and every delivery
      is at or after its deadline. */
  lemma TimerIsSound(acts: seq<Action>)
    ensures var s := Run(NEW_TIMER, acts);
            Sorted(s.queue) && OneInstance(s) && NothingEarly(s.log)
  {
    RunKeepsInvariant(acts);
  }

  /** The deadlines of each message are an exact arithmetic progression from the time it
      was posted for. */
  lemma {:induction false} DeadlinesAreExact(acts: seq<Action>, id: nat)
    requires Deadlines(Run(NEW_TIMER, acts).log, id) != []
    ensures var s := Run(NEW_TIMER, acts);
            var d := Deadlines(s.log, id);
            && id in s.posted && Progression(d, s.posted[id].interval)
            && (s.posted[id].deliverAt != 0.0 ==> d[0] == s.posted[id].deliverAt)
  {
    hide Run, Deadlines, Progression;
    RunKeepsInvariant(acts);
    assert RightDeadlines(Run(NEW_TIMER, acts), id);
  }

  /** A message is never lost: until cancelled it waits, unless it was to be delivered
      once and was. */
  lemma NoMessageIsLost(acts: seq<Action>, id: nat)
    requires id in Run(NEW_TIMER, acts).posted
    ensures var s := Run(NEW_TIMER, acts);
            Live(s, id) || id in s.over || (s.posted[id].interval <= 0.0 && |Deadlines(s.log, id)| == 1)
  {
    RunKeepsInvariant(acts);
  }

  /** What is taken out is exactly what is due, in the order of its deadlines. */
  lemma CollectTakesTheDue(acts: seq<Action>, now: real) returns (k: nat)
    requires now > 0.0
    ensures var q := Run(NEW_TIMER, acts).queue;
            && k <= |q| && Collected(q, now) == q[..k] && Remaining(q, now) == q[k..] && Sorted(Collected(q, now))
            && forall i :: 0 <= i < |q| ==> (i < k <==> q[i].deliverAt <= now)
  {
    RunKeepsInvariant(acts);
    k := DueIsAPrefix(Run(NEW_TIMER, acts).queue, now);
  }

  lemma {:induction false} OverStays(s: Timer, acts: seq<Action>, id: nat)
    requires Invariant(s) && id in s.over
    ensures Invariant(Run(s, acts)) && id in Run(s, acts).over && Run(s, acts).over[id] == s.over[id]
    decreases |acts|
  {
    if acts != [] {
      hide Invariant, Run;
      var before := Run(s, acts[..|acts| - 1]);
      OverStays(s, acts[..|acts| - 1], id);
      assert Run(s, acts) == Step(before, acts[|acts| - 1]) by { RunLast(s, acts); }
      StepKeepsInvariant(before, acts[|acts| - 1]);
      NotCancelledTwice(before, acts[|acts| - 1], id);
    }
  }

  lemma RunLast(s: Timer, acts: seq<Action>)
    requires acts != []
    ensures Run(s, acts) == Step(Run(s, acts[..|acts| - 1]), acts[|acts| - 1])
  {
  }

  lemma NotCancelledTwice(s: Timer, a: Action, id: nat)
    requires Invariant(s) && id in s.over
    ensures id in Step(s, a).over && Step(s, a).over[id] == s.over[id]
  {
    assert !Live(s, id);
  }

  /** A message cancelled while it is queued is never delivered again. */
  lemma CancelledNeverComes(acts: seq<Action>, id: nat, later: seq<Action>)
    requires InSeq(Run(NEW_TIMER, acts).queue, id)
    ensures var s := Run(NEW_TIMER, acts);
            |Deadlines(Run(Cancelled(s, id), later).log, id)| == |Deadlines(s.log, id)|
  {
    var s := Run(NEW_TIMER, acts);
    RunKeepsInvariant(acts);
    CancelKeeps(s, id);
    OverStays(Cancelled(s, id), later, id);
    assert id in Run(Cancelled(s, id), later).over;
  }

  // -------------------------------------------------------------- a cancel that comes late

  /** Some run delivers the message once more. */
  ghost predicate ComesAgain(s: Timer, id: nat) {
    exists acts :: |Deadlines(Run(s, acts).log, id)| > |Deadlines(s.log, id)|
  }

  /** The message is past cancelling by its id: it was taken out with a batch, or it is the
      repeating message being delivered, and has not cancelled itself. */
  predicate TooLate(s: Timer, id: nat) {
    && !InSeq(s.queue, id)
    && (InSeq(s.batch, id)
        || (s.current.Some? && s.current.value.id == id && s.current.value.interval > 0.0 && !s.cancelCurrent))
  }

  lemma {:induction false} RunFirst(s: Timer, a: Action, acts: seq<Action>)
    ensures Run(s, [a] + acts) == Run(Step(s, a), acts)
    decreases |acts|
  {
    hide Step;
    if acts == [] {
      assert [a] + acts == [a] && [a][..0] == [];
    } else {
      assert ([a] + acts)[..|acts|] == [a] + acts[..|acts| - 1];
      RunFirst(s, a, acts[..|acts| - 1]);
    }
  }

  lemma ComesAfterStep(s: Timer, a: Action, id: nat)
    requires || |Deadlines(Step(s, a).log, id)| > |Deadlines(s.log, id)|
             || (ComesAgain(Step(s, a), id) && |Deadlines(Step(s, a).log, id)| == |Deadlines(s.log, id)|)
    ensures ComesAgain(s, id)
  {
    hide Step, Deadlines;
    if |Deadlines(Step(s, a).log, id)| > |Deadlines(s.log, id)| {
      RunFirst(s, a, []);
      assert Run(Step(s, a), []) == Step(s, a);
      assert |Deadlines(Run(s, [a] + []).log, id)| > |Deadlines(s.log, id)|;
    } else {
      var acts :| |Deadlines(Run(Step(s, a), acts).log, id)| > |Deadlines(Step(s, a).log, id)|;
      RunFirst(s, a, acts);
      assert |Deadlines(Run(s, [a] + acts).log, id)| > |Deadlines(s.log, id)|;
    }
  }

  /** The rest of a batch is delivered, whatever else is cancelled. */
  lemma {:induction false} BatchComes(s: Timer, id: nat)
    requires InSeq(s.batch, id)
    ensures ComesAgain(s, id)
    decreases |s.batch|, s.current.Some?
  {
    hide ComesAgain, Deadlines, Insert;
    if s.current.Some? {
      BatchComes(Finished(s), id);
      ComesAfterStep(s, Finish, id);
    } else {
      var m, s1 := s.batch[0], Step(s, Begin(s.now));
      DeadlinesAppend(s.log, s1.log[|s.log|], id);
      if m.id != id {
        var x :| x in s.batch && x.id == id;
        assert x in s.batch[1..];
        BatchComes(s1, id);
      }
      ComesAfterStep(s, Begin(s.now), id);
    }
  }

  lemma {:induction false} CollectedHas(q: seq<Message>, now: real, m: Message)
    requires m in q && Due(m, now)
    ensures m in Collected(q, now)
  {
    if q[0] != m {
      CollectedHas(q[1..], now, m);
    }
  }

  /** A queued message comes when its time has come and the batch before it is delivered. */
  lemma {:induction false} QueuedComes(s: Timer, m: Message)
    requires m in s.queue
    ensures ComesAgain(s, m.id)
    decreases |s.batch|, s.current.Some?
  {
    hide ComesAgain, Deadlines, Insert;
    if s.current.Some? {
      var c := s.current.value;
      InsertAdds(s.queue, c.(deliverAt := c.deliverAt + c.interval));
      QueuedComes(Finished(s), m);
      ComesAfterStep(s, Finish, m.id);
    } else if s.batch != [] {
      var s1 := Step(s, Begin(s.now));
      DeadlinesAppend(s.log, s1.log[|s.log|], m.id);
      QueuedComes(s1, m);
      ComesAfterStep(s, Begin(s.now), m.id);
    } else {
      var now := if m.deliverAt > s.now then m.deliverAt else s.now;
      CollectedHas(s.queue, now, m);
      BatchComes(Step(s, Collect(now)), m.id);
      ComesAfterStep(s, Collect(now), m.id);
    }
  }

  /** A posted message that is neither waiting nor about to repeat. */
  predicate Finally(s: Timer, id: nat) {
    && id in s.posted && !InSeq(s.queue, id) && !InSeq(s.batch, id)
    && (s.current.Some? && s.current.value.id == id ==> s.cancelCurrent || s.current.value.interval <= 0.0)
  }

  lemma {:induction false} StepKeepsFinally(s: Timer, a: Action, id: nat)
    requires Invariant(s) && Finally(s, id)
    ensures Finally(Step(s, a), id) && |Deadlines(Step(s, a).log, id)| == |Deadlines(s.log, id)|
  {
    hide Deadlines, Insert, Collected, Remaining, Dropped, Sorted, OneInstance, WaitingRight, CurrentRight, RightDeadlines;
    match a
    case Post(delay, interval, now) =>
      InsertAdds(s.queue, Message(s.nextId, if delay == 0.0 then 0.0 else now + delay, interval));
    case Cancel(x) => DroppedDrops(s.queue, x);
    case CancelSelf =>
    case Collect(now) =>
      var k := DueIsAPrefix(s.queue, if now >= s.now then now else s.now);
      SplitParts(s.queue, s.queue[..k], s.queue[k..]);
    case Begin(now) =>
      if now >= s.now && s.batch != [] && s.current.None? {
        DeadlinesAppend(s.log, Begun(s, now).log[|s.log|], id);
        assert s.batch[0] in s.batch;
      }
    case Finish =>
      if s.current.Some? {
        var m := s.current.value;
        InsertAdds(s.queue, m.(deliverAt := m.deliverAt + m.interval));
      }
  }

  lemma {:induction false} FinallyStays(s: Timer, acts: seq<Action>, id: nat)
    requires Invariant(s) && Finally(s, id)
    ensures Invariant(Run(s, acts)) && Finally(Run(s, acts), id)
    ensures |Deadlines(Run(s, acts).log, id)| == |Deadlines(s.log, id)|
    decreases |acts|
  {
    hide Invariant, Finally, Step, Deadlines;
    if acts != [] {
      var before := Run(s, acts[..|acts| - 1]);
      FinallyStays(s, acts[..|acts| - 1], id);
      StepKeepsInvariant(before, acts[|acts| - 1]);
      StepKeepsFinally(before, acts[|acts| - 1], id);
    }
  }

  lemma {:induction false} NotQueuedNotDropped(q: seq<Message>, id: nat)
    requires !InSeq(q, id)
    ensures Dropped(q, id) == q
  {
    if q != [] {
      assert q[0] in q && forall m :: m in q[1..] ==> m in q;
      NotQueuedNotDropped(q[1..], id);
    }
  }

  /** Exactly when a message still comes after it was cancelled: `Cancel` looks at the queue
      alone, so it does nothing to a message that was taken out with its batch, nor to the
      repeating message that is being delivered, even when that message itself calls it. */
  lemma {:induction false} LateCancelStillDelivers(s: Timer, id: nat)
    requires Invariant(s) && Unlocked(s) && id in s.posted
    ensures ComesAgain(Step(s, Cancel(id)), id) <==> TooLate(s, id)
    ensures !InSeq(s.queue, id) ==> Step(s, Cancel(id)) == s
  {
    hide Invariant, Dropped, Deadlines, Run, Insert;
    var s1 := Cancelled(s, id);
    if InSeq(s.queue, id) {
      CancelKeeps(s, id);
      forall acts ensures |Deadlines(Run(s1, acts).log, id)| == |Deadlines(s1.log, id)| {
        NeverAfterOver(s1, acts, id);
      }
    } else {
      NotQueuedNotDropped(s.queue, id);
      if InSeq(s.batch, id) {
        BatchComes(s, id);
      } else if TooLate(s, id) {
        RepeatingComes(s);
      } else {
        forall acts ensures |Deadlines(Run(s, acts).log, id)| == |Deadlines(s.log, id)| {
          FinallyStays(s, acts, id);
        }
      }
    }
  }

  lemma NeverAfterOver(s: Timer, acts: seq<Action>, id: nat)
    requires Invariant(s) && id in s.over
    ensures |Deadlines(Run(s, acts).log, id)| == |Deadlines(s.log, id)|
  {
    OverStays(s, acts, id);
    assert OverIsOver(s) && OverIsOver(Run(s, acts));
  }

  lemma RepeatingComes(s: Timer)
    requires s.current.Some? && s.current.value.interval > 0.0 && !s.cancelCurrent
    ensures ComesAgain(s, s.current.value.id)
  {
    hide ComesAgain, Deadlines, Insert;
    var m := s.current.value;
    var next := m.(deliverAt := m.deliverAt + m.interval);
    InsertAdds(s.queue, next);
    QueuedComes(Finished(s), next);
    ComesAfterStep(s, Finish, m.id);
  }
}
