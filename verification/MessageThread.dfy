/** The message thread's queue changed in place; calling a message is split into taking it
    up and returning from it, since the call may post, cancel or cancel itself. */
module MessageThreadModel {
  import opened Options
  import opened TimerQueue

  class MessageThread {
    var queue: seq<Message>
    var lastMessageID: nat
    var cancelCurrent: bool
    var msgsToDeliverNow: seq<Message>
    var current: Option<Message>
    ghost var now: real
    ghost var log: seq<Delivery>
    ghost var posted: map<nat, Message>
    ghost var over: map<nat, nat>

    ghost function View(): Timer
      reads this
    {
      Timer(queue, msgsToDeliverNow, current, cancelCurrent, lastMessageID, now, log, posted, over)
    }

    constructor ()
      ensures View() == NEW_TIMER
    {
      queue, msgsToDeliverNow, current := [], [], None;
      lastMessageID, cancelCurrent := 1, false;
      now, log, posted, over := 1.0, [], map[], map[];
    }

    method InsertMessageInternal(m: Message)
      requires Sorted(queue)
      modifies this`queue
      ensures queue == Insert(old(queue), m)
    {
      if |queue| == 0 {
        queue := [m];
      } else if queue[0].deliverAt > m.deliverAt {
        queue := [m] + queue;
      } else {
        var insertAfter := 0;
        while insertAfter < |queue|
          invariant 0 <= insertAfter < |queue|
          invariant queue == old(queue) && queue[insertAfter].deliverAt <= m.deliverAt
        {
          var next := insertAfter + 1;
          if next == |queue| || (queue[next].deliverAt > m.deliverAt && queue[insertAfter].deliverAt <= m.deliverAt) {
            PlaceIs(queue, m.deliverAt, next);
            queue := queue[..next] + [m] + queue[next..];
            break;
          }
          insertAfter := insertAfter + 1;
        }
      }
    }

    static lemma PlaceIs(q: seq<Message>, at: real, k: nat)
      requires Sorted(q) && k <= |q|
      requires forall i :: 0 <= i < k ==> q[i].deliverAt <= at
      requires k < |q| ==> q[k].deliverAt > at
      ensures Place(q, at) == k
    {
    }

    method Post(delay: real, interval: real, time: real) returns (id: nat)
      requires delay >= 0.0 && time >= now && Sorted(queue)
      modifies this
      ensures id == old(lastMessageID) && View() == Posted(old(View()), delay, interval, time)
    {
      id := lastMessageID;
      var m := Message(id, if delay == 0.0 then 0.0 else time + delay, interval);
      lastMessageID := lastMessageID + 1;
      InsertMessageInternal(m);
      now, posted := time, posted[id := m];
    }

    /** The element at the scan's position joins what was passed, or is erased. */
    static lemma Scanned(front: seq<Message>, x: Message, erased: bool, tail: seq<Message>)
      ensures front + ((if erased then [] else [x]) + tail) == (if erased then front else front + [x]) + tail
    {
      if erased {
        assert [] + tail == tail;
      } else {
        assert front + ([x] + tail) == (front + [x]) + tail;
      }
    }

    /** Erasing at the scan's position, and stepping over it. */
    static lemma Position(front: seq<Message>, rest: seq<Message>)
      requires rest != []
      ensures var q := front + rest;
              && q[|front|] == rest[0] && q[..|front|] + q[|front| + 1..] == front + rest[1..]
              && q == (front + [rest[0]]) + rest[1..]
    {
    }

    static lemma DroppedHead(rest: seq<Message>, id: nat)
      requires rest != []
      ensures Dropped(rest, id) == (if rest[0].id == id then [] else [rest[0]]) + Dropped(rest[1..], id)
    {
    }

    static lemma DueHead(rest: seq<Message>, time: real)
      requires rest != []
      ensures Remaining(rest, time) == (if Due(rest[0], time) then [] else [rest[0]]) + Remaining(rest[1..], time)
      ensures Collected(rest, time) == (if !Due(rest[0], time) then [] else [rest[0]]) + Collected(rest[1..], time)
    {
    }

    static lemma DueMeans(m: Message, time: real)
      ensures Due(m, time) <==> m.deliverAt == 0.0 || time >= m.deliverAt
    {
    }

    static lemma NothingLeft(id: nat, time: real)
      ensures Dropped([], id) == [] && Remaining([], time) == [] && Collected([], time) == []
    {
    }

    method Cancel(id: nat)
      modifies this
      ensures View() == Cancelled(old(View()), id)
    {
      ghost var was := queue;
      ghost var front, rest := [], queue;
      var m := 0;
      assert [] + queue == queue && [] + Dropped(was, id) == Dropped(was, id);
      hide Dropped, Deadlines, InSeq;
      while m < |queue|
        invariant queue == front + rest && m == |front|
        invariant front + Dropped(rest, id) == Dropped(was, id)
        invariant unchanged(this`lastMessageID, this`cancelCurrent, this`current, this`msgsToDeliverNow)
        invariant unchanged(this`now, this`log, this`posted, this`over)
        decreases |rest|
      {
        Position(front, rest);
        Scanned(front, rest[0], rest[0].id == id, Dropped(rest[1..], id));
        DroppedHead(rest, id);
        if queue[m].id == id {
          queue := queue[..m] + queue[m + 1..];
        } else {
          front := front + [rest[0]];
          m := m + 1;
        }
        rest := rest[1..];
      }
      assert front + [] == front && Dropped([], id) == [] by { NothingLeft(id, 0.0); }
      over := if InSeq(was, id) then over[id := |Deadlines(log, id)|] else over;
    }

    method CancelSelf()
      requires current.Some?
      modifies this`cancelCurrent
      ensures View() == Step(old(View()), TimerQueue.CancelSelf)
    {
      cancelCurrent := true;
    }

    /** The scan of one pass of the loop: what is due leaves the queue. */
    method CollectDue(time: real)
      requires time >= now && msgsToDeliverNow == [] && current.None?
      modifies this
      ensures View() == Step(old(View()), Collect(time))
    {
      ghost var was := queue;
      ghost var front, rest := [], queue;
      var m := 0;
      assert [] + Remaining(was, time) == Remaining(was, time) && [] + Collected(was, time) == Collected(was, time);
      hide Remaining, Collected, Due;
      while m < |queue|
        invariant queue == front + rest && m == |front|
        invariant front + Remaining(rest, time) == Remaining(was, time)
        invariant msgsToDeliverNow + Collected(rest, time) == Collected(was, time)
        invariant unchanged(this`lastMessageID, this`cancelCurrent, this`current)
        invariant unchanged(this`now, this`log, this`posted, this`over)
        decreases |rest|
      {
        Position(front, rest);
        Scanned(front, rest[0], Due(rest[0], time), Remaining(rest[1..], time));
        Scanned(msgsToDeliverNow, rest[0], !Due(rest[0], time), Collected(rest[1..], time));
        DueHead(rest, time);
        DueMeans(rest[0], time);
        if queue[m].deliverAt == 0.0 || time >= queue[m].deliverAt {
          msgsToDeliverNow := msgsToDeliverNow + [queue[m]];
          queue := queue[..m] + queue[m + 1..];
        } else {
          front := front + [rest[0]];
          m := m + 1;
        }
        rest := rest[1..];
      }
      assert front + [] == front && msgsToDeliverNow + [] == msgsToDeliverNow;
      NothingLeft(0, time);
      now := time;
    }

    method TakeUp(time: real)
      requires time >= now && msgsToDeliverNow != [] && current.None?
      modifies this
      ensures View() == Step(old(View()), Begin(time))
    {
      var m := msgsToDeliverNow[0];
      msgsToDeliverNow := msgsToDeliverNow[1..];
      cancelCurrent := false;
      if m.deliverAt == 0.0 {
        m := m.(deliverAt := time);
      }
      current := Some(m);
      now, log := time, log + [Delivery(m.id, m.deliverAt, time)];
    }

    method Return()
      requires current.Some? && Sorted(queue)
      modifies this
      ensures View() == Step(old(View()), Finish)
    {
      var m := current.value;
      current := None;
      if !cancelCurrent && m.interval > 0.0 {
        InsertMessageInternal(m.(deliverAt := m.deliverAt + m.interval));
      }
      over := if cancelCurrent then over[m.id := |Deadlines(log, m.id)|] else over;
    }
  }
}
