/** The ring buffer from which clients fetch the events since the last one they have seen
    (bufferedSubscription in lib/events/events.go). */
module BufferedEvents {
  import opened EventBus

  // What a slot holds before it is filled.
  const BLANK := Event(0, 0, Entry(0, ""))

  function NextSlot(i: nat, size: nat): (next: nat)
    requires i < size
    ensures next == if i + 1 == size then 0 else i + 1
  {
    (i + 1) % size
  }

  function LastId(received: seq<Event>): int {
    if received == [] then 0 else received[|received| - 1].subscriptionID
  }

  /** Numbers are positive and increase, as SubscribersSeeIncreasingNumbers says. */
  ghost predicate AreNumbered(received: seq<Event>) {
    Increases(received) && forall i :: 0 <= i < |received| ==> received[i].subscriptionID > 0
  }

  /** The contents of the ring from the oldest slot on: each event received pushes one out. */
  ghost function Ring(received: seq<Event>, size: nat): (r: seq<Event>)
    requires size > 0
    ensures |r| == size
  {
    if received == [] then seq(size, _ => BLANK)
    else Ring(received[..|received| - 1], size)[1..] + [received[|received| - 1]]
  }

  ghost function Newer(events: seq<Event>, id: int): seq<Event> {
    if events == [] then [] else
      Newer(events[..|events| - 1], id) +
      if events[|events| - 1].subscriptionID > id then [events[|events| - 1]] else []
  }

  class BufferedSubscription {
    const buf: array<Event>
    var next: nat
    // The number of the latest event.
    var cur: int
    ghost var received: seq<Event>

    ghost predicate Valid()
      reads this, buf
    {
      && buf.Length > 0 && next < buf.Length
      && AreNumbered(received) && cur == LastId(received)
      && buf[next..] + buf[..next] == Ring(received, buf.Length)
    }

    constructor (size: nat)
      requires size > 0
      ensures Valid() && fresh(buf) && buf.Length == size && received == []
    {
      buf := new Event[size](_ => BLANK);
      next, cur, received := 0, 0, [];
      new;
      assert buf[0..] + buf[..0] == seq(size, _ => BLANK);
    }

    /** One round of the polling loop. */
    method Receive(ev: Event)
      requires Valid() && ev.subscriptionID > cur
      modifies this, buf
      ensures Valid() && received == old(received) + [ev]
    {
      LastOneIsNewest(received, ev);
      OneMoreInRing(received, ev, buf.Length);
      hide Ring;
      hide AreNumbered;
      hide NextSlot;
      ghost var slots, at := buf[..], next;
      assert slots[at..] + slots[..at] == Ring(received, buf.Length);
      buf[next] := ev;
      assert buf[..] == slots[at := ev];
      next := NextSlot(next, buf.Length);
      cur := ev.subscriptionID;
      OldestMakesRoom(slots, at, next, ev);
      assert buf[next..] + buf[..next] == Ring(received, buf.Length)[1..] + [ev];
      received := received + [ev];
    }

    /** The events that may arrive until the timeout are given. The caller waits while there is
        nothing newer; it may have missed several events by the time it is woken up, and when the
        timeout wakes it up, it does not look again. */
    method Since(id: int, into: seq<Event>, arrivals: seq<Event>) returns (r: seq<Event>, timedOut: bool, taken: nat)
      requires Valid() && AreNumbered(received + arrivals)
      modifies this, buf
      ensures Valid() && taken <= |arrivals| && received == old(received) + arrivals[..taken]
      ensures !timedOut ==> cur > id && r == into + Newer(Ring(received, buf.Length), id)
      ensures timedOut ==> r == into
      ensures id < old(cur) ==> !timedOut && taken == 0
    {
      taken, timedOut := 0, false;
      assert received + arrivals[..0] == received;
      while id >= cur
        invariant Valid() && taken <= |arrivals| && received == old(received) + arrivals[..taken]
        invariant id < old(cur) ==> taken == 0 && cur == old(cur)
        decreases |arrivals| - taken
      {
        var until: nat, expired: bool := *, *;
        if until <= taken || until > |arrivals| {
          until := if taken < |arrivals| then taken + 1 else taken;
        }
        expired := expired || until == taken;
        taken := TakeUntil(arrivals, taken, until, old(received));
        if expired {
          return into, true, taken;
        }
      }
      r := Collect(id, into);
    }

    /** First the older part of the ring, then the newer one. */
    method Collect(id: int, into: seq<Event>) returns (r: seq<Event>)
      requires Valid()
      ensures r == into + Newer(Ring(received, buf.Length), id)
    {
      assert buf[next..] + buf[..next] == Ring(received, buf.Length);
      hide *;
      assert buf[next..buf.Length] == buf[next..] && buf[0..next] == buf[..next];
      r := CollectPart(id, into, next, buf.Length);
      r := CollectPart(id, r, 0, next);
      NewerOfConcat(buf[next..], buf[..next], id);
    }

    method CollectPart(id: int, into: seq<Event>, from: nat, to: nat) returns (r: seq<Event>)
      requires from <= to <= buf.Length
      ensures r == into + Newer(buf[from..to], id)
    {
      r := into;
      for i := from to to
        invariant r == into + Newer(buf[from..i], id)
      {
        assert buf[from..i + 1][..i - from] == buf[from..i];
        if buf[i].subscriptionID > id {
          r := r + [buf[i]];
        }
      }
    }

    /** Receives some of the events that arrive. */
    method TakeUntil(arrivals: seq<Event>, from: nat, until: nat, ghost before: seq<Event>) returns (taken: nat)
      requires Valid() && from <= until <= |arrivals|
      requires received == before + arrivals[..from] && AreNumbered(before + arrivals)
      modifies this, buf
      ensures Valid() && taken == until && received == before + arrivals[..until]
    {
      taken := from;
      while taken < until
        invariant Valid() && from <= taken <= until && received == before + arrivals[..taken]
      {
        NextIsNewer(before, arrivals, taken);
        Receive(arrivals[taken]);
        assert arrivals[..taken + 1] == arrivals[..taken] + [arrivals[taken]];
        assert before + arrivals[..taken + 1] == (before + arrivals[..taken]) + [arrivals[taken]];
        taken := taken + 1;
      }
    }
  }

  lemma OldestMakesRoom(slots: seq<Event>, at: nat, next: nat, ev: Event)
    requires at < |slots| && next == if at + 1 == |slots| then 0 else at + 1
    ensures var now := slots[at := ev];
            now[next..] + now[..next] == (slots[at..] + slots[..at])[1..] + [ev]
  {
    var ring, now := slots[at..] + slots[..at], slots[at := ev];
    assert ring[1..] == slots[at + 1..] + slots[..at];
    if next == 0 {
      assert now == slots[..at] + [ev];
    } else {
      assert now[next..] == slots[next..] && now[..next] == slots[..at] + [ev];
    }
  }

  lemma OneMoreInRing(received: seq<Event>, ev: Event, size: nat)
    requires size > 0
    ensures Ring(received + [ev], size) == Ring(received, size)[1..] + [ev]
  {
    assert (received + [ev])[..|received|] == received;
  }

  lemma LastOneIsNewest(received: seq<Event>, ev: Event)
    requires AreNumbered(received) && ev.subscriptionID > LastId(received)
    ensures AreNumbered(received + [ev])
  {
  }

  lemma NextIsNewer(before: seq<Event>, arrivals: seq<Event>, k: nat)
    requires k < |arrivals| && AreNumbered(before + arrivals)
    ensures arrivals[k].subscriptionID > LastId(before + arrivals[..k])
  {
    var all, part := before + arrivals, before + arrivals[..k];
    assert all[|before| + k] == arrivals[k];
    assert part != [] ==> part[|part| - 1] == all[|part| - 1];
  }

  // ---------- What a client gets ----------

  lemma {:induction false} NewerOfConcat(a: seq<Event>, b: seq<Event>, id: int)
    ensures Newer(a + b, id) == Newer(a, id) + Newer(b, id)
  {
    if b == [] {
      assert a + b == a;
    } else {
      assert (a + b)[..|a + b| - 1] == a + b[..|b| - 1];
      NewerOfConcat(a, b[..|b| - 1], id);
    }
  }

  lemma {:induction false} NewerIsAllOrNothing(events: seq<Event>, id: int)
    ensures (forall i :: 0 <= i < |events| ==> events[i].subscriptionID > id) ==> Newer(events, id) == events
    ensures (forall i :: 0 <= i < |events| ==> events[i].subscriptionID <= id) ==> Newer(events, id) == []
  {
    if events != [] {
      NewerIsAllOrNothing(events[..|events| - 1], id);
    }
  }

  ghost function Blanks(n: nat): seq<Event> {
    seq(n, _ => BLANK)
  }

  /** The latest events, no more than there are slots. */
  ghost function LastOf(received: seq<Event>, size: nat): seq<Event> {
    if |received| <= size then received else received[|received| - size..]
  }

  lemma LastOneMore(init: seq<Event>, ev: Event, size: nat)
    requires size > 0
    ensures var last := LastOf(init, size);
            LastOf(init + [ev], size) == (if |last| < size then last else last[1..]) + [ev]
  {
  }

  lemma BlanksGoFirst(last: seq<Event>, size: nat)
    requires |last| <= size && size > 0
    ensures (Blanks(size - |last|) + last)[1..] ==
            Blanks(if |last| < size then size - |last| - 1 else 0) + if |last| < size then last else last[1..]
  {
  }

  lemma {:induction false} RingIsBlanksAndLast(received: seq<Event>, size: nat)
    requires size > 0
    ensures Ring(received, size) == Blanks(size - |LastOf(received, size)|) + LastOf(received, size)
  {
    if received != [] {
      var init, ev := received[..|received| - 1], received[|received| - 1];
      RingIsBlanksAndLast(init, size);
      assert received == init + [ev];
      OneMoreInRing(init, ev, size);
      LastOneMore(init, ev, size);
      BlanksGoFirst(LastOf(init, size), size);
      hide Ring;
      hide Blanks;
    }
  }

  /** Those of the last events that are newer than the given one, in order, and nothing else. For a
      negative number there are also the blank slots, if the ring has never been full. */
  lemma SinceMeans(received: seq<Event>, size: nat, id: int)
    requires size > 0
    ensures Newer(Ring(received, size), id) ==
            (if id < 0 then Blanks(size - |LastOf(received, size)|) else []) + Newer(LastOf(received, size), id)
  {
    var last := LastOf(received, size);
    var blanks := Blanks(size - |last|);
    RingIsBlanksAndLast(received, size);
    NewerOfConcat(blanks, last, id);
    NewerIsAllOrNothing(blanks, id);
  }

  lemma OlderAndNewer(received: seq<Event>, n: nat)
    requires AreNumbered(received) && n <= |received|
    ensures forall i :: 0 <= i < n ==> received[i].subscriptionID <= LastId(received[..n])
    ensures forall i :: n <= i < |received| ==> received[i].subscriptionID > LastId(received[..n])
  {
  }

  lemma NewerIsSuffix(events: seq<Event>, k: nat, id: int)
    requires k <= |events|
    requires forall i :: 0 <= i < k ==> events[i].subscriptionID <= id
    requires forall i :: k <= i < |events| ==> events[i].subscriptionID > id
    ensures Newer(events, id) == events[k..]
  {
    hide Newer;
    var a, b := events[..k], events[k..];
    assert events == a + b;
    NewerOfConcat(a, b, id);
    NewerIsAllOrNothing(a, id);
    NewerIsAllOrNothing(b, id);
    assert Newer(a, id) == [] && Newer(b, id) == b;
  }

  /** A client that has seen the first n events gets all later ones, provided that these still fit
      into the ring. */
  lemma PollGetsTheRest(received: seq<Event>, size: nat, n: nat)
    requires size > 0 && AreNumbered(received) && n <= |received| <= n + size
    ensures Newer(Ring(received, size), LastId(received[..n])) == received[n..]
  {
    var id := LastId(received[..n]);
    assert id >= 0;
    OlderAndNewer(received, n);
    hide *;
    SinceMeans(received, size, id);
    LastAreNewer(received, size, n, id);
  }

  lemma LastAreNewer(received: seq<Event>, size: nat, n: nat, id: int)
    requires n <= |received| <= n + size
    requires forall i :: 0 <= i < n ==> received[i].subscriptionID <= id
    requires forall i :: n <= i < |received| ==> received[i].subscriptionID > id
    ensures Newer(LastOf(received, size), id) == received[n..]
  {
    var last := LastOf(received, size);
    var gone := |received| - |last|;
    hide Newer;
    assert last == received[gone..];
    assert forall i :: 0 <= i < |last| ==> last[i] == received[gone + i];
    NewerIsSuffix(last, n - gone, id);
  }

  ghost function Joined(batches: seq<seq<Event>>): seq<Event> {
    if batches == [] then [] else Joined(batches[..|batches| - 1]) + batches[|batches| - 1]
  }

  /** What a client has that polls after each batch with the number of the last event it has. */
  ghost function Polled(batches: seq<seq<Event>>, size: nat): seq<Event>
    requires size > 0
  {
    if batches == [] then [] else
      var seen := Polled(batches[..|batches| - 1], size);
      seen + Newer(Ring(Joined(batches), size), LastId(seen))
  }

  /** It gets every event exactly once, if no more arrive between two polls than there are slots. */
  lemma {:induction false} PollingMissesNothing(batches: seq<seq<Event>>, size: nat)
    requires size > 0 && AreNumbered(Joined(batches))
    requires forall i :: 0 <= i < |batches| ==> |batches[i]| <= size
    ensures Polled(batches, size) == Joined(batches)
  {
    if batches != [] {
      var init := batches[..|batches| - 1];
      var all, seen := Joined(batches), Joined(init);
      assert forall i :: 0 <= i < |seen| ==> seen[i] == all[i];
      PollingMissesNothing(init, size);
      PollGetsTheRest(all, size, |seen|);
      assert all[..|seen|] == seen;
    }
  }

  lemma {:induction false} JoinedHasAll(batches: seq<seq<Event>>, i: nat, e: Event)
    requires i < |batches| && e in batches[i]
    ensures e in Joined(batches)
  {
    if i < |batches| - 1 {
      JoinedHasAll(batches[..|batches| - 1], i, e);
    }
  }

  lemma EachEventIsPolled(batches: seq<seq<Event>>, size: nat, i: nat, e: Event)
    requires size > 0 && AreNumbered(Joined(batches))
    requires forall i :: 0 <= i < |batches| ==> |batches[i]| <= size
    requires i < |batches| && e in batches[i]
    ensures e in Polled(batches, size)
  {
    PollingMissesNothing(batches, size);
    JoinedHasAll(batches, i, e);
    hide Polled;
    hide Joined;
  }

  /** One event more than there are slots, and the oldest one is lost. */
  lemma OneTooManyIsLost(received: seq<Event>, size: nat, n: nat)
    requires size > 0 && AreNumbered(received) && |received| == n + size + 1
    ensures Newer(Ring(received, size), LastId(received[..n])) == received[n + 1..]
  {
    var id := LastId(received[..n]);
    SinceMeans(received, size, id);
    NewerIsAllOrNothing(LastOf(received, size), id);
  }
}
