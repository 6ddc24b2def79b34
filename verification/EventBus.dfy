/** The event logger, which numbers the events for each of its subscriptions (lib/events/events.go). */
module EventBus {
  import opened Wrappers

  // A number whose bits stand for one type of event each.
  type EventType = nat

  // What is logged.
  datatype Entry = Entry(eventType: EventType, data: string)

  datatype Event = Event(subscriptionID: int, globalID: int, entry: Entry)

  // The identity of a subscription is the number of subscriptions made before it.
  datatype Subscription = Subscription(id: nat, mask: EventType)

  // An attempt to send an event to a subscription, which may time out.
  datatype Send = Send(to: nat, event: Event, delivered: bool)

  // ---------- Bits ----------

  ghost predicate Bit(a: nat, k: nat) {
    if k == 0 then a % 2 == 1 else Bit(a / 2, k - 1)
  }

  /** The number that has the bits which both numbers have. */
  function And(a: nat, b: nat): nat {
    if a == 0 || b == 0 then 0 else 2 * And(a / 2, b / 2) + (a % 2) * (b % 2)
  }

  lemma {:induction false} NoBits(k: nat)
    ensures !Bit(0, k)
  {
    if k > 0 {
      NoBits(k - 1);
    }
  }

  lemma {:induction false} AndIsBitwise(a: nat, b: nat, k: nat)
    ensures Bit(And(a, b), k) <==> Bit(a, k) && Bit(b, k)
  {
    if a == 0 || b == 0 {
      NoBits(k);
    } else {
      var bit := (a % 2) * (b % 2);
      assert bit == if a % 2 == 1 && b % 2 == 1 then 1 else 0;
      assert And(a, b) % 2 == bit && And(a, b) / 2 == And(a / 2, b / 2);
      if k > 0 {
        AndIsBitwise(a / 2, b / 2, k - 1);
      }
    }
  }

  lemma {:induction false} SomeBit(a: nat) returns (k: nat)
    requires a != 0
    ensures Bit(a, k)
  {
    if a % 2 == 1 {
      k := 0;
    } else {
      var j := SomeBit(a / 2);
      k := j + 1;
    }
  }

  /** A mask selects a type exactly if they have a bit in common. */
  lemma CommonBit(mask: EventType, eventType: EventType)
    ensures And(mask, eventType) != 0 <==> exists k :: Bit(mask, k) && Bit(eventType, k)
  {
    if And(mask, eventType) != 0 {
      var k := SomeBit(And(mask, eventType));
      AndIsBitwise(mask, eventType, k);
    }
    if k :| Bit(mask, k) && Bit(eventType, k) {
      AndIsBitwise(mask, eventType, k);
      NoBits(k);
    }
  }

  /** A mask that has the bits of two others selects what either of these selects. */
  lemma MasksSelectTypes(m: EventType, n: EventType, both: EventType, eventType: EventType)
    requires forall k :: Bit(both, k) <==> Bit(m, k) || Bit(n, k)
    ensures And(both, eventType) != 0 <==> And(m, eventType) != 0 || And(n, eventType) != 0
  {
    hide And;
    hide Bit;
    CommonBit(both, eventType);
    CommonBit(m, eventType);
    CommonBit(n, eventType);
  }

  /** A mask with all bits of a type selects it if there are any. */
  lemma MaskWithAllBits(mask: EventType, eventType: EventType)
    requires eventType != 0 && forall k :: Bit(eventType, k) ==> Bit(mask, k)
    ensures And(mask, eventType) != 0
  {
    var k := SomeBit(eventType);
    assert Bit(mask, k);
    AndIsBitwise(mask, eventType, k);
    NoBits(k);
  }

  /** No bits select nothing. */
  lemma NoMask(eventType: EventType)
    ensures And(0, eventType) == 0
  {
  }

  datatype State = State(
    subs: seq<Subscription>,
    nextSubscriptionIDs: seq<nat>,
    nextGlobalID: nat,
    made: nat,
    sends: seq<Send>)

  const START := State([], [], 0, 0, [])

  // ---------- What the operations do ----------

  /** Sending to the first n subscriptions. */
  ghost function SendTo(s: State, n: nat, e: Entry, delivered: set<nat>): (t: State)
    requires n <= |s.subs| == |s.nextSubscriptionIDs|
    ensures t == s.(nextSubscriptionIDs := t.nextSubscriptionIDs, sends := t.sends)
    ensures |t.nextSubscriptionIDs| == |s.nextSubscriptionIDs|
    ensures forall i :: n <= i < |s.subs| ==> t.nextSubscriptionIDs[i] == s.nextSubscriptionIDs[i]
  {
    if n == 0 then s else
      var t, sub, id := SendTo(s, n - 1, e, delivered), s.subs[n - 1], s.nextSubscriptionIDs[n - 1];
      if And(sub.mask, e.eventType) != 0 then
        t.(nextSubscriptionIDs := t.nextSubscriptionIDs[n - 1 := id + 1],
           sends := t.sends + [Send(sub.id, Event(id, s.nextGlobalID, e), sub.id in delivered)])
      else t
  }

  ghost function SendEvent(s: State, e: Entry, delivered: set<nat>): State
    requires |s.subs| == |s.nextSubscriptionIDs|
  {
    SendTo(s.(nextGlobalID := s.nextGlobalID + 1), |s.subs|, e, delivered)
  }

  ghost function Subscribed(s: State, mask: EventType): State {
    s.(subs := s.subs + [Subscription(s.made, mask)], nextSubscriptionIDs := s.nextSubscriptionIDs + [1],
      made := s.made + 1)
  }

  ghost function IndexOf(subs: seq<Subscription>, id: nat): (i: nat)
    ensures i <= |subs| && (i < |subs| ==> subs[i].id == id)
    ensures forall k :: 0 <= k < i ==> subs[k].id != id
  {
    if subs == [] || subs[0].id == id then 0 else 1 + IndexOf(subs[1..], id)
  }

  /** The last element takes the place of the one that is removed. */
  ghost function SwapRemove<T>(s: seq<T>, i: nat): seq<T>
    requires i < |s|
  {
    s[i := s[|s| - 1]][..|s| - 1]
  }

  ghost function Unsubscribed(s: State, id: nat): State
    requires |s.subs| == |s.nextSubscriptionIDs|
  {
    var i := IndexOf(s.subs, id);
    if i == |s.subs| then s
    else s.(subs := SwapRemove(s.subs, i), nextSubscriptionIDs := SwapRemove(s.nextSubscriptionIDs, i))
  }

  // ---------- The class ----------

  class Logger {
    var subs: seq<Subscription>
    var nextSubscriptionIDs: seq<nat>
    var nextGlobalID: nat
    var made: nat
    var sends: seq<Send>

    ghost function Now(): State
      reads this
    {
      State(subs, nextSubscriptionIDs, nextGlobalID, made, sends)
    }

    constructor ()
      ensures Now() == START
    {
      subs, nextSubscriptionIDs, nextGlobalID, made, sends := [], [], 0, 0, [];
    }

    /** The subscriptions in the given set are ready to receive before the timeout. */
    method Log(e: Entry, delivered: set<nat>)
      requires |subs| == |nextSubscriptionIDs|
      modifies this
      ensures Now() == SendEvent(old(Now()), e, delivered)
      ensures subs == old(subs) && nextGlobalID == old(nextGlobalID) + 1
      ensures Ids(old(Now())) ==>
                forall i :: 0 <= i < |subs| ==>
                  var sub, number := subs[i], old(nextSubscriptionIDs)[i];
                  var sent := And(sub.mask, e.eventType) != 0;
                  && SendsTo(sends, sub.id) == SendsTo(old(sends), sub.id) + (if sent
                     then [Send(sub.id, Event(number, nextGlobalID, e), sub.id in delivered)] else [])
                  && nextSubscriptionIDs[i] == number + if sent then 1 else 0
    {
      nextGlobalID := nextGlobalID + 1;
      ghost var s := Now();
      for i := 0 to |subs|
        invariant i <= |s.subs| && subs == s.subs && nextGlobalID == s.nextGlobalID
        invariant Now() == SendTo(s, i, e, delivered)
      {
        var sub := subs[i];
        if And(sub.mask, e.eventType) != 0 {
          var event := Event(nextSubscriptionIDs[i], nextGlobalID, e);
          nextSubscriptionIDs := nextSubscriptionIDs[i := nextSubscriptionIDs[i] + 1];
          sends := sends + [Send(sub.id, event, sub.id in delivered)];
        }
      }
      ThoseSelectedAreSent(s, e, delivered);
    }

    method Subscribe(mask: EventType) returns (sub: Subscription)
      modifies this
      ensures Now() == Subscribed(old(Now()), mask) && sub == Subscription(old(made), mask)
    {
      sub := Subscription(made, mask);
      made := made + 1;
      subs := subs + [sub];
      nextSubscriptionIDs := nextSubscriptionIDs + [1];
    }

    method Unsubscribe(id: nat)
      requires |subs| == |nextSubscriptionIDs|
      modifies this
      ensures Now() == Unsubscribed(old(Now()), id)
    {
      for i := 0 to |subs|
        invariant Now() == old(Now())
        invariant i <= IndexOf(subs, id)
      {
        if subs[i].id == id {
          assert IndexOf(subs, id) == i;
          var last := |subs| - 1;
          subs := subs[i := subs[last]];
          subs := subs[..last];
          nextSubscriptionIDs := nextSubscriptionIDs[i := nextSubscriptionIDs[last]];
          nextSubscriptionIDs := nextSubscriptionIDs[..last];
          break;
        }
      }
    }
  }

  // ---------- What subscribers are to be sent ----------

  datatype Step =
    | Log(entry: Entry, delivered: set<nat>)
    | Subscribe(mask: EventType)
    | Unsubscribe(id: nat)

  ghost function Next(s: State, step: Step): (t: State)
    requires |s.subs| == |s.nextSubscriptionIDs|
    ensures |t.subs| == |t.nextSubscriptionIDs|
  {
    match step
    case Log(e, delivered) => SendEvent(s, e, delivered)
    case Subscribe(mask) => Subscribed(s, mask)
    case Unsubscribe(id) => Unsubscribed(s, id)
  }

  ghost function After(steps: seq<Step>): (s: State)
    ensures |s.subs| == |s.nextSubscriptionIDs|
  {
    if steps == [] then START else Next(After(steps[..|steps| - 1]), steps[|steps| - 1])
  }

  ghost function CountSubscribes(steps: seq<Step>): nat {
    if steps == [] then 0
    else CountSubscribes(steps[..|steps| - 1]) + if steps[|steps| - 1].Subscribe? then 1 else 0
  }

  ghost function CountLogs(steps: seq<Step>): nat {
    if steps == [] then 0
    else CountLogs(steps[..|steps| - 1]) + if steps[|steps| - 1].Log? then 1 else 0
  }

  /** The mask of a subscription while it lasts, read off the history of steps. */
  ghost function MaskOf(steps: seq<Step>, id: nat): Option<EventType> {
    if steps == [] then None else
      var before, step := steps[..|steps| - 1], steps[|steps| - 1];
      match step
      case Log(_, _) => MaskOf(before, id)
      case Subscribe(mask) => if CountSubscribes(before) == id then Some(mask) else MaskOf(before, id)
      case Unsubscribe(other) => if other == id then None else MaskOf(before, id)
  }

  /** Whatever was logged while a subscription lasted and matches its mask: numbered from 1 on, with
      the global number, and whether the subscriber was ready. */
  ghost function Wanted(steps: seq<Step>, id: nat): seq<Send> {
    if steps == [] then [] else
      var before, step := steps[..|steps| - 1], steps[|steps| - 1];
      var w := Wanted(before, id);
      if step.Log? && MaskOf(before, id).Some? && And(MaskOf(before, id).value, step.entry.eventType) != 0
      then w + [Send(id, Event(|w| + 1, CountLogs(steps), step.entry), id in step.delivered)]
      else w
  }

  ghost function SendsTo(sends: seq<Send>, id: nat): seq<Send> {
    if sends == [] then [] else
      SendsTo(sends[..|sends| - 1], id) + if sends[|sends| - 1].to == id then [sends[|sends| - 1]] else []
  }

  // ---------- Invariants ----------

  ghost predicate Ids(s: State) {
    && (forall sub :: sub in s.subs ==> sub.id < s.made)
    && (forall i, j :: 0 <= i < j < |s.subs| ==> s.subs[i].id != s.subs[j].id)
  }

  /** The counter beside a subscription is the next number of what it was sent. */
  ghost predicate Counts(s: State, id: nat)
    requires |s.subs| == |s.nextSubscriptionIDs|
  {
    forall i :: 0 <= i < |s.subs| && s.subs[i].id == id ==> s.nextSubscriptionIDs[i] == |SendsTo(s.sends, id)| + 1
  }

  ghost predicate HasMask(s: State, id: nat, mask: Option<EventType>) {
    match mask
    case None => forall sub :: sub in s.subs ==> sub.id != id
    case Some(m) => Subscription(id, m) in s.subs
  }

  lemma OneMoreSend(sends: seq<Send>, x: Send, id: nat)
    ensures SendsTo(sends + [x], id) == SendsTo(sends, id) + if x.to == id then [x] else []
  {
    assert (sends + [x])[..|sends|] == sends;
  }

  /** Sending to some subscriptions concerns another one not at all. */
  lemma {:induction false} OthersAreNotSent(s: State, n: nat, e: Entry, delivered: set<nat>, id: nat)
    requires n <= |s.subs| == |s.nextSubscriptionIDs|
    requires forall i :: 0 <= i < n ==> s.subs[i].id != id
    ensures SendsTo(SendTo(s, n, e, delivered).sends, id) == SendsTo(s.sends, id)
  {
    if n > 0 {
      OthersAreNotSent(s, n - 1, e, delivered, id);
      var t, sub := SendTo(s, n - 1, e, delivered), s.subs[n - 1];
      OneMoreSend(t.sends, Send(sub.id, Event(s.nextSubscriptionIDs[n - 1], s.nextGlobalID, e), sub.id in delivered),
        id);
    }
  }

  lemma OneMoreSubscription(s: State, n: nat, e: Entry, delivered: set<nat>)
    requires 0 < n <= |s.subs| == |s.nextSubscriptionIDs|
    ensures var t, sub, id := SendTo(s, n - 1, e, delivered), s.subs[n - 1], s.nextSubscriptionIDs[n - 1];
            SendTo(s, n, e, delivered) ==
            if And(sub.mask, e.eventType) != 0 then
              t.(nextSubscriptionIDs := t.nextSubscriptionIDs[n - 1 := id + 1],
                 sends := t.sends + [Send(sub.id, Event(id, s.nextGlobalID, e), sub.id in delivered)])
            else t
  {
  }

  /** A subscription is sent the event once if its mask has a bit of the type, with its own number. */
  lemma {:induction false} EachIsSentItsOwn(s: State, n: nat, e: Entry, delivered: set<nat>, i: nat)
    requires n <= |s.subs| == |s.nextSubscriptionIDs| && Ids(s) && i < n
    ensures var t, sub := SendTo(s, n, e, delivered), s.subs[i];
            var matches := And(sub.mask, e.eventType) != 0;
            && SendsTo(t.sends, sub.id) == SendsTo(s.sends, sub.id) + (if matches
               then [Send(sub.id, Event(s.nextSubscriptionIDs[i], s.nextGlobalID, e), sub.id in delivered)] else [])
            && t.nextSubscriptionIDs[i] == s.nextSubscriptionIDs[i] + if matches then 1 else 0
  {
    hide And;
    hide SendTo;
    hide SendsTo;
    var sub, last := s.subs[i], s.subs[n - 1];
    var t := SendTo(s, n - 1, e, delivered);
    OneMoreSubscription(s, n, e, delivered);
    OneMoreSend(t.sends, Send(last.id, Event(s.nextSubscriptionIDs[n - 1], s.nextGlobalID, e), last.id in delivered),
      sub.id);
    if i == n - 1 {
      OthersAreNotSent(s, i, e, delivered, sub.id);
    } else {
      EachIsSentItsOwn(s, n - 1, e, delivered, i);
    }
  }

  lemma ThoseSelectedAreSent(s: State, e: Entry, delivered: set<nat>)
    requires |s.subs| == |s.nextSubscriptionIDs|
    ensures Ids(s) ==>
              var t := SendTo(s, |s.subs|, e, delivered);
              forall i :: 0 <= i < |s.subs| ==>
                var sub, number := s.subs[i], s.nextSubscriptionIDs[i];
                var sent := And(sub.mask, e.eventType) != 0;
                && SendsTo(t.sends, sub.id) == SendsTo(s.sends, sub.id) + (if sent
                   then [Send(sub.id, Event(number, s.nextGlobalID, e), sub.id in delivered)] else [])
                && t.nextSubscriptionIDs[i] == number + if sent then 1 else 0
  {
    hide *;
    if Ids(s) {
      var t := SendTo(s, |s.subs|, e, delivered);
      forall i | 0 <= i < |s.subs|
        ensures var sub, number := s.subs[i], s.nextSubscriptionIDs[i];
                var sent := And(sub.mask, e.eventType) != 0;
                && SendsTo(t.sends, sub.id) == SendsTo(s.sends, sub.id) + (if sent
                   then [Send(sub.id, Event(number, s.nextGlobalID, e), sub.id in delivered)] else [])
                && t.nextSubscriptionIDs[i] == number + if sent then 1 else 0
      {
        EachIsSentItsOwn(s, |s.subs|, e, delivered, i);
      }
    }
  }

  lemma IdsStep(s: State, step: Step)
    requires |s.subs| == |s.nextSubscriptionIDs| && Ids(s)
    ensures Ids(Next(s, step))
  {
    hide IndexOf;
  }

  lemma UnsubscribeKeepsPairs(s: State, id: nat, k: nat)
    requires |s.subs| == |s.nextSubscriptionIDs| && Ids(s) && k < |Unsubscribed(s, id).subs|
    ensures var t := Unsubscribed(s, id);
            && t.subs[k].id != id
            && exists j :: 0 <= j < |s.subs| &&
                           t.subs[k] == s.subs[j] && t.nextSubscriptionIDs[k] == s.nextSubscriptionIDs[j]
  {
    var i := IndexOf(s.subs, id);
    hide IndexOf;
    var j := if k == i then |s.subs| - 1 else k;
    assert Unsubscribed(s, id).subs[k] == s.subs[j];
  }

  lemma OthersStay(s: State, id: nat, sub: Subscription)
    requires |s.subs| == |s.nextSubscriptionIDs| && sub in s.subs && sub.id != id
    ensures sub in Unsubscribed(s, id).subs
  {
    var i := IndexOf(s.subs, id);
    hide IndexOf;
    var j :| 0 <= j < |s.subs| && s.subs[j] == sub;
    var t := Unsubscribed(s, id);
    if i < |s.subs| {
      assert t.subs[if j == |s.subs| - 1 then i else j] == sub;
    }
  }

  ghost predicate AgreesWith(
      s: State, subscribes: nat, logs: nat, mask: Option<EventType>, wanted: seq<Send>, id: nat) {
    && |s.subs| == |s.nextSubscriptionIDs|
    && s.made == subscribes && s.nextGlobalID == logs
    && HasMask(s, id, mask) && Counts(s, id)
    && SendsTo(s.sends, id) == wanted
    && (mask.Some? ==> id < s.made) && (id >= s.made ==> wanted == [])
  }

  /** Everything about one subscription. */
  ghost predicate Agrees(steps: seq<Step>, id: nat) {
    AgreesWith(After(steps), CountSubscribes(steps), CountLogs(steps), MaskOf(steps, id), Wanted(steps, id), id)
  }

  lemma NotSentUnlessSubscribed(s: State, e: Entry, delivered: set<nat>, id: nat)
    requires |s.subs| == |s.nextSubscriptionIDs| && HasMask(s, id, None)
    ensures var t := SendEvent(s, e, delivered);
            HasMask(t, id, None) && Counts(t, id) && SendsTo(t.sends, id) == SendsTo(s.sends, id)
  {
    hide SendTo;
    hide SendsTo;
    OthersAreNotSent(s.(nextGlobalID := s.nextGlobalID + 1), |s.subs|, e, delivered, id);
  }

  lemma SentIfMatching(s: State, e: Entry, delivered: set<nat>, id: nat, mask: EventType)
    requires |s.subs| == |s.nextSubscriptionIDs| && Ids(s) && HasMask(s, id, Some(mask)) && Counts(s, id)
    ensures var t := SendEvent(s, e, delivered);
            && HasMask(t, id, Some(mask)) && Counts(t, id)
            && SendsTo(t.sends, id) == SendsTo(s.sends, id) + (if And(mask, e.eventType) != 0
               then [Send(id, Event(|SendsTo(s.sends, id)| + 1, s.nextGlobalID + 1, e), id in delivered)] else [])
  {
    hide And;
    hide SendTo;
    hide SendsTo;
    var s' := s.(nextGlobalID := s.nextGlobalID + 1);
    var i :| 0 <= i < |s.subs| && s.subs[i] == Subscription(id, mask);
    EachIsSentItsOwn(s', |s.subs|, e, delivered, i);
    assert forall k :: 0 <= k < |s.subs| && s.subs[k].id == id ==> k == i;
    hide Ids;
  }

  lemma AfterOneMore(steps: seq<Step>, step: Step)
    ensures After(steps + [step]) == Next(After(steps), step)
    ensures CountSubscribes(steps + [step]) == CountSubscribes(steps) + if step.Subscribe? then 1 else 0
    ensures CountLogs(steps + [step]) == CountLogs(steps) + if step.Log? then 1 else 0
  {
    assert (steps + [step])[..|steps|] == steps;
    hide Next;
  }

  lemma LogKeepsMask(steps: seq<Step>, e: Entry, delivered: set<nat>, id: nat)
    ensures MaskOf(steps + [Log(e, delivered)], id) == MaskOf(steps, id)
  {
    assert (steps + [Log(e, delivered)])[..|steps|] == steps;
  }

  lemma LogIsWanted(steps: seq<Step>, e: Entry, delivered: set<nat>, id: nat)
    ensures var w := Wanted(steps, id);
            Wanted(steps + [Log(e, delivered)], id) ==
            if MaskOf(steps, id).Some? && And(MaskOf(steps, id).value, e.eventType) != 0
            then w + [Send(id, Event(|w| + 1, CountLogs(steps) + 1, e), id in delivered)] else w
  {
    hide And;
    hide MaskOf;
    hide CountLogs;
    hide After;
    AfterOneMore(steps, Log(e, delivered));
    assert (steps + [Log(e, delivered)])[..|steps|] == steps;
  }

  lemma LogStep(
      s: State, subscribes: nat, logs: nat, mask: Option<EventType>, w: seq<Send>, id: nat,
      e: Entry, delivered: set<nat>)
    requires AgreesWith(s, subscribes, logs, mask, w, id) && Ids(s)
    ensures var w' := if mask.Some? && And(mask.value, e.eventType) != 0
                      then w + [Send(id, Event(|w| + 1, logs + 1, e), id in delivered)] else w;
            AgreesWith(SendEvent(s, e, delivered), subscribes, logs + 1, mask, w', id)
  {
    hide And;
    hide SendTo;
    hide SendsTo;
    hide HasMask;
    hide Counts;
    hide Ids;
    match mask
    case None => NotSentUnlessSubscribed(s, e, delivered, id);
    case Some(m) =>
      SentIfMatching(s, e, delivered, id, m);
      assert w + [] == w;
  }

  lemma LogAgrees(steps: seq<Step>, e: Entry, delivered: set<nat>, id: nat)
    requires Ids(After(steps)) && Agrees(steps, id)
    ensures Agrees(steps + [Log(e, delivered)], id)
  {
    hide AgreesWith;
    hide After;
    hide MaskOf;
    hide Wanted;
    hide CountLogs;
    hide CountSubscribes;
    hide SendEvent;
    hide And;
    AfterOneMore(steps, Log(e, delivered));
    LogKeepsMask(steps, e, delivered, id);
    LogIsWanted(steps, e, delivered, id);
    LogStep(After(steps), CountSubscribes(steps), CountLogs(steps), MaskOf(steps, id), Wanted(steps, id), id, e,
      delivered);
  }

  lemma SubscribeAgrees(steps: seq<Step>, mask: EventType, id: nat)
    requires Ids(After(steps)) && Agrees(steps, id)
    ensures Agrees(steps + [Subscribe(mask)], id)
  {
    var s, longer := After(steps), steps + [Subscribe(mask)];
    assert longer[..|steps|] == steps;
    var t := After(longer);
    assert t.subs == s.subs + [Subscription(s.made, mask)];
    assert t.subs[|s.subs|] in t.subs;
  }

  lemma UnsubscribeAgrees(steps: seq<Step>, other: nat, id: nat)
    requires Ids(After(steps)) && Agrees(steps, id)
    ensures Agrees(steps + [Unsubscribe(other)], id)
  {
    var s, longer := After(steps), steps + [Unsubscribe(other)];
    assert longer[..|steps|] == steps;
    var t := After(longer);
    assert t == Unsubscribed(s, other);
    forall k | 0 <= k < |t.subs|
      ensures t.subs[k].id != other && t.subs[k] in s.subs
      ensures t.subs[k].id == id ==> t.nextSubscriptionIDs[k] == |SendsTo(s.sends, id)| + 1
    {
      UnsubscribeKeepsPairs(s, other, k);
    }
    if id != other && MaskOf(steps, id).Some? {
      OthersStay(s, other, Subscription(id, MaskOf(steps, id).value));
    }
  }

  lemma {:induction false} IdsHold(steps: seq<Step>)
    ensures Ids(After(steps))
  {
    if steps != [] {
      IdsHold(steps[..|steps| - 1]);
      IdsStep(After(steps[..|steps| - 1]), steps[|steps| - 1]);
    }
  }

  /** In every interleaving, a subscription is sent exactly the matching events that are logged while
      it lasts, numbered 1, 2, 3 and so on, whatever happens to others. */
  lemma {:induction false} EverySubscriptionIsServed(steps: seq<Step>, id: nat)
    ensures Agrees(steps, id)
  {
    if steps != [] {
      var before := steps[..|steps| - 1];
      EverySubscriptionIsServed(before, id);
      IdsHold(before);
      assert steps == before + [steps[|steps| - 1]];
      match steps[|steps| - 1]
      case Log(e, delivered) => LogAgrees(before, e, delivered, id);
      case Subscribe(mask) => SubscribeAgrees(before, mask, id);
      case Unsubscribe(other) => UnsubscribeAgrees(before, other, id);
    }
  }

  // ---------- What subscribers receive ----------

  ghost function Received(sends: seq<Send>): seq<Event> {
    if sends == [] then [] else
      Received(sends[..|sends| - 1]) + if sends[|sends| - 1].delivered then [sends[|sends| - 1].event] else []
  }

  ghost predicate Numbered(sends: seq<Send>) {
    forall k :: 0 <= k < |sends| ==> sends[k].event.subscriptionID == k + 1
  }

  lemma {:induction false} WantedIsNumbered(steps: seq<Step>, id: nat)
    ensures Numbered(Wanted(steps, id))
  {
    if steps != [] {
      WantedIsNumbered(steps[..|steps| - 1], id);
    }
  }

  ghost predicate WasDelivered(sends: seq<Send>, e: Event) {
    exists k :: 0 <= k < |sends| && sends[k].event == e && sends[k].delivered
  }

  lemma OneMoreDelivery(init: seq<Send>, last: Send, e: Event)
    ensures WasDelivered(init + [last], e) <==> WasDelivered(init, e) || (last.event == e && last.delivered)
  {
    var sends := init + [last];
    assert sends[|init|] == last;
    if WasDelivered(init, e) {
      var k :| 0 <= k < |init| && init[k].event == e && init[k].delivered;
      assert sends[k] == init[k];
    }
  }

  /** A number is missing among those received exactly if its event was dropped. */
  lemma {:induction false} ReceivedIsDelivered(sends: seq<Send>, e: Event)
    ensures e in Received(sends) <==> WasDelivered(sends, e)
  {
    if sends != [] {
      var init, last := sends[..|sends| - 1], sends[|sends| - 1];
      ReceivedIsDelivered(init, e);
      assert sends == init + [last];
      OneMoreDelivery(init, last, e);
    }
  }

  ghost predicate Increases(events: seq<Event>) {
    forall i, j :: 0 <= i < j < |events| ==> events[i].subscriptionID < events[j].subscriptionID
  }

  /** Of numbered events those delivered come with increasing numbers. */
  lemma {:induction false} ReceivedIncreases(sends: seq<Send>)
    requires Numbered(sends)
    ensures Increases(Received(sends))
    ensures forall i :: 0 <= i < |Received(sends)| ==> 1 <= Received(sends)[i].subscriptionID <= |sends|
  {
    if sends != [] {
      var init, last := sends[..|sends| - 1], sends[|sends| - 1];
      assert forall k :: 0 <= k < |init| ==> init[k] == sends[k];
      ReceivedIncreases(init);
      var r := Received(init);
      assert Received(sends) == r + if last.delivered then [last.event] else [];
      assert last == sends[|init|] && last.event.subscriptionID == |init| + 1;
      hide Received;
      hide Numbered;
    }
  }

  lemma OnlyThoseDelivered(sends: seq<Send>, k: nat)
    requires Numbered(sends) && k < |sends|
    ensures WasDelivered(sends, sends[k].event) <==> sends[k].delivered
  {
    if WasDelivered(sends, sends[k].event) {
      var j :| 0 <= j < |sends| && sends[j].event == sends[k].event && sends[j].delivered;
      assert sends[j].event.subscriptionID == j + 1 && sends[k].event.subscriptionID == k + 1;
    }
  }

  /** So what a subscriber receives has increasing numbers, of which exactly those are missing whose
      events were dropped. */
  lemma SubscribersSeeIncreasingNumbers(steps: seq<Step>, id: nat)
    ensures var sends := SendsTo(After(steps).sends, id);
            && sends == Wanted(steps, id) && Numbered(sends) && Increases(Received(sends))
            && forall k :: 0 <= k < |sends| ==> (sends[k].event in Received(sends) <==> sends[k].delivered)
  {
    EverySubscriptionIsServed(steps, id);
    WantedIsNumbered(steps, id);
    var sends := Wanted(steps, id);
    ReceivedIncreases(sends);
    hide *;
    forall k | 0 <= k < |sends| ensures sends[k].event in Received(sends) <==> sends[k].delivered {
      ReceivedIsDelivered(sends, sends[k].event);
      OnlyThoseDelivered(sends, k);
    }
  }
}
