/** Dialling all targets of a device at once (lib/connections/service.go). The targets are
    grouped by priority; the main routine starts a goroutine for each target of a group and
    takes the first connection that comes back, or moves on to the next group when there is
    none. The routines interleave in any order, so the whole is a state machine over steps. */
module DialParallel {
  import opened Wrappers
  import opened Sorting

  type DeviceID = string

  const DIAL_MAX_PARALLEL_PER_DEVICE: nat := 8

  datatype DialTarget = DialTarget(addr: string, priority: int)

  datatype Bucket = Bucket(priority: int, targets: seq<DialTarget>)

  // ---------- Grouping the targets ----------

  function OfPriority(targets: seq<DialTarget>, priority: int): seq<DialTarget> {
    if targets == [] then []
    else OfPriority(targets[..|targets| - 1], priority) +
         if targets[|targets| - 1].priority == priority then [targets[|targets| - 1]] else []
  }

  ghost predicate Grouped(targets: seq<DialTarget>, buckets: seq<Bucket>) {
    && (forall i, j :: 0 <= i < j < |buckets| ==> buckets[i].priority < buckets[j].priority)
    && (forall i :: 0 <= i < |buckets| ==> buckets[i].targets == OfPriority(targets, buckets[i].priority) != [])
    && (forall t :: t in targets ==> exists i :: 0 <= i < |buckets| && buckets[i].priority == t.priority)
  }

  lemma {:induction false} OfPriorityMembers(targets: seq<DialTarget>, priority: int)
    ensures forall t :: t in OfPriority(targets, priority) <==> t in targets && t.priority == priority
  {
    if targets != [] {
      assert targets == targets[..|targets| - 1] + [targets[|targets| - 1]];
      OfPriorityMembers(targets[..|targets| - 1], priority);
    }
  }

  /** A target that is listed twice is in its bucket twice. */
  lemma {:induction false} EachTargetIsGrouped(targets: seq<DialTarget>, priority: int, t: DialTarget)
    ensures multiset(OfPriority(targets, priority))[t] == if t.priority == priority then multiset(targets)[t] else 0
  {
    if targets != [] {
      assert targets == targets[..|targets| - 1] + [targets[|targets| - 1]];
      EachTargetIsGrouped(targets[..|targets| - 1], priority, t);
    }
  }

  ghost predicate Filled(targets: seq<DialTarget>, buckets: map<int, seq<DialTarget>>) {
    forall p :: OfPriority(targets, p) == if p in buckets then buckets[p] else []
  }

  lemma FilledStep(targets: seq<DialTarget>, tgt: DialTarget, buckets: map<int, seq<DialTarget>>)
    requires Filled(targets, buckets)
    ensures Filled(targets + [tgt], buckets[tgt.priority := OfPriority(targets, tgt.priority) + [tgt]])
  {
    assert (targets + [tgt])[..|targets|] == targets;
  }

  /** The map from each priority that occurs to the targets that have it, in order. */
  method FillBuckets(dialTargets: seq<DialTarget>) returns (buckets: map<int, seq<DialTarget>>)
    ensures forall p :: p in buckets ==> buckets[p] == OfPriority(dialTargets, p) != []
    ensures forall p :: p !in buckets ==> OfPriority(dialTargets, p) == []
  {
    buckets := map[];
    for n := 0 to |dialTargets|
      invariant Filled(dialTargets[..n], buckets)
      invariant forall p :: p in buckets ==> buckets[p] != []
    {
      var tgt := dialTargets[n];
      var sofar := if tgt.priority in buckets then buckets[tgt.priority] else [];
      assert sofar == OfPriority(dialTargets[..n], tgt.priority);
      FilledStep(dialTargets[..n], tgt, buckets);
      hide OfPriority;
      hide Filled;
      assert dialTargets[..n + 1] == dialTargets[..n] + [tgt];
      buckets := buckets[tgt.priority := sofar + [tgt]];
    }
    assert dialTargets[..|dialTargets|] == dialTargets;
  }

  method SortedKeys(keys: set<int>) returns (priorities: seq<int>)
    ensures forall p :: p in priorities <==> p in keys
    ensures forall i, j :: 0 <= i < j < |priorities| ==> priorities[i] < priorities[j]
  {
    priorities := Elements(keys);
    priorities := SortFunc(priorities, (a, b) => a <= b);
    forall p ensures p in priorities <==> p in keys {
      assert p in priorities <==> p in multiset(priorities);
    }
    forall i, j | 0 <= i < j < |priorities| ensures priorities[i] < priorities[j] {
      TwiceMeansTwo(priorities, i, j);
    }
  }

  method GroupByPriority(dialTargets: seq<DialTarget>) returns (buckets: seq<Bucket>)
    ensures Grouped(dialTargets, buckets)
    ensures forall i, j :: 0 <= i < j < |buckets| ==> buckets[i].priority < buckets[j].priority
    ensures forall i, t :: 0 <= i < |buckets| ==>
              multiset(buckets[i].targets)[t] ==
              if t.priority == buckets[i].priority then multiset(dialTargets)[t] else 0
    ensures forall t :: t in dialTargets ==> exists i :: 0 <= i < |buckets| && t in buckets[i].targets
  {
    hide *;
    var dialTargetBuckets := FillBuckets(dialTargets);
    var priorities := SortedKeys(dialTargetBuckets.Keys);
    buckets := [];
    for n := 0 to |priorities|
      invariant |buckets| == n
      invariant forall i :: 0 <= i < n ==> buckets[i] == Bucket(priorities[i], OfPriority(dialTargets, priorities[i]))
      invariant forall i :: 0 <= i < n ==> buckets[i].targets != []
    {
      assert priorities[n] in priorities;
      buckets := buckets + [Bucket(priorities[n], dialTargetBuckets[priorities[n]])];
    }
    BucketsAreGrouped(dialTargets, dialTargetBuckets, priorities, buckets);
    GroupedMeans(dialTargets, buckets);
  }

  lemma BucketsAreGrouped(targets: seq<DialTarget>, filled: map<int, seq<DialTarget>>, priorities: seq<int>,
      buckets: seq<Bucket>)
    requires forall p :: p in filled ==> filled[p] == OfPriority(targets, p) != []
    requires forall p :: p !in filled ==> OfPriority(targets, p) == []
    requires forall p :: p in priorities <==> p in filled
    requires forall i, j :: 0 <= i < j < |priorities| ==> priorities[i] < priorities[j]
    requires |buckets| == |priorities|
    requires forall i :: 0 <= i < |buckets| ==> buckets[i] == Bucket(priorities[i], OfPriority(targets, priorities[i]))
    requires forall i :: 0 <= i < |buckets| ==> buckets[i].targets != []
    ensures Grouped(targets, buckets)
  {
    AllHaveBuckets(targets, filled, priorities, buckets);
    hide OfPriority;
  }

  lemma GroupedMeans(targets: seq<DialTarget>, buckets: seq<Bucket>)
    requires Grouped(targets, buckets)
    ensures forall i, j :: 0 <= i < j < |buckets| ==> buckets[i].priority < buckets[j].priority
    ensures forall i, t :: 0 <= i < |buckets| ==>
              multiset(buckets[i].targets)[t] == if t.priority == buckets[i].priority then multiset(targets)[t] else 0
    ensures forall t :: t in targets ==> exists i :: 0 <= i < |buckets| && t in buckets[i].targets
  {
    hide OfPriority;
    forall i, t | 0 <= i < |buckets|
      ensures multiset(buckets[i].targets)[t] == if t.priority == buckets[i].priority then multiset(targets)[t] else 0
    {
      EachTargetIsGrouped(targets, buckets[i].priority, t);
    }
    forall t | t in targets ensures exists i :: 0 <= i < |buckets| && t in buckets[i].targets {
      var i :| 0 <= i < |buckets| && buckets[i].priority == t.priority;
      OfPriorityMembers(targets, t.priority);
      assert t in buckets[i].targets;
    }
  }

  lemma AllHaveBuckets(targets: seq<DialTarget>, filled: map<int, seq<DialTarget>>, priorities: seq<int>,
      buckets: seq<Bucket>)
    requires Filled(targets, filled) && forall p :: p in priorities <==> p in filled
    requires |buckets| == |priorities| && forall i :: 0 <= i < |buckets| ==> buckets[i].priority == priorities[i]
    ensures forall t :: t in targets ==> exists i :: 0 <= i < |buckets| && buckets[i].priority == t.priority
  {
    hide OfPriority;
    forall t | t in targets ensures exists i :: 0 <= i < |buckets| && buckets[i].priority == t.priority {
      OfPriorityMembers(targets, t.priority);
      assert OfPriority(targets, t.priority) != [];
      assert t.priority in priorities;
      var i :| 0 <= i < |priorities| && priorities[i] == t.priority;
      assert buckets[i].priority == t.priority;
    }
  }

  // ---------- The state machine ----------

  /** The connection that target i of bucket b opens, if it opens one. */
  datatype Conn = Conn(b: nat, i: nat)

  datatype Main = Spawning(next: nat) | Waiting | Returned | GaveUp

  /** What is dialled, by whom, and who should answer. */
  datatype Dial = Dial(buckets: seq<Bucket>, myID: DeviceID, expectedID: DeviceID)

  /** `dialing` and `validating` are the goroutines at work (with the certificates that the
      other side showed), `finished` those that have ended. `res` is the channel of the current
      bucket. `live` (all that were opened), `closed` and `returned` record what happened to the connections. */
  datatype State = State(
    bucket: nat,
    main: Main,
    dialing: set<Conn>,
    validating: map<Conn, seq<DeviceID>>,
    finished: set<Conn>,
    res: seq<Conn>,
    live: set<Conn>,
    valid: set<Conn>,
    closed: multiset<Conn>,
    returned: Option<Conn>)

  datatype Step =
    | Spawn
    | AllSpawned
    | DialFails(c: Conn)
    | DialOpens(c: Conn, certs: seq<DeviceID>)
    | ValidateIdentity(c: Conn)
    | Receive
    | ChannelClosed
    | Discard

  function StartBucket(d: Dial, b: nat): Main {
    if b < |d.buckets| then Spawning(0) else GaveUp
  }

  function Init(d: Dial): State {
    State(0, StartBucket(d, 0), {}, map[], {}, [], {}, {}, multiset{}, None)
  }

  predicate IdentityIsValid(d: Dial, certs: seq<DeviceID>) {
    |certs| == 1 && certs[0] != d.myID && certs[0] == d.expectedID
  }

  predicate Enabled(d: Dial, s: State, step: Step) {
    match step
    case Spawn =>
      && s.main.Spawning? && s.bucket < |d.buckets| && s.main.next < |d.buckets[s.bucket].targets|
      && |s.dialing| + |s.validating| < DIAL_MAX_PARALLEL_PER_DEVICE
    case AllSpawned =>
      s.main.Spawning? && s.bucket < |d.buckets| && s.main.next == |d.buckets[s.bucket].targets|
    case DialFails(c) => c in s.dialing
    case DialOpens(c, _) => c in s.dialing
    case ValidateIdentity(c) => c in s.validating
    case Receive => s.main.Waiting? && s.res != []
    case ChannelClosed => s.main.Waiting? && s.res == [] && s.dialing == {} && s.validating == map[]
    case Discard => s.main.Returned? && s.res != [] && s.dialing == {} && s.validating == map[]
  }

  function Next(d: Dial, s: State, step: Step): State
    requires Enabled(d, s, step)
  {
    match step
    case Spawn =>
      s.(dialing := s.dialing + {Conn(s.bucket, s.main.next)}, main := Spawning(s.main.next + 1))
    case AllSpawned =>
      s.(main := Waiting)
    case DialFails(c) =>
      s.(dialing := s.dialing - {c}, finished := s.finished + {c})
    case DialOpens(c, certs) =>
      s.(dialing := s.dialing - {c}, validating := s.validating[c := certs], live := s.live + {c})
    case ValidateIdentity(c) =>
      var done := s.(validating := s.validating - {c}, finished := s.finished + {c});
      if IdentityIsValid(d, s.validating[c])
      then done.(res := s.res + [c], valid := s.valid + {c})
      else done.(closed := s.closed + multiset{c})
    case Receive =>
      s.(main := Returned, returned := Some(s.res[0]), res := s.res[1..])
    case ChannelClosed =>
      s.(bucket := s.bucket + 1, main := StartBucket(d, s.bucket + 1))
    case Discard =>
      s.(res := s.res[1..], closed := s.closed + multiset{s.res[0]})
  }

  /** The state after the steps, if each of them was possible. */
  function After(d: Dial, steps: seq<Step>): Option<State> {
    if steps == [] then Some(Init(d)) else
      match After(d, steps[..|steps| - 1])
      case None => None
      case Some(s) => if Enabled(d, s, steps[|steps| - 1]) then Some(Next(d, s, steps[|steps| - 1])) else None
  }

  ghost predicate Quiescent(d: Dial, s: State) {
    forall step :: !Enabled(d, s, step)
  }

  // ---------- Invariants ----------

  ghost predicate IsTarget(d: Dial, c: Conn) {
    c.b < |d.buckets| && c.i < |d.buckets[c.b].targets|
  }

  ghost predicate Started(s: State, c: Conn) {
    c in s.dialing || c in s.validating || c in s.finished
  }

  ghost predicate Control(d: Dial, s: State) {
    && s.bucket <= |d.buckets|
    && (s.main.GaveUp? <==> s.bucket == |d.buckets|)
    && (s.main.Spawning? ==> s.main.next <= |d.buckets[s.bucket].targets|)
    && (s.main.Returned? <==> s.returned.Some?)
  }

  /** How many routines are responsible for a connection, counting the ones that closed it. */
  ghost function Owners(s: State, c: Conn): nat {
    (if c in s.validating then 1 else 0) + multiset(s.res)[c] + s.closed[c] +
    (if s.returned == Some(c) then 1 else 0)
  }

  /** What holds of each possible connection. The goroutines of earlier buckets have all ended,
      those of later buckets were not started. An open connection has exactly one owner. One of
      the expected device comes from the current bucket and waits in the channel until the main
      routine returns. */
  ghost predicate Account(d: Dial, s: State, c: Conn) {
    && (c in s.dialing ==> c.b == s.bucket && c !in s.finished && c !in s.validating)
    && (c in s.validating ==> c.b == s.bucket && c !in s.finished && c in s.live)
    && (Started(s, c) <==>
        IsTarget(d, c) && (c.b < s.bucket || (c.b == s.bucket && (s.main.Spawning? ==> c.i < s.main.next))))
    && (c in s.live ==> c in s.validating || c in s.finished)
    && (c in s.valid ==> c in s.finished && c.b == s.bucket)
    && (multiset(s.res)[c] > 0 ==> c in s.valid)
    && (s.returned == Some(c) ==> c in s.valid)
    && (c in s.valid && !s.main.Returned? ==> multiset(s.res)[c] > 0)
    && Owners(s, c) == if c in s.live then 1 else 0
  }

  ghost predicate Inv(d: Dial, s: State) {
    Control(d, s) && forall c :: Account(d, s, c)
  }

  /** The main routine starts a goroutine, or has started all of them. */
  lemma AccountOfMain(d: Dial, s: State, step: Step, c: Conn)
    requires Control(d, s) && Enabled(d, s, step) && Account(d, s, c)
    requires step.Spawn? || step.AllSpawned?
    ensures Account(d, Next(d, s, step), c)
  {
    hide IdentityIsValid;
    hide Owners;
    var t := Next(d, s, step);
    SameOwners(s, t, c);
    if step.Spawn? {
      assert c in t.dialing <==> c in s.dialing || c == Conn(s.bucket, s.main.next);
    } else {
      assert Started(t, c) == Started(s, c);
    }
  }

  /** It goes on to the next bucket. */
  lemma AccountOfBucket(d: Dial, s: State, c: Conn)
    requires Control(d, s) && Enabled(d, s, ChannelClosed) && Account(d, s, c)
    ensures Account(d, Next(d, s, ChannelClosed), c)
  {
    hide IdentityIsValid;
    hide Owners;
    SameOwners(s, Next(d, s, ChannelClosed), c);
    assert c !in s.dialing && c !in s.validating;
  }

  lemma SameOwners(s: State, t: State, c: Conn)
    requires t.validating == s.validating && t.res == s.res && t.closed == s.closed && t.returned == s.returned
    ensures Owners(t, c) == Owners(s, c)
  {
  }

  /** A goroutine ends its dial. */
  lemma AccountOfDial(d: Dial, s: State, step: Step, c: Conn)
    requires Control(d, s) && Enabled(d, s, step) && Account(d, s, c)
    requires (step.DialFails? || step.DialOpens?) && Account(d, s, step.c)
    ensures Account(d, Next(d, s, step), c)
  {
    hide IdentityIsValid;
  }

  lemma AccountOfValidation(d: Dial, s: State, step: Step, c: Conn)
    requires Control(d, s) && Enabled(d, s, step) && Account(d, s, c)
    requires step.ValidateIdentity? && Account(d, s, step.c)
    ensures Account(d, Next(d, s, step), c)
  {
    hide IdentityIsValid;
  }

  /** A connection is taken from the channel. */
  lemma AccountOfChannel(d: Dial, s: State, step: Step, c: Conn)
    requires Control(d, s) && Enabled(d, s, step) && Account(d, s, c)
    requires step.Receive? || step.Discard?
    ensures Account(d, Next(d, s, step), c)
  {
    assert s.res == [s.res[0]] + s.res[1..];
    assert multiset(s.res) == multiset{s.res[0]} + multiset(s.res[1..]);
  }

  lemma AccountStep(d: Dial, s: State, step: Step, c: Conn)
    requires Control(d, s) && Enabled(d, s, step)
    requires Account(d, s, c)
    requires step.DialFails? || step.DialOpens? || step.ValidateIdentity? ==> Account(d, s, step.c)
    ensures Account(d, Next(d, s, step), c)
  {
    hide *;
    match step
    case DialFails(_) => AccountOfDial(d, s, step, c);
    case DialOpens(_, _) => AccountOfDial(d, s, step, c);
    case ValidateIdentity(_) => AccountOfValidation(d, s, step, c);
    case Receive => AccountOfChannel(d, s, step, c);
    case Discard => AccountOfChannel(d, s, step, c);
    case ChannelClosed => AccountOfBucket(d, s, c);
    case _ => AccountOfMain(d, s, step, c);
  }

  lemma InvStep(d: Dial, s: State, step: Step)
    requires Inv(d, s) && Enabled(d, s, step)
    ensures Inv(d, Next(d, s, step))
  {
    forall c ensures Account(d, Next(d, s, step), c) {
      AccountStep(d, s, step, c);
    }
  }

  lemma {:induction false} InvHolds(d: Dial, steps: seq<Step>)
    requires After(d, steps).Some?
    ensures Inv(d, After(d, steps).value)
  {
    if steps != [] {
      InvHolds(d, steps[..|steps| - 1]);
      InvStep(d, After(d, steps[..|steps| - 1]).value, steps[|steps| - 1]);
    }
  }

  // ---------- Every run ends ----------

  ghost function Targets(d: Dial): set<Conn> {
    set b, i | 0 <= b < |d.buckets| && 0 <= i < |d.buckets[b].targets| :: Conn(b, i)
  }

  ghost function Idle(d: Dial, s: State): set<Conn> {
    set c | c in Targets(d) && !Started(s, c)
  }

  ghost function Remaining(d: Dial, s: State): int {
    4 * |Idle(d, s)| + 3 * |s.dialing| + 2 * |s.validating| + |s.res|
    + 2 * (|d.buckets| - s.bucket) + if s.main.Spawning? then 1 else 0
  }

  lemma SpawnStarts(d: Dial, s: State)
    requires Inv(d, s) && Enabled(d, s, Spawn)
    ensures |Idle(d, Next(d, s, Spawn))| == |Idle(d, s)| - 1
  {
    var t, n := Next(d, s, Spawn), Conn(s.bucket, s.main.next);
    assert Account(d, s, n);
    assert n in Targets(d);
    hide Account;
    hide Targets;
    assert forall c :: Started(t, c) <==> Started(s, c) || c == n;
    hide Started;
    assert Idle(d, t) == Idle(d, s) - {n};
  }

  lemma OthersDoNotStart(d: Dial, s: State, step: Step)
    requires Enabled(d, s, step) && !step.Spawn?
    ensures Idle(d, Next(d, s, step)) == Idle(d, s)
  {
    hide Targets;
  }

  lemma StepsRunOut(d: Dial, s: State, step: Step)
    requires Inv(d, s) && Enabled(d, s, step)
    ensures Remaining(d, Next(d, s, step)) < Remaining(d, s)
  {
    hide Idle;
    hide Account;
    if step.Spawn? {
      SpawnStarts(d, s);
    } else {
      OthersDoNotStart(d, s, step);
    }
    if step.ValidateIdentity? {
      assert |s.validating - {step.c}| == |s.validating| - 1 by {
        assert (s.validating - {step.c}).Keys == s.validating.Keys - {step.c};
      }
    }
  }

  /** No interleaving goes on for ever. */
  lemma {:induction false} EveryRunEnds(d: Dial, steps: seq<Step>)
    requires After(d, steps).Some?
    ensures 0 <= Remaining(d, After(d, steps).value)
    ensures |steps| + Remaining(d, After(d, steps).value) <= Remaining(d, Init(d))
  {
    InvHolds(d, steps);
    if steps != [] {
      EveryRunEnds(d, steps[..|steps| - 1]);
      InvHolds(d, steps[..|steps| - 1]);
      StepsRunOut(d, After(d, steps[..|steps| - 1]).value, steps[|steps| - 1]);
    }
  }

  /** No interleaving gets stuck before the main routine is done, every goroutine has ended
      and the channel is drained. */
  lemma QuiescentMeansDone(d: Dial, s: State)
    requires Inv(d, s) && Quiescent(d, s)
    ensures s.main.Returned? || s.main.GaveUp?
    ensures s.dialing == {} && s.validating == map[] && s.res == []
  {
    if s.dialing != {} {
      var c :| c in s.dialing;
      assert Enabled(d, s, DialFails(c));
    }
    if s.validating != map[] {
      var c :| c in s.validating;
      assert Enabled(d, s, ValidateIdentity(c));
    }
    assert !Enabled(d, s, Spawn) && !Enabled(d, s, AllSpawned) && !Enabled(d, s, Receive);
    assert !Enabled(d, s, ChannelClosed) && !Enabled(d, s, Discard);
    forall c ensures s.main.GaveUp? ==> multiset(s.res)[c] == 0 {
      assert Account(d, s, c);
    }
    assert s.main.GaveUp? ==> multiset(s.res) == multiset{};
    assert |multiset(s.res)| == |s.res|;
  }

  lemma OneMoreStep(d: Dial, steps: seq<Step>, s: State, step: Step)
    requires After(d, steps) == Some(s) && Enabled(d, s, step)
    ensures After(d, steps + [step]) == Some(Next(d, s, step))
  {
    assert (steps + [step])[..|steps|] == steps;
    hide Enabled;
    hide Next;
  }

  /** Wherever a run has come, it can go on until the main routine is done, every goroutine has ended and
      the channel is drained. */
  lemma {:induction false} EveryRunCanBeCompleted(d: Dial, steps: seq<Step>, s: State) returns (more: seq<Step>)
    requires After(d, steps) == Some(s)
    ensures After(d, steps + more).Some? && Quiescent(d, After(d, steps + more).value)
    ensures var t := After(d, steps + more).value;
            (t.main.Returned? || t.main.GaveUp?) && t.dialing == {} && t.validating == map[] && t.res == []
    decreases Remaining(d, s)
  {
    hide After;
    hide Next;
    hide Inv;
    hide Remaining;
    InvHolds(d, steps);
    EveryRunEnds(d, steps);
    if Quiescent(d, s) {
      more := [];
      assert steps + more == steps;
      QuiescentMeansDone(d, s);
    } else {
      var step :| Enabled(d, s, step);
      OneMoreStep(d, steps, s, step);
      StepsRunOut(d, s, step);
      hide Enabled;
      var rest := EveryRunCanBeCompleted(d, steps + [step], Next(d, s, step));
      more := [step] + rest;
      assert steps + more == steps + [step] + rest;
    }
  }

  // ---------- The main result ----------

  /** What the certificates that the other side showed decide about a connection. */
  ghost predicate AsShown(d: Dial, steps: seq<Step>, s: State, c: Conn) {
    && (c in s.live ==> exists certs :: DialOpens(c, certs) in steps)
    && (c in s.valid ==> DialOpens(c, [d.expectedID]) in steps && d.expectedID != d.myID)
    && forall certs :: DialOpens(c, certs) in steps ==>
         && c in s.live
         && (c in s.validating ==> s.validating[c] == certs)
         && (c !in s.validating ==> (c in s.valid <==> certs == [d.expectedID] && d.expectedID != d.myID))
  }

  lemma AsShownStep(d: Dial, steps: seq<Step>, s: State, step: Step, c: Conn)
    requires Control(d, s) && Account(d, s, c) && Enabled(d, s, step) && AsShown(d, steps, s, c)
    ensures AsShown(d, steps + [step], Next(d, s, step), c)
  {
    hide Owners;
    hide IsTarget;
    var t, longer := Next(d, s, step), steps + [step];
    assert forall x :: x in longer <==> x in steps || x == step;
    if step.ValidateIdentity? && step.c == c {
      var certs :| DialOpens(c, certs) in steps;
      assert s.validating[c] == certs && (IdentityIsValid(d, certs) <==> certs == [d.expectedID] != [d.myID]);
    } else if step.DialOpens? && step.c == c {
      assert c !in s.live;
    }
    if c in s.live {
      var certs :| DialOpens(c, certs) in steps;
      assert DialOpens(c, certs) in longer;
    }
  }

  /** In every run a connection is valid, once its validation has ended, exactly if it was opened to the
      one device that was expected, which is not ourselves. */
  lemma {:induction false} ValidMeansExpected(d: Dial, steps: seq<Step>, c: Conn)
    requires After(d, steps).Some?
    ensures var s := After(d, steps).value;
            && AsShown(d, steps, s, c)
            && (c in s.valid ==> DialOpens(c, [d.expectedID]) in steps && d.expectedID != d.myID)
            && (DialOpens(c, [d.expectedID]) in steps && d.expectedID != d.myID && c !in s.validating ==> c in s.valid)
  {
    if steps != [] {
      var n := |steps| - 1;
      InvHolds(d, steps[..n]);
      ValidMeansExpected(d, steps[..n], c);
      AsShownStep(d, steps[..n], After(d, steps[..n]).value, steps[n], c);
      assert steps == steps[..n] + [steps[n]];
    }
  }

  /** A connection that was opened with any other list of certificates is never returned, and closed once
      when its validation has ended. */
  lemma OthersAreClosed(d: Dial, steps: seq<Step>, c: Conn, certs: seq<DeviceID>)
    requires After(d, steps).Some? && DialOpens(c, certs) in steps
    requires certs != [d.expectedID] || d.expectedID == d.myID
    ensures var s := After(d, steps).value;
            && s.returned != Some(c)
            && (c !in s.validating ==> s.closed[c] == 1)
  {
    ValidMeansExpected(d, steps, c);
    InvHolds(d, steps);
    var s := After(d, steps).value;
    assert Account(d, s, c);
    hide After;
  }

  /** When all routines are done, every connection that was opened has been closed exactly once
      or has been returned, never both; the one returned was opened to the expected device, and no
      target of a lower-numbered priority gave such a connection although all were tried. If
      nothing is returned, all targets were tried in vain. */
  lemma EveryConnectionIsReturnedOrClosed(d: Dial, targets: seq<DialTarget>, steps: seq<Step>)
    requires Grouped(targets, d.buckets)
    requires After(d, steps).Some? && Quiescent(d, After(d, steps).value)
    ensures var s := After(d, steps).value;
            && (forall c :: c in s.live ==> s.closed[c] == if s.returned == Some(c) then 0 else 1)
            && (forall c :: c !in s.live ==> s.closed[c] == 0 && s.returned != Some(c))
            && (s.returned.None? ==> s.valid == {} && s.finished == Targets(d))
            && (forall c :: DialOpens(c, [d.expectedID]) in steps && d.expectedID != d.myID ==> c in s.valid)
            && (s.returned.Some? ==>
                  var r := s.returned.value;
                  && IsTarget(d, r) && r in s.valid
                  && DialOpens(r, [d.expectedID]) in steps && d.expectedID != d.myID
                  && (forall c :: IsTarget(d, c) && d.buckets[c.b].priority < d.buckets[r.b].priority ==>
                                  c in s.finished && c !in s.valid)
                  && (forall c :: c in s.valid ==> c.b == r.b))
  {
    var s := After(d, steps).value;
    InvHolds(d, steps);
    QuiescentMeansDone(d, s);
    forall c ensures s.closed[c] + (if s.returned == Some(c) then 1 else 0) == if c in s.live then 1 else 0 {
      assert Account(d, s, c);
    }
    forall c | DialOpens(c, [d.expectedID]) in steps && d.expectedID != d.myID ensures c in s.valid {
      ValidMeansExpected(d, steps, c);
    }
    if s.returned.None? {
      forall c ensures c !in s.valid && (c in s.finished <==> IsTarget(d, c)) {
        assert Account(d, s, c);
      }
    } else {
      var r := s.returned.value;
      assert Account(d, s, r);
      ValidMeansExpected(d, steps, r);
      forall c ensures c in s.valid ==> c.b == r.b {
        assert Account(d, s, c);
      }
      forall c | IsTarget(d, c) && d.buckets[c.b].priority < d.buckets[r.b].priority
        ensures c in s.finished && c !in s.valid
      {
        assert Account(d, s, c);
      }
    }
  }

  /** At every moment of every run, a connection the main routine has returned is not closed. */
  lemma ReturnedIsNeverClosed(d: Dial, steps: seq<Step>)
    requires After(d, steps).Some?
    ensures var s := After(d, steps).value; s.returned.Some? ==> s.closed[s.returned.value] == 0
  {
    InvHolds(d, steps);
    var s := After(d, steps).value;
    if s.returned.Some? {
      assert Account(d, s, s.returned.value);
    }
  }

  /** The per-device semaphore bounds how many targets are dialled or validated at a time. */
  lemma {:induction false} NeverTooManyAtOnce(d: Dial, steps: seq<Step>)
    requires After(d, steps).Some?
    ensures var s := After(d, steps).value; |s.dialing| + |s.validating| <= DIAL_MAX_PARALLEL_PER_DEVICE
  {
    if steps != [] {
      var s, step := After(d, steps[..|steps| - 1]).value, steps[|steps| - 1];
      NeverTooManyAtOnce(d, steps[..|steps| - 1]);
      if step.ValidateIdentity? {
        assert (s.validating - {step.c}).Keys == s.validating.Keys - {step.c};
        assert |(s.validating - {step.c}).Keys| == |s.validating.Keys| - 1;
      }
    }
  }
}
