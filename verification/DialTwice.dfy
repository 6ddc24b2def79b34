/** Dialling the same address in two ways, with a preference for the first
    (lib/dialer/public.go). Two goroutines dial, the second one after a delay or as soon as
    the first has failed; whatever both bring back must be returned or closed. */
module DialTwice {
  import opened Wrappers

  datatype Attempt = First | Second

  /** What a goroutine has come to. `DidNotDial` is the second one giving up without dialling. */
  datatype Goroutine = Pending | Dialing | Connected | Failed | DidNotDial

  /** `AwaitFirst` and `AwaitSecond` are the two places where the caller's routine blocks. */
  datatype Caller = AwaitFirst | AwaitSecond | Returned(conn: Option<Attempt>)

  /** `cancelled` is the derived context, cancelled by the parent or when the caller returns.
      `closer` is the goroutine that closes a surplus second connection. */
  datatype State = State(
    first: Goroutine,
    second: Goroutine,
    caller: Caller,
    cancelled: bool,
    closer: bool,
    closed: multiset<Attempt>)

  datatype Step =
    | FirstConnects
    | FirstFails
    | SecondSeesFirst
    | SecondSeesCancel
    | SecondTimer
    | SecondConnects
    | SecondFails
    | ParentCancels
    | CallerSeesFirst
    | CallerSeesSecond
    | CloseSecond

  const INIT: State := State(Dialing, Pending, AwaitFirst, false, false, multiset{})

  predicate Done(g: Goroutine) {
    g.Connected? || g.Failed? || g.DidNotDial?
  }

  predicate Enabled(s: State, step: Step) {
    match step
    case FirstConnects => s.first.Dialing?
    case FirstFails => s.first.Dialing?
    case SecondSeesFirst => s.second.Pending? && Done(s.first)
    case SecondSeesCancel => s.second.Pending? && s.cancelled
    case SecondTimer => s.second.Pending?
    case SecondConnects => s.second.Dialing?
    case SecondFails => s.second.Dialing?
    case ParentCancels => !s.cancelled
    case CallerSeesFirst => s.caller.AwaitFirst? && Done(s.first)
    case CallerSeesSecond => s.caller.AwaitSecond? && Done(s.second)
    case CloseSecond => s.closer && Done(s.second)
  }

  function Next(s: State, step: Step): State
    requires Enabled(s, step)
  {
    match step
    case FirstConnects => s.(first := Connected)
    case FirstFails => s.(first := Failed)
    case SecondSeesFirst => s.(second := if s.first.Connected? then DidNotDial else Dialing)
    case SecondSeesCancel => s.(second := DidNotDial)
    case SecondTimer => s.(second := Dialing)
    case SecondConnects => s.(second := Connected)
    case SecondFails => s.(second := Failed)
    case ParentCancels => s.(cancelled := true)
    case CallerSeesFirst =>
      if s.first.Connected?
      then s.(closer := true, caller := Returned(Some(First)), cancelled := true)
      else s.(caller := AwaitSecond)
    case CallerSeesSecond =>
      s.(caller := Returned(if s.second.Connected? then Some(Second) else None), cancelled := true)
    case CloseSecond =>
      s.(closer := false, closed := if s.second.Connected? then s.closed + multiset{Second} else s.closed)
  }

  function After(steps: seq<Step>): Option<State> {
    if steps == [] then Some(INIT) else
      match After(steps[..|steps| - 1])
      case None => None
      case Some(s) => if Enabled(s, steps[|steps| - 1]) then Some(Next(s, steps[|steps| - 1])) else None
  }

  ghost predicate Quiescent(s: State) {
    forall step :: step != ParentCancels ==> !Enabled(s, step)
  }

  ghost predicate Inv(s: State) {
    && (s.first.Dialing? || s.first.Connected? || s.first.Failed?)
    && s.closed[First] == 0
    && match s.caller
       case AwaitFirst => s.closed == multiset{} && !s.closer
       case AwaitSecond => s.closed == multiset{} && !s.closer && s.first.Failed?
       case Returned(None) => s.closed == multiset{} && !s.closer && s.first.Failed? &&
         (s.second.Failed? || s.second.DidNotDial?)
       case Returned(Some(First)) =>
         && s.first.Connected?
         && (!s.closer ==> Done(s.second))
         && s.closed[Second] == if s.second.Connected? && !s.closer then 1 else 0
       case Returned(Some(Second)) => s.closed == multiset{} && !s.closer && s.first.Failed? && s.second.Connected?
  }

  lemma InvStep(s: State, step: Step)
    requires Inv(s) && Enabled(s, step)
    ensures Inv(Next(s, step))
  {
  }

  lemma {:induction false} InvHolds(steps: seq<Step>)
    requires After(steps).Some?
    ensures Inv(After(steps).value)
  {
    if steps != [] {
      hide Inv;
      hide Next;
      hide Enabled;
      var init, step := steps[..|steps| - 1], steps[|steps| - 1];
      InvHolds(init);
      InvStep(After(init).value, step);
    }
  }

  ghost predicate IsOpen(s: State, a: Attempt) {
    (if a.First? then s.first else s.second).Connected?
  }

  ghost predicate IsReturned(s: State, a: Attempt) {
    s.caller == Returned(Some(a))
  }

  lemma QuiescentMeansDone(s: State)
    requires Inv(s) && Quiescent(s)
    ensures s.caller.Returned? && !s.closer
  {
    assert !Enabled(s, FirstFails) && !Enabled(s, SecondTimer) && !Enabled(s, SecondFails);
    assert !Enabled(s, CallerSeesFirst) && !Enabled(s, CallerSeesSecond) && !Enabled(s, CloseSecond);
  }

  /** When nothing can happen any more, the caller has its answer, and each connection that
      was opened was either returned or closed once, never both. */
  lemma EveryConnectionIsReturnedOrClosed(steps: seq<Step>, a: Attempt)
    requires After(steps).Some? && Quiescent(After(steps).value)
    ensures var s := After(steps).value;
            && s.caller.Returned?
            && s.closed[a] == if IsOpen(s, a) && !IsReturned(s, a) then 1 else 0
  {
    InvHolds(steps);
    QuiescentMeansDone(After(steps).value);
  }

  /** The caller returns only what was opened, never a closed connection, the first one
      whenever it was opened before the caller looked, and the second one only if the first
      attempt failed. */
  lemma FirstIsPreferred(steps: seq<Step>)
    requires After(steps).Some?
    ensures var s := After(steps).value;
            && (forall a :: IsReturned(s, a) ==> IsOpen(s, a) && s.closed[a] == 0)
            && (s.caller.Returned? && s.first.Connected? ==> IsReturned(s, First))
            && (s.caller.Returned? ==> (IsReturned(s, Second) <==> s.first.Failed? && s.second.Connected?))
  {
    InvHolds(steps);
  }

  ghost function Remaining(s: State): nat {
    (if s.first.Dialing? then 1 else 0) +
    (if s.second.Pending? then 2 else if s.second.Dialing? then 1 else 0) +
    (if s.caller.AwaitFirst? then 3 else if s.caller.AwaitSecond? then 2 else 0) +
    (if s.closer then 1 else 0) +
    (if s.cancelled then 0 else 1)
  }

  lemma StepsRunOut(s: State, step: Step)
    requires Inv(s) && Enabled(s, step)
    ensures Remaining(Next(s, step)) < Remaining(s)
  {
  }

  /** No interleaving takes more than seven steps. */
  lemma {:induction false} EveryRunEnds(steps: seq<Step>)
    requires After(steps).Some?
    ensures |steps| + Remaining(After(steps).value) <= 7
  {
    if steps == [] {
      assert Remaining(INIT) == 7;
    } else {
      hide Inv;
      hide Next;
      hide Enabled;
      hide Remaining;
      var init, step := steps[..|steps| - 1], steps[|steps| - 1];
      EveryRunEnds(init);
      InvHolds(init);
      StepsRunOut(After(init).value, step);
    }
  }

  lemma OneMoreStep(steps: seq<Step>, s: State, step: Step)
    requires After(steps) == Some(s) && Enabled(s, step)
    ensures After(steps + [step]) == Some(Next(s, step))
  {
    assert (steps + [step])[..|steps|] == steps;
    hide Enabled;
    hide Next;
  }

  /** Wherever a run has come, it can go on, without the caller cancelling, until both attempts are over. */
  lemma {:induction false} EveryRunCanBeCompleted(steps: seq<Step>, s: State) returns (more: seq<Step>)
    requires After(steps) == Some(s)
    ensures ParentCancels !in more
    ensures After(steps + more).Some? && Quiescent(After(steps + more).value)
    decreases Remaining(s)
  {
    hide After;
    hide Next;
    hide Inv;
    InvHolds(steps);
    if Quiescent(s) {
      more := [];
      assert steps + more == steps;
    } else {
      var step :| step != ParentCancels && Enabled(s, step);
      OneMoreStep(steps, s, step);
      StepsRunOut(s, step);
      hide Enabled;
      hide Remaining;
      var rest := EveryRunCanBeCompleted(steps + [step], Next(s, step));
      more := [step] + rest;
      assert steps + more == steps + [step] + rest;
    }
  }

  /** The second attempt is made only once its delay is over or the first one has failed; and it is given up
      only if the first one has connected or the context was cancelled, by the caller or on returning. */
  ghost predicate IsJustified(s: State, steps: seq<Step>) {
    && (s.second.Dialing? || s.second.Connected? || s.second.Failed? ==> SecondTimer in steps || s.first.Failed?)
    && (s.second.DidNotDial? ==> s.first.Connected? || s.cancelled)
    && (s.cancelled <==> ParentCancels in steps || s.caller.Returned?)
  }

  lemma {:induction false} SecondIsJustified(steps: seq<Step>)
    requires After(steps).Some?
    ensures var s := After(steps).value;
            && IsJustified(s, steps)
            && (s.second.Dialing? || s.second.Connected? || s.second.Failed? ==>
                  SecondTimer in steps || s.first.Failed?)
            && (s.second.DidNotDial? ==> s.first.Connected? || s.cancelled)
            && (s.cancelled <==> ParentCancels in steps || s.caller.Returned?)
  {
    if steps != [] {
      var init, step := steps[..|steps| - 1], steps[|steps| - 1];
      SecondIsJustified(init);
      InvHolds(init);
      assert steps == init + [step];
      JustifiedStep(After(init).value, init, step);
    }
  }

  lemma JustifiedStep(s: State, steps: seq<Step>, step: Step)
    requires Inv(s) && Enabled(s, step) && IsJustified(s, steps)
    ensures IsJustified(Next(s, step), steps + [step])
  {
    assert step in steps + [step] && forall x :: x in steps ==> x in steps + [step];
  }

  /** So while its delay is not over the second address is not dialled if the first one connects. */
  lemma SecondWaitsForFirst(steps: seq<Step>)
    requires After(steps).Some? && SecondTimer !in steps && After(steps).value.first.Connected?
    ensures var s := After(steps).value; s.second.Pending? || s.second.DidNotDial?
  {
    SecondIsJustified(steps);
    InvHolds(steps);
    hide After;
  }

  /** And if nobody cancels, it is dialled whenever the first one has failed. */
  lemma SecondIsTried(steps: seq<Step>)
    requires After(steps).Some? && ParentCancels !in steps && Quiescent(After(steps).value)
    requires After(steps).value.first.Failed?
    ensures var s := After(steps).value;
            && (s.second.Connected? || s.second.Failed?)
            && s.caller == Returned(if s.second.Connected? then Some(Second) else None)
  {
    SecondIsJustified(steps);
    InvHolds(steps);
    QuiescentMeansDone(After(steps).value);
    NotGivenUp(steps);
    hide After;
  }

  /** Without the parent cancelling, the second attempt is not given up before the caller returns, and
      after that only if the first one has connected. */
  lemma {:induction false} NotGivenUp(steps: seq<Step>)
    requires After(steps).Some? && ParentCancels !in steps
    ensures var s := After(steps).value;
            && (s.second.DidNotDial? ==> s.first.Connected?)
            && (s.cancelled ==> s.caller.Returned? && (s.first.Connected? || Done(s.second)))
  {
    if steps != [] {
      var init := steps[..|steps| - 1];
      assert forall x :: x in init ==> x in steps;
      assert steps[|steps| - 1] in steps;
      NotGivenUp(init);
      InvHolds(init);
    }
  }
}
