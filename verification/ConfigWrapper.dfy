/** Changing the configuration: modifications are queued, verified, committed to all subscribers
    and saved some time later (lib/config/wrapper.go). */
module ConfigWrapper {
  import opened Wrappers

  type Config(==, !new)

  const MAX_MODIFICATIONS := 1000

  /** How configurations are prepared, and which ones the committer with a given name accepts as a
      replacement for another. A committer that is no verifier accepts everything. */
  datatype Rules = Rules(prepare: Config -> Option<Config>, accepts: (nat, Config, Config) -> bool)

  // A subscription, and the committer it is for.
  datatype Sub = Sub(id: nat, who: nat)

  datatype Request = Request(fn: Config -> Config)

  datatype Change = Change(from: Config, to: Config)

  ghost predicate AllAccept(rules: Rules, subs: seq<Sub>, from: Config, to: Config) {
    forall sub :: sub in subs ==> rules.accepts(sub.who, from, to)
  }

  /** What a configuration is replaced with, if it is. */
  ghost function Replacement(rules: Rules, subs: seq<Sub>, from: Config, to: Config): Option<Config> {
    match rules.prepare(to)
    case None => None
    case Some(prepared) => if AllAccept(rules, subs, from, prepared) then Some(prepared) else None
  }

  /** How one configuration gives way to the next when a modification asks for another one. */
  ghost predicate IsRound(rules: Rules, subs: seq<Sub>, to: Config, before: Config, after: Config, committed: bool) {
    && (committed <==> to != before && Replacement(rules, subs, before, to).Some?)
    && after == if committed then Replacement(rules, subs, before, to).value else before
  }

  /** The position of the first subscription of a committer. */
  ghost function FirstOf(subs: seq<Sub>, who: nat): (i: nat)
    ensures i <= |subs| && (i < |subs| ==> subs[i].who == who)
    ensures forall k :: 0 <= k < i ==> subs[k].who != who
  {
    if subs == [] || subs[0].who == who then 0 else 1 + FirstOf(subs[1..], who)
  }

  ghost function Without(subs: seq<Sub>, who: nat): seq<Sub> {
    var i := FirstOf(subs, who);
    if i < |subs| then subs[..i] + subs[i + 1..] else subs
  }

  // ---------- The critical sections ----------

  class Wrapper {
    const rules: Rules
    var cfg: Config
    var subs: seq<Sub>
    // The number of the latest change, whose commits may still be going on; 0 before the first one.
    var waiter: nat
    var queue: seq<Request>
    var saveTimerRunning: bool

    constructor (rules: Rules, cfg: Config)
      ensures this.rules == rules && this.cfg == cfg
      ensures subs == [] && waiter == 0 && queue == [] && !saveTimerRunning
    {
      this.rules := rules;
      this.cfg := cfg;
      subs, waiter, queue, saveTimerRunning := [], 0, [], false;
    }

    method Subscribe(sub: Sub) returns (inEffect: Config)
      modifies this`subs
      ensures subs == old(subs) + [sub] && inEffect == cfg
    {
      subs := subs + [sub];
      return cfg;
    }

    /** The caller then waits for the change with the number that is returned. */
    method Unsubscribe(who: nat) returns (ongoing: nat)
      modifies this`subs
      ensures subs == Without(old(subs), who) && ongoing == waiter
    {
      for i := 0 to |subs|
        invariant subs == old(subs)
        invariant i <= FirstOf(subs, who)
      {
        if subs[i].who == who {
          assert FirstOf(subs, who) == i;
          subs := subs[..i] + subs[i + 1..];
          break;
        }
      }
      return waiter;
    }

    method ModifyQueued(e: Request) returns (queued: bool)
      modifies this`queue
      ensures queued <==> |old(queue)| < MAX_MODIFICATIONS
      ensures queue == if queued then old(queue) + [e] else old(queue)
    {
      if |queue| >= MAX_MODIFICATIONS {
        return false;
      }
      queue := queue + [e];
      return true;
    }

    /** Commits the replacement unless it cannot be prepared or a verifier rejects it. */
    method ReplaceLocked(to: Config) returns (committed: bool)
      modifies this`cfg, this`waiter
      ensures committed <==> Replacement(rules, subs, old(cfg), to).Some?
      ensures committed ==> Replacement(rules, subs, old(cfg), to) == Some(cfg) && waiter == old(waiter) + 1
      ensures committed <==> rules.prepare(to).Some? &&
                             forall sub :: sub in subs ==> rules.accepts(sub.who, old(cfg), rules.prepare(to).value)
      ensures committed ==> Some(cfg) == rules.prepare(to)
      ensures !committed ==> cfg == old(cfg) && waiter == old(waiter)
    {
      var prepared := rules.prepare(to);
      if prepared.None? {
        return false;
      }
      for i := 0 to |subs|
        invariant cfg == old(cfg) && waiter == old(waiter)
        invariant forall k :: 0 <= k < i ==> rules.accepts(subs[k].who, cfg, prepared.value)
      {
        if !rules.accepts(subs[i].who, cfg, prepared.value) {
          return false;
        }
      }
      cfg := prepared.value;
      waiter := waiter + 1;
      return true;
    }

    /** One round of Serve, up to the point where it waits for the commits. */
    method HandleModification() returns (committed: bool)
      requires queue != []
      modifies this`cfg, this`waiter, this`queue, this`saveTimerRunning
      ensures queue == old(queue)[1..]
      ensures IsRound(rules, subs, old(queue)[0].fn(old(cfg)), old(cfg), cfg, committed)
      ensures var to := old(queue)[0].fn(old(cfg));
              committed <==> to != old(cfg) && rules.prepare(to).Some? &&
                             forall sub :: sub in subs ==> rules.accepts(sub.who, old(cfg), rules.prepare(to).value)
      ensures if committed then Some(cfg) == rules.prepare(old(queue)[0].fn(old(cfg))) else cfg == old(cfg)
      ensures waiter == old(waiter) + if committed then 1 else 0
      ensures saveTimerRunning == (old(saveTimerRunning) || old(queue)[0].fn(old(cfg)) != old(cfg))
    {
      var e := queue[0];
      queue := queue[1..];
      var to := e.fn(cfg);
      committed := false;
      if cfg != to {
        committed := ReplaceLocked(to);
        if !saveTimerRunning {
          saveTimerRunning := true;
        }
      }
    }
  }

  // ---------- All interleavings ----------

  // A goroutine that tells one subscriber of a change.
  datatype Call = Call(waiter: nat, sub: nat, change: Change)

  datatype Server = Ready | Modifying(request: Request, to: Config) | WaitingFor(waiter: nat) | Stopped

  datatype Verdict = Unchanged | Refused | Committed

  datatype Handled = Handled(request: Request, subs: seq<Sub>, before: Config, after: Config, verdict: Verdict)

  datatype State = State(
    cfg: Config,
    subs: seq<Sub>,
    waiter: nat,
    queue: seq<Request>,
    server: Server,
    timerRunning: bool,
    // Whether the configuration has changed since it was saved.
    unsaved: bool,
    // Goroutines that have not called their subscriber yet, and those that have.
    pending: set<Call>,
    running: set<Call>,
    // Callers in Unsubscribe with the change they wait for, and those that have returned from it.
    leaving: map<nat, nat>,
    gone: set<nat>,
    // The history: all queued modifications; what became of those handled; the changes; for each
    // subscription the number of changes before it, and the changes its subscriber was told of.
    accepted: seq<Request>,
    handled: seq<Handled>,
    changes: seq<Change>,
    joined: seq<nat>,
    seen: seq<seq<Change>>)

  ghost function Init(cfg: Config): State {
    State(cfg, [], 0, [], Ready, false, false, {}, {}, map[], {}, [], [], [], [], [])
  }

  datatype Step =
    | Modify(request: Request)
    | Subscribe(who: nat)
    | Unsubscribe(who: nat)
    | UnsubscribeReturns(sub: nat)
    | Dequeue
    | Replace
    | WaitIsOver
    | TimerFires(ok: bool)
    | Save(ok: bool)
    | Stop(ok: bool)
    | Begin(call: Call)
    | Finish(call: Call)

  /** Whether all commits of the change with the given number have finished. */
  ghost predicate Done(s: State, waiter: nat) {
    forall c :: c in s.pending || c in s.running ==> c.waiter != waiter
  }

  ghost predicate Enabled(s: State, step: Step) {
    match step
    case Modify(_) => |s.queue| < MAX_MODIFICATIONS
    case Subscribe(_) => true
    case Unsubscribe(who) => FirstOf(s.subs, who) < |s.subs|
    case UnsubscribeReturns(sub) => sub in s.leaving && Done(s, s.leaving[sub])
    case Dequeue => s.server.Ready? && s.queue != []
    case Replace => s.server.Modifying?
    case WaitIsOver => s.server.WaitingFor? && Done(s, s.server.waiter)
    case TimerFires(_) => s.server.Ready? && s.timerRunning
    case Save(_) => true
    case Stop(_) => s.server.Ready? || s.server.WaitingFor?
    case Begin(call) => call in s.pending && call.sub < |s.seen|
    case Finish(call) => call in s.running
  }

  ghost function CallsFor(subs: seq<Sub>, waiter: nat, change: Change): set<Call> {
    set sub | sub in subs :: Call(waiter, sub.id, change)
  }

  /** The critical section in Serve: see Wrapper.HandleModification. */
  ghost function Replaced(rules: Rules, s: State): State
    requires s.server.Modifying?
  {
    var Modifying(request, to) := s.server;
    if to == s.cfg then
      s.(server := WaitingFor(0), handled := s.handled + [Handled(request, s.subs, s.cfg, s.cfg, Unchanged)])
    else
      match Replacement(rules, s.subs, s.cfg, to)
      case None =>
        s.(server := WaitingFor(0), timerRunning := true,
           handled := s.handled + [Handled(request, s.subs, s.cfg, s.cfg, Refused)])
      case Some(cfg) =>
        var change := Change(s.cfg, cfg);
        s.(cfg := cfg, waiter := s.waiter + 1, server := WaitingFor(s.waiter + 1), timerRunning := true,
           unsaved := true, pending := s.pending + CallsFor(s.subs, s.waiter + 1, change),
           handled := s.handled + [Handled(request, s.subs, s.cfg, cfg, Committed)],
           changes := s.changes + [change])
  }

  ghost function Next(rules: Rules, s: State, step: Step): State
    requires Enabled(s, step)
  {
    match step
    case Modify(request) => s.(queue := s.queue + [request], accepted := s.accepted + [request])
    case Subscribe(who) =>
      s.(subs := s.subs + [Sub(|s.joined|, who)], joined := s.joined + [|s.changes|], seen := s.seen + [[]])
    case Unsubscribe(who) =>
      s.(subs := Without(s.subs, who), leaving := s.leaving[s.subs[FirstOf(s.subs, who)].id := s.waiter])
    case UnsubscribeReturns(sub) => s.(leaving := s.leaving - {sub}, gone := s.gone + {sub})
    case Dequeue => s.(queue := s.queue[1..], server := Modifying(s.queue[0], s.queue[0].fn(s.cfg)))
    case Replace => Replaced(rules, s)
    case WaitIsOver => s.(server := Ready)
    case TimerFires(ok) => s.(timerRunning := false, unsaved := s.unsaved && !ok)
    case Save(ok) => s.(unsaved := s.unsaved && !ok)
    case Stop(ok) => s.(server := Stopped, timerRunning := false, unsaved := s.unsaved && !ok)
    case Begin(call) =>
      s.(pending := s.pending - {call}, running := s.running + {call},
         seen := s.seen[call.sub := s.seen[call.sub] + [call.change]])
    case Finish(call) => s.(running := s.running - {call})
  }

  /** The state after the steps, if each of them was possible. */
  ghost function After(rules: Rules, initial: Config, steps: seq<Step>): Option<State> {
    if steps == [] then Some(Init(initial)) else
      match After(rules, initial, steps[..|steps| - 1])
      case None => None
      case Some(s) => if Enabled(s, steps[|steps| - 1]) then Some(Next(rules, s, steps[|steps| - 1])) else None
  }

  // ---------- Invariants ----------

  /** Goroutines exist for the latest change only, and only while the server waits for them or
      has been stopped. */
  ghost predicate Control(s: State) {
    && s.waiter == |s.changes| && |s.joined| == |s.seen|
    && (forall c :: c in s.pending || c in s.running ==>
          && c.waiter == s.waiter > 0 && c.change == s.changes[s.waiter - 1]
          && (s.server.Stopped? || s.server == WaitingFor(s.waiter)))
    && (s.server.Modifying? ==> s.server.to == s.server.request.fn(s.cfg))
  }

  ghost predicate Ids(s: State) {
    && (forall sub :: sub in s.subs ==> sub.id < |s.joined| && sub.id !in s.leaving && sub.id !in s.gone)
    && (forall i, j :: 0 <= i < j < |s.subs| ==> s.subs[i].id != s.subs[j].id)
    && (forall id :: id in s.leaving || id in s.gone ==> id < |s.joined|)
    && (forall id :: id in s.leaving ==> s.leaving[id] <= s.waiter && id !in s.gone)
    && (forall c :: c in s.pending || c in s.running ==> c.sub < |s.joined| && c.sub !in s.gone)
    && (forall c :: c in s.pending || c in s.running ==> c.sub in s.leaving ==> c.waiter <= s.leaving[c.sub])
  }

  ghost predicate IsSubscribed(s: State, id: nat) {
    exists sub :: sub in s.subs && sub.id == id
  }

  ghost predicate IsDue(s: State, id: nat) {
    exists c :: c in s.pending && c.sub == id
  }

  /** A subscriber has been told of a stretch of the changes, beginning with the first one since
      it subscribed, and if a goroutine is on its way to it, then with the next one. */
  ghost predicate View(s: State, id: nat)
    requires |s.joined| == |s.seen| && id < |s.joined|
  {
    var told := s.joined[id] + |s.seen[id]|;
    && told <= |s.changes| && s.seen[id] == s.changes[s.joined[id]..told]
    && (IsDue(s, id) ==> told + 1 == |s.changes|)
    && (IsSubscribed(s, id) && !IsDue(s, id) ==> told == |s.changes|)
  }

  /** A modification is committed exactly if it changes something, the result can be prepared
      and everyone subscribed accepts it. */
  ghost predicate Explains(rules: Rules, h: Handled) {
    var to := h.request.fn(h.before);
    match h.verdict
    case Unchanged => to == h.before && h.after == h.before
    case Refused => to != h.before && Replacement(rules, h.subs, h.before, to).None? && h.after == h.before
    case Committed => to != h.before && Replacement(rules, h.subs, h.before, to) == Some(h.after)
  }

  /** The changes among the modifications handled. */
  ghost function Changes(handled: seq<Handled>): seq<Change> {
    if handled == [] then [] else
      var h := handled[|handled| - 1];
      Changes(handled[..|handled| - 1]) + if h.verdict.Committed? then [Change(h.before, h.after)] else []
  }

  /** The configuration after the given modifications. */
  ghost function Outcome(initial: Config, handled: seq<Handled>): Config {
    if handled == [] then initial else handled[|handled| - 1].after
  }

  ghost predicate Chain(rules: Rules, initial: Config, handled: seq<Handled>) {
    forall i :: 0 <= i < |handled| ==>
      handled[i].before == Outcome(initial, handled[..i]) && Explains(rules, handled[i])
  }

  ghost function Requests(handled: seq<Handled>): seq<Request> {
    seq(|handled|, i requires 0 <= i < |handled| => handled[i].request)
  }

  /** The modification that is being handled. */
  ghost function Current(s: State): seq<Request> {
    if s.server.Modifying? then [s.server.request] else []
  }

  ghost predicate History(rules: Rules, initial: Config, s: State) {
    && Chain(rules, initial, s.handled) && s.cfg == Outcome(initial, s.handled)
    && s.changes == Changes(s.handled)
    && s.accepted == Requests(s.handled) + Current(s) + s.queue
  }

  ghost predicate Inv(rules: Rules, initial: Config, s: State) {
    && Control(s) && Ids(s) && History(rules, initial, s)
    && forall id :: 0 <= id < |s.joined| ==> View(s, id)
  }

  lemma ControlStep(rules: Rules, s: State, step: Step)
    requires Control(s) && Enabled(s, step)
    ensures Control(Next(rules, s, step))
  {
    hide Replacement;
    hide FirstOf;
    hide Without;
  }

  lemma WithoutRemovesOne(subs: seq<Sub>, who: nat)
    requires FirstOf(subs, who) < |subs|
    requires forall i, j :: 0 <= i < j < |subs| ==> subs[i].id != subs[j].id
    ensures var left := Without(subs, who);
            && (forall i, j :: 0 <= i < j < |left| ==> left[i].id != left[j].id)
            && (forall sub :: sub in left <==> sub in subs && sub.id != subs[FirstOf(subs, who)].id)
  {
    var i, left := FirstOf(subs, who), Without(subs, who);
    hide FirstOf;
    assert left == subs[..i] + subs[i + 1..];
    hide Without;
    assert forall k :: 0 <= k < |left| ==> left[k] == subs[if k < i then k else k + 1];
    forall sub ensures sub in left <==> sub in subs && sub.id != subs[i].id {
      assert sub in subs <==> sub in subs[..i] || sub == subs[i] || sub in subs[i + 1..];
    }
  }

  lemma UnsubscribeKeepsIds(rules: Rules, s: State, who: nat)
    requires Control(s) && Ids(s) && Enabled(s, Unsubscribe(who))
    ensures Ids(Next(rules, s, Unsubscribe(who)))
  {
    WithoutRemovesOne(s.subs, who);
    hide Without;
    hide FirstOf;
  }

  lemma ReplaceKeepsIds(rules: Rules, s: State)
    requires Control(s) && Ids(s) && s.server.Modifying?
    ensures Ids(Replaced(rules, s))
  {
    hide Replacement;
    assert s.pending == {} && s.running == {};
  }

  lemma ReturnKeepsIds(rules: Rules, s: State, sub: nat)
    requires Control(s) && Ids(s) && Enabled(s, UnsubscribeReturns(sub))
    ensures Ids(Next(rules, s, UnsubscribeReturns(sub)))
  {
    assert forall c :: c in s.pending || c in s.running ==> c.sub != sub;
  }

  lemma SubscribeKeepsIds(rules: Rules, s: State, who: nat)
    requires Ids(s)
    ensures Ids(Next(rules, s, Subscribe(who)))
  {
  }

  lemma OthersKeepIds(s: State, t: State)
    requires Ids(s)
    requires t.subs == s.subs && t.leaving == s.leaving && t.gone == s.gone && t.joined == s.joined
    requires t.waiter == s.waiter
    requires forall c :: c in t.pending || c in t.running ==> c in s.pending || c in s.running
    ensures Ids(t)
  {
  }

  lemma IdsStep(rules: Rules, s: State, step: Step)
    requires Control(s) && Ids(s) && Enabled(s, step)
    ensures Ids(Next(rules, s, step))
  {
    hide Ids;
    hide Control;
    hide Replaced;
    hide Without;
    hide FirstOf;
    match step
    case Unsubscribe(who) => UnsubscribeKeepsIds(rules, s, who);
    case Replace => ReplaceKeepsIds(rules, s);
    case UnsubscribeReturns(sub) => ReturnKeepsIds(rules, s, sub);
    case Subscribe(who) => SubscribeKeepsIds(rules, s, who);
    case _ => OthersKeepIds(s, Next(rules, s, step));
  }

  lemma ViewStep(rules: Rules, s: State, step: Step, id: nat)
    requires Control(s) && Ids(s) && Enabled(s, step)
    requires id < |s.joined| && View(s, id)
    requires |Next(rules, s, step).joined| == |Next(rules, s, step).seen|
    ensures id < |Next(rules, s, step).joined|
    ensures View(Next(rules, s, step), id)
  {
    hide Replaced;
    match step
    case Replace =>
      ReplaceKeepsView(rules, s, id);
      ReplaceAddsNoSubscription(rules, s);
    case Begin(call) =>
      BeginKeepsView(rules, s, call, id);
    case Unsubscribe(who) =>
      WithoutRemovesOne(s.subs, who);
      OthersKeepView(s, Next(rules, s, step), id);
    case _ =>
      OthersKeepView(s, Next(rules, s, step), id);
  }

  lemma ReplaceAddsNoSubscription(rules: Rules, s: State)
    requires s.server.Modifying?
    ensures Replaced(rules, s).joined == s.joined
  {
  }

  /** Nothing happens to a subscriber as long as no changes and no goroutines come or go. */
  lemma OthersKeepView(s: State, t: State, id: nat)
    requires |s.joined| == |s.seen| && id < |s.joined| && View(s, id)
    requires |t.joined| == |t.seen| && s.joined <= t.joined && s.seen <= t.seen
    requires t.pending == s.pending && t.changes == s.changes
    requires forall sub :: sub in t.subs ==> sub in s.subs || sub.id >= |s.joined|
    ensures View(t, id)
  {
    assert t.joined[id] == s.joined[id] && t.seen[id] == s.seen[id];
    assert IsDue(t, id) == IsDue(s, id);
    assert IsSubscribed(t, id) ==> IsSubscribed(s, id);
  }

  lemma ReplaceKeepsView(rules: Rules, s: State, id: nat)
    requires Control(s) && Ids(s) && s.server.Modifying?
    requires id < |s.joined| && View(s, id)
    ensures View(Replaced(rules, s), id)
  {
    var t := Replaced(rules, s);
    assert IsSubscribed(t, id) == IsSubscribed(s, id);
    assert s.pending == {};
    assert !IsDue(s, id);
    hide Replacement;
    if t.changes != s.changes {
      var change := t.changes[|s.changes|];
      assert t.pending == CallsFor(s.subs, s.waiter + 1, change);
      if IsSubscribed(s, id) {
        var sub :| sub in s.subs && sub.id == id;
        assert Call(s.waiter + 1, sub.id, change) in t.pending;
      }
    } else {
      assert t.pending == s.pending;
    }
  }

  lemma BeginKeepsView(rules: Rules, s: State, call: Call, id: nat)
    requires Control(s) && Ids(s) && Enabled(s, Begin(call))
    requires id < |s.joined| && View(s, id)
    ensures View(Next(rules, s, Begin(call)), id)
  {
    var t := Next(rules, s, Begin(call));
    assert IsSubscribed(t, id) == IsSubscribed(s, id);
    if id == call.sub {
      assert IsDue(s, id);
      assert forall c :: c in s.pending && c.sub == id ==> c == call;
    } else {
      assert forall c: Call :: c.sub == id ==> (c in t.pending <==> c in s.pending);
      assert IsDue(t, id) == IsDue(s, id);
    }
  }

  lemma OneMoreHandled(rules: Rules, initial: Config, handled: seq<Handled>, h: Handled)
    requires Chain(rules, initial, handled) && h.before == Outcome(initial, handled) && Explains(rules, h)
    ensures Chain(rules, initial, handled + [h]) && Outcome(initial, handled + [h]) == h.after
    ensures Changes(handled + [h]) ==
            Changes(handled) + if h.verdict.Committed? then [Change(h.before, h.after)] else []
    ensures Requests(handled + [h]) == Requests(handled) + [h.request]
  {
    hide Explains;
    var longer := handled + [h];
    assert longer[..|handled|] == handled;
    forall i | 0 <= i < |longer|
      ensures longer[i].before == Outcome(initial, longer[..i]) && Explains(rules, longer[i])
    {
      assert i < |handled| ==> longer[..i] == handled[..i];
    }
  }

  lemma HistoryGoesOn(rules: Rules, initial: Config, s: State, t: State, h: Handled)
    requires History(rules, initial, s) && h.before == s.cfg && Explains(rules, h)
    requires t.handled == s.handled + [h] && t.cfg == h.after
    requires t.changes == s.changes + if h.verdict.Committed? then [Change(h.before, h.after)] else []
    requires t.accepted == s.accepted && t.queue == s.queue && Current(s) == [h.request] && Current(t) == []
    ensures History(rules, initial, t)
  {
    OneMoreHandled(rules, initial, s.handled, h);
    hide Explains;
    hide Chain;
    hide Changes;
    hide Outcome;
    hide Requests;
    hide Current;
    assert (Requests(s.handled) + [h.request]) + [] + s.queue == Requests(s.handled) + [h.request] + s.queue;
  }

  lemma ReplaceExplained(rules: Rules, initial: Config, s: State)
    requires Control(s) && History(rules, initial, s) && s.server.Modifying?
    ensures History(rules, initial, Replaced(rules, s))
  {
    var t := Replaced(rules, s);
    var h := t.handled[|s.handled|];
    HistoryGoesOn(rules, initial, s, t, h) by {
      hide History;
      hide Replacement;
    }
  }

  /** What is neither handled nor lost stays in line. */
  lemma HistoryStays(rules: Rules, initial: Config, s: State, t: State, more: seq<Request>)
    requires History(rules, initial, s)
    requires t.handled == s.handled && t.cfg == s.cfg && t.changes == s.changes
    requires t.accepted == s.accepted + more && Current(t) + t.queue == Current(s) + s.queue + more
    ensures History(rules, initial, t)
  {
    hide Changes;
    hide Chain;
    hide Requests;
    hide Outcome;
    hide Current;
    assert Requests(s.handled) + (Current(s) + s.queue + more) == Requests(s.handled) + Current(s) + s.queue + more;
    assert Requests(s.handled) + (Current(t) + t.queue) == Requests(s.handled) + Current(t) + t.queue;
  }

  lemma LineStep(rules: Rules, s: State, step: Step)
    requires Enabled(s, step) && !step.Replace?
    ensures var t, more := Next(rules, s, step), if step.Modify? then [step.request] else [];
            && t.handled == s.handled && t.cfg == s.cfg && t.changes == s.changes
            && t.accepted == s.accepted + more && Current(t) + t.queue == Current(s) + s.queue + more
  {
    hide Without;
    hide FirstOf;
    hide Replaced;
    assert step.Dequeue? ==> s.queue == [s.queue[0]] + s.queue[1..];
  }

  lemma HistoryStep(rules: Rules, initial: Config, s: State, step: Step)
    requires Control(s) && History(rules, initial, s) && Enabled(s, step)
    ensures History(rules, initial, Next(rules, s, step))
  {
    if step.Replace? {
      ReplaceExplained(rules, initial, s);
    } else {
      hide *;
      LineStep(rules, s, step);
      HistoryStays(rules, initial, s, Next(rules, s, step), if step.Modify? then [step.request] else []);
    }
  }

  lemma {:induction false} InvHolds(rules: Rules, initial: Config, steps: seq<Step>)
    requires After(rules, initial, steps).Some?
    ensures Inv(rules, initial, After(rules, initial, steps).value)
  {
    if steps != [] {
      var s, step := After(rules, initial, steps[..|steps| - 1]).value, steps[|steps| - 1];
      InvHolds(rules, initial, steps[..|steps| - 1]);
      InvStep(rules, initial, s, step);
    }
  }

  lemma SubscriptionsStep(rules: Rules, s: State, step: Step)
    requires Control(s) && Enabled(s, step)
    ensures var t := Next(rules, s, step);
            |s.joined| <= |t.joined| <= |s.joined| + 1 && |t.joined| == |t.seen|
  {
    hide Without;
    hide FirstOf;
    hide Replacement;
  }

  lemma InvStep(rules: Rules, initial: Config, s: State, step: Step)
    requires Inv(rules, initial, s) && Enabled(s, step)
    ensures Inv(rules, initial, Next(rules, s, step))
  {
    hide Control;
    hide Ids;
    hide History;
    hide View;
    hide Next;
    hide Enabled;
    hide FirstOf;
    hide Without;
    hide Replacement;
    ControlStep(rules, s, step);
    IdsStep(rules, s, step);
    HistoryStep(rules, initial, s, step);
    SubscriptionsStep(rules, s, step);
    var t := Next(rules, s, step);
    forall id | 0 <= id < |t.joined| ensures View(t, id) {
      if id < |s.joined| {
        ViewStep(rules, s, step, id);
      } else {
        NewSubscriberIsUpToDate(rules, s, step);
      }
    }
  }

  lemma NewSubscriberIsUpToDate(rules: Rules, s: State, step: Step)
    requires Control(s) && Ids(s) && Enabled(s, step) && |Next(rules, s, step).joined| > |s.joined|
    ensures View(Next(rules, s, step), |s.joined|)
  {
    hide FirstOf;
    hide Without;
    hide Replacement;
  }

  // ---------- The main results ----------

  /** Taking a modification from the queue and making the change amounts to what the method
      HandleModification does. */
  lemma RoundOfServe(rules: Rules, s: State)
    requires Enabled(s, Dequeue)
    ensures var t := Replaced(rules, Next(rules, s, Dequeue));
            var to := s.queue[0].fn(s.cfg);
            && t.queue == s.queue[1..]
            && IsRound(rules, s.subs, to, s.cfg, t.cfg, t.server != WaitingFor(0))
            && t.waiter == s.waiter + (if t.server != WaitingFor(0) then 1 else 0)
            && t.timerRunning == (s.timerRunning || to != s.cfg)
  {
    hide AllAccept;
  }

  /** The modifications that were queued are handled in this order, none is lost or handled twice;
      each is applied to what the one before it left, and committed exactly if it changes
      something, can be prepared and is accepted by all verifiers subscribed at that time.
      Otherwise it changes nothing. */
  lemma ModificationsFormOneChain(rules: Rules, initial: Config, steps: seq<Step>)
    requires After(rules, initial, steps).Some?
    ensures var s := After(rules, initial, steps).value;
            && s.accepted == Requests(s.handled) + Current(s) + s.queue
            && s.cfg == Outcome(initial, s.handled)
            && forall i :: 0 <= i < |s.handled| ==>
                 && s.handled[i].before == Outcome(initial, s.handled[..i])
                 && Explains(rules, s.handled[i])
  {
    InvHolds(rules, initial, steps);
    hide After;
    hide Control;
    hide Ids;
    hide View;
    hide Explains;
  }

  /** So each is applied to what the one before it left. If that asks for nothing else, or cannot be
      prepared, or some verifier refuses it, nothing changes, and otherwise the prepared configuration
      takes effect. */
  lemma CommittedMeansAccepted(rules: Rules, initial: Config, steps: seq<Step>, i: nat)
    requires After(rules, initial, steps).Some? && i < |After(rules, initial, steps).value.handled|
    ensures var handled := After(rules, initial, steps).value.handled;
            var h := handled[i];
            var to := h.request.fn(h.before);
            && h.before == (if i == 0 then initial else handled[i - 1].after)
            && (h.verdict.Unchanged? <==> to == h.before)
            && (h.verdict.Committed? <==>
                  && to != h.before && rules.prepare(to).Some?
                  && forall sub :: sub in h.subs ==> rules.accepts(sub.who, h.before, rules.prepare(to).value))
            && if h.verdict.Committed? then rules.prepare(to) == Some(h.after) else h.after == h.before
  {
    hide Explains;
    ModificationsFormOneChain(rules, initial, steps);
    hide After;
    var handled := After(rules, initial, steps).value.handled;
    assert handled[i].before == Outcome(initial, handled[..i]);
    ExplainedMeans(rules, handled[i]);
  }

  lemma ExplainedMeans(rules: Rules, h: Handled)
    requires Explains(rules, h)
    ensures var to := h.request.fn(h.before);
            && (h.verdict.Unchanged? <==> to == h.before)
            && (h.verdict.Committed? <==>
                  && to != h.before && rules.prepare(to).Some?
                  && forall sub :: sub in h.subs ==> rules.accepts(sub.who, h.before, rules.prepare(to).value))
            && if h.verdict.Committed? then rules.prepare(to) == Some(h.after) else h.after == h.before
  {
  }

  lemma HandledStep(rules: Rules, s: State, step: Step)
    requires Enabled(s, step)
    ensures var t := Next(rules, s, step);
            if step.Replace? then
              && s.server.Modifying? && |t.handled| == |s.handled| + 1 && t.handled[..|s.handled|] == s.handled
              && var h := t.handled[|s.handled|];
                 h.request == s.server.request && h.subs == s.subs && h.before == s.cfg && h.after == t.cfg
            else t.handled == s.handled
  {
    hide Without;
    hide FirstOf;
    hide Replacement;
  }

  /** The verifiers asked are those subscribed at the moment of the change, and it is made to the
      configuration that is in effect then. */
  lemma {:induction false} HandledInForce(rules: Rules, initial: Config, steps: seq<Step>, k: nat) returns (i: nat)
    requires After(rules, initial, steps).Some? && k < |After(rules, initial, steps).value.handled|
    ensures i < |steps| && steps[i] == Replace
    ensures After(rules, initial, steps[..i]).Some? && After(rules, initial, steps[..i + 1]).Some?
    ensures var h := After(rules, initial, steps).value.handled[k];
            var s, t := After(rules, initial, steps[..i]).value, After(rules, initial, steps[..i + 1]).value;
            && |s.handled| == k && s.server.Modifying? && h.request == s.server.request
            && h.subs == s.subs && h.before == s.cfg && h.after == t.cfg
  {
    var n := |steps| - 1;
    NothingHandled(rules, initial);
    hide After;
    hide Next;
    hide Enabled;
    AfterLast(rules, initial, steps);
    var s := After(rules, initial, steps[..n]).value;
    HandledStep(rules, s, steps[n]);
    if k < |s.handled| {
      i := HandledInForce(rules, initial, steps[..n], k);
      assert steps[..n][..i] == steps[..i] && steps[..n][..i + 1] == steps[..i + 1];
      assert After(rules, initial, steps).value.handled[..|s.handled|][k] == s.handled[k];
    } else {
      i := n;
      assert steps[..n + 1] == steps;
    }
  }

  lemma NothingHandled(rules: Rules, initial: Config)
    ensures After(rules, initial, []) == Some(Init(initial))
  {
  }

  /** When a change is about to be made, all commits of the changes before it have finished. A
      subscriber is only ever told of the latest change. */
  lemma ChangesDoNotOverlap(rules: Rules, initial: Config, steps: seq<Step>, step: Step)
    requires After(rules, initial, steps).Some? && Enabled(After(rules, initial, steps).value, step)
    ensures var s := After(rules, initial, steps).value;
            && (step.Replace? ==> s.pending == {} && s.running == {})
            && (step.Begin? ==> s.changes != [] && step.call.change == s.changes[|s.changes| - 1])
            && (step.Begin? ==> step.call.change.to == s.cfg)
  {
    InvHolds(rules, initial, steps);
    var s := After(rules, initial, steps).value;
    if step.Begin? {
      LastChange(rules, initial, s);
    }
  }

  lemma LastChange(rules: Rules, initial: Config, s: State)
    requires History(rules, initial, s)
    ensures s.cfg == if s.changes == [] then initial else s.changes[|s.changes| - 1].to
  {
    LastOf(rules, initial, s.handled);
  }

  lemma {:induction false} LastOf(rules: Rules, initial: Config, handled: seq<Handled>)
    requires Chain(rules, initial, handled)
    ensures var changes := Changes(handled);
            Outcome(initial, handled) == if changes == [] then initial else changes[|changes| - 1].to
  {
    if handled != [] {
      var n := |handled| - 1;
      assert forall i :: 0 <= i < n ==> handled[..n][..i] == handled[..i];
      LastOf(rules, initial, handled[..n]);
      hide Replacement;
      assert Explains(rules, handled[n]);
    }
  }

  /** The changes link up: each begins where the one before it ended. */
  ghost predicate LinksUp(start: Config, changes: seq<Change>) {
    && (changes != [] ==> changes[0].from == start)
    && (forall i :: 0 < i < |changes| ==> changes[i].from == changes[i - 1].to)
  }

  lemma OneMoreLink(start: Config, changes: seq<Change>, change: Change)
    requires LinksUp(start, changes)
    requires change.from == if changes == [] then start else changes[|changes| - 1].to
    ensures LinksUp(start, changes + [change])
  {
    var longer := changes + [change];
    forall i | 0 < i < |longer| ensures longer[i].from == longer[i - 1].to {
      assert longer[i - 1] == changes[i - 1];
      assert i < |changes| ==> longer[i] == changes[i];
    }
  }

  lemma {:induction false} ChangesLinkUp(rules: Rules, initial: Config, handled: seq<Handled>)
    requires Chain(rules, initial, handled)
    ensures LinksUp(initial, Changes(handled))
  {
    if handled != [] {
      var n := |handled| - 1;
      assert forall i :: 0 <= i < n ==> handled[..n][..i] == handled[..i];
      ChangesLinkUp(rules, initial, handled[..n]);
      LastOf(rules, initial, handled[..n]);
      var before := Changes(handled[..n]);
      var h := handled[n];
      assert h.before == Outcome(initial, handled[..n]);
      assert Changes(handled) == before + if h.verdict.Committed? then [Change(h.before, h.after)] else [];
      hide Changes;
      hide Outcome;
      hide Chain;
      if h.verdict.Committed? {
        OneMoreLink(initial, before, Change(h.before, h.after));
      }
    }
  }

  /** What Subscribe returned to a subscriber: the result of the changes before it. */
  ghost function Subscribed(initial: Config, s: State, id: nat): Config
    requires id < |s.joined| && s.joined[id] <= |s.changes|
  {
    if s.joined[id] == 0 then initial else s.changes[s.joined[id] - 1].to
  }

  lemma StretchLinksUp(start: Config, changes: seq<Change>, i: nat, j: nat)
    requires LinksUp(start, changes) && i <= j <= |changes|
    ensures LinksUp(if i == 0 then start else changes[i - 1].to, changes[i..j])
  {
    var part := changes[i..j];
    assert forall k :: 0 <= k < |part| ==> part[k] == changes[i + k];
    assert part != [] && i > 0 ==> changes[i].from == changes[i - 1].to;
    forall k | 0 < k < |part| ensures part[k].from == part[k - 1].to {
      assert changes[i + k].from == changes[i + k - 1].to;
    }
  }

  lemma EndOfStretch(initial: Config, s: State, id: nat)
    requires |s.joined| == |s.seen| && id < |s.joined| && View(s, id)
    ensures IsSubscribed(s, id) && s.pending == {} ==>
              (if s.changes == [] then initial else s.changes[|s.changes| - 1].to) ==
              (if s.seen[id] == [] then Subscribed(initial, s, id) else s.seen[id][|s.seen[id]| - 1].to)
  {
    var told := s.joined[id] + |s.seen[id]|;
    if IsSubscribed(s, id) && s.pending == {} {
      assert !IsDue(s, id);
      assert told == |s.changes|;
      assert s.seen[id] != [] ==> s.seen[id][|s.seen[id]| - 1] == s.changes[told - 1];
    }
  }

  /** Every subscriber sees an unbroken chain of changes that begins with the configuration it got
      when it subscribed; and once the commits have finished, those who are subscribed have seen
      all changes up to the present configuration. */
  lemma SubscribersSeeOneChain(rules: Rules, initial: Config, steps: seq<Step>, id: nat)
    requires After(rules, initial, steps).Some? && id < |After(rules, initial, steps).value.joined|
    ensures var s := After(rules, initial, steps).value;
            && |s.seen| == |s.joined| && s.joined[id] <= |s.changes|
            && (s.seen[id] != [] ==> s.seen[id][0].from == Subscribed(initial, s, id))
            && (forall i :: 0 < i < |s.seen[id]| ==> s.seen[id][i].from == s.seen[id][i - 1].to)
            && (IsSubscribed(s, id) && s.pending == {} ==>
                  s.cfg == if s.seen[id] == [] then Subscribed(initial, s, id) else s.seen[id][|s.seen[id]| - 1].to)
  {
    InvHolds(rules, initial, steps);
    ViewOfChain(rules, initial, After(rules, initial, steps).value, id);
  }

  lemma ViewOfChain(rules: Rules, initial: Config, s: State, id: nat)
    requires |s.joined| == |s.seen| && id < |s.joined| && View(s, id) && History(rules, initial, s)
    ensures LinksUp(Subscribed(initial, s, id), s.seen[id])
    ensures IsSubscribed(s, id) && s.pending == {} ==>
              s.cfg == if s.seen[id] == [] then Subscribed(initial, s, id) else s.seen[id][|s.seen[id]| - 1].to
  {
    ChangesLinkUp(rules, initial, s.handled);
    LastOf(rules, initial, s.handled);
    hide Chain;
    hide Changes;
    hide Outcome;
    StretchLinksUp(initial, s.changes, s.joined[id], s.joined[id] + |s.seen[id]|);
    EndOfStretch(initial, s, id);
  }

  // ---------- Nothing gets stuck ----------

  /** What the server and the goroutines it starts do by themselves. */
  ghost predicate IsOwn(step: Step) {
    step.Begin? || step.Finish? || step.Dequeue? || step.Replace? || step.WaitIsOver?
  }

  ghost predicate IsIdle(s: State) {
    s.queue == [] && s.server.Ready? && s.pending == {} && s.running == {}
  }

  ghost function Stage(s: State): nat {
    if s.server.Modifying? then 2 else if s.server.WaitingFor? then 1 else 0
  }

  /** One of these steps brings the server nearer to that. */
  ghost predicate GetsOn(s: State, t: State) {
    && t.accepted == s.accepted && !t.server.Stopped?
    && (|t.queue| < |s.queue| ||
        (t.queue == s.queue && (Stage(t) < Stage(s) ||
          (Stage(t) == Stage(s) && 2 * |t.pending| + |t.running| < 2 * |s.pending| + |s.running|))))
  }

  lemma CallsGetOn(rules: Rules, s: State, call: Call)
    requires !s.server.Stopped?
    ensures call in s.pending && call.sub < |s.seen| ==> GetsOn(s, Next(rules, s, Begin(call)))
    ensures call in s.running ==> GetsOn(s, Next(rules, s, Finish(call)))
  {
    if call in s.pending {
      assert |s.pending - {call}| == |s.pending| - 1 && |s.running + {call}| <= |s.running| + 1;
    }
    if call in s.running {
      assert |s.running - {call}| == |s.running| - 1;
    }
  }

  lemma ServerGetsOn(rules: Rules, s: State, step: Step)
    requires Enabled(s, step) && (step.Dequeue? || step.Replace? || step.WaitIsOver?)
    ensures GetsOn(s, Next(rules, s, step))
  {
    hide Replacement;
    hide CallsFor;
  }

  lemma NextOwnStep(rules: Rules, s: State) returns (step: Step)
    requires Control(s) && Ids(s) && !s.server.Stopped? && !IsIdle(s)
    ensures IsOwn(step) && Enabled(s, step) && GetsOn(s, Next(rules, s, step))
  {
    hide Next;
    hide GetsOn;
    if s.server.WaitingFor? && !Done(s, s.server.waiter) {
      var call :| (call in s.pending || call in s.running) && call.waiter == s.server.waiter;
      CallsGetOn(rules, s, call);
      step := if call in s.pending then Begin(call) else Finish(call);
    } else {
      step := if s.server.Ready? then Dequeue else if s.server.Modifying? then Replace else WaitIsOver;
      assert s.server.Ready? ==> s.pending == {} && s.running == {};
      ServerGetsOn(rules, s, step);
    }
  }

  lemma OneMoreStep(rules: Rules, initial: Config, steps: seq<Step>, s: State, step: Step)
    requires After(rules, initial, steps) == Some(s) && Enabled(s, step)
    ensures After(rules, initial, steps + [step]) == Some(Next(rules, s, step))
  {
    assert (steps + [step])[..|steps|] == steps;
    hide Enabled;
    hide Next;
  }

  lemma AllIsHandled(rules: Rules, initial: Config, steps: seq<Step>, s: State)
    requires After(rules, initial, steps) == Some(s) && IsIdle(s)
    ensures s.queue == [] && s.pending == {} && s.running == {} && s.accepted == Requests(s.handled)
    ensures forall id :: id in s.leaving ==> Enabled(s, UnsubscribeReturns(id))
  {
    InvHolds(rules, initial, steps);
    hide Chain;
    hide Outcome;
    hide View;
  }

  /** Wherever a run has come, unless the server was stopped, the server and its goroutines can go on by
      themselves until all modifications that were queued are handled, all subscribers have been told and
      nobody waits in Unsubscribe for them. */
  lemma {:induction false} EverythingIsHandled(rules: Rules, initial: Config, steps: seq<Step>, s: State)
    returns (more: seq<Step>)
    requires After(rules, initial, steps) == Some(s) && !s.server.Stopped?
    ensures forall step :: step in more ==>
              step.Begin? || step.Finish? || step.Dequeue? || step.Replace? || step.WaitIsOver?
    ensures After(rules, initial, steps + more).Some?
    ensures var t := After(rules, initial, steps + more).value;
            && t.queue == [] && t.pending == {} && t.running == {} && t.accepted == s.accepted == Requests(t.handled)
            && forall id :: id in t.leaving ==> Enabled(t, UnsubscribeReturns(id))
    decreases |s.queue|, Stage(s), 2 * |s.pending| + |s.running|
  {
    hide After;
    hide Next;
    hide Control;
    hide Ids;
    hide History;
    hide Enabled;
    hide Requests;
    hide IsIdle;
    hide Stage;
    if IsIdle(s) {
      more := [];
      assert steps + more == steps;
      AllIsHandled(rules, initial, steps, s);
    } else {
      InvHolds(rules, initial, steps);
      var step := NextOwnStep(rules, s);
      OneMoreStep(rules, initial, steps, s, step);
      var rest := EverythingIsHandled(rules, initial, steps + [step], Next(rules, s, step));
      more := [step] + rest;
      assert steps + more == steps + [step] + rest;
    }
  }

  lemma NewSubscription(rules: Rules, s: State, who: nat)
    ensures var t := Next(rules, s, Subscribe(who));
            && |t.joined| == |s.joined| + 1 && t.joined[|s.joined|] == |s.changes| && t.changes == s.changes
  {
  }

  /** Subscribe returns the configuration from which the chain of the new subscriber begins. */
  lemma SubscribeReturnsTheStart(rules: Rules, initial: Config, steps: seq<Step>, who: nat)
    requires After(rules, initial, steps).Some?
    ensures var s := After(rules, initial, steps).value;
            var t := Next(rules, s, Subscribe(who));
            && |t.joined| == |s.joined| + 1 && t.joined[|s.joined|] <= |t.changes|
            && Subscribed(initial, t, |s.joined|) == s.cfg
  {
    hide After;
    hide Next;
    hide Control;
    hide Ids;
    hide View;
    hide History;
    var s := After(rules, initial, steps).value;
    InvHolds(rules, initial, steps);
    NewSubscription(rules, s, who);
    LastChange(rules, initial, s);
  }

  lemma RunningStep(rules: Rules, s: State, step: Step, call: Call)
    requires Enabled(s, step)
    ensures step == Begin(call) || (call in s.running && step != Finish(call)) ==> call in Next(rules, s, step).running
  {
    hide FirstOf;
    hide Without;
    hide Replacement;
    hide CallsFor;
  }

  lemma {:induction false} StillRunning(rules: Rules, initial: Config, steps: seq<Step>, i: nat, call: Call)
    requires After(rules, initial, steps).Some? && i < |steps| && steps[i] == Begin(call)
    requires forall k :: i < k < |steps| ==> steps[k] != Finish(call)
    ensures call in After(rules, initial, steps).value.running
  {
    hide Next;
    hide Enabled;
    var n := |steps| - 1;
    if i < n {
      StillRunning(rules, initial, steps[..n], i, call);
    }
    RunningStep(rules, After(rules, initial, steps[..n]).value, steps[n], call);
  }

  lemma StuckWhileRunning(s: State, step: Step, call: Call)
    requires Control(s) && Ids(s) && Enabled(s, step) && call in s.running
    ensures step != WaitIsOver && step != UnsubscribeReturns(call.sub)
    ensures step.Begin? ==> step.call.waiter == call.waiter
  {
  }

  /** Once a subscriber has begun to commit a change, it has finished before anyone begins to commit another
      change, before the server goes on to the next modification, and before its Unsubscribe returns. */
  lemma CommitEndsFirst(rules: Rules, initial: Config, steps: seq<Step>, i: nat, j: nat, call: Call)
    requires After(rules, initial, steps).Some? && i < j == |steps| - 1 && steps[i] == Begin(call)
    requires || steps[j] == WaitIsOver
             || steps[j] == UnsubscribeReturns(call.sub)
             || (steps[j].Begin? && steps[j].call.waiter != call.waiter)
    ensures exists k :: i < k < j && steps[k] == Finish(call)
  {
    hide Next;
    hide Control;
    hide Ids;
    var init := steps[..j];
    assert After(rules, initial, init).Some? && Enabled(After(rules, initial, init).value, steps[j]);
    hide After;
    hide Enabled;
    InvHolds(rules, initial, init);
    if forall k :: i < k < j ==> steps[k] != Finish(call) {
      StillRunning(rules, initial, init, i, call);
      StuckWhileRunning(After(rules, initial, init).value, steps[j], call);
      assert false;
    }
  }

  lemma SubscriptionStep(rules: Rules, s: State, step: Step, id: nat)
    requires Control(s) && Ids(s) && Enabled(s, step)
    ensures var t := Next(rules, s, step);
            && (step.Subscribe? && id == |s.joined| ==> IsSubscribed(t, id))
            && (IsSubscribed(s, id) ==> IsSubscribed(t, id) || (step.Unsubscribe? && id in t.leaving))
            && (id in s.leaving ==> id in t.leaving || id in t.gone)
            && (id in s.gone ==> id in t.gone)
            && (|s.joined| <= |t.joined| <= |s.joined| + if step.Subscribe? then 1 else 0)
            && (!step.Unsubscribe? ==> t.leaving.Keys + t.gone == s.leaving.Keys + s.gone)
  {
    hide FirstOf;
    hide Without;
    hide Replacement;
    hide CallsFor;
    var t := Next(rules, s, step);
    if step.Unsubscribe? {
      WithoutRemovesOne(s.subs, step.who);
      if sub :| sub in s.subs && sub.id == id && id !in t.leaving {
        assert sub in t.subs;
      }
    } else if step.Subscribe? {
      assert Sub(|s.joined|, step.who) in t.subs;
      assert forall sub :: sub in s.subs ==> sub in t.subs;
    } else {
      assert t.subs == s.subs;
    }
  }

  /** Every subscription is in force until the subscriber calls Unsubscribe. */
  lemma {:induction false} SubscribedUntilUnsubscribed(rules: Rules, initial: Config, steps: seq<Step>, id: nat)
    requires After(rules, initial, steps).Some? && id < |After(rules, initial, steps).value.joined|
    ensures var s := After(rules, initial, steps).value;
            || IsSubscribed(s, id)
            || ((id in s.leaving || id in s.gone) && exists who :: Unsubscribe(who) in steps)
  {
    if steps != [] {
      var n := |steps| - 1;
      var s := After(rules, initial, steps[..n]).value;
      InvHolds(rules, initial, steps[..n]);
      SubscriptionStep(rules, s, steps[n], id);
      hide Inv;
      hide Next;
      hide Enabled;
      hide IsSubscribed;
      if id < |s.joined| {
        SubscribedUntilUnsubscribed(rules, initial, steps[..n], id);
      }
      assert forall who :: Unsubscribe(who) in steps[..n] ==> Unsubscribe(who) in steps;
      assert steps[n] in steps;
      if steps[n].Unsubscribe? {
        assert Unsubscribe(steps[n].who) in steps;
      }
    }
  }

  /** Once Unsubscribe has returned, the subscriber is not being told of any change, and never
      will be again under this subscription. */
  lemma UnsubscribedForGood(rules: Rules, initial: Config, steps: seq<Step>, id: nat)
    requires After(rules, initial, steps).Some? && id in After(rules, initial, steps).value.gone
    ensures var s := After(rules, initial, steps).value;
            && (forall c :: c in s.pending || c in s.running ==> c.sub != id)
            && !IsSubscribed(s, id)
            && forall step :: Enabled(s, step) ==> id in Next(rules, s, step).gone
  {
    InvHolds(rules, initial, steps);
    var s := After(rules, initial, steps).value;
    forall step | Enabled(s, step) ensures id in Next(rules, s, step).gone {
      GoneForGood(rules, s, step, id);
    }
    hide After;
    hide Next;
    hide Enabled;
    hide Control;
    hide History;
    hide View;
  }

  lemma GoneForGood(rules: Rules, s: State, step: Step, id: nat)
    requires Enabled(s, step) && id in s.gone
    ensures id in Next(rules, s, step).gone
  {
    hide Replacement;
    hide Without;
    hide FirstOf;
  }

  // ---------- Saving ----------

  /** The configuration is saved, or the timer is started because another one is asked for. */
  ghost predicate Rescues(s: State, step: Step) {
    match step
    case TimerFires(ok) => ok
    case Save(ok) => ok
    case Stop(ok) => ok
    case Replace => s.server.Modifying? && s.server.to != s.cfg
    case _ => false
  }

  /** A save by the server that fails: when its timer fires, or the last one, when it stops. */
  ghost predicate GivesUp(step: Step) {
    step == TimerFires(false) || step == Stop(false)
  }

  /** At step k such a save of an unsaved change failed, and nothing has saved the configuration or asked
      for another one since. */
  ghost predicate GaveUpAt(rules: Rules, initial: Config, steps: seq<Step>, k: nat) {
    && k < |steps| && GivesUp(steps[k])
    && After(rules, initial, steps[..k]).Some? && After(rules, initial, steps[..k]).value.unsaved
    && forall j :: k < j < |steps| ==> IsNoRescue(rules, initial, steps, j)
  }

  ghost predicate IsNoRescue(rules: Rules, initial: Config, steps: seq<Step>, j: nat)
    requires j < |steps|
  {
    After(rules, initial, steps[..j]).Some? && !Rescues(After(rules, initial, steps[..j]).value, steps[j])
  }

  lemma GaveUpEarlier(rules: Rules, initial: Config, steps: seq<Step>, k: nat)
    requires k < |steps| - 1
    requires After(rules, initial, steps[..|steps| - 1]).Some?
    ensures GaveUpAt(rules, initial, steps, k) <==>
            GaveUpAt(rules, initial, steps[..|steps| - 1], k) &&
            !Rescues(After(rules, initial, steps[..|steps| - 1]).value, steps[|steps| - 1])
  {
    var init := steps[..|steps| - 1];
    hide After;
    hide Rescues;
    assert forall j :: 0 <= j <= |init| ==> init[..j] == steps[..j];
    assert IsNoRescue(rules, initial, steps, |init|) <==> !Rescues(After(rules, initial, init).value, steps[|init|]);
    assert forall j :: k < j < |init| ==>
      (IsNoRescue(rules, initial, steps, j) <==> IsNoRescue(rules, initial, init, j));
  }

  lemma SaveStep(rules: Rules, s: State, step: Step)
    requires Enabled(s, step)
    ensures var t := Next(rules, s, step);
            t.unsaved && !t.timerRunning <==>
            (GivesUp(step) && s.unsaved) || (s.unsaved && !s.timerRunning && !Rescues(s, step))
  {
    hide Without;
    hide FirstOf;
    hide Replacement;
  }

  lemma AfterLast(rules: Rules, initial: Config, steps: seq<Step>)
    requires steps != [] && After(rules, initial, steps).Some?
    ensures var init, step := steps[..|steps| - 1], steps[|steps| - 1];
            && After(rules, initial, init).Some? && Enabled(After(rules, initial, init).value, step)
            && After(rules, initial, steps).value == Next(rules, After(rules, initial, init).value, step)
  {
    hide Next;
    hide Enabled;
  }

  lemma GaveUpNow(rules: Rules, initial: Config, steps: seq<Step>)
    requires steps != [] && After(rules, initial, steps[..|steps| - 1]).Some?
    ensures GaveUpAt(rules, initial, steps, |steps| - 1) <==>
            GivesUp(steps[|steps| - 1]) && After(rules, initial, steps[..|steps| - 1]).value.unsaved
  {
    hide After;
  }

  ghost predicate HasGivenUp(rules: Rules, initial: Config, steps: seq<Step>) {
    exists k :: 0 <= k < |steps| && GaveUpAt(rules, initial, steps, k)
  }

  lemma GivenUpStep(rules: Rules, initial: Config, steps: seq<Step>)
    requires steps != [] && After(rules, initial, steps[..|steps| - 1]).Some?
    ensures var init, step := steps[..|steps| - 1], steps[|steps| - 1];
            var s := After(rules, initial, init).value;
            HasGivenUp(rules, initial, steps) <==>
            (GivesUp(step) && s.unsaved) || (HasGivenUp(rules, initial, init) && !Rescues(s, step))
  {
    var n := |steps| - 1;
    var init, step := steps[..n], steps[n];
    var s := After(rules, initial, init).value;
    GaveUpNow(rules, initial, steps);
    forall k | 0 <= k < n
      ensures GaveUpAt(rules, initial, steps, k) <==> GaveUpAt(rules, initial, init, k) && !Rescues(s, step)
    {
      GaveUpEarlier(rules, initial, steps, k);
    }
    hide After;
    hide GaveUpAt;
    hide Rescues;
  }

  /** In every run a change is left unsaved without a timer exactly if a save of it, by the timer or at the
      end of the server, has failed, and since then no modification asked for another configuration
      and no save succeeded. */
  lemma {:induction false} UnsavedWithoutTimer(rules: Rules, initial: Config, steps: seq<Step>)
    requires After(rules, initial, steps).Some?
    ensures var s := After(rules, initial, steps).value;
            s.unsaved && !s.timerRunning <==> HasGivenUp(rules, initial, steps)
  {
    if steps != [] {
      hide *;
      AfterLast(rules, initial, steps);
      UnsavedWithoutTimer(rules, initial, steps[..|steps| - 1]);
      SaveStep(rules, After(rules, initial, steps[..|steps| - 1]).value, steps[|steps| - 1]);
      GivenUpStep(rules, initial, steps);
    }
  }

  ghost predicate SavesWell(step: Step) {
    step == TimerFires(true) || step == Save(true) || step == Stop(true)
  }

  /** The modification handled at step k was committed, and no save has succeeded since. */
  ghost predicate CommittedAt(rules: Rules, initial: Config, steps: seq<Step>, k: nat) {
    && k < |steps| && steps[k] == Replace
    && After(rules, initial, steps[..k + 1]).Some?
    && (var handled := After(rules, initial, steps[..k + 1]).value.handled;
        handled != [] && handled[|handled| - 1].verdict.Committed?)
    && forall j :: k < j < |steps| ==> !SavesWell(steps[j])
  }

  lemma UnsavedStep(rules: Rules, s: State, step: Step)
    requires Enabled(s, step)
    ensures var t := Next(rules, s, step);
            t.unsaved <==>
            if step == Replace then s.unsaved || (t.handled != [] && t.handled[|t.handled| - 1].verdict.Committed?)
            else s.unsaved && !SavesWell(step)
  {
    hide Without;
    hide FirstOf;
    hide Replacement;
    hide CallsFor;
  }

  lemma CommittedEarlier(rules: Rules, initial: Config, steps: seq<Step>, k: nat)
    requires k < |steps| - 1
    ensures CommittedAt(rules, initial, steps, k) <==>
            CommittedAt(rules, initial, steps[..|steps| - 1], k) && !SavesWell(steps[|steps| - 1])
  {
    hide After;
    hide SavesWell;
    assert steps[..|steps| - 1][..k + 1] == steps[..k + 1];
    if CommittedAt(rules, initial, steps, k) {
      assert forall j :: k < j < |steps| - 1 ==> steps[..|steps| - 1][j] == steps[j];
    }
  }

  lemma CommittedNow(rules: Rules, initial: Config, steps: seq<Step>)
    requires steps != [] && After(rules, initial, steps).Some?
    ensures var handled := After(rules, initial, steps).value.handled;
            CommittedAt(rules, initial, steps, |steps| - 1) <==>
            steps[|steps| - 1] == Replace && handled != [] && handled[|handled| - 1].verdict.Committed?
  {
    assert steps[..|steps| - 1 + 1] == steps;
    hide After;
  }

  lemma CommittedInTime(rules: Rules, initial: Config, steps: seq<Step>, k: nat)
    requires CommittedAt(rules, initial, steps, k)
    ensures k < |steps|
  {
  }

  ghost predicate CommittedSinceSave(rules: Rules, initial: Config, steps: seq<Step>) {
    exists k :: CommittedAt(rules, initial, steps, k)
  }

  lemma CommittedStep(rules: Rules, initial: Config, steps: seq<Step>)
    requires steps != [] && After(rules, initial, steps).Some?
    ensures var init, n := steps[..|steps| - 1], |steps| - 1;
            CommittedSinceSave(rules, initial, steps) <==>
            || CommittedAt(rules, initial, steps, n)
            || (CommittedSinceSave(rules, initial, init) && !SavesWell(steps[n]))
  {
    hide After;
    hide SavesWell;
    hide CommittedAt;
    var init, n := steps[..|steps| - 1], |steps| - 1;
    if CommittedSinceSave(rules, initial, steps) {
      var k: nat :| CommittedAt(rules, initial, steps, k);
      CommittedInTime(rules, initial, steps, k);
      if k < n {
        CommittedEarlier(rules, initial, steps, k);
      }
    }
    if CommittedSinceSave(rules, initial, init) && !SavesWell(steps[n]) {
      var k :| CommittedAt(rules, initial, init, k);
      CommittedInTime(rules, initial, init, k);
      CommittedEarlier(rules, initial, steps, k);
    }
  }

  /** In every run the configuration counts as unsaved exactly if a modification was committed and no save
      has succeeded since. */
  lemma {:induction false} UnsavedMeans(rules: Rules, initial: Config, steps: seq<Step>)
    requires After(rules, initial, steps).Some?
    ensures After(rules, initial, steps).value.unsaved <==> CommittedSinceSave(rules, initial, steps)
  {
    if steps == [] {
      assert forall k :: !CommittedAt(rules, initial, steps, k);
    } else {
      hide *;
      AfterLast(rules, initial, steps);
      UnsavedMeans(rules, initial, steps[..|steps| - 1]);
      UnsavedStep(rules, After(rules, initial, steps[..|steps| - 1]).value, steps[|steps| - 1]);
      CommittedNow(rules, initial, steps);
      CommittedStep(rules, initial, steps);
      SavesAreNoReplacements(steps[|steps| - 1]);
    }
  }

  lemma SavesAreNoReplacements(step: Step)
    ensures step == Replace ==> !SavesWell(step)
  {
  }

  ghost predicate SavesSucceed(steps: seq<Step>) {
    forall i :: 0 <= i < |steps| ==> steps[i] != TimerFires(false)
  }

  /** A server that has stopped does not start again. */
  lemma {:induction false} StoppedForGood(rules: Rules, initial: Config, steps: seq<Step>, k: nat)
    requires After(rules, initial, steps).Some? && k < |steps| && steps[k].Stop?
    ensures After(rules, initial, steps).value.server.Stopped?
  {
    hide *;
    AfterLast(rules, initial, steps);
    StopStep(rules, After(rules, initial, steps[..|steps| - 1]).value, steps[|steps| - 1]);
    if k < |steps| - 1 {
      StoppedForGood(rules, initial, steps[..|steps| - 1], k);
    }
  }

  lemma StopStep(rules: Rules, s: State, step: Step)
    requires Enabled(s, step)
    ensures step.Stop? || s.server.Stopped? ==> Next(rules, s, step).server.Stopped?
  {
    hide Without;
    hide FirstOf;
    hide Replacement;
  }

  /** So if the saves made by the timer succeed, a change that is not saved yet has its save timer
      running, for as long as the server runs. */
  lemma UnsavedHasTimer(rules: Rules, initial: Config, steps: seq<Step>)
    requires After(rules, initial, steps).Some? && SavesSucceed(steps)
    ensures var s := After(rules, initial, steps).value; s.unsaved && !s.server.Stopped? ==> s.timerRunning
  {
    UnsavedWithoutTimer(rules, initial, steps);
    hide After;
    if HasGivenUp(rules, initial, steps) {
      var k :| 0 <= k < |steps| && GaveUpAt(rules, initial, steps, k);
      StoppedForGood(rules, initial, steps, k);
    }
  }

  /** A save that the timer makes and that fails is not tried again: whatever happens without another
      modification being taken up, a save or the end of the server, the change stays unsaved and
      without a timer. */
  lemma {:induction false} FailedSaveIsNotRetried(rules: Rules, initial: Config, steps: seq<Step>, more: seq<Step>)
    requires After(rules, initial, steps).Some? && After(rules, initial, steps).value.unsaved
    requires After(rules, initial, steps + [TimerFires(false)] + more).Some?
    requires forall step :: step in more ==> !step.Dequeue? && !step.Save? && !step.Stop?
    ensures var t := After(rules, initial, steps + [TimerFires(false)] + more).value;
            t.unsaved && !t.timerRunning && t.server.Ready?
  {
    var failed := steps + [TimerFires(false)];
    if more == [] {
      assert failed + more == failed && failed[..|steps|] == steps;
    } else {
      var last := more[|more| - 1];
      assert (failed + more)[..|failed + more| - 1] == failed + more[..|more| - 1];
      assert (failed + more)[|failed + more| - 1] == last && last in more;
      FailedSaveIsNotRetried(rules, initial, steps, more[..|more| - 1]);
      hide Without;
      hide FirstOf;
    }
  }
  /** A last save that fails when the server stops leaves the change unsaved for good, unless someone saves. */
  lemma {:induction false} FailedLastSaveIsFinal(rules: Rules, initial: Config, steps: seq<Step>, more: seq<Step>)
    requires After(rules, initial, steps).Some? && After(rules, initial, steps).value.unsaved
    requires After(rules, initial, steps + [Stop(false)] + more).Some?
    requires Save(true) !in more
    ensures var t := After(rules, initial, steps + [Stop(false)] + more).value;
            t.unsaved && !t.timerRunning && t.server.Stopped?
  {
    hide After;
    hide Next;
    hide Enabled;
    var failed := steps + [Stop(false)];
    var all := failed + more;
    AfterLast(rules, initial, all);
    var s, last := After(rules, initial, all[..|all| - 1]).value, all[|all| - 1];
    SaveStep(rules, s, last);
    StopStep(rules, s, last);
    if more == [] {
      assert all == failed && failed[..|steps|] == steps;
    } else {
      assert all[..|all| - 1] == failed + more[..|more| - 1] && last in more;
      FailedLastSaveIsFinal(rules, initial, steps, more[..|more| - 1]);
      OnlySaveRescues(s, last);
      hide Rescues;
    }
  }

  lemma OnlySaveRescues(s: State, step: Step)
    requires s.server.Stopped? && Enabled(s, step) && step != Save(true)
    ensures !Rescues(s, step)
  {
  }
}
