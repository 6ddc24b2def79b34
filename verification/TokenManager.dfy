/** Session tokens (lib/api/tokenmanager.go): a map from token to expiry time from which the
    expired tokens and, above a limit, the ones that expire first are removed. It is shown to
    behave like a list of tokens in order of last use, with a time to live. */
module TokenManager {
  import opened Sorting

  type Token = string
  // Nanoseconds since the Unix epoch, as an int64 counts them.
  type Nanos = int

  datatype TokenExpiry = TokenExpiry(token: Token, expiry: Nanos)

  predicate ExpiresFirst(a: TokenExpiry, b: TokenExpiry) {
    a.expiry <= b.expiry
  }

  ghost predicate Expired(expiry: Nanos, now: Nanos) {
    expiry != 0 && expiry < now
  }

  ghost function Unexpired(tokens: map<Token, Nanos>, now: Nanos): map<Token, Nanos> {
    map t | t in tokens && !Expired(tokens[t], now) :: tokens[t]
  }

  /** What an eviction may leave: everything when the limit is not exceeded, otherwise as many
      tokens as the limit allows, none of which expires before one that is gone. */
  ghost predicate Evicted(tokens: map<Token, Nanos>, maxItems: int, kept: map<Token, Nanos>) {
    && kept.Keys <= tokens.Keys
    && (forall t :: t in kept ==> kept[t] == tokens[t])
    && (maxItems <= 0 || |tokens| <= maxItems ==> kept == tokens)
    && (0 < maxItems < |tokens| ==> |kept| == maxItems)
    && (forall t, u :: t in kept && u in tokens && u !in kept ==> tokens[u] <= tokens[t])
  }

  class TokenManager {
    const lifetime: int
    const maxItems: int
    var tokens: map<Token, Nanos>
    // Whether a save is scheduled.
    var saveTimer: bool

    constructor (lifetime: int, maxItems: int, stored: map<Token, Nanos>)
      ensures this.lifetime == lifetime && this.maxItems == maxItems
      ensures tokens == stored && !saveTimer
    {
      this.lifetime := lifetime;
      this.maxItems := maxItems;
      this.tokens := stored;
      this.saveTimer := false;
    }

    function NewExpiryNanos(now: Nanos): Nanos {
      ExpiryNanos(lifetime, now)
    }

    /** The three clock readings are the ones for the comparison, for the new expiry time and
        for the cleanup. */
    method Check(token: Token, now0: Nanos, now1: Nanos, now2: Nanos) returns (ok: bool)
      modifies this
      ensures Step(lifetime, maxItems, old(tokens), Op.Check(token, now0, now1, now2), tokens, ok)
      ensures ok <==> token in old(tokens) && !Expired(old(tokens)[token], now0)
      ensures token !in old(tokens) ==> tokens == old(tokens) && saveTimer == old(saveTimer)
      ensures token in old(tokens) ==> saveTimer
    {
      if token !in tokens {
        return false;
      }
      var expires := tokens[token];
      if expires != 0 && expires < now0 {
        SaveLocked(now1);
        return false;
      }
      tokens := tokens[token := NewExpiryNanos(now1)];
      SaveLocked(now2);
      return true;
    }

    /** The token is the random string that was drawn. */
    method New(token: Token, now1: Nanos, now2: Nanos)
      modifies this
      ensures Step(lifetime, maxItems, old(tokens), Op.New(token, now1, now2), tokens, false)
      ensures saveTimer
    {
      tokens := tokens[token := NewExpiryNanos(now1)];
      SaveLocked(now2);
    }

    method Delete(token: Token, now2: Nanos)
      modifies this
      ensures Step(lifetime, maxItems, old(tokens), Op.Delete(token, now2), tokens, false)
      ensures saveTimer
    {
      tokens := tokens - {token};
      SaveLocked(now2);
    }

    method SaveLocked(now: Nanos)
      modifies this
      ensures Evicted(Unexpired(old(tokens), now), maxItems, tokens)
      ensures saveTimer
    {
      ghost var before := tokens;
      var todo := tokens.Keys;
      while todo != {}
        invariant todo <= tokens.Keys <= before.Keys
        invariant forall t :: t in tokens ==> tokens[t] == before[t]
        invariant forall t :: t in before && t !in todo ==> (t in tokens <==> !Expired(before[t], now))
      {
        var token :| token in todo;
        var expiry := tokens[token];
        if expiry != 0 && expiry < now {
          tokens := tokens - {token};
        }
        todo := todo - {token};
      }
      assert tokens == Unexpired(before, now);

      if maxItems > 0 && |tokens| > maxItems {
        EvictOldest();
      }
      saveTimer := true;
    }

    method EvictOldest()
      requires 0 < maxItems < |tokens|
      modifies this`tokens
      ensures Evicted(old(tokens), maxItems, tokens)
    {
      var all := tokens;
      var sorted := SortedByExpiry(all);
      var n := |sorted| - maxItems;
      assert sorted[..0] == [];
      for i := 0 to n
        invariant tokens == all - TokensOf(sorted[..i])
      {
        RemoveStep(all, sorted, i);
        tokens := tokens - {sorted[i].token};
      }
      KeptExpireLast(all, sorted, n);
    }
  }

  method SortedByExpiry(tokens: map<Token, Nanos>) returns (sorted: seq<TokenExpiry>)
    ensures Listing(tokens, sorted)
    ensures Sorted(sorted, ExpiresFirst)
  {
    var names := Elements(tokens.Keys);
    sorted := [];
    for i := 0 to |names|
      invariant |sorted| == i
      invariant forall e :: multiset(sorted)[e] == if e.token in tokens && tokens[e.token] == e.expiry
          then multiset(names[..i])[e.token] else 0
    {
      assert names[i] in multiset(names);
      assert names[..i + 1] == names[..i] + [names[i]];
      sorted := sorted + [TokenExpiry(names[i], tokens[names[i]])];
    }
    assert names[..|names|] == names;
    assert |multiset(names)| == |names|;
    ghost var listing := sorted;
    sorted := SortFunc(sorted, ExpiresFirst);
    SameElements(sorted, listing);
  }

  /** Each token of the map once, with its expiry time. */
  ghost predicate Listing(tokens: map<Token, Nanos>, listing: seq<TokenExpiry>) {
    && |listing| == |tokens|
    && forall e :: multiset(listing)[e] == if e.token in tokens && tokens[e.token] == e.expiry then 1 else 0
  }

  lemma ListingElements(tokens: map<Token, Nanos>, listing: seq<TokenExpiry>)
    requires Listing(tokens, listing)
    ensures forall i :: 0 <= i < |listing| ==>
        listing[i].token in tokens && tokens[listing[i].token] == listing[i].expiry
    ensures forall t :: t in tokens ==> TokenExpiry(t, tokens[t]) in listing
    ensures forall i, j :: 0 <= i < j < |listing| ==> listing[i].token != listing[j].token
  {
    forall i | 0 <= i < |listing| ensures listing[i].token in tokens && tokens[listing[i].token] == listing[i].expiry {
      assert listing[i] in multiset(listing);
    }
    forall t | t in tokens ensures TokenExpiry(t, tokens[t]) in listing {
      assert TokenExpiry(t, tokens[t]) in multiset(listing);
    }
    forall i, j | 0 <= i < j < |listing| ensures listing[i].token != listing[j].token {
      TwiceMeansTwo(listing, i, j);
    }
  }

  ghost function TokensOf(listing: seq<TokenExpiry>): set<Token> {
    if listing == [] then {} else TokensOf(listing[..|listing| - 1]) + {listing[|listing| - 1].token}
  }

  lemma TokensOfStep(listing: seq<TokenExpiry>, i: nat)
    requires i < |listing|
    ensures TokensOf(listing[..i + 1]) == TokensOf(listing[..i]) + {listing[i].token}
  {
    assert listing[..i + 1][..i] == listing[..i];
  }

  lemma RemoveStep(all: map<Token, Nanos>, listing: seq<TokenExpiry>, i: nat)
    requires i < |listing|
    ensures all - TokensOf(listing[..i + 1]) == all - TokensOf(listing[..i]) - {listing[i].token}
  {
    TokensOfStep(listing, i);
  }

  lemma {:induction false} TokensOfPrefix(listing: seq<TokenExpiry>, n: nat)
    requires n <= |listing|
    ensures forall i :: 0 <= i < n ==> listing[i].token in TokensOf(listing[..n])
    ensures forall t :: t in TokensOf(listing[..n]) ==> exists i :: 0 <= i < n && listing[i].token == t
  {
    if n > 0 {
      TokensOfPrefix(listing, n - 1);
      TokensOfStep(listing, n - 1);
    }
  }

  lemma {:induction false} CountTokens(listing: seq<TokenExpiry>, n: nat)
    requires n <= |listing|
    requires forall i, j :: 0 <= i < j < |listing| ==> listing[i].token != listing[j].token
    ensures |TokensOf(listing[..n])| == n
  {
    if n > 0 {
      CountTokens(listing, n - 1);
      TokensOfPrefix(listing, n - 1);
      TokensOfStep(listing, n - 1);
    }
  }

  lemma FirstAndLast(all: map<Token, Nanos>, sorted: seq<TokenExpiry>, n: nat)
    requires Listing(all, sorted) && Sorted(sorted, ExpiresFirst) && n < |sorted|
    ensures TokensOf(sorted[..n]) <= all.Keys
    ensures forall t, u :: t in all && t !in TokensOf(sorted[..n]) && u in TokensOf(sorted[..n]) ==> all[u] <= all[t]
  {
    ListingElements(all, sorted);
    TokensOfPrefix(sorted, n);
    forall t, u | t in all && t !in TokensOf(sorted[..n]) && u in TokensOf(sorted[..n]) ensures all[u] <= all[t] {
      var i :| 0 <= i < n && sorted[i].token == u;
      var j :| 0 <= j < |sorted| && sorted[j] == TokenExpiry(t, all[t]);
      assert ExpiresFirst(sorted[i], sorted[j]);
    }
  }

  lemma KeptExpireLast(all: map<Token, Nanos>, sorted: seq<TokenExpiry>, n: nat)
    requires Listing(all, sorted) && Sorted(sorted, ExpiresFirst) && n < |sorted|
    ensures Evicted(all, |sorted| - n, all - TokensOf(sorted[..n]))
  {
    FirstAndLast(all, sorted, n);
    assert |TokensOf(sorted[..n])| == n by {
      ListingElements(all, sorted);
      CountTokens(sorted, n);
    }
    var kept := all - TokensOf(sorted[..n]);
    assert kept.Keys == all.Keys - TokensOf(sorted[..n]);
    assert |kept| == |kept.Keys| && |all| == |all.Keys|;
  }

  // ---------- The reference: least recently used, with a time to live ----------

  /** The time of the last use of each token. */
  type Uses = map<Token, Nanos>

  ghost function UsedLater(uses: Uses, token: Token): set<Token>
    requires token in uses
  {
    set t | t in uses && uses[token] < uses[t]
  }

  /** The maxItems most recently used tokens, or all when there is no limit. */
  ghost function Newest(uses: Uses, maxItems: int): Uses {
    map t | t in uses && (maxItems <= 0 || |UsedLater(uses, t)| < maxItems) :: uses[t]
  }

  ghost function Alive(uses: Uses, lifetime: int, now: Nanos): Uses {
    map t | t in uses && now <= uses[t] + lifetime :: uses[t]
  }

  ghost function Trim(uses: Uses, lifetime: int, maxItems: int, now: Nanos): Uses {
    Newest(Alive(uses, lifetime, now), maxItems)
  }

  /** A call with the clock readings it takes, in the order in which it takes them. */
  datatype Op =
    | New(token: Token, now1: Nanos, now2: Nanos)
    | Check(token: Token, now0: Nanos, now1: Nanos, now2: Nanos)
    | Delete(token: Token, now2: Nanos)
  {
    ghost function First(): Nanos {
      match this
      case New(_, now1, _) => now1
      case Check(_, now0, _, _) => now0
      case Delete(_, now2) => now2
    }

    ghost predicate ReadsInOrder() {
      match this
      case New(_, now1, now2) => now1 <= now2
      case Check(_, now0, now1, now2) => now0 <= now1 <= now2
      case Delete(_, _) => true
    }
  }

  ghost predicate LruAnswer(uses: Uses, lifetime: int, op: Op) {
    op.Check? && op.token in Alive(uses, lifetime, op.now0)
  }

  ghost function LruStep(uses: Uses, lifetime: int, maxItems: int, op: Op): Uses {
    match op
    case New(token, now1, now2) =>
      Trim(uses[token := now1], lifetime, maxItems, now2)
    case Check(token, now0, now1, now2) =>
      if LruAnswer(uses, lifetime, op) then Trim(uses[token := now1], lifetime, maxItems, now2)
      else if token in uses then Trim(uses, lifetime, maxItems, now1)
      else uses
    case Delete(token, now2) =>
      Trim(uses - {token}, lifetime, maxItems, now2)
  }

  // ---------- Runs ----------

  /** What one call of the token manager may do: the contract of its methods in one relation. */
  ghost predicate Step(lifetime: int, maxItems: int, tokens: map<Token, Nanos>, op: Op, tokens': map<Token, Nanos>,
      answer: bool) {
    match op
    case New(token, now1, now2) =>
      && !answer
      && Evicted(Unexpired(tokens[token := ExpiryNanos(lifetime, now1)], now2), maxItems, tokens')
    case Check(token, now0, now1, now2) =>
      && (answer <==> token in tokens && !Expired(tokens[token], now0))
      && if answer then Evicted(Unexpired(tokens[token := ExpiryNanos(lifetime, now1)], now2), maxItems, tokens')
         else if token in tokens then Evicted(Unexpired(tokens, now1), maxItems, tokens')
         else tokens' == tokens
    case Delete(token, now2) =>
      && !answer
      && Evicted(Unexpired(tokens - {token}, now2), maxItems, tokens')
  }

  function ExpiryNanos(lifetime: int, now: Nanos): Nanos {
    if lifetime <= 0 then 0 else now + lifetime
  }

  /** A run from the tokens that were stored: the states between the calls and the answers. */
  ghost predicate IsRun(stored: Uses, lifetime: int, maxItems: int, ops: seq<Op>, states: seq<map<Token, Nanos>>,
      answers: seq<bool>) {
    && |states| == |ops| + 1 && |answers| == |ops|
    && Related(states[0], stored, lifetime)
    && forall i :: 0 <= i < |ops| ==> Step(lifetime, maxItems, states[i], ops[i], states[i + 1], answers[i])
  }

  /** All readings of the clock are after the epoch; those of a call come in order and after
      all those of earlier calls. */
  ghost predicate ClockIncreases(ops: seq<Op>) {
    && (forall i :: 0 <= i < |ops| ==> 0 <= ops[i].First() && ops[i].ReadsInOrder())
    && (forall i, j :: 0 <= i < j < |ops| ==> ops[i].now2 < ops[j].First())
  }

  ghost function LruAfter(stored: Uses, lifetime: int, maxItems: int, ops: seq<Op>): Uses {
    if ops == [] then stored
    else LruStep(LruAfter(stored, lifetime, maxItems, ops[..|ops| - 1]), lifetime, maxItems, ops[|ops| - 1])
  }

  /** The token map holds what the reference holds, the time of expiry for the time of use. */
  ghost predicate Related(tokens: map<Token, Nanos>, uses: Uses, lifetime: int) {
    && tokens.Keys == uses.Keys
    && forall t :: t in uses ==> tokens[t] == uses[t] + lifetime
  }

  /** No two tokens were last used at the same time. */
  ghost predicate Distinct(uses: Uses) {
    forall t, u :: t in uses && u in uses && uses[t] == uses[u] ==> t == u
  }

  ghost predicate UsedIn(uses: Uses, now: Nanos) {
    forall t :: t in uses ==> 0 <= uses[t] < now
  }

  /** What was stored was used at different times, before the first reading of the clock. */
  ghost predicate Fits(stored: Uses, ops: seq<Op>) {
    Distinct(stored) && (ops != [] ==> UsedIn(stored, ops[0].First()))
  }

  lemma EvictedIsNewest(tokens: map<Token, Nanos>, uses: Uses, lifetime: int, maxItems: int, kept: map<Token, Nanos>)
    requires Related(tokens, uses, lifetime) && Distinct(uses)
    requires Evicted(tokens, maxItems, kept)
    ensures Related(kept, Newest(uses, maxItems), lifetime)
  {
    hide UsedLater;
    forall t | t in uses ensures t in kept <==> t in Newest(uses, maxItems) {
      SurvivorsAreNewest(tokens, uses, lifetime, maxItems, kept, t);
    }
  }

  lemma SurvivorsAreNewest(tokens: map<Token, Nanos>, uses: Uses, lifetime: int, maxItems: int,
      kept: map<Token, Nanos>, t: Token)
    requires Related(tokens, uses, lifetime) && Distinct(uses)
    requires Evicted(tokens, maxItems, kept)
    requires t in uses
    ensures t in kept <==> maxItems <= 0 || |UsedLater(uses, t)| < maxItems
  {
    var later := UsedLater(uses, t);
    assert |tokens| == |tokens.Keys| && |kept| == |kept.Keys|;
    KeptMeansUsedLater(tokens, uses, lifetime, maxItems, kept, t);
    hide UsedLater;
    hide Related;
    hide Distinct;
    if 0 < maxItems {
      if t in kept {
        FewerElements(later, kept.Keys - {t});
      } else {
        FewerElements(kept.Keys, later);
      }
    }
  }

  lemma KeptMeansUsedLater(tokens: map<Token, Nanos>, uses: Uses, lifetime: int, maxItems: int,
      kept: map<Token, Nanos>, t: Token)
    requires Related(tokens, uses, lifetime) && Distinct(uses) && Evicted(tokens, maxItems, kept)
    requires t in uses
    ensures t in tokens && if t in kept then UsedLater(uses, t) <= kept.Keys - {t} else kept.Keys <= UsedLater(uses, t)
  {
  }

  lemma FewerElements<T>(a: set<T>, b: set<T>)
    requires a <= b
    ensures |a| <= |b|
  {
    assert b == a + (b - a);
  }

  lemma AliveIsUnexpired(tokens: map<Token, Nanos>, uses: Uses, lifetime: int, now: Nanos)
    requires Related(tokens, uses, lifetime) && 0 < lifetime
    requires forall t :: t in uses ==> 0 <= uses[t]
    ensures Related(Unexpired(tokens, now), Alive(uses, lifetime, now), lifetime)
  {
  }

  lemma TrimIsSave(tokens: map<Token, Nanos>, uses: Uses, lifetime: int, maxItems: int, now: Nanos,
      kept: map<Token, Nanos>, end: Nanos)
    requires Related(tokens, uses, lifetime) && Distinct(uses) && UsedIn(uses, end) && 0 < lifetime
    requires Evicted(Unexpired(tokens, now), maxItems, kept)
    ensures Related(kept, Trim(uses, lifetime, maxItems, now), lifetime)
    ensures Distinct(Trim(uses, lifetime, maxItems, now)) && UsedIn(Trim(uses, lifetime, maxItems, now), end)
  {
    AliveIsUnexpired(tokens, uses, lifetime, now);
    EvictedIsNewest(Unexpired(tokens, now), Alive(uses, lifetime, now), lifetime, maxItems, kept);
  }

  lemma Touch(tokens: map<Token, Nanos>, uses: Uses, lifetime: int, token: Token, now: Nanos, end: Nanos)
    requires Related(tokens, uses, lifetime) && Distinct(uses) && UsedIn(uses, now) && 0 <= now < end
    ensures Related(tokens[token := now + lifetime], uses[token := now], lifetime)
    ensures Distinct(uses[token := now]) && UsedIn(uses[token := now], end)
  {
  }

  lemma LruStepIsStep(lifetime: int, maxItems: int, tokens: map<Token, Nanos>, uses: Uses, op: Op,
      tokens': map<Token, Nanos>, answer: bool)
    requires 0 < lifetime
    requires Related(tokens, uses, lifetime) && Distinct(uses) && UsedIn(uses, op.First())
    requires 0 <= op.First() && op.ReadsInOrder()
    requires Step(lifetime, maxItems, tokens, op, tokens', answer)
    ensures answer <==> LruAnswer(uses, lifetime, op)
    ensures Related(tokens', LruStep(uses, lifetime, maxItems, op), lifetime)
    ensures Distinct(LruStep(uses, lifetime, maxItems, op))
    ensures UsedIn(LruStep(uses, lifetime, maxItems, op), op.now2 + 1)
  {
    hide Trim;
    hide Evicted;
    hide Unexpired;
    hide Distinct;
    match op
    case New(token, now1, now2) =>
      Touch(tokens, uses, lifetime, token, now1, now2 + 1);
      TrimIsSave(tokens[token := now1 + lifetime], uses[token := now1], lifetime, maxItems, now2, tokens', now2 + 1);
    case Check(token, now0, now1, now2) =>
      CheckAnswers(tokens, uses, lifetime, token, now0, now0);
      if answer {
        Touch(tokens, uses, lifetime, token, now1, now2 + 1);
        TrimIsSave(tokens[token := now1 + lifetime], uses[token := now1], lifetime, maxItems, now2, tokens', now2 + 1);
      } else if token in tokens {
        TrimIsSave(tokens, uses, lifetime, maxItems, now1, tokens', now2 + 1);
      }
    case Delete(token, now2) =>
      Untouch(tokens, uses, lifetime, token);
      TrimIsSave(tokens - {token}, uses - {token}, lifetime, maxItems, now2, tokens', now2 + 1);
  }

  lemma Untouch(tokens: map<Token, Nanos>, uses: Uses, lifetime: int, token: Token)
    requires Related(tokens, uses, lifetime) && Distinct(uses)
    ensures Related(tokens - {token}, uses - {token}, lifetime)
    ensures Distinct(uses - {token})
  {
  }

  lemma CheckAnswers(tokens: map<Token, Nanos>, uses: Uses, lifetime: int, token: Token, now: Nanos, end: Nanos)
    requires 0 < lifetime && Related(tokens, uses, lifetime) && UsedIn(uses, end)
    ensures token in tokens && !Expired(tokens[token], now) <==> token in Alive(uses, lifetime, now)
  {
  }

  ghost predicate AnswersLikeLru(stored: Uses, lifetime: int, maxItems: int, ops: seq<Op>, answers: seq<bool>)
    requires |answers| == |ops|
  {
    forall i :: 0 <= i < |ops| ==>
        (answers[i] <==> LruAnswer(LruAfter(stored, lifetime, maxItems, ops[..i]), lifetime, ops[i]))
  }

  lemma PrefixIsRun(stored: Uses, lifetime: int, maxItems: int, ops: seq<Op>, states: seq<map<Token, Nanos>>,
      answers: seq<bool>)
    requires ops != [] && ClockIncreases(ops) && Fits(stored, ops) &&
        IsRun(stored, lifetime, maxItems, ops, states, answers)
    ensures var n := |ops| - 1;
            && ClockIncreases(ops[..n]) && Fits(stored, ops[..n])
            && IsRun(stored, lifetime, maxItems, ops[..n], states[..n + 1], answers[..n])
            && Step(lifetime, maxItems, states[n], ops[n], states[n + 1], answers[n])
            && 0 <= ops[n].First() && ops[n].ReadsInOrder()
            && if n == 0 then UsedIn(stored, ops[n].First()) else ops[..n][n - 1].now2 < ops[n].First()
  {
    hide Step;
  }

  lemma AnswersStep(stored: Uses, lifetime: int, maxItems: int, ops: seq<Op>, answers: seq<bool>)
    requires |answers| == |ops| > 0
    requires AnswersLikeLru(stored, lifetime, maxItems, ops[..|ops| - 1], answers[..|ops| - 1])
    requires answers[|ops| - 1] <==>
        LruAnswer(LruAfter(stored, lifetime, maxItems, ops[..|ops| - 1]), lifetime, ops[|ops| - 1])
    ensures AnswersLikeLru(stored, lifetime, maxItems, ops, answers)
  {
    hide LruAnswer;
    hide LruAfter;
    var n := |ops| - 1;
    forall i | 0 <= i < n
      ensures answers[i] <==> LruAnswer(LruAfter(stored, lifetime, maxItems, ops[..i]), lifetime, ops[i])
    {
      assert ops[..n][..i] == ops[..i];
      assert answers[..n][i] == answers[i];
    }
  }

  lemma UsedInLater(uses: Uses, now: Nanos, later: Nanos)
    requires UsedIn(uses, now) && now <= later
    ensures UsedIn(uses, later)
  {
  }

  lemma NothingRun(stored: Uses, lifetime: int, maxItems: int, states: seq<map<Token, Nanos>>)
    requires IsRun(stored, lifetime, maxItems, [], states, []) && Fits(stored, [])
    ensures LruAfter(stored, lifetime, maxItems, []) == stored && Distinct(stored) &&
        Related(states[0], stored, lifetime)
    ensures AnswersLikeLru(stored, lifetime, maxItems, [], [])
  {
  }

  /** With a positive lifetime and an increasing clock, every run of New, Check and Delete from
      any tokens that were stored gives the answers that the reference gives, and holds the tokens that it holds. */
  lemma {:induction false} RunsLikeLru(stored: Uses, lifetime: int, maxItems: int, ops: seq<Op>,
      states: seq<map<Token, Nanos>>,
      answers: seq<bool>)
    requires 0 < lifetime && ClockIncreases(ops) && Fits(stored, ops) &&
        IsRun(stored, lifetime, maxItems, ops, states, answers)
    ensures AnswersLikeLru(stored, lifetime, maxItems, ops, answers)
    ensures Related(states[|ops|], LruAfter(stored, lifetime, maxItems, ops), lifetime)
    ensures Distinct(LruAfter(stored, lifetime, maxItems, ops))
    ensures ops != [] ==> UsedIn(LruAfter(stored, lifetime, maxItems, ops), ops[|ops| - 1].now2 + 1)
  {
    hide LruStep;
    hide LruAnswer;
    hide Step;
    hide Related;
    hide Distinct;
    hide UsedIn;
    hide AnswersLikeLru;
    hide Fits;
    hide ClockIncreases;
    if ops == [] {
      NothingRun(stored, lifetime, maxItems, states);
    } else {
      var n := |ops| - 1;
      PrefixIsRun(stored, lifetime, maxItems, ops, states, answers);
      RunsLikeLru(stored, lifetime, maxItems, ops[..n], states[..n + 1], answers[..n]);
      var uses := LruAfter(stored, lifetime, maxItems, ops[..n]);
      assert LruAfter(stored, lifetime, maxItems, ops) == LruStep(uses, lifetime, maxItems, ops[n]);
      if n > 0 {
        UsedInLater(uses, ops[..n][n - 1].now2 + 1, ops[n].First());
      } else {
        NothingRun(stored, lifetime, maxItems, states[..1]);
      }
      assert states[..n + 1][n] == states[n];
      LruStepIsStep(lifetime, maxItems, states[n], uses, ops[n], states[n + 1], answers[n]);
      AnswersStep(stored, lifetime, maxItems, ops, answers);
    }
  }

  /** A token that was just issued, or just checked with success, is never the one evicted: it
      survives unless it expires before the call ends. */
  lemma JustUsedSurvives(stored: Uses, lifetime: int, maxItems: int, ops: seq<Op>, states: seq<map<Token, Nanos>>,
      answers: seq<bool>)
    requires 0 < lifetime && ClockIncreases(ops) && Fits(stored, ops) &&
        IsRun(stored, lifetime, maxItems, ops, states, answers) && ops != []
    requires var op := ops[|ops| - 1]; !op.Delete? && (op.New? || answers[|ops| - 1]) && op.now2 <= op.now1 + lifetime
    ensures ops[|ops| - 1].token in states[|ops|]
  {
    hide Step;
    hide Distinct;
    var n := |ops| - 1;
    PrefixIsRun(stored, lifetime, maxItems, ops, states, answers);
    RunsLikeLru(stored, lifetime, maxItems, ops, states, answers);
    RunsLikeLru(stored, lifetime, maxItems, ops[..n], states[..n + 1], answers[..n]);
    hide AnswersLikeLru;
    LastUseIsNewest(LruAfter(stored, lifetime, maxItems, ops[..n]), lifetime, maxItems, ops[n].token, ops[n].now1,
      ops[n].now2);
  }

  lemma LastUseIsNewest(uses: Uses, lifetime: int, maxItems: int, token: Token, now1: Nanos, now2: Nanos)
    requires UsedIn(uses, now1) && now2 <= now1 + lifetime
    ensures token in Trim(uses[token := now1], lifetime, maxItems, now2)
  {
    assert UsedLater(Alive(uses[token := now1], lifetime, now2), token) == {};
  }

  /** Without deletions the history alone tells who survives. */
  ghost function Touched(stored: Uses, lifetime: int, maxItems: int, ops: seq<Op>): Uses {
    if ops == [] then stored else
      var prefix, op := ops[..|ops| - 1], ops[|ops| - 1];
      TouchStep(LruAfter(stored, lifetime, maxItems, prefix), Touched(stored, lifetime, maxItems, prefix), lifetime, op)
  }

  ghost function TouchStep(uses: Uses, touched: Uses, lifetime: int, op: Op): Uses {
    if op.New? || LruAnswer(uses, lifetime, op) then touched[op.token := op.now1] else touched
  }

  /** Whoever was used after a survivor survives as well, unless its time is over. */
  ghost predicate Closed(uses: Uses, touched: Uses, lifetime: int, now: Nanos) {
    && (forall t :: t in uses ==> t in touched && uses[t] == touched[t])
    && (forall t, u :: t in uses && u in touched && touched[t] < touched[u] && u !in uses ==>
       touched[u] + lifetime < now)
  }

  ghost predicate NewestAlive(uses: Uses, touched: Uses, lifetime: int, maxItems: int, now: Nanos) {
    && (forall t :: t in uses ==> t in touched && |UsedLater(touched, t)| < maxItems)
    && RestIsGone(uses, touched, lifetime, maxItems, now)
  }

  ghost predicate RestIsGone(uses: Uses, touched: Uses, lifetime: int, maxItems: int, now: Nanos) {
    forall t :: t in touched && t !in uses ==> maxItems <= |UsedLater(touched, t)| || touched[t] + lifetime < now
  }

  lemma LaterAreAlive(uses: Uses, touched: Uses, lifetime: int, now: Nanos, t: Token)
    requires Closed(uses, touched, lifetime, now) && t in Alive(uses, lifetime, now)
    ensures UsedLater(Alive(uses, lifetime, now), t) == UsedLater(touched, t)
  {
  }

  lemma TrimHistory(uses: Uses, touched: Uses, lifetime: int, maxItems: int, now: Nanos)
    requires 0 < maxItems && Closed(uses, touched, lifetime, now)
    requires RestIsGone(uses, touched, lifetime, maxItems, now)
    ensures Closed(Trim(uses, lifetime, maxItems, now), touched, lifetime, now)
    ensures NewestAlive(Trim(uses, lifetime, maxItems, now), touched, lifetime, maxItems, now)
  {
    var alive, trimmed := Alive(uses, lifetime, now), Trim(uses, lifetime, maxItems, now);
    forall t | t in alive ensures UsedLater(alive, t) == UsedLater(touched, t) {
      LaterAreAlive(uses, touched, lifetime, now, t);
    }
    forall t, u | t in trimmed && u in touched && touched[t] < touched[u] && u !in trimmed
      ensures touched[u] + lifetime < now
    {
      if u in alive {
        FewerElements(UsedLater(alive, u), UsedLater(alive, t));
      }
    }
  }

  lemma TouchHistory(uses: Uses, touched: Uses, lifetime: int, maxItems: int, token: Token, now: Nanos)
    requires Closed(uses, touched, lifetime, now) && NewestAlive(uses, touched, lifetime, maxItems, now) &&
        UsedIn(touched, now)
    ensures Closed(uses[token := now], touched[token := now], lifetime, now)
    ensures RestIsGone(uses[token := now], touched[token := now], lifetime, maxItems, now)
  {
    hide UsedLater;
    forall t | t in touched && t != token ensures |UsedLater(touched, t)| <= |UsedLater(touched[token := now], t)| {
      MoreUsedLater(touched, t, token, now);
    }
  }

  lemma MoreUsedLater(touched: Uses, t: Token, token: Token, now: Nanos)
    requires t in touched && t != token && UsedIn(touched, now)
    ensures |UsedLater(touched, t)| <= |UsedLater(touched[token := now], t)|
  {
    FewerElements(UsedLater(touched, t), UsedLater(touched[token := now], t));
  }

  lemma LaterIsGone(uses: Uses, touched: Uses, lifetime: int, maxItems: int, now: Nanos, now': Nanos)
    requires Closed(uses, touched, lifetime, now) && RestIsGone(uses, touched, lifetime, maxItems, now) && now <= now'
    ensures Closed(uses, touched, lifetime, now') && RestIsGone(uses, touched, lifetime, maxItems, now')
  {
    hide UsedLater;
  }

  ghost predicate History(uses: Uses, touched: Uses, lifetime: int, maxItems: int, now: Nanos) {
    Closed(uses, touched, lifetime, now) && NewestAlive(uses, touched, lifetime, maxItems, now) && UsedIn(touched, now)
  }

  lemma LaterHistory(uses: Uses, touched: Uses, lifetime: int, maxItems: int, now: Nanos, now': Nanos)
    requires History(uses, touched, lifetime, maxItems, now) && now <= now'
    ensures History(uses, touched, lifetime, maxItems, now')
  {
    LaterIsGone(uses, touched, lifetime, maxItems, now, now');
  }

  lemma TouchedHistory(uses: Uses, touched: Uses, lifetime: int, maxItems: int, token: Token, now1: Nanos, now2: Nanos)
    requires History(uses, touched, lifetime, maxItems, now1) && 0 <= now1 <= now2 && 0 < maxItems
    ensures History(Trim(uses[token := now1], lifetime, maxItems, now2), touched[token := now1], lifetime, maxItems,
        now2 + 1)
  {
    hide Trim;
    hide Closed;
    hide NewestAlive;
    hide RestIsGone;
    var uses', touched' := uses[token := now1], touched[token := now1];
    TouchHistory(uses, touched, lifetime, maxItems, token, now1);
    LaterIsGone(uses', touched', lifetime, maxItems, now1, now2);
    TrimHistory(uses', touched', lifetime, maxItems, now2);
    assert History(Trim(uses', lifetime, maxItems, now2), touched', lifetime, maxItems, now2 + 1) by {
      assert UsedIn(touched', now2 + 1);
      TrimmedLater(Trim(uses', lifetime, maxItems, now2), touched', lifetime, maxItems, now2);
    }
  }

  lemma TrimmedLater(uses: Uses, touched: Uses, lifetime: int, maxItems: int, now: Nanos)
    requires Closed(uses, touched, lifetime, now) && NewestAlive(uses, touched, lifetime, maxItems, now)
    ensures Closed(uses, touched, lifetime, now + 1) && NewestAlive(uses, touched, lifetime, maxItems, now + 1)
  {
    LaterIsGone(uses, touched, lifetime, maxItems, now, now + 1);
  }

  lemma TrimmedHistory(uses: Uses, touched: Uses, lifetime: int, maxItems: int, now: Nanos)
    requires History(uses, touched, lifetime, maxItems, now) && 0 < maxItems
    ensures History(Trim(uses, lifetime, maxItems, now), touched, lifetime, maxItems, now)
  {
    hide Trim;
    TrimHistory(uses, touched, lifetime, maxItems, now);
  }

  lemma HistoryStep(uses: Uses, touched: Uses, lifetime: int, maxItems: int, op: Op, now: Nanos)
    requires 0 < maxItems && !op.Delete? && 0 <= op.First() && op.ReadsInOrder() && op.now2 < now
    requires History(uses, touched, lifetime, maxItems, op.First())
    ensures History(LruStep(uses, lifetime, maxItems, op), TouchStep(uses, touched, lifetime, op), lifetime,
        maxItems, now)
  {
    hide Trim;
    hide History;
    LaterHistory(uses, touched, lifetime, maxItems, op.First(), op.now1);
    var uses' := LruStep(uses, lifetime, maxItems, op);
    if op.New? || LruAnswer(uses, lifetime, op) {
      TouchedHistory(uses, touched, lifetime, maxItems, op.token, op.now1, op.now2);
      LaterHistory(uses', touched[op.token := op.now1], lifetime, maxItems, op.now2 + 1, now);
    } else {
      if op.token in uses {
        TrimmedHistory(uses, touched, lifetime, maxItems, op.now1);
      }
      LaterHistory(uses', touched, lifetime, maxItems, op.now1, now);
    }
  }

  lemma {:induction false} HistoryHolds(stored: Uses, lifetime: int, maxItems: int, ops: seq<Op>, now: Nanos)
    requires 0 < lifetime && ClockIncreases(ops) && Fits(stored, ops) && |stored| <= maxItems && 0 < maxItems
    requires forall op :: op in ops ==> !op.Delete?
    requires if ops == [] then UsedIn(stored, now) else ops[|ops| - 1].now2 < now
    ensures History(LruAfter(stored, lifetime, maxItems, ops), Touched(stored, lifetime, maxItems, ops), lifetime,
        maxItems, now)
  {
    if ops != [] {
      var prefix, op := ops[..|ops| - 1], ops[|ops| - 1];
      assert op in ops;
      assert if prefix == [] then op == ops[0] else prefix[|prefix| - 1].now2 < op.First();
      HistoryHolds(stored, lifetime, maxItems, prefix, op.First());
      hide History;
      hide LruStep;
      HistoryStep(LruAfter(stored, lifetime, maxItems, prefix), Touched(stored, lifetime, maxItems, prefix),
        lifetime, maxItems, op, now);
    } else {
      FewUsedLater(stored, maxItems);
    }
  }

  lemma FewUsedLater(stored: Uses, maxItems: int)
    requires |stored| <= maxItems
    ensures forall t :: t in stored ==> |UsedLater(stored, t)| < maxItems
  {
    forall t | t in stored ensures |UsedLater(stored, t)| < maxItems {
      FewerElements(UsedLater(stored, t) + {t}, stored.Keys);
      assert |stored| == |stored.Keys|;
    }
  }

  /** When no token is deleted, a check succeeds exactly when the token was issued or stored, its last
      use is within its lifetime, and fewer than maxItems other tokens were used since then. */
  lemma NewestOfHistory(stored: Uses, lifetime: int, maxItems: int, ops: seq<Op>, token: Token, now: Nanos)
    requires 0 < lifetime && ClockIncreases(ops) && Fits(stored, ops) && |stored| <= maxItems && 0 < maxItems
    requires forall op :: op in ops ==> !op.Delete?
    requires if ops == [] then UsedIn(stored, now) else ops[|ops| - 1].now2 < now
    ensures var touched := Touched(stored, lifetime, maxItems, ops);
            token in Alive(LruAfter(stored, lifetime, maxItems, ops), lifetime, now) <==>
            token in touched && now <= touched[token] + lifetime && |UsedLater(touched, token)| < maxItems
  {
    hide Fits;
    hide UsedIn;
    hide UsedLater;
    hide ClockIncreases;
    hide LruAfter;
    hide Touched;
    HistoryHolds(stored, lifetime, maxItems, ops, now);
  }

  lemma {:induction false} OneExpiresFirst(tokens: map<Token, Nanos>) returns (first: Token)
    requires tokens != map[]
    ensures first in tokens && forall t :: t in tokens ==> tokens[first] <= tokens[t]
    decreases |tokens|
  {
    var t :| t in tokens;
    first := t;
    var rest := tokens - {t};
    assert forall u :: u in tokens ==> u == t || u in rest;
    if rest != map[] {
      assert rest.Keys == tokens.Keys - {t};
      assert |rest| == |rest.Keys| < |tokens.Keys| == |tokens|;
      var u := OneExpiresFirst(rest);
      first := if tokens[t] <= tokens[u] then t else u;
    }
  }

  /** If no token expires before the given one, it may be among those evicted. */
  lemma {:induction false} MayBeEvicted(tokens: map<Token, Nanos>, maxItems: int,
      token: Token) returns (kept: map<Token, Nanos>)
    requires token in tokens && forall t :: t in tokens ==> tokens[token] <= tokens[t]
    requires 0 < maxItems < |tokens|
    ensures Evicted(tokens, maxItems, kept) && token !in kept
    decreases |tokens| - maxItems
  {
    if maxItems == |tokens| - 1 {
      kept := tokens - {token};
      assert kept.Keys == tokens.Keys - {token};
      assert |kept| == |kept.Keys| == |tokens.Keys| - 1;
    } else {
      var more := MayBeEvicted(tokens, maxItems + 1, token);
      assert more != map[];
      var first := OneExpiresFirst(more);
      kept := more - {first};
      assert kept.Keys == more.Keys - {first};
      assert |kept| == |kept.Keys| == |more.Keys| - 1;
    }
  }

  /** Without a positive lifetime a new token never expires, and none that is left compares lower. So
      whatever is stored, it can be evicted at once exactly if more tokens are left than allowed. */
  lemma NoLifetimeMayEvictTheNewest(lifetime: int, tokens: map<Token, Nanos>, maxItems: int, token: Token,
      now1: Nanos, now2: Nanos)
    requires lifetime <= 0 <= now2
    ensures (exists tokens' ::
              Step(lifetime, maxItems, tokens, Op.New(token, now1, now2), tokens', false) && token !in tokens')
            <==> 0 < maxItems < |Unexpired(tokens[token := 0], now2)|
  {
    var all := Unexpired(tokens[token := 0], now2);
    var op := Op.New(token, now1, now2);
    assert token in all && all[token] == 0;
    assert forall tokens' :: Step(lifetime, maxItems, tokens, op, tokens', false) <==> Evicted(all, maxItems, tokens');
    if 0 < maxItems < |all| {
      var kept := MayBeEvicted(all, maxItems, token);
      assert Step(lifetime, maxItems, tokens, op, kept, false);
    }
  }

  /** Without a lifetime a token that is still there is accepted at any time. */
  lemma NoLifetimeNeverExpires(lifetime: int, maxItems: int, tokens: map<Token, Nanos>, token: Token,
      now1: Nanos, now2: Nanos, tokens1: map<Token, Nanos>, check: Op, tokens2: map<Token, Nanos>, answer: bool)
    requires lifetime <= 0 && check.Check? && check.token == token
    requires Step(lifetime, maxItems, tokens, Op.New(token, now1, now2), tokens1, false) && token in tokens1
    requires Step(lifetime, maxItems, tokens1, check, tokens2, answer)
    ensures answer && tokens1[token] == 0
  {
  }
}
