/** Bandwidth limits for reading from and writing to connections (lib/connections/limiter.go). */
module RateLimit {
  import opened Wrappers

  type Byte = b: int | 0 <= b < 256

  const BURST_SIZE: nat := 524288

  /** In bytes per second. */
  datatype Rate = Inf | PerSecond(bytes: nat)

  predicate Slower(a: Rate, b: Rate) {
    a.PerSecond? && (b.Inf? || a.bytes < b.bytes)
  }

  // ---------- Taking tokens ----------

  ghost function Sum(s: seq<nat>): nat {
    if s == [] then 0 else Sum(s[..|s| - 1]) + s[|s| - 1]
  }

  lemma {:induction false} SumOfConcat(a: seq<nat>, b: seq<nat>)
    ensures Sum(a + b) == Sum(a) + Sum(b)
  {
    if b == [] {
      assert a + b == a;
    } else {
      assert (a + b)[..|a + b| - 1] == a + b[..|b| - 1];
      SumOfConcat(a, b[..|b| - 1]);
    }
  }

  /** A number in pieces of at most the given size, all but the last one as large as possible. */
  ghost function Pieces(n: nat, size: nat): seq<nat>
    requires size > 0
  {
    if n == 0 then [] else if n <= size then [n] else [size] + Pieces(n - size, size)
  }

  lemma {:induction false} PiecesAddUp(n: nat, size: nat)
    requires size > 0
    ensures Sum(Pieces(n, size)) == n
    ensures forall i :: 0 <= i < |Pieces(n, size)| ==> 0 < Pieces(n, size)[i] <= size
    ensures forall i :: 0 <= i < |Pieces(n, size)| - 1 ==> Pieces(n, size)[i] == size
  {
    if n > size {
      PiecesAddUp(n - size, size);
      SumOfConcat([size], Pieces(n - size, size));
      assert Sum([size]) == Sum([]) + size;
    } else if n > 0 {
      assert Sum([n]) == Sum([]) + n;
    }
  }

  /** The first pieces, and then the pieces of what remains. */
  ghost predicate Begins(done: seq<nat>, left: nat, n: nat, size: nat)
    requires size > 0
  {
    Pieces(n, size) == done + Pieces(left, size)
  }

  lemma NextPiece(done: seq<nat>, left: nat, n: nat, size: nat)
    requires size > 0 && left > 0 && Begins(done, left, n, size)
    ensures var piece := if left < size then left else size;
            Begins(done + [piece], left - piece, n, size)
  {
    var piece := if left < size then left else size;
    assert Pieces(left, size) == [piece] + Pieces(left - piece, size);
    assert done + ([piece] + Pieces(left - piece, size)) == (done + [piece]) + Pieces(left - piece, size);
  }

  // One of the limiters that apply to a connection, with the tokens taken from it.
  datatype Waiter = Waiter(limit: Rate, taken: nat)

  // What the connection's writer or reader reports.
  datatype Error = Failed

  /** How much is written at once if there is a limit: about what 10 ms allow, rounded up. */
  function SingleWriteSize(limit: Rate): (size: nat)
    requires limit.PerSecond?
    ensures 0 < size <= BURST_SIZE
  {
    var size := (limit.bytes / 100 / 1024 + 1) * 1024;
    if size > BURST_SIZE then BURST_SIZE else size
  }

  lemma SingleWritesAreFit(limit: Rate)
    requires limit.PerSecond?
    ensures 1024 <= SingleWriteSize(limit) <= BURST_SIZE && SingleWriteSize(limit) % 1024 == 0
    ensures SingleWriteSize(limit) < BURST_SIZE ==>
              limit.bytes < 100 * SingleWriteSize(limit) <= limit.bytes + 102400
    ensures SingleWriteSize(limit) == BURST_SIZE ==> limit.bytes >= 100 * (BURST_SIZE - 1024)
  {
    var k := limit.bytes / 100 / 1024;
    assert limit.bytes / 100 == k * 1024 + limit.bytes / 100 % 1024;
  }

  class LimitedConnection {
    // First the limiter of the device, then the overall one.
    var waiters: seq<Waiter>
    const isLAN: bool
    var limitsLAN: bool
    // What was written to the connection, and the calls of WaitN.
    var out: seq<Byte>
    var waits: seq<nat>

    constructor (waiters: seq<Waiter>, isLAN: bool, limitsLAN: bool)
      ensures this.waiters == waiters && this.isLAN == isLAN && this.limitsLAN == limitsLAN
      ensures out == [] && waits == []
    {
      this.waiters, this.isLAN, this.limitsLAN := waiters, isLAN, limitsLAN;
      out, waits := [], [];
    }

    ghost predicate IsLimit(min: Rate)
      reads this
    {
      && (forall w :: w in waiters ==> !Slower(w.limit, min))
      && (min.Inf? || exists w :: w in waiters && w.limit == min)
    }

    method Limit() returns (min: Rate)
      ensures IsLimit(min)
      ensures min.Inf? <==> forall w :: w in waiters ==> w.limit.Inf?
      ensures min.PerSecond? ==>
                && (exists w :: w in waiters && w.limit == min)
                && forall w :: w in waiters && w.limit.PerSecond? ==> min.bytes <= w.limit.bytes
    {
      min := Inf;
      for i := 0 to |waiters|
        invariant forall k :: 0 <= k < i ==> !Slower(waiters[k].limit, min)
        invariant min.Inf? || exists k :: 0 <= k < i && waiters[k].limit == min
      {
        if Slower(waiters[i].limit, min) {
          min := waiters[i].limit;
        }
      }
    }

    /** Takes tokens from all limiters. More than the burst size could never be had at once. */
    method WaitN(n: nat)
      requires n <= BURST_SIZE
      modifies this`waiters, this`waits
      ensures waits == old(waits) + [n]
      ensures Charged(old(waiters), waiters, n)
      ensures |waiters| == |old(waiters)|
      ensures forall k :: 0 <= k < |waiters| ==>
                waiters[k].limit == old(waiters)[k].limit && waiters[k].taken == old(waiters)[k].taken + n
    {
      waits := waits + [n];
      for i := 0 to |waiters|
        invariant waits == old(waits) + [n] && |waiters| == |old(waiters)|
        invariant forall k :: 0 <= k < i ==> waiters[k] == old(waiters)[k].(taken := old(waiters)[k].taken + n)
        invariant forall k :: i <= k < |waiters| ==> waiters[k] == old(waiters)[k]
      {
        waiters := waiters[i := waiters[i].(taken := waiters[i].taken + n)];
      }
    }

    method Unlimited() returns (r: bool)
      ensures isLAN && !limitsLAN ==> r
      ensures !(isLAN && !limitsLAN) ==> (r <==> IsLimit(Inf))
    {
      if isLAN && !limitsLAN {
        return true;
      }
      var min := Limit();
      return min.Inf?;
    }

    /** All calls of WaitN ask for no more than the burst size, and together for all tokens. */
    method Take(tokens: nat)
      modifies this`waiters, this`waits
      ensures waits == old(waits) + (if tokens <= BURST_SIZE then [tokens] else Pieces(tokens, BURST_SIZE))
      ensures Charged(old(waiters), waiters, tokens)
    {
      if tokens <= BURST_SIZE {
        WaitN(tokens);
        return;
      }
      var left := tokens;
      ghost var done: seq<nat> := [];
      while left > 0
        invariant 0 <= left <= tokens
        invariant Begins(done, left, tokens, BURST_SIZE) && waits == old(waits) + done
        invariant Charged(old(waiters), waiters, tokens - left)
      {
        NextPiece(done, left, tokens, BURST_SIZE);
        ghost var before := waiters;
        var n := if left > BURST_SIZE then BURST_SIZE else left;
        WaitN(n);
        ChargedTwice(old(waiters), before, waiters, tokens - left, n);
        done := done + [n];
        left := left - n;
      }
    }

    /** The connection itself: it may take less than it is given, but then it reports an error. */
    method WriteThrough(chunk: seq<Byte>) returns (n: nat, err: Option<Error>)
      modifies this`out
      ensures n <= |chunk| && (n < |chunk| ==> err.Some?)
      ensures out == old(out) + chunk[..n]
    {
      var accepted: nat, fails: bool := *, *;
      n := if accepted < |chunk| then accepted else |chunk|;
      err := if fails || n < |chunk| then Some(Failed) else None;
      out := out + chunk[..n];
    }

    /** What is written is a prefix of the buffer, and all of it without an error. The tokens are taken
        in pieces of one size, and in all as many as there are bytes; on an error the last piece
        may be taken in vain. */
    method Write(buf: seq<Byte>) returns (n: nat, err: Option<Error>, ghost limit: Rate, ghost done: seq<nat>)
      modifies this`out, this`waits, this`waiters
      ensures n <= |buf| && out == old(out) + buf[..n] && (err.None? ==> n == |buf|)
      ensures old(IsLimit(limit))
      ensures waits == old(waits) + done && Charged(old(waiters), waiters, Sum(done))
      ensures (isLAN && !limitsLAN) || limit.Inf? ==> done == []
      ensures !(isLAN && !limitsLAN) && limit.PerSecond? ==> done <= Pieces(|buf|, SingleWriteSize(limit))
      ensures !(isLAN && !limitsLAN) && limit.PerSecond? ==> n <= Sum(done) <= n + SingleWriteSize(limit)
      ensures !(isLAN && !limitsLAN) && limit.PerSecond? && err.None? ==> Sum(done) == n
    {
      var min := Limit();
      limit := min;
      if (isLAN && !limitsLAN) || min.Inf? {
        done := [];
        NothingDone(0, 1, waiters);
        n, err := WriteThrough(buf);
        assert n == |buf| ==> buf[..n] == buf;
        return;
      }
      n, err, done := WriteInPieces(buf, SingleWriteSize(min));
    }

    /** The loop of Write. */
    method WriteInPieces(buf: seq<Byte>, singleWriteSize: nat)
      returns (written: nat, err: Option<Error>, ghost done: seq<nat>)
      requires 0 < singleWriteSize <= BURST_SIZE
      modifies this`out, this`waits, this`waiters
      ensures written <= |buf| && out == old(out) + buf[..written] && (err.None? ==> written == |buf|)
      ensures waits == old(waits) + done && Charged(old(waiters), waiters, Sum(done))
      ensures done <= Pieces(|buf|, singleWriteSize)
      ensures written <= Sum(done) <= written + singleWriteSize && (err.None? ==> Sum(done) == written)
    {
      hide *;
      written, err, done := 0, None, [];
      NothingDone(|buf|, singleWriteSize, waiters);
      while written < |buf|
        invariant err.None? && written <= |buf| && out == old(out) + buf[..written]
        invariant Begins(done, |buf| - written, |buf|, singleWriteSize)
        invariant waits == old(waits) + done && Sum(done) == written
        invariant Charged(old(waiters), waiters, written)
      {
        var toWrite := singleWriteSize;
        if toWrite > |buf| - written {
          toWrite := |buf| - written;
        }
        NextPiece(done, |buf| - written, |buf|, singleWriteSize);
        SumOfOneMore(done, toWrite);
        ghost var before := waiters;
        var n;
        n, err := WriteOnePiece(buf[written..written + toWrite]);
        ChargedTwice(old(waiters), before, waiters, written, toWrite);
        done := done + [toWrite];
        MorePiecesDone(done, |buf| - written - toWrite, |buf|, singleWriteSize);
        assert buf[..written] + buf[written..written + toWrite][..n] == buf[..written + n];
        written := written + n;
        if err.Some? {
          return;
        }
      }
      MorePiecesDone(done, 0, |buf|, singleWriteSize);
    }

    method WriteOnePiece(piece: seq<Byte>) returns (n: nat, err: Option<Error>)
      requires |piece| <= BURST_SIZE
      modifies this`out, this`waits, this`waiters
      ensures n <= |piece| && (err.None? ==> n == |piece|) && out == old(out) + piece[..n]
      ensures waits == old(waits) + [|piece|] && Charged(old(waiters), waiters, |piece|)
    {
      Take(|piece|);
      n, err := WriteThrough(piece);
    }

    /** As many tokens are taken as bytes were read, after the fact. */
    method Read(n: nat) returns (unlimited: bool)
      modifies this`waits, this`waiters
      ensures unlimited <==> (isLAN && !limitsLAN) || old(IsLimit(Inf))
      ensures unlimited ==> waits == old(waits) && waiters == old(waiters)
      ensures !unlimited ==> Charged(old(waiters), waiters, n) &&
                             waits == old(waits) + if n <= BURST_SIZE then [n] else Pieces(n, BURST_SIZE)
    {
      unlimited := Unlimited();
      if !unlimited {
        Take(n);
      }
    }
  }

  /** Each limiter has had the same number of tokens taken. */
  ghost predicate Charged(before: seq<Waiter>, after: seq<Waiter>, n: nat) {
    |after| == |before| && forall k :: 0 <= k < |after| ==> after[k] == before[k].(taken := before[k].taken + n)
  }

  lemma NothingDone(n: nat, size: nat, waiters: seq<Waiter>)
    requires size > 0
    ensures Begins([], n, n, size) && Sum([]) == 0 && Charged(waiters, waiters, 0)
  {
    assert [] + Pieces(n, size) == Pieces(n, size);
  }

  lemma SumOfOneMore(s: seq<nat>, n: nat)
    ensures Sum(s + [n]) == Sum(s) + n
  {
    assert (s + [n])[..|s|] == s;
  }

  lemma MorePiecesDone(done: seq<nat>, left: nat, n: nat, size: nat)
    requires size > 0 && Begins(done, left, n, size)
    ensures done <= Pieces(n, size)
  {
  }

  lemma ChargedTwice(a: seq<Waiter>, b: seq<Waiter>, c: seq<Waiter>, m: nat, n: nat)
    requires Charged(a, b, m) && Charged(b, c, n)
    ensures Charged(a, c, m + n)
  {
  }
}
