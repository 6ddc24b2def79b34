/** Files of the fake file system whose contents are kept in memory (lib/fs/fakefs.go). The contents are a
    slice of a buffer that may be longer: what a truncation cuts off is still there. */
module FakeContent {
  import opened Wrappers

  type Byte = b: int | 0 <= b < 256

  datatype Error = EOF

  // ---------- What a file is meant to be ----------

  ghost function Zeros(n: nat): seq<Byte> {
    seq<Byte>(n, _ => 0)
  }

  /** As long as asked for, with zeros at the end if it was shorter. */
  ghost function Resized(bytes: seq<Byte>, size: nat): (r: seq<Byte>)
    ensures |r| == size
  {
    if size <= |bytes| then bytes[..size] else bytes + Zeros(size - |bytes|)
  }

  lemma ResizedMeans(bytes: seq<Byte>, size: nat, i: nat)
    requires i < size
    ensures Resized(bytes, size)[i] == if i < |bytes| then bytes[i] else 0
  {
  }

  /** The bytes are put at the offset; a gap before them is filled with zeros. */
  ghost function Overwritten(bytes: seq<Byte>, p: seq<Byte>, off: nat): seq<Byte> {
    var long := if |bytes| < off + |p| then Resized(bytes, off + |p|) else bytes;
    long[..off] + p + long[off + |p|..]
  }

  // ---------- What the code keeps ----------

  /** The first bytes of the buffer are the contents. */
  datatype Slice = Slice(buffer: seq<Byte>, len: nat)

  ghost predicate Fits(c: Slice) {
    c.len <= |c.buffer|
  }

  ghost function View(c: Slice): seq<Byte>
    requires Fits(c)
  {
    c.buffer[..c.len]
  }

  /** A write beyond the end needs a new buffer. */
  ghost function Write(c: Slice, p: seq<Byte>, off: nat): Slice
    requires Fits(c)
  {
    if c.len < off + |p| then Slice(Overwritten(View(c), p, off), off + |p|)
    else Slice(c.buffer[..off] + p + c.buffer[off + |p|..], c.len)
  }

  /** A truncation needs one only if the size exceeds the capacity. */
  ghost function Truncate(c: Slice, size: nat): Slice
    requires Fits(c)
  {
    if |c.buffer| < size then Slice(Resized(View(c), size), size) else Slice(c.buffer, size)
  }

  lemma WriteMeans(c: Slice, p: seq<Byte>, off: nat)
    requires Fits(c)
    ensures Fits(Write(c, p, off)) && View(Write(c, p, off)) == Overwritten(View(c), p, off)
  {
  }

  /** A truncation makes the file longer, but not than its buffer, and there are bytes other than zero. */
  ghost predicate BringsBack(c: Slice, size: nat)
    requires Fits(c)
  {
    c.len < size <= |c.buffer| && exists k :: c.len <= k < size && c.buffer[k] != 0
  }

  /** Truncation cuts or extends with zeros exactly unless it brings back what was cut off before. */
  lemma TruncateMeans(c: Slice, size: nat)
    requires Fits(c)
    ensures Fits(Truncate(c, size))
    ensures View(Truncate(c, size)) == Resized(View(c), size) <==> !BringsBack(c, size)
  {
    var after, meant := View(Truncate(c, size)), Resized(View(c), size);
    if c.len < size <= |c.buffer| {
      assert forall k :: c.len <= k < size ==> after[k] == c.buffer[k] && meant[k] == 0;
      assert forall k :: 0 <= k < c.len ==> after[k] == meant[k];
      if k :| c.len <= k < size && c.buffer[k] != 0 {
        assert after[k] != meant[k];
      } else {
        assert after == meant;
      }
    }
  }

  // ---------- The class ----------

  class ContentEntry {
    var buffer: array<Byte>
    var len: nat
    var size: int

    ghost predicate Valid()
      reads this
    {
      len <= buffer.Length && size == len
    }

    ghost function Now(): Slice
      reads this, buffer
    {
      Slice(buffer[..], len)
    }

    constructor ()
      ensures Valid() && Now() == Slice([], 0) && fresh(buffer)
    {
      buffer := new Byte[0];
      len, size := 0, 0;
    }
  }

  /** A new buffer that begins with the contents. */
  method CopyOf(entry: ContentEntry, size: nat) returns (newc: array<Byte>)
    requires entry.Valid() && entry.len <= size
    ensures fresh(newc) && newc[..] == Resized(View(entry.Now()), size)
  {
    newc := new Byte[size](_ => 0);
    forall k | 0 <= k < entry.len {
      newc[k] := entry.buffer[k];
    }
  }

  method CopyInto(buffer: array<Byte>, p: seq<Byte>, off: nat)
    requires off + |p| <= buffer.Length
    modifies buffer
    ensures buffer[..] == old(buffer[..off]) + p + old(buffer[off + |p|..])
  {
    forall k | 0 <= k < |p| {
      buffer[off + k] := p[k];
    }
  }

  class ContentFile {
    const entry: ContentEntry
    var offset: int

    constructor (entry: ContentEntry)
      ensures this.entry == entry && offset == 0
    {
      this.entry := entry;
      offset := 0;
    }

    /** The code demands that the offset is not negative. */
    method ReadShort(p: array<Byte>, start: nat, offs: nat) returns (n: nat, err: Option<Error>)
      requires entry.Valid() && p != entry.buffer && start <= p.Length
      modifies this, p
      ensures n == Available(entry.size, p.Length - start, offs)
      ensures err == if offs >= entry.size then Some(EOF) else None
      ensures offset == if offs >= entry.size then old(offset) else offs + n
      ensures start + n <= p.Length
      ensures offs < entry.size ==> p[..] == old(p[..start]) + View(entry.Now())[offs..offs + n] + old(p[start + n..])
      ensures offs >= entry.size ==> p[..] == old(p[..])
    {
      if offs >= entry.size {
        return 0, Some(EOF);
      }
      n := if p.Length - start <= entry.len - offs then p.Length - start else entry.len - offs;
      assert View(entry.Now())[offs..offs + n] == entry.buffer[offs..offs + n];
      CopyInto(p, entry.buffer[offs..offs + n], start);
      offset := offs + n;
      return n, None;
    }

    method Read(p: array<Byte>) returns (n: nat, err: Option<Error>)
      requires entry.Valid() && p != entry.buffer && offset >= 0
      modifies this, p
      ensures n == Available(entry.size, p.Length, old(offset))
      ensures err == if old(offset) >= entry.size then Some(EOF) else None
      ensures offset == old(offset) + n
      ensures n <= p.Length && p[..n] == Bytes(View(entry.Now()), old(offset), n) && p[n..] == old(p[n..])
    {
      n, err := ReadShort(p, 0, offset);
    }

    /** A full read returns all bytes from the offset on for which there is room, and reports the end of
        the file exactly if there is room for more. */
    method ReadAt(p: array<Byte>, offs: nat) returns (read: nat, err: Option<Error>)
      requires entry.Valid() && p != entry.buffer
      modifies this, p
      ensures read == Available(entry.size, p.Length, offs)
      ensures err == if offs >= entry.size || offs + p.Length > entry.size then Some(EOF) else None
      ensures offset == if offs >= entry.size then old(offset) else offs + read
      ensures read <= p.Length && p[..read] == Bytes(View(entry.Now()), offs, read) && p[read..] == old(p[read..])
    {
      hide *;
      read := 0;
      SizeIsLength(entry);
      ghost var bytes, original, size := View(entry.Now()), p[..], entry.size;
      NothingIsRead(bytes, offs, original);
      while true
        invariant read <= p.Length && (read < p.Length || read == 0) && (read == 0 || offs + read <= size)
        invariant offset == if read == 0 then old(offset) else offs + read
        invariant IsRead(bytes, offs, read, p[..], original)
        decreases p.Length - read
      {
        ghost var before := p[..];
        AvailableIs(size, p.Length - read, offs + read);
        AvailableIs(size, p.Length, offs);
        var n;
        n, err := ReadShort(p, read, offs + read);
        MoreIsRead(bytes, offs, read, n, before, p[..], original);
        read := read + n;
        if err.Some? {
          break;
        }
        if read == p.Length {
          break;
        }
      }
      WhatIsRead(bytes, offs, read, p[..], original);
    }

    method WriteBytesAt(p: seq<Byte>, off: nat) returns (n: nat)
      requires entry.Valid()
      modifies this, entry, entry.buffer
      ensures entry.Valid() && entry.Now() == Write(old(entry.Now()), p, off)
      ensures n == |p| && offset == off + |p|
      ensures if off + |p| <= old(entry.len) then entry.buffer == old(entry.buffer) && entry.len == old(entry.len)
              else fresh(entry.buffer) && entry.buffer.Length == entry.len == off + |p|
    {
      if entry.len < off + |p| {
        var newc := CopyOf(entry, off + |p|);
        hide Resized;
        entry.buffer, entry.len := newc, off + |p|;
      }
      CopyInto(entry.buffer, p, off);
      offset := off + |p|;
      if offset > entry.size {
        entry.size := offset;
      }
      n := |p|;
    }

    method TruncateTo(size: nat)
      requires entry.Valid()
      modifies this, entry
      ensures entry.Valid() && entry.Now() == Truncate(old(entry.Now()), size)
      ensures offset == if old(offset) > size then size else old(offset)
      ensures if size <= old(entry.buffer.Length) then entry.buffer == old(entry.buffer)
              else fresh(entry.buffer) && entry.buffer.Length == size
    {
      if entry.buffer.Length < size {
        var c := CopyOf(entry, size);
        entry.buffer, entry.len := c, size;
      } else {
        entry.len := size;
      }
      entry.size := size;
      if offset > size {
        offset := size;
      }
    }
  }

  /** The number of bytes from an offset on, but no more than asked for. */
  function Available(size: int, len: nat, offs: nat): nat {
    if offs >= size then 0 else if len <= size - offs then len else size - offs
  }

  /** The given number of bytes from an offset on, as far as there are any. */
  ghost function Bytes(bytes: seq<Byte>, offs: nat, n: nat): seq<Byte> {
    if offs + n <= |bytes| then bytes[offs..offs + n] else []
  }

  /** The buffer after some bytes have been read into it. */
  ghost predicate IsRead(bytes: seq<Byte>, offs: nat, read: nat, buffer: seq<Byte>, original: seq<Byte>) {
    && read <= |buffer| == |original|
    && buffer[..read] == Bytes(bytes, offs, read) && buffer[read..] == original[read..]
  }

  lemma NothingIsRead(bytes: seq<Byte>, offs: nat, original: seq<Byte>)
    ensures IsRead(bytes, offs, 0, original, original)
  {
  }

  lemma WhatIsRead(bytes: seq<Byte>, offs: nat, read: nat, buffer: seq<Byte>, original: seq<Byte>)
    requires IsRead(bytes, offs, read, buffer, original)
    ensures read <= |buffer| == |original|
    ensures buffer[..read] == Bytes(bytes, offs, read) && buffer[read..] == original[read..]
  {
  }

  lemma AvailableIs(size: int, len: nat, offs: nat)
    ensures Available(size, len, offs) == if offs >= size then 0 else if len <= size - offs then len else size - offs
  {
  }

  lemma SizeIsLength(entry: ContentEntry)
    requires entry.Valid()
    ensures Fits(entry.Now()) && |View(entry.Now())| == entry.size
  {
  }

  lemma MoreIsRead(bytes: seq<Byte>, offs: nat, read: nat, n: nat, before: seq<Byte>, after: seq<Byte>,
      original: seq<Byte>)
    requires IsRead(bytes, offs, read, before, original) && read + n <= |before|
    requires if offs + read < |bytes|
             then offs + read + n <= |bytes| &&
                  after == before[..read] + bytes[offs + read..offs + read + n] + before[read + n..]
             else n == 0 && after == before
    ensures IsRead(bytes, offs, read + n, after, original)
  {
    assert before[read + n..] == before[read..][n..] && original[read + n..] == original[read..][n..];
    if offs + read < |bytes| {
      assert bytes[offs..offs + read] + bytes[offs + read..offs + read + n] == bytes[offs..offs + read + n];
    }
  }

  // ---------- All sequences of operations ----------

  datatype Operation = Put(bytes: seq<Byte>, off: nat) | SetSize(size: nat)

  ghost function Apply(c: Slice, op: Operation): (r: Slice)
    requires Fits(c)
    ensures Fits(r)
  {
    match op
    case Put(bytes, off) => WriteMeans(c, bytes, off); Write(c, bytes, off)
    case SetSize(size) => TruncateMeans(c, size); Truncate(c, size)
  }

  ghost function After(ops: seq<Operation>): (c: Slice)
    ensures Fits(c)
  {
    if ops == [] then Slice([], 0) else Apply(After(ops[..|ops| - 1]), ops[|ops| - 1])
  }

  /** What the file is meant to hold. */
  ghost function Meant(ops: seq<Operation>): seq<Byte> {
    if ops == [] then [] else
      var before := Meant(ops[..|ops| - 1]);
      match ops[|ops| - 1]
      case Put(bytes, off) => Overwritten(before, bytes, off)
      case SetSize(size) => Resized(before, size)
  }

  ghost predicate AsMeant(ops: seq<Operation>) {
    View(After(ops)) == Meant(ops)
  }

  ghost predicate IsHarmless(ops: seq<Operation>, k: nat)
    requires k < |ops|
  {
    ops[k].SetSize? ==> !BringsBack(After(ops[..k]), ops[k].size)
  }

  lemma OneMoreOperation(ops: seq<Operation>)
    requires ops != [] && AsMeant(ops[..|ops| - 1])
    ensures AsMeant(ops) <==> IsHarmless(ops, |ops| - 1)
  {
    var init, op := ops[..|ops| - 1], ops[|ops| - 1];
    match op
    case Put(bytes, off) => WriteMeans(After(init), bytes, off);
    case SetSize(size) => TruncateMeans(After(init), size);
  }

  ghost predicate AllAsMeant(ops: seq<Operation>) {
    forall k :: 0 <= k <= |ops| ==> AsMeant(ops[..k])
  }

  ghost predicate AllHarmless(ops: seq<Operation>) {
    forall k :: 0 <= k < |ops| ==> IsHarmless(ops, k)
  }

  lemma OneMorePrefix(ops: seq<Operation>)
    requires ops != []
    ensures AllAsMeant(ops) <==> AllAsMeant(ops[..|ops| - 1]) && AsMeant(ops)
    ensures AllHarmless(ops) <==> AllHarmless(ops[..|ops| - 1]) && IsHarmless(ops, |ops| - 1)
    ensures AllAsMeant(ops) ==> AsMeant(ops[..|ops| - 1])
  {
    hide AsMeant;
    hide BringsBack;
    var n := |ops| - 1;
    assert ops[..|ops|] == ops;
    assert forall k :: 0 <= k <= n ==> ops[..n][..k] == ops[..k];
    assert AllAsMeant(ops[..n]) <==> forall k :: 0 <= k <= n ==> AsMeant(ops[..k]);
    assert forall k :: 0 <= k < n ==> (IsHarmless(ops[..n], k) <==> IsHarmless(ops, k));
  }

  /** The file holds what it is meant to hold all the time exactly if no truncation brings anything back. */
  lemma {:induction false} AlwaysAsMeant(ops: seq<Operation>)
    ensures AllAsMeant(ops) <==> AllHarmless(ops)
  {
    if ops == [] {
      assert ops[..0] == [];
    } else {
      hide *;
      var init := ops[..|ops| - 1];
      AlwaysAsMeant(init);
      OneMorePrefix(ops);
      if AllAsMeant(init) {
        LastIsAsMeant(init);
        OneMoreOperation(ops);
      }
    }
  }

  lemma LastIsAsMeant(ops: seq<Operation>)
    requires AllAsMeant(ops)
    ensures AsMeant(ops)
  {
    assert ops[..|ops|] == ops;
    hide AsMeant;
  }

  /** A byte is written and cut off; it comes back when the file is made longer again. */
  lemma CutOffComesBack(b: Byte)
    requires b != 0
    ensures var ops := [Put([b], 0), SetSize(0), SetSize(1)];
            View(After(ops)) == [b] && Meant(ops) == [0]
  {
    var ops := [Put([b], 0), SetSize(0), SetSize(1)];
    assert ops[..2][..1] == ops[..1] && ops[..1][..0] == [];
    assert After(ops[..1]) == Slice([b], 1) && After(ops[..2]) == Slice([b], 0) && After(ops) == Slice([b], 1);
    assert Meant(ops[..2]) == [] && Meant(ops) == [] + Zeros(1);
  }

  // ---------- What a caller can rely on ----------

  ghost predicate Shrinks(ops: seq<Operation>, k: nat)
    requires k < |ops|
  {
    ops[k].SetSize? && ops[k].size < |Meant(ops[..k])|
  }

  ghost predicate Grows(ops: seq<Operation>, k: nat)
    requires k < |ops|
  {
    ops[k].SetSize? && ops[k].size > |Meant(ops[..k])|
  }

  /** Truncation never makes a file longer that it has made shorter. */
  ghost predicate NeverRegrown(ops: seq<Operation>) {
    forall j, k :: 0 <= j < k < |ops| && Shrinks(ops, j) ==> !Grows(ops, k)
  }

  ghost predicate NothingCutOff(ops: seq<Operation>) {
    |After(ops).buffer| == After(ops).len || exists j :: 0 <= j < |ops| && Shrinks(ops, j)
  }

  lemma OperationCutsOff(ops: seq<Operation>)
    requires ops != [] && AsMeant(ops[..|ops| - 1])
    ensures var c, c' := After(ops[..|ops| - 1]), After(ops);
            |c.buffer| == c.len && !Shrinks(ops, |ops| - 1) ==> |c'.buffer| == c'.len
    ensures !Grows(ops, |ops| - 1) || |After(ops[..|ops| - 1]).buffer| == After(ops[..|ops| - 1]).len ==>
              IsHarmless(ops, |ops| - 1)
  {
    assert |Meant(ops[..|ops| - 1])| == After(ops[..|ops| - 1]).len;
  }

  lemma {:induction false} NeverRegrownIsAsMeant(ops: seq<Operation>)
    requires NeverRegrown(ops)
    ensures AsMeant(ops) && NothingCutOff(ops)
  {
    if ops != [] {
      var n := |ops| - 1;
      var init := ops[..n];
      hide AsMeant;
      hide After;
      hide Meant;
      assert forall k :: 0 <= k < n ==> init[..k] == ops[..k];
      assert forall k :: 0 <= k < n ==> (Shrinks(init, k) <==> Shrinks(ops, k)) && (Grows(init, k) <==> Grows(ops, k));
      NeverRegrownIsAsMeant(init);
      OperationCutsOff(ops);
      OneMoreOperation(ops);
      hide Shrinks;
      hide Grows;
      hide IsHarmless;
    } else {
      assert After(ops) == Slice([], 0);
    }
  }

  /** What was written is read back, and no other byte of the file has changed. */
  lemma WrittenIsRead(c: Slice, p: seq<Byte>, off: nat)
    requires Fits(c)
    ensures Fits(Write(c, p, off)) && Bytes(View(Write(c, p, off)), off, |p|) == p
    ensures forall i :: 0 <= i < c.len && !(off <= i < off + |p|) ==> View(Write(c, p, off))[i] == View(c)[i]
    ensures forall i :: c.len <= i < off && i < |View(Write(c, p, off))| ==> View(Write(c, p, off))[i] == 0
  {
    WriteMeans(c, p, off);
    var bytes := View(c);
    var long := if |bytes| < off + |p| then Resized(bytes, off + |p|) else bytes;
    var r := Overwritten(bytes, p, off);
    assert r == long[..off] + p + long[off + |p|..];
    hide Write;
    assert forall i :: 0 <= i < off ==> r[i] == long[i];
    assert forall i :: off + |p| <= i < |long| ==> r[i] == long[i];
    assert r[off..off + |p|] == p;
  }
}
