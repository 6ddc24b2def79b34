/** Reading files without stored content on the fake file system (lib/fs/fakefs.go): a random number
    generator that is kept between reads stands for a fixed function from offsets to bytes. */
module FakeFile {
  import opened Wrappers

  type Byte = b: int | 0 <= b < 256

  // Two to the power of the block shift, which is 14.
  const BLOCK_SIZE: nat := 16384

  // The bytes that a generator with a given seed produces one after the other.
  type Generator = (int, nat) -> Byte

  // A generator in use: its seed and how many bytes were taken from it.
  datatype Rng = Rng(source: int, pos: nat)

  // What does not change while a file is open: the hash of its name is used as seed.
  datatype File = File(generate: Generator, nameHash: int, isDir: bool)

  datatype Error = IsDirectory | EOF | SeekBeforeStart

  datatype Whence = SeekStart | SeekCurrent | SeekEnd

  /** The size belongs to the file, the rest to the handle. */
  datatype State = State(size: int, rng: Option<Rng>, seed: int, offset: int, seedOffs: int)

  // What a read returns.
  datatype Output = Output(data: seq<Byte>, error: Option<Error>)

  function Seed(f: File, s: State): int {
    if s.seed == 0 then f.nameHash else s.seed
  }

  function Generate(f: File, source: int, pos: nat): Byte {
    f.generate(source, pos)
  }

  // ---------- What reads are meant to return ----------

  /** The byte at an offset, whoever asks for it. */
  ghost function ByteAt(f: File, seed: int, i: int): Byte {
    Generate(f, seed + i / BLOCK_SIZE, i % BLOCK_SIZE)
  }

  ghost function Content(f: File, seed: int, offs: int, n: nat): seq<Byte> {
    seq<Byte>(n, k requires 0 <= k < n => ByteAt(f, seed, offs + k))
  }

  // ---------- What the operations do ----------

  function Min(a: int, b: int): int {
    if a <= b then a else b
  }

  ghost function Stream(f: File, rng: Rng, n: nat): seq<Byte> {
    seq<Byte>(n, k requires 0 <= k < n => Generate(f, rng.source, rng.pos + k))
  }

  function SeedNo(offs: int): int {
    offs / BLOCK_SIZE
  }

  /** The number of bytes of a short read: it ends at the end of the file and of the block. */
  function ShortLength(s: State, len: nat, offs: int): nat
    requires offs < s.size
  {
    Min(Min(len, s.size - offs), (SeedNo(offs) + 1) * BLOCK_SIZE - offs)
  }

  /** The generator is used as it is if the read continues the one before, in the same block. */
  function Positioned(f: File, s: State, offs: int): (t: State)
    ensures t.rng.Some?
  {
    var seed, seedNo := Seed(f, s), SeedNo(offs);
    if s.rng.None? || s.offset != offs || seedNo != s.seedOffs then
      State(s.size, Some(Rng(seed + seedNo, offs - seedNo * BLOCK_SIZE)), seed, offs, seedNo)
    else s.(seed := seed)
  }

  ghost function ReadShortAt(f: File, s: State, len: nat, offs: int): (State, Output) {
    if f.isDir then (s, Output([], Some(IsDirectory)))
    else if offs >= s.size then (s, Output([], Some(EOF)))
    else
      var t, n := Positioned(f, s, offs), ShortLength(s, len, offs);
      var rng := t.rng.value;
      (t.(offset := t.offset + n, rng := Some(rng.(pos := rng.pos + n))), Output(Stream(f, rng, n), None))
  }

  lemma ShortReadsProgress(s: State, len: nat, offs: int)
    requires offs < s.size && len > 0
    ensures ShortLength(s, len, offs) > 0
  {
  }

  /** Short reads until the buffer is full or there is an error. */
  ghost function ReadOn(f: File, s: State, len: nat, offs: int, read: seq<Byte>): (State, Output)
    requires |read| <= len
    decreases len - |read|
  {
    var (t, o) := ReadShortAt(f, s, len - |read|, offs + |read|);
    var read' := read + o.data;
    if o.error.Some? || |read'| == len then (t, Output(read', o.error))
    else
      (ShortReadsProgress(s, len - |read|, offs + |read|);
       ReadOn(f, t, len, offs, read'))
  }

  lemma OneMoreRead(f: File, s: State, len: nat, offs: int, read: seq<Byte>)
    requires |read| <= len
    ensures var (t, o) := ReadShortAt(f, s, len - |read|, offs + |read|);
            && |read + o.data| <= len
            && (|read| < len && o.error.None? ==> o.data != [])
            && ReadOn(f, s, len, offs, read) ==
               (if o.error.Some? || |read + o.data| == len then (t, Output(read + o.data, o.error))
                else ReadOn(f, t, len, offs, read + o.data))
  {
    if offs + |read| < s.size && |read| < len {
      ShortReadsProgress(s, len - |read|, offs + |read|);
    }
  }

  ghost function Seek(f: File, s: State, offset: int, whence: Whence): (State, Result<int, Error>) {
    if f.isDir then (s, Err(IsDirectory)) else
      var target := match whence
        case SeekCurrent => s.offset + offset
        case SeekEnd => s.size - offset
        case SeekStart => offset;
      if target < 0 then (s.(rng := None, offset := 0), Err(SeekBeforeStart))
      else if target > s.size then (s.(rng := None, offset := s.size), Err(EOF))
      else (s.(rng := None, offset := target), Ok(target))
  }

  ghost function WriteAt(f: File, s: State, len: nat, off: int): State {
    if f.isDir then s
    else s.(rng := None, offset := off + len, size := if off + len > s.size then off + len else s.size)
  }

  ghost function Truncate(s: State, size: int): State {
    s.(rng := None, size := size, offset := if s.offset > size then size else s.offset)
  }

  // ---------- The class ----------

  class FakeEntry {
    var size: int

    constructor (size: int)
      ensures this.size == size
    {
      this.size := size;
    }
  }

  class FakeFile {
    const file: File
    const entry: FakeEntry
    var rng: Option<Rng>
    var seed: int
    var offset: int
    var seedOffs: int

    ghost function Now(): State
      reads this, entry
    {
      State(entry.size, rng, seed, offset, seedOffs)
    }

    constructor (file: File, entry: FakeEntry)
      ensures this.file == file && this.entry == entry
      ensures rng == None && seed == 0 && offset == 0 && seedOffs == 0
    {
      this.file, this.entry := file, entry;
      rng, seed, offset, seedOffs := None, 0, 0, 0;
    }

    /** Sets up a generator unless the read continues the one before. */
    method ContinueOrRestart(offs: int)
      modifies this
      ensures Now() == Positioned(file, old(Now()), offs)
    {
      if seed == 0 {
        seed := file.nameHash;
      }
      var seedNo := SeedNo(offs);
      var minOffs := seedNo * BLOCK_SIZE;
      if rng.None? || offset != offs || seedNo != seedOffs {
        rng := Some(Rng(seed + seedNo, 0));
        var diff := offs - minOffs;
        if diff > 0 {
          rng := Some(Rng(seed + seedNo, diff));
        }
        offset := offs;
        seedOffs := seedNo;
      }
    }

    method ReadShort(p: array<Byte>, start: nat, offs: int) returns (n: nat, err: Option<Error>)
      requires start <= p.Length
      modifies this, p
      ensures var (t, o) := ReadShortAt(file, old(Now()), p.Length - start, offs);
              && Now() == t && n == |o.data| && err == o.error
              && start + n <= p.Length && p[..] == old(p[..start]) + o.data + old(p[start + n..])
    {
      if file.isDir {
        assert p[..] == p[..start] + [] + p[start..];
        return 0, Some(IsDirectory);
      }
      if offs >= entry.size {
        assert p[..] == p[..start] + [] + p[start..];
        return 0, Some(EOF);
      }
      ContinueOrRestart(offs);
      hide Positioned;
      var nextBlockOffs := (SeedNo(offs) + 1) * BLOCK_SIZE;
      var size: int := p.Length - start;
      if offs + size > entry.size {
        size := entry.size - offs;
      }
      if offs + size > nextBlockOffs {
        size := nextBlockOffs - offs;
      }
      n := size;
      assert n == ShortLength(old(Now()), p.Length - start, offs);
      hide ShortLength;
      offset := offset + n;
      FillFrom(p, start, n);
      err := None;
    }

    /** Takes the next bytes from the generator. */
    method FillFrom(p: array<Byte>, start: nat, n: nat)
      requires start + n <= p.Length && rng.Some?
      modifies this`rng, p
      ensures p[..] == old(p[..start]) + Stream(file, old(rng.value), n) + old(p[start + n..])
      ensures rng == Some(Rng(old(rng.value.source), old(rng.value.pos) + n))
    {
      var r := rng.value;
      forall k | 0 <= k < n {
        p[start + k] := Generate(file, r.source, r.pos + k);
      }
      rng := Some(r.(pos := r.pos + n));
    }

    method Read(p: array<Byte>) returns (n: nat, err: Option<Error>)
      modifies this, p
      ensures var (t, o) := ReadShortAt(file, old(Now()), p.Length, old(offset));
              && Now() == t && n == |o.data| && err == o.error
              && n <= p.Length && p[..] == o.data + old(p[n..])
    {
      n, err := ReadShort(p, 0, offset);
    }

    method ReadAt(p: array<Byte>, offs: int) returns (read: nat, err: Option<Error>)
      modifies this, p
      ensures var (t, o) := ReadOn(file, old(Now()), p.Length, offs, []);
              && Now() == t && read == |o.data| && err == o.error
              && read <= p.Length && p[..] == o.data + old(p[read..])
    {
      hide *;
      read := 0;
      ghost var expected, original := ReadOn(file, Now(), p.Length, offs, []), p[..];
      assert p[..0] == [];
      while true
        invariant read <= p.Length && (read < p.Length || read == 0)
        invariant ReadOn(file, Now(), p.Length, offs, p[..read]) == expected
        invariant p[read..] == original[read..]
        decreases p.Length - read
      {
        ghost var before, s := p[..], Now();
        OneMoreRead(file, s, p.Length, offs, p[..read]);
        var n;
        n, err := ReadShort(p, read, offs + read);
        ghost var data := ReadShortAt(file, s, p.Length - read, offs + read).1.data;
        assert p[..] == before[..read] + data + before[read + n..];
        assert p[..read + n] == before[..read] + data && p[read + n..] == before[read + n..];
        assert before[read + n..] == original[read + n..] by {
          assert before[read..] == original[read..];
          assert before[read + n..] == before[read..][n..] && original[read + n..] == original[read..][n..];
        }
        read := read + n;
        if err.Some? {
          break;
        }
        if read == p.Length {
          break;
        }
      }
      assert p[..] == p[..read] + p[read..];
    }

    method SeekTo(offset: int, whence: Whence) returns (r: Result<int, Error>)
      modifies this
      ensures Seek(file, old(Now()), offset, whence) == (Now(), r)
      ensures file.isDir ==> r == Err(IsDirectory) && Now() == old(Now())
    {
      if file.isDir {
        return Err(IsDirectory);
      }
      rng := None;
      match whence {
        case SeekCurrent => this.offset := this.offset + offset;
        case SeekEnd => this.offset := entry.size - offset;
        case SeekStart => this.offset := offset;
      }
      if this.offset < 0 {
        this.offset := 0;
        return Err(SeekBeforeStart);
      }
      if this.offset > entry.size {
        this.offset := entry.size;
        return Err(EOF);
      }
      return Ok(this.offset);
    }

    method WriteBytesAt(len: nat, off: int) returns (r: Result<nat, Error>)
      modifies this, entry
      ensures Now() == WriteAt(file, old(Now()), len, off)
      ensures r == if file.isDir then Err(IsDirectory) else Ok(len)
      ensures file.isDir ==> Now() == old(Now())
    {
      if file.isDir {
        return Err(IsDirectory);
      }
      rng := None;
      offset := off + len;
      if offset > entry.size {
        entry.size := offset;
      }
      return Ok(len);
    }

    method TruncateTo(size: int)
      modifies this, entry
      ensures Now() == Truncate(old(Now()), size)
    {
      rng := None;
      entry.size := size;
      if offset > size {
        offset := size;
      }
    }
  }

  // ---------- Reads are a function of the offset ----------

  /** The generator that is kept stands where the next byte in sequence would be taken from. */
  ghost predicate Inv(f: File, s: State) {
    s.rng.Some? ==>
      s.rng.value == Rng(Seed(f, s) + s.seedOffs, s.rng.value.pos) &&
      s.rng.value.pos == s.offset - s.seedOffs * BLOCK_SIZE
  }

  lemma BlockOf(i: int, b: int)
    requires b * BLOCK_SIZE <= i < (b + 1) * BLOCK_SIZE
    ensures i / BLOCK_SIZE == b && i % BLOCK_SIZE == i - b * BLOCK_SIZE
  {
  }

  lemma StreamIsContent(f: File, rng: Rng, b: int, seed: int, offs: int, n: nat)
    requires b * BLOCK_SIZE <= offs && rng == Rng(seed + b, offs - b * BLOCK_SIZE) && offs + n <= (b + 1) * BLOCK_SIZE
    ensures Stream(f, rng, n) == Content(f, seed, offs, n)
  {
    forall k | 0 <= k < n ensures Stream(f, rng, n)[k] == Content(f, seed, offs, n)[k] {
      BlockOf(offs + k, b);
      assert Stream(f, rng, n)[k] == Generate(f, rng.source, rng.pos + k);
      assert Content(f, seed, offs, n)[k] == ByteAt(f, seed, offs + k);
      assert rng.pos + k == (offs + k) % BLOCK_SIZE && rng.source == seed + (offs + k) / BLOCK_SIZE;
    }
  }

  lemma ContentGoesOn(f: File, seed: int, offs: int, m: nat, n: nat)
    ensures Content(f, seed, offs, m) + Content(f, seed, offs + m, n) == Content(f, seed, offs, m + n)
  {
    hide ByteAt;
    var a, b, c := Content(f, seed, offs, m), Content(f, seed, offs + m, n), Content(f, seed, offs, m + n);
    forall k | 0 <= k < m + n ensures (a + b)[k] == c[k] {
      if k >= m {
        assert (a + b)[k] == b[k - m] && offs + m + (k - m) == offs + k;
      }
    }
  }

  lemma ShortReadIsRight(f: File, s: State, len: nat, offs: int)
    requires Inv(f, s)
    ensures var (t, o) := ReadShortAt(f, s, len, offs);
            && Inv(f, t) && Seed(f, t) == Seed(f, s) && t.size == s.size
            && o.data == Content(f, Seed(f, s), offs, |o.data|)
            && (o.error == if f.isDir then Some(IsDirectory) else if offs >= s.size then Some(EOF) else None)
            && (o.error.None? ==> |o.data| <= len && |o.data| <= s.size - offs && (len > 0 ==> o.data != []))
            && (o.error.Some? ==> o.data == [])
  {
    if !f.isDir && offs < s.size {
      var t, n := Positioned(f, s, offs), ShortLength(s, len, offs);
      var b := SeedNo(offs);
      var rng := t.rng.value;
      assert rng.source == Seed(f, s) + b && rng.pos == offs - b * BLOCK_SIZE;
      StreamIsContent(f, rng, b, Seed(f, s), offs, n);
    }
  }

  /** A read from an offset returned the right bytes, and left the handle fit for further reads. */
  ghost predicate IsRight(f: File, s: State, offs: int, t: State, o: Output) {
    && Inv(f, t) && Seed(f, t) == Seed(f, s) && t.size == s.size
    && o.data == Content(f, Seed(f, s), offs, |o.data|)
  }

  lemma RightGoesOn(f: File, s: State, offs: int, read: seq<Byte>, t: State, o: Output)
    requires read == Content(f, Seed(f, s), offs, |read|) && IsRight(f, s, offs + |read|, t, o)
    ensures IsRight(f, s, offs, t, Output(read + o.data, o.error))
  {
    ContentGoesOn(f, Seed(f, s), offs, |read|, |o.data|);
    assert |read + o.data| == |read| + |o.data|;
  }

  lemma SameReading(f: File, s: State, s': State, offs: int, t: State, o: Output)
    requires Seed(f, s') == Seed(f, s) && s'.size == s.size
    ensures IsRight(f, s', offs, t, o) <==> IsRight(f, s, offs, t, o)
    ensures IsRight(f, s, offs, t, o) <==>
            && Inv(f, t) && Seed(f, t) == Seed(f, s) && t.size == s.size
            && o.data == Content(f, Seed(f, s), offs, |o.data|)
  {
    hide Inv;
    hide Content;
    hide Seed;
  }

  /** Reading on keeps returning the right bytes, directory or not. */
  lemma {:induction false} ReadOnIsRight(f: File, s: State, len: nat, offs: int, read: seq<Byte>)
    requires Inv(f, s) && |read| <= len && read == Content(f, Seed(f, s), offs, |read|)
    ensures IsRight(f, s, offs, ReadOn(f, s, len, offs, read).0, ReadOn(f, s, len, offs, read).1)
    decreases len - |read|
  {
    hide *;
    ShortReadIsRight(f, s, len - |read|, offs + |read|);
    OneMoreRead(f, s, len, offs, read);
    var (t, o) := ReadShortAt(f, s, len - |read|, offs + |read|);
    SameReading(f, s, s, offs + |read|, t, o);
    RightGoesOn(f, s, offs, read, t, o);
    if o.error.None? && |read + o.data| != len {
      ReadOnIsRight(f, t, len, offs, read + o.data);
      var (t', o') := ReadOn(f, t, len, offs, read + o.data);
      SameReading(f, s, t, offs, t', o');
    }
  }

  /** The number of bytes from an offset on, but no more than asked for. */
  function Available(size: int, len: nat, offs: int): nat {
    if offs >= size then 0 else if len <= size - offs then len else size - offs
  }

  /** It stops where the buffer is full or the file ends, and reports the latter exactly if the buffer
      is not full. */
  lemma {:induction false} ReadOnStopsThere(f: File, s: State, len: nat, offs: int, read: seq<Byte>)
    requires Inv(f, s) && !f.isDir && (|read| < len || read == []) && (read == [] || offs + |read| <= s.size)
    ensures var (t, o) := ReadOn(f, s, len, offs, read);
            && |o.data| == Available(s.size, len, offs)
            && (o.error == if offs >= s.size || offs + len > s.size then Some(EOF) else None)
    decreases len - |read|
  {
    hide *;
    ShortReadIsRight(f, s, len - |read|, offs + |read|);
    OneMoreRead(f, s, len, offs, read);
    var (t, o) := ReadShortAt(f, s, len - |read|, offs + |read|);
    if o.error.None? && |read + o.data| != len {
      ReadOnStopsThere(f, t, len, offs, read + o.data);
    } else {
      assert |read + o.data| == if offs >= s.size then 0 else if len <= s.size - offs then len else s.size - offs;
      LengthIs(s.size, len, offs);
    }
  }

  lemma LengthIs(size: int, len: nat, offs: int)
    ensures Available(size, len, offs) == if offs >= size then 0 else if len <= size - offs then len else size - offs
  {
  }

  // ---------- All sequences of operations ----------

  /** The operations on a handle; the file may also be resized through other handles. */
  datatype Operation =
    | Read(len: nat)
    | ReadAt(len: nat, offs: int)
    | SeekTo(offset: int, whence: Whence)
    | Write(len: nat, off: int)
    | SetSize(size: int)
    | ResizedByOther(size: int)

  ghost function Apply(f: File, s: State, op: Operation): (State, Output) {
    match op
    case Read(len) => ReadShortAt(f, s, len, s.offset)
    case ReadAt(len, offs) => ReadOn(f, s, len, offs, [])
    case SeekTo(offset, whence) => (Seek(f, s, offset, whence).0, Output([], None))
    case Write(len, off) => (WriteAt(f, s, len, off), Output([], None))
    case SetSize(size) => (Truncate(s, size), Output([], None))
    case ResizedByOther(size) => (s.(size := size), Output([], None))
  }

  ghost function After(f: File, size: int, ops: seq<Operation>): State {
    if ops == [] then State(size, None, 0, 0, 0)
    else Apply(f, After(f, size, ops[..|ops| - 1]), ops[|ops| - 1]).0
  }

  lemma ApplyKeepsInv(f: File, s: State, op: Operation)
    requires Inv(f, s)
    ensures Inv(f, Apply(f, s, op).0) && Seed(f, Apply(f, s, op).0) == Seed(f, s)
  {
    match op
    case Read(len) => ShortReadIsRight(f, s, len, s.offset);
    case ReadAt(len, offs) =>
      ReadOnIsRight(f, s, len, offs, []);
    case _ =>
  }

  lemma {:induction false} InvHolds(f: File, size: int, ops: seq<Operation>)
    ensures Inv(f, After(f, size, ops)) && Seed(f, After(f, size, ops)) == f.nameHash
  {
    if ops != [] {
      InvHolds(f, size, ops[..|ops| - 1]);
      ApplyKeepsInv(f, After(f, size, ops[..|ops| - 1]), ops[|ops| - 1]);
    }
  }

  /** After any operations, a full read of a file returns exactly the bytes from the offset on that
      the file has, and these depend on nothing but the name of the file and the offset. */
  lemma FullReadsAreExact(f: File, size: int, ops: seq<Operation>, len: nat, offs: int)
    requires !f.isDir
    ensures var s := After(f, size, ops);
            var o := Apply(f, s, ReadAt(len, offs)).1;
            && o.data == Content(f, f.nameHash, offs, Available(s.size, len, offs))
            && (o.error == if offs >= s.size || offs + len > s.size then Some(EOF) else None)
  {
    InvHolds(f, size, ops);
    ReadOnIsRight(f, After(f, size, ops), len, offs, []);
    ReadOnStopsThere(f, After(f, size, ops), len, offs, []);
  }

  /** The byte at an offset comes from the generator that is seeded with the hash of the name plus the number
      of the block of 16 KiB, and is the one at its place in the block. */
  lemma BytesOfFullRead(f: File, size: int, ops: seq<Operation>, len: nat, offs: int, k: nat)
    requires !f.isDir && k < len && offs + k < After(f, size, ops).size
    ensures var o := Apply(f, After(f, size, ops), ReadAt(len, offs)).1;
            && k < |o.data|
            && o.data[k] == f.generate(f.nameHash + (offs + k) / 16384, (offs + k) % 16384)
  {
    hide After;
    hide Apply;
    FullReadsAreExact(f, size, ops, len, offs);
    var n := Available(After(f, size, ops).size, len, offs);
    assert k < n && Content(f, f.nameHash, offs, n)[k] == ByteAt(f, f.nameHash, offs + k);
  }

  /** A read in sequence returns these bytes too, although maybe fewer of them; but never none
      unless none was asked for or the file is at its end. */
  lemma ShortReadsAgree(f: File, size: int, ops: seq<Operation>, len: nat)
    requires !f.isDir
    ensures var s := After(f, size, ops);
            var (t, o) := Apply(f, s, Read(len));
            && o.data == Content(f, f.nameHash, s.offset, |o.data|) && t.offset == s.offset + |o.data|
            && (o.error == if s.offset >= s.size then Some(EOF) else None)
            && |o.data| <= len && (o.data == [] ==> len == 0 || s.offset >= s.size)
  {
    InvHolds(f, size, ops);
    ShortReadIsRight(f, After(f, size, ops), len, After(f, size, ops).offset);
  }

  /** Where the handle stands after it was moved: at the offset itself, as far on from where it stood, or as
      far back from the end; but nowhere outside the file. The file keeps its size. */
  lemma SeekMoves(f: File, s: State, offset: int, whence: Whence)
    requires !f.isDir && s.size >= 0
    ensures var (t, r) := Seek(f, s, offset, whence);
            var target :=
              if whence.SeekStart? then offset else if whence.SeekEnd? then s.size - offset else s.offset + offset;
            && t.size == s.size && 0 <= t.offset <= s.size
            && (0 <= target <= s.size <==> r.Ok?)
            && (r.Ok? ==> t.offset == r.value == target)
            && (target < 0 ==> r == Err(SeekBeforeStart) && t.offset == 0)
            && (target > s.size ==> r == Err(EOF) && t.offset == s.size)
  {
  }

  /** Written bytes end where the handle stands then; a file gets longer by a write beyond its end and no
      shorter, and exactly as long as it is truncated to, with the handle not beyond the end. */
  lemma WritesAndTruncationsMove(f: File, s: State, len: nat, off: int, size: int)
    requires !f.isDir
    ensures var t := WriteAt(f, s, len, off);
            t.offset == off + len && t.size >= s.size && t.size >= t.offset && t.size in {s.size, t.offset}
    ensures var t := Truncate(s, size);
            t.size == size && t.offset <= size && (s.offset <= size ==> t.offset == s.offset) &&
            (s.offset > size ==> t.offset == size)
    ensures var t := Apply(f, s, ResizedByOther(size)).0; t.size == size && t.offset == s.offset
  {
  }

  /** The next read begins where the last operation has left the handle, and the one after where that has
      ended. */
  lemma ReadsFollowSeeks(f: File, size: int, ops: seq<Operation>, offset: int, len: nat)
    requires !f.isDir && 0 <= offset <= After(f, size, ops).size
    ensures var s := After(f, size, ops + [SeekTo(offset, SeekStart)]);
            var (t, o) := Apply(f, s, Read(len));
            && s.size == After(f, size, ops).size
            && o.data == Content(f, f.nameHash, offset, |o.data|) && t.offset == offset + |o.data|
            && (o.error == if offset >= s.size then Some(EOF) else None)
  {
    InvHolds(f, size, ops);
    assert (ops + [SeekTo(offset, SeekStart)])[..|ops|] == ops;
    ApplyKeepsInv(f, After(f, size, ops), SeekTo(offset, SeekStart));
    var s := Apply(f, After(f, size, ops), SeekTo(offset, SeekStart)).0;
    ShortReadIsRight(f, s, len, offset);
    hide After;
    hide Content;
  }

  /** The first read of a handle begins at the start of the file, and the second where the first has ended. */
  lemma ReadsFollowEachOther(f: File, size: int, len: nat, len': nat)
    requires !f.isDir
    ensures var (s, o) := Apply(f, After(f, size, []), Read(len));
            var o' := Apply(f, After(f, size, [Read(len)]), Read(len')).1;
            && o.data + o'.data == Content(f, f.nameHash, 0, |o.data| + |o'.data|)
            && (o.error == if size <= 0 then Some(EOF) else None)
            && (o.data == [] ==> len == 0 || size <= 0)
            && (o'.data == [] ==> len' == 0 || size <= |o.data|)
  {
    ShortReadsAgree(f, size, [], len);
    ShortReadsAgree(f, size, [Read(len)], len');
    var s := After(f, size, []);
    var (t, o) := Apply(f, s, Read(len));
    assert [Read(len)][..0] == [];
    assert After(f, size, [Read(len)]) == t;
    ShortReadIsRight(f, s, len, 0);
    var o' := Apply(f, t, Read(len')).1;
    hide Apply;
    hide After;
    hide ReadShortAt;
    ContentGoesOn(f, f.nameHash, 0, |o.data|, |o'.data|);
  }

  /** Seeking from the end counts backwards, unlike what the interface io.Seeker asks for. */
  lemma SeekFromEndCountsBackwards(f: File, s: State, offset: int)
    requires !f.isDir && s.size >= 0
    ensures Seek(f, s, offset, SeekEnd).1 == Ok(s.size + offset) <==> offset == 0
    ensures 0 <= offset <= s.size ==> Seek(f, s, offset, SeekEnd).1 == Ok(s.size - offset)
  {
  }
}
