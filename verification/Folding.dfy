/** Folding of file names to lower case (lib/fs/folding.go). Names are strings of bytes; the
    ASCII path is modelled exactly, the Unicode path is a parameter. */
module Folding {
  type Byte = b: int | 0 <= b < 256
  type Bytes = seq<Byte>

  const UPPER_A: Byte := 65
  const UPPER_Z: Byte := 90
  const LOWER_A: Byte := 97
  const MAX_ASCII: Byte := 127

  function ToLower(c: Byte): Byte {
    if UPPER_A <= c <= UPPER_Z then c + LOWER_A - UPPER_A else c
  }

  ghost function LowerASCII(s: Bytes): Bytes {
    seq(|s|, i requires 0 <= i < |s| => ToLower(s[i]))
  }

  ghost predicate IsAscii(s: Bytes) {
    forall i :: 0 <= i < |s| ==> s[i] <= MAX_ASCII
  }

  ghost predicate HasUpper(s: Bytes) {
    exists i :: 0 <= i < |s| && UPPER_A <= s[i] <= UPPER_Z
  }

  /** The second result is only meaningful when the first one is true. */
  method IsASCII(s: Bytes) returns (isASCII: bool, isLower: bool)
    ensures isASCII <==> IsAscii(s)
    ensures isASCII <==> forall i :: 0 <= i < |s| ==> s[i] < 128
    ensures isASCII ==> (isLower <==> !HasUpper(s))
    ensures isASCII ==> (isLower <==> forall i :: 0 <= i < |s| ==> !(65 <= s[i] <= 90))
  {
    isLower := true;
    for i := 0 to |s|
      invariant forall k :: 0 <= k < i ==> s[k] <= MAX_ASCII
      invariant isLower <==> forall k :: 0 <= k < i ==> !(UPPER_A <= s[k] <= UPPER_Z)
    {
      var b := s[i];
      if b > MAX_ASCII {
        return false, isLower;
      }
      if UPPER_A <= b <= UPPER_Z {
        isLower := false;
      }
    }
    isASCII := true;
  }

  /** Runs of bytes without an upper-case letter are copied as a whole. */
  method ToLowerASCII(s: Bytes) returns (b: Bytes)
    ensures b == LowerASCII(s)
  {
    b := [];
    var pos := 0;
    for i := 0 to |s|
      invariant 0 <= pos <= i
      invariant b == LowerASCII(s[..pos])
      invariant forall k :: pos <= k < i ==> ToLower(s[k]) == s[k]
    {
      var c := s[i];
      if c < UPPER_A || UPPER_Z < c {
        continue;
      }
      if pos < i {
        b := b + s[pos..i];
      }
      pos := i + 1;
      b := b + [c + LOWER_A - UPPER_A];
      assert b == LowerASCII(s[..pos]);
    }
    if pos != |s| {
      b := b + s[pos..];
    }
  }

  ghost function Fold(s: Bytes, toLowerUnicode: Bytes -> Bytes): Bytes {
    if IsAscii(s) then LowerASCII(s) else toLowerUnicode(s)
  }

  method UnicodeLowercaseNormalized(s: Bytes, toLowerUnicode: Bytes -> Bytes) returns (r: Bytes)
    ensures r == Fold(s, toLowerUnicode)
    ensures (exists i :: 0 <= i < |s| && s[i] >= 128) ==> r == toLowerUnicode(s)
    ensures (forall i :: 0 <= i < |s| ==> s[i] < 128) ==>
              |r| == |s| && forall i :: 0 <= i < |s| ==> r[i] == if 65 <= s[i] <= 90 then s[i] + 32 else s[i]
  {
    var isASCII, isLower := IsASCII(s);
    if isASCII {
      if isLower {
        assert LowerASCII(s) == s;
        return s;
      }
      r := ToLowerASCII(s);
      return;
    }
    return toLowerUnicode(s);
  }

  /** Folding twice is folding once, provided this is so for what the Unicode path returns. */
  lemma FoldIsIdempotent(toLowerUnicode: Bytes -> Bytes)
    requires forall s :: !IsAscii(s) ==> Fold(toLowerUnicode(s), toLowerUnicode) == toLowerUnicode(s)
    ensures forall s :: Fold(Fold(s, toLowerUnicode), toLowerUnicode) == Fold(s, toLowerUnicode)
  {
    forall s ensures Fold(Fold(s, toLowerUnicode), toLowerUnicode) == Fold(s, toLowerUnicode) {
      if IsAscii(s) {
        assert IsAscii(LowerASCII(s));
        assert LowerASCII(LowerASCII(s)) == LowerASCII(s);
      }
    }
  }

  /** Capital letters become the small ones, 32 places further on, and all other bytes stay. */
  lemma LettersAreLowered(s: Bytes, i: nat)
    requires i < |s|
    ensures |LowerASCII(s)| == |s|
    ensures LowerASCII(s)[i] == if 65 <= s[i] <= 90 then s[i] + 32 else s[i]
    ensures !HasUpper(LowerASCII(s))
  {
  }

  /** Two ASCII names fold equal exactly if they differ in the case of letters only. */
  lemma FoldKeepsLength(s: Bytes, t: Bytes, toLowerUnicode: Bytes -> Bytes)
    requires IsAscii(s) && IsAscii(t)
    ensures Fold(s, toLowerUnicode) == Fold(t, toLowerUnicode) <==>
            |s| == |t| && forall i :: 0 <= i < |s| ==>
              || s[i] == t[i]
              || (65 <= s[i] <= 90 && t[i] == s[i] + 32)
              || (65 <= t[i] <= 90 && s[i] == t[i] + 32)
  {
    var a, b := LowerASCII(s), LowerASCII(t);
    if |s| == |t| {
      assert a == b <==> forall i :: 0 <= i < |s| ==> a[i] == b[i];
      assert forall i :: 0 <= i < |s| ==> a[i] == ToLower(s[i]) && b[i] == ToLower(t[i]);
    }
  }
}
