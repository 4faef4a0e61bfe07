/** Value types and small helpers shared by every component. */
module Basics {

  datatype Option<+T> = None | Some(value: T) {
    function GetOr(default: T): (r: T)
      ensures r == match this case Some(v) => v case None => default
    {
      if Some? then value else default
    }
  }

  /** The exceptions that the modelled code raises. */
  datatype Error = IndexError | ValueError | StructError | IncompleteRead

  /** A returned value or a raised exception; usable with `:-`. */
  datatype Result<+T> = Success(value: T) | Failure(error: Error) {
    predicate IsFailure() {
      Failure?
    }

    function PropagateFailure<U>(): Result<U>
      requires Failure?
    {
      Failure(error)
    }

    function Extract(): T
      requires Success?
    {
      value
    }
  }

  type byte = x: int | 0 <= x < 256

  type bytes = seq<byte>

  type u32 = x: int | 0 <= x < 0x1_0000_0000

  function Min(a: int, b: int): (r: int)
    ensures r <= a && r <= b && (r == a || r == b)
  {
    if a < b then a else b
  }

  /** A Python slice `s[lo:hi]` with non-negative bounds: both are clamped to the length. */
  function Slice<T>(s: seq<T>, lo: nat, hi: nat): (r: seq<T>)
    ensures lo <= hi <= |s| ==> r == s[lo..hi]
    ensures lo <= |s| < hi ==> r == s[lo..]
    ensures |s| < lo || hi < lo ==> r == []
  {
    var h := Min(hi, |s|);
    if lo <= h then s[lo..h] else []
  }

  /** `needle` occurs in `hay` at index `i`. */
  predicate OccursAt<T(==)>(hay: seq<T>, needle: seq<T>, i: int) {
    0 <= i && i + |needle| <= |hay| && hay[i..i + |needle|] == needle
  }

  /** Python's `hay.find(needle, from)`, with None for -1: the least index at or after `from`. */
  function Find<T(==)>(hay: seq<T>, needle: seq<T>, from: nat): (r: Option<nat>)
    requires from <= |hay|
    ensures r.Some? ==> from <= r.value && OccursAt(hay, needle, r.value)
    ensures r.Some? ==> forall j :: from <= j < r.value ==> !OccursAt(hay, needle, j)
    ensures r.None? ==> forall j :: from <= j ==> !OccursAt(hay, needle, j)
    decreases |hay| - from
  {
    if OccursAt(hay, needle, from) then Some(from)
    else if from == |hay| then None
    else Find(hay, needle, from + 1)
  }

  // ---- struct.pack and struct.unpack ----

  function U16be(s: bytes, i: int): (v: nat)
    requires 0 <= i && i + 2 <= |s|
    ensures v / 256 == s[i] && v % 256 == s[i + 1]
  {
    var hi: int, lo: int := s[i], s[i + 1];
    hi * 256 + lo
  }

  function U16le(s: bytes, i: int): (v: int)
    requires 0 <= i && i + 2 <= |s|
    ensures v / 256 == s[i + 1] && v % 256 == s[i]
  {
    var lo: int, hi: int := s[i], s[i + 1];
    lo + 0x100 * hi
  }

  function U32le(s: bytes, i: int): (v: int)
    requires 0 <= i && i + 4 <= |s|
    ensures 0 <= v < 0x1_0000_0000
    ensures var b0: int, b1: int, b2: int, b3: int := s[i], s[i + 1], s[i + 2], s[i + 3];
      v == b0 + 256 * b1 + 65536 * b2 + 16777216 * b3
  {
    var b0: int, b1: int, b2: int, b3: int := s[i], s[i + 1], s[i + 2], s[i + 3];
    b0 + 0x100 * (b1 + 0x100 * (b2 + 0x100 * b3))
  }

  function PackU32le(v: u32): bytes {
    [v % 0x100, v / 0x100 % 0x100, v / 0x100 / 0x100 % 0x100, v / 0x100 / 0x100 / 0x100]
  }

  lemma UnpackUndoesPack(v: u32)
    ensures U32le(PackU32le(v), 0) == v
  {
    var q := v / 0x100;
    assert v == v % 0x100 + 0x100 * q;
    assert q == q % 0x100 + 0x100 * (q / 0x100);
  }

  lemma LowByte(b: byte, q: nat)
    ensures (b + 0x100 * q) % 0x100 == b && (b + 0x100 * q) / 0x100 == q
  {
  }

  lemma PackUndoesUnpack(s: bytes, i: int)
    requires 0 <= i && i + 4 <= |s|
    ensures PackU32le(U32le(s, i)) == s[i..i + 4]
  {
    var b2: int, b3: int := s[i + 2], s[i + 3];
    var b1: int := s[i + 1];
    LowByte(s[i + 2], b3);
    LowByte(s[i + 1], b2 + 0x100 * b3);
    LowByte(s[i], b1 + 0x100 * (b2 + 0x100 * b3));
  }

  // ---- text ----

  /** The characters that `str.strip` and `str.split` take as white space in ASCII text. */
  predicate WhiteSpace(c: char) {
    c in "\U{9}\U{A}\U{B}\U{C}\U{D}\U{1C}\U{1D}\U{1E}\U{1F}\U{20}"
  }

  predicate IsSpace(c: char): (r: bool)
    ensures r <==> WhiteSpace(c)
  {
    c == ' ' || '\t' <= c <= '\r' || '\U{1C}' <= c <= '\U{1F}'
  }

  predicate Blank(s: string) {
    forall i :: 0 <= i < |s| ==> WhiteSpace(s[i])
  }

  /** `core` is `s` without the white space around it. */
  ghost predicate Trims(s: string, core: string) {
    && (core != "" ==> !WhiteSpace(core[0]) && !WhiteSpace(core[|core| - 1]))
    && exists before, after :: Blank(before) && Blank(after) && s == before + core + after
  }

  /** `lower` is `s` with each letter A to Z replaced by the one 32 above, and all else as it is. */
  ghost predicate Lowers(s: string, lower: string) {
    && |lower| == |s|
    && forall i :: 0 <= i < |s| ==>
      lower[i] as int == if 'A' <= s[i] <= 'Z' then s[i] as int + 32 else s[i] as int
  }

  function LStrip(s: string): (r: string)
    ensures |r| <= |s| && r == s[|s| - |r|..]
    ensures forall i :: 0 <= i < |s| - |r| ==> WhiteSpace(s[i])
    ensures r != [] ==> !WhiteSpace(r[0])
  {
    if s != [] && IsSpace(s[0]) then
      var r := LStrip(s[1..]);
      assert s[1..][|s| - 1 - |r|..] == s[|s| - |r|..];
      assert forall i :: 0 <= i < |s| - 1 - |r| ==> s[1..][i] == s[i + 1];
      r
    else s
  }

  function RStrip(s: string): (r: string)
    ensures |r| <= |s| && r == s[..|r|]
    ensures forall i :: |r| <= i < |s| ==> WhiteSpace(s[i])
    ensures r != [] ==> !WhiteSpace(r[|r| - 1])
  {
    if s != [] && IsSpace(s[|s| - 1]) then RStrip(s[..|s| - 1]) else s
  }

  function Strip(s: string): (r: string)
    ensures Trims(s, r)
  {
    var t := LStrip(s);
    var r := RStrip(t);
    StripTrims(s, t, r);
    r
  }

  lemma StripTrims(s: string, t: string, r: string)
    requires |r| <= |t| <= |s| && t == s[|s| - |t|..] && r == t[..|r|]
    requires forall i :: 0 <= i < |s| - |t| ==> WhiteSpace(s[i])
    requires forall i :: |r| <= i < |t| ==> WhiteSpace(t[i])
    requires t != [] ==> !WhiteSpace(t[0])
    requires r != [] ==> !WhiteSpace(r[|r| - 1])
    ensures Trims(s, r)
  {
    assert s == s[..|s| - |t|] + r + t[|r|..];
    assert Blank(s[..|s| - |t|]) && Blank(t[|r|..]);
  }

  function LowerChar(c: char): char {
    if 'A' <= c <= 'Z' then c - 'A' + 'a' else c
  }

  function Lower(s: string): (r: string)
    ensures Lowers(s, r)
  {
    seq(|s|, i requires 0 <= i < |s| => LowerChar(s[i]))
  }

  /** The two letters are the same, but for upper and lower case. */
  predicate SameLetter(a: char, b: char) {
    || a == b
    || ('A' <= a <= 'Z' && b as int == a as int + 32)
    || ('A' <= b <= 'Z' && a as int == b as int + 32)
  }

  predicate SameLetters(a: string, b: string) {
    |a| == |b| && forall i :: 0 <= i < |a| ==> SameLetter(a[i], b[i])
  }

  lemma LoweredAlike(s: string, lower: string, s': string, lower': string)
    requires Lowers(s, lower) && Lowers(s', lower')
    ensures lower == lower' <==> SameLetters(s, s')
  {
    if |s| == |s'| {
      forall i | 0 <= i < |s|
        ensures lower[i] == lower'[i] <==> SameLetter(s[i], s'[i])
      {
        assert lower[i] == lower'[i] <==> lower[i] as int == lower'[i] as int;
      }
    }
  }

  /** There is one way to strip a text. */
  lemma TrimsOneWay(s: string, c: string, d: string)
    requires Trims(s, c) && Trims(s, d)
    ensures c == d
  {
    var b, a :| Blank(b) && Blank(a) && s == b + c + a;
    var b', a' :| Blank(b') && Blank(a') && s == b' + d + a';
    SameBefore(s, b, c, a, b', d, a');
    SameBefore(s, b', d, a', b, c, a);
    if c != "" && d != "" {
      assert c == s[|b|..|b| + |c|] && d == s[|b'|..|b'| + |d|];
    }
  }

  lemma SameBefore(s: string, b: string, c: string, a: string, b': string, d: string, a': string)
    requires Blank(b) && Blank(a) && s == b + c + a && Blank(b') && Blank(a') && s == b' + d + a'
    requires c != "" ==> !WhiteSpace(c[0]) && !WhiteSpace(c[|c| - 1])
    ensures c != "" ==> d != "" && |b'| <= |b| && |b| + |c| <= |b'| + |d|
  {
    if c != "" {
      assert s[|b|] == c[0] && s[|b| + |c| - 1] == c[|c| - 1];
      BlankAround(s, b', d, a', |b|);
      BlankAround(s, b', d, a', |b| + |c| - 1);
    }
  }

  lemma BlankAround(s: string, before: string, core: string, after: string, i: int)
    requires Blank(before) && Blank(after) && s == before + core + after && 0 <= i < |s|
    ensures i < |before| || |before| + |core| <= i ==> WhiteSpace(s[i])
  {
    if |before| + |core| <= i {
      assert s[i] == after[i - |before| - |core|];
    }
  }
}
