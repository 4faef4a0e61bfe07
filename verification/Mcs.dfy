/** In-place patching of the first MCS packet of each direction (sections 2.2.1.3.2 and 2.2.1.4.2 of
    MS-RDPBCGR), proved against a specification by the leftmost matching block. */
module Mcs {
  import opened Basics

  const TS_UD_CS_CORE := 0xC001
  const TS_UD_SC_CORE := 0x0C01
  const PROTOCOL_SSL: u32 := 1
  const PROTOCOL_HYBRID: u32 := 2

  // ---- the specification ----

  /** A block header of the given type lies at `i`, its length is at least `minLen`, and the block fits. */
  ghost predicate BlockAt(s: bytes, blockType: int, minLen: int, i: int) {
    && 0 <= i && i + 4 <= |s|
    && U16le(s, i) == blockType
    && minLen <= U16le(s, i + 2)
    && i + U16le(s, i + 2) <= |s|
  }

  ghost predicate Leftmost(s: bytes, blockType: int, minLen: int, i: int) {
    BlockAt(s, blockType, minLen, i) && forall j :: 0 <= j < i ==> !BlockAt(s, blockType, minLen, j)
  }

  ghost predicate HasBlock(s: bytes, blockType: int, minLen: int) {
    exists i :: Leftmost(s, blockType, minLen, i)
  }

  /** `r` is `s` with the four bytes at `off` set to `v`. */
  ghost predicate WithU32(s: bytes, r: bytes, off: int, v: u32) {
    && 0 <= off && off + 4 <= |s| == |r|
    && r[off..off + 4] == PackU32le(v)
    && r[..off] == s[..off] && r[off + 4..] == s[off + 4..]
  }

  const CLIENT_CORE_MIN := 216
  const CLIENT_FIELD := 212
  const SERVER_CORE_MIN := 12
  const SERVER_FIELD := 8

  /** The leftmost core block that is long enough to hold serverSelectedProtocol has that field
      changed from SSL to HYBRID; nothing else changes. */
  ghost predicate ClientPatch(s: bytes, r: bytes) {
    && (forall i :: Leftmost(s, 0xC001, 216, i) ==>
          if U32le(s, i + 212) == 1 then WithU32(s, r, i + 212, 2) else r == s)
    && (!HasBlock(s, 0xC001, 216) ==> r == s)
  }

  /** The leftmost server core block has clientRequestedProtocols set to `target`; nothing else changes. */
  ghost predicate ServerPatch(s: bytes, target: u32, r: bytes) {
    && (forall i :: Leftmost(s, 0x0C01, 12, i) ==> WithU32(s, r, i + 8, target))
    && (!HasBlock(s, 0x0C01, 12) ==> r == s)
  }

  // ---- the code ----

  /** The sizes of the optional fields between the fixed part and serverSelectedProtocol. */
  const OPTIONAL_SIZES: seq<int> := [2, 2, 4, 2, 2, 2, 64, 1, 1]

  function SumOf(sizes: seq<int>): int {
    if sizes == [] then 0 else SumOf(sizes[..|sizes| - 1]) + sizes[|sizes| - 1]
  }

  lemma OptionalSizes(k: nat)
    requires k <= 9
    ensures SumOf(OPTIONAL_SIZES[..k]) == [0, 2, 4, 8, 10, 12, 14, 78, 79, 80][k]
  {
    if k > 0 {
      OptionalSizes(k - 1);
      assert OPTIONAL_SIZES[..k][..k - 1] == OPTIONAL_SIZES[..k - 1];
    }
  }

  method PackInto(packet: array<byte>, off: int, v: u32)
    requires 0 <= off && off + 4 <= packet.Length
    modifies packet
    ensures WithU32(old(packet[..]), packet[..], off, v)
  {
    var packed := PackU32le(v);
    for k := 0 to 4
      invariant packet[..][..off] == old(packet[..])[..off]
      invariant packet[..][off + 4..] == old(packet[..])[off + 4..]
      invariant packet[off..off + k] == packed[..k]
    {
      packet[off + k] := packed[k];
    }
    assert packet[..][off..off + 4] == packet[off..off + 4];
  }

  /** Returns the offset of the field, or None when the block is too short or does not fit. */
  method PatchCsCore(packet: array<byte>, payloadOff: nat, blockLen: nat) returns (r: Option<nat>)
    modifies packet
    ensures r.Some? <==> 216 <= blockLen && payloadOff + blockLen - 4 <= packet.Length
    ensures r.Some? ==> r.value == payloadOff + 208
    ensures r.None? ==> packet[..] == old(packet[..])
    ensures r.Some? ==>
      if U32le(old(packet[..]), r.value) == 1
      then WithU32(old(packet[..]), packet[..], r.value, 2)
      else packet[..] == old(packet[..])
  {
    var payloadEnd := payloadOff + if blockLen > 4 then blockLen - 4 else 0;
    if payloadEnd > packet.Length {
      return None;
    }
    var pos := payloadOff + 128;
    if pos > payloadEnd {
      return None;
    }
    OptionalSizes(9);
    assert OPTIONAL_SIZES[..9] == OPTIONAL_SIZES;
    for k := 0 to |OPTIONAL_SIZES|
      invariant pos == payloadOff + 128 + SumOf(OPTIONAL_SIZES[..k])
      invariant pos <= payloadEnd && packet[..] == old(packet[..])
    {
      OptionalSizes(k);
      OptionalSizes(k + 1);
      var size := OPTIONAL_SIZES[k];
      assert OPTIONAL_SIZES[..k + 1][..k] == OPTIONAL_SIZES[..k];
      if pos + size > payloadEnd {
        return None;
      }
      pos := pos + size;
    }
    if pos + 4 > payloadEnd {
      return None;
    }
    var current := U32le(packet[..], pos);
    if current == PROTOCOL_SSL {
      PackInto(packet, pos, PROTOCOL_HYBRID);
    }
    r := Some(pos);
  }

  method PatchMcsClient(data: bytes) returns (r: bytes)
    ensures ClientPatch(data, r)
  {
    var packet := new byte[|data|](i requires 0 <= i < |data| => data[i]);
    assert packet[..] == data;
    for i := 0 to if |data| < 3 then 0 else |data| - 3
      invariant packet[..] == data
      invariant forall j :: 0 <= j < i ==> !BlockAt(data, TS_UD_CS_CORE, CLIENT_CORE_MIN, j)
    {
      var blockType := U16le(packet[..], i);
      if blockType != TS_UD_CS_CORE {
        continue;
      }
      var blockLen := U16le(packet[..], i + 2);
      if blockLen < 132 || i + blockLen > packet.Length {
        continue;
      }
      var patched := PatchCsCore(packet, i + 4, blockLen);
      if patched.None? {
        continue;
      }
      assert Leftmost(data, TS_UD_CS_CORE, CLIENT_CORE_MIN, i);
      return packet[..];
    }
    r := packet[..];
  }

  /** The field is written only when it holds something else. */
  method SetField(packet: array<byte>, off: int, target: u32)
    requires 0 <= off && off + 4 <= packet.Length
    modifies packet
    ensures WithU32(old(packet[..]), packet[..], off, target)
  {
    var current := U32le(packet[..], off);
    if current != target {
      PackInto(packet, off, target);
    } else {
      PackUndoesUnpack(packet[..], off);
    }
  }

  /** `target` is the client's own request when it is known, and SSL otherwise. */
  method PatchMcsServer(data: bytes, clientRequestedProtocols: Option<u32>) returns (r: bytes)
    ensures ServerPatch(data, if clientRequestedProtocols.Some? then clientRequestedProtocols.value else 1, r)
  {
    var packet := new byte[|data|](i requires 0 <= i < |data| => data[i]);
    assert packet[..] == data;
    for i := 0 to if |data| < 3 then 0 else |data| - 3
      invariant packet[..] == data
      invariant forall j :: 0 <= j < i ==> !BlockAt(data, TS_UD_SC_CORE, SERVER_CORE_MIN, j)
    {
      var blockType := U16le(packet[..], i);
      if blockType != TS_UD_SC_CORE {
        continue;
      }
      var blockLen := U16le(packet[..], i + 2);
      if blockLen < 12 || i + blockLen > packet.Length {
        continue;
      }
      assert Leftmost(data, TS_UD_SC_CORE, SERVER_CORE_MIN, i);
      SetField(packet, i + 8, if clientRequestedProtocols.Some? then clientRequestedProtocols.value else PROTOCOL_SSL);
      return packet[..];
    }
    r := packet[..];
  }

  // ---- what the patches promise ----

  lemma LowByteChanges(s: bytes, r: bytes, p: int)
    requires WithU32(s, r, p, PROTOCOL_HYBRID) && s[p..p + 4] == [1, 0, 0, 0]
    ensures s[p] == 1 && r == s[p := 2]
  {
    assert PackU32le(PROTOCOL_HYBRID) == [2, 0, 0, 0];
    assert s[p..p + 4][0] == s[p];
    assert s == s[..p] + s[p..p + 4] + s[p + 4..];
    assert r == r[..p] + r[p..p + 4] + r[p + 4..];
  }

  lemma SslField(s: bytes, p: int)
    requires 0 <= p && p + 4 <= |s| && U32le(s, p) == PROTOCOL_SSL
    ensures s[p..p + 4] == [1, 0, 0, 0]
  {
    PackUndoesUnpack(s, p);
    assert PackU32le(PROTOCOL_SSL) == [1, 0, 0, 0];
  }

  lemma ClientPatchLocal(s: bytes, r: bytes)
    requires ClientPatch(s, r)
    ensures |r| == |s|
    ensures r == s || exists p :: 0 <= p < |s| && s[p] == 1 && r == s[p := 2]
  {
    if HasBlock(s, TS_UD_CS_CORE, CLIENT_CORE_MIN) && r != s {
      var i :| Leftmost(s, TS_UD_CS_CORE, CLIENT_CORE_MIN, i);
      SslField(s, i + CLIENT_FIELD);
      LowByteChanges(s, r, i + CLIENT_FIELD);
    }
  }

  /** Bytes set inside the leftmost block's field do not move the leftmost block. */
  lemma LeftmostStays(s: bytes, r: bytes, blockType: int, minLen: int, field: int, v: u32, i: int)
    requires Leftmost(s, blockType, minLen, i) && 4 <= field && field + 4 <= minLen
    requires WithU32(s, r, i + field, v)
    ensures Leftmost(r, blockType, minLen, i) && U32le(r, i + field) == v
  {
    var off := i + field;
    forall j | 0 <= j <= i
      ensures BlockAt(r, blockType, minLen, j) <==> BlockAt(s, blockType, minLen, j)
    {
      assert forall k :: j <= k < j + 4 ==> r[k] == r[..off][k] == s[..off][k] == s[k];
    }
    UnpackUndoesPack(v);
    assert forall k :: 0 <= k < 4 ==> r[off + k] == r[off..off + 4][k] == PackU32le(v)[k];
  }

  /** Patching a patched client packet changes nothing. */
  lemma ClientPatchIdempotent(s: bytes, r: bytes, t: bytes)
    requires ClientPatch(s, r) && ClientPatch(r, t)
    ensures t == r
  {
    if r != s {
      var i :| Leftmost(s, TS_UD_CS_CORE, CLIENT_CORE_MIN, i);
      LeftmostStays(s, r, TS_UD_CS_CORE, CLIENT_CORE_MIN, CLIENT_FIELD, PROTOCOL_HYBRID, i);
    } else if HasBlock(s, TS_UD_CS_CORE, CLIENT_CORE_MIN) {
      var i :| Leftmost(s, TS_UD_CS_CORE, CLIENT_CORE_MIN, i);
      if U32le(s, i + CLIENT_FIELD) == PROTOCOL_SSL {
        LeftmostStays(s, r, TS_UD_CS_CORE, CLIENT_CORE_MIN, CLIENT_FIELD, PROTOCOL_HYBRID, i);
      }
    }
  }

  /** Patching a patched server packet for the same client changes nothing. */
  lemma ServerPatchIdempotent(s: bytes, target: u32, r: bytes, t: bytes)
    requires ServerPatch(s, target, r) && ServerPatch(r, target, t)
    ensures |r| == |s| && t == r
  {
    if HasBlock(s, TS_UD_SC_CORE, SERVER_CORE_MIN) {
      var i :| Leftmost(s, TS_UD_SC_CORE, SERVER_CORE_MIN, i);
      LeftmostStays(s, r, TS_UD_SC_CORE, SERVER_CORE_MIN, SERVER_FIELD, target, i);
      var off := i + SERVER_FIELD;
      assert t == t[..off] + t[off..off + 4] + t[off + 4..];
      assert r == r[..off] + r[off..off + 4] + r[off + 4..];
    }
  }

  /** The specifications determine the result. */
  lemma PatchesAreUnique(s: bytes, target: u32, r1: bytes, r2: bytes)
    ensures ClientPatch(s, r1) && ClientPatch(s, r2) ==> r1 == r2
    ensures ServerPatch(s, target, r1) && ServerPatch(s, target, r2) ==> r1 == r2
  {
    forall off: int, v: u32 | WithU32(s, r1, off, v) && WithU32(s, r2, off, v)
      ensures r1 == r2
    {
      assert r1 == r1[..off] + r1[off..off + 4] + r1[off + 4..];
      assert r2 == r2[..off] + r2[off..off + 4] + r2[off + 4..];
    }
  }
}
