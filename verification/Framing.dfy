/** TPKT frames (section 6 of RFC 1006), CredSSP records, and the X.224 Connection Request. */
module Framing {
  import opened Basics
  import opened Der
  import opened Streams
  import opened CredSsp

  const TPKT_VERSION: byte := 3
  const MAX_CREDSSP_RECORD_LEN := 64 * 1024
  const REQUESTED_PROTOCOLS_HYBRID: u32 := 3

  /** `struct.pack(">H", ...)` raises when the number does not fit. */
  function BuildTpkt(payload: bytes): Result<bytes> {
    var n := |payload| + 4;
    if n > 0xffff then Failure(StructError)
    else Success([TPKT_VERSION, 0, n / 256, n % 256] + payload)
  }

  /** Reading one TPKT frame, payload only. */
  function TpktOf(s: bytes): Read<bytes> {
    if |s| < 4 then Read(Failure(IncompleteRead), [])
    else if s[0] != TPKT_VERSION then Read(Failure(ValueError), s[4..])
    else TakeExactly(s[4..], U16be(s, 2) - 4)
  }

  /** `read_tpkt`: `initial` holds bytes of the header that were read before; what it holds beyond the
      header is dropped. */
  method ReadTpkt(reader: StreamReader, initial: bytes) returns (r: Result<bytes>)
    requires reader.Valid()
    modifies reader`pos
    ensures reader.Valid() && Read(r, reader.Rest()) == TpktOf(Slice(initial, 0, 4) + old(reader.Rest()))
  {
    var header := initial;
    ghost var s := Slice(initial, 0, 4) + reader.Rest();
    if |header| < 4 {
      var more := reader.ReadExactly(4 - |header|);
      if more.Failure? {
        return more;
      }
      header := header + more.value;
    }
    assert header[..4] == s[..4] && reader.Rest() == s[4..];
    if header[0] != TPKT_VERSION {
      return Failure(ValueError);
    }
    var totalLen: int := U16be(header, 2);
    r := reader.ReadExactly(totalLen - 4);
  }

  /** Reading one CredSSP record: a DER element with its header. A TPKT frame is not read: the code
      takes the length from `rest[2:4]` of the three octets it has read, one octet too few. */
  function RecordOf(s: bytes): Read<bytes> {
    if s == [] then Read(Failure(IncompleteRead), [])
    else if s[0] == TPKT_VERSION then
      if |s| < 4 then Read(Failure(IncompleteRead), [])
      else Read(Failure(StructError), s[4..])
    else if s[0] != SEQUENCE then Read(Failure(ValueError), s[1..])
    else ElementOf(s)
  }

  /** Reading a DER element whose tag is there: length, size limit, contents. */
  function ElementOf(s: bytes): Read<bytes>
    requires s != []
  {
    if |s| < 2 then Read(Failure(IncompleteRead), [])
    else
      var headerLen := if s[1] >= 0x80 then 2 + (s[1] - 0x80) else 2;
      if |s| < headerLen then Read(Failure(IncompleteRead), [])
      else
        var plen := if s[1] >= 0x80 then FromBytes(s[2..headerLen]) else s[1];
        ContentsOf(s[..headerLen], s[headerLen..], plen)
  }

  /** Reading the contents after the header. */
  function ContentsOf(header: bytes, s: bytes, plen: nat): Read<bytes> {
    if plen > MAX_CREDSSP_RECORD_LEN then Read(Failure(ValueError), s)
    else if |s| < plen then Read(Failure(IncompleteRead), [])
    else Read(Success(header + s[..plen]), s[plen..])
  }

  /** `_read_credssp_record` */
  method ReadCredsspRecord(reader: StreamReader) returns (r: Result<bytes>)
    requires reader.Valid()
    modifies reader`pos
    ensures reader.Valid() && Read(r, reader.Rest()) == RecordOf(old(reader.Rest()))
  {
    ghost var s := reader.Rest();
    var first := reader.ReadExactly(1);
    if first.Failure? {
      return first;
    }
    if first.value[0] == TPKT_VERSION {
      var rest := reader.ReadExactly(3);
      if rest.Failure? {
        return rest;
      }
      assert reader.Rest() == s[4..];
      // unpacking the length from `rest[2:4]` raises
      assert |Slice(rest.value, 2, 4)| == 1;
      return Failure(StructError);
    }
    if first.value[0] != SEQUENCE {
      return Failure(ValueError);
    }
    assert first.value + reader.Rest() == s;
    r := ReadElement(reader, first.value);
  }

  /** The part of `_read_credssp_record` after a SEQUENCE tag. */
  method ReadElement(reader: StreamReader, first: bytes) returns (r: Result<bytes>)
    requires reader.Valid() && |first| == 1
    modifies reader`pos
    ensures reader.Valid() && Read(r, reader.Rest()) == ElementOf(first + old(reader.Rest()))
  {
    ghost var s := first + reader.Rest();
    var lenByte := reader.ReadExactly(1);
    if lenByte.Failure? {
      return lenByte;
    }
    var header := first + lenByte.value;
    assert header == s[..2] && reader.Rest() == s[2..];
    var plen: nat := lenByte.value[0];
    if lenByte.value[0] >= 0x80 {
      var lenExt := reader.ReadExactly(lenByte.value[0] - 0x80);
      if lenExt.Failure? {
        return lenExt;
      }
      header := header + lenExt.value;
      plen := FromBytes(lenExt.value);
      assert lenExt.value == s[2..|header|];
    }
    assert header == s[..|header|] && reader.Rest() == s[|header|..];
    r := ReadContents(reader, header, plen);
  }

  method ReadContents(reader: StreamReader, header: bytes, plen: nat) returns (r: Result<bytes>)
    requires reader.Valid()
    modifies reader`pos
    ensures reader.Valid() && Read(r, reader.Rest()) == ContentsOf(header, old(reader.Rest()), plen)
  {
    if plen > MAX_CREDSSP_RECORD_LEN {
      return Failure(ValueError);
    }
    var payload := reader.ReadExactly(plen);
    if payload.Failure? {
      return payload;
    }
    r := Success(header + payload.value);
  }

  // ---- framing is self-delimiting ----

  lemma TpktDelimits(payload: bytes)
    requires BuildTpkt(payload).Success?
    ensures Delimits(TpktOf, BuildTpkt(payload).value, payload)
  {
    var frame := BuildTpkt(payload).value;
    forall rest
      ensures TpktOf(frame + rest) == Read(Success(payload), rest)
    {
      assert (frame + rest)[4..] == payload + rest;
    }
  }

  /** A concatenation of TPKT frames reads back as their payloads in order, nothing left over. */
  lemma TpktFramesReadBack(payloads: seq<bytes>, frames: seq<bytes>)
    requires |payloads| == |frames|
    requires forall i :: 0 <= i < |frames| ==> BuildTpkt(payloads[i]) == Success(frames[i])
    ensures ReadMany(TpktOf, Concat(frames), |frames|) == Some((payloads, []))
  {
    forall i | 0 <= i < |frames|
      ensures Delimits(TpktOf, frames[i], payloads[i])
    {
      TpktDelimits(payloads[i]);
    }
    FramesReadBack(TpktOf, frames, payloads, []);
    assert Concat(frames) + [] == Concat(frames);
  }

  /** The octets of a frame; a payload that does not leave room for the header raises. */
  lemma TpktOctets(payload: bytes, hi: byte, lo: byte)
    ensures |payload| > 65531 ==> BuildTpkt(payload) == Failure(StructError)
    ensures |payload| <= 65531 && 256 * (hi as int) + lo == |payload| + 4 ==>
      BuildTpkt(payload) == Success([3, 0, hi, lo] + payload)
  {
  }

  /** How any stream reads as a frame. */
  lemma TpktIs(s: bytes)
    ensures |s| < 4 ==> TpktOf(s) == Read(Failure(IncompleteRead), [])
    ensures 4 <= |s| && s[0] != 3 ==> TpktOf(s) == Read(Failure(ValueError), s[4..])
    ensures 4 <= |s| && s[0] == 3 ==> var n := 256 * (s[2] as int) + s[3];
      TpktOf(s) == if n < 4 then Read(Failure(ValueError), s[4..])
                   else if |s| < n then Read(Failure(IncompleteRead), [])
                   else Read(Success(s[4..n]), s[n..])
  {
    if 4 <= |s| {
      var n := U16be(s, 2);
      assert n == 256 * (s[2] as int) + s[3];
      if 4 <= n <= |s| {
        assert s[4..][..n - 4] == s[4..n] && s[4..][n - 4..] == s[n..];
      }
    }
  }

  /** What no record starts with, and a record whose length is cut short, raise. */
  lemma RecordFails(s: bytes)
    ensures s == [] ==> RecordOf(s) == Read(Failure(IncompleteRead), [])
    ensures s != [] && s[0] == 3 ==>
      RecordOf(s) == if |s| < 4 then Read(Failure(IncompleteRead), []) else Read(Failure(StructError), s[4..])
    ensures s != [] && s[0] != 3 && s[0] != 0x30 ==> RecordOf(s) == Read(Failure(ValueError), s[1..])
    ensures s != [] && s[0] == 0x30 && (|s| == 1 || |s| < s[1] as int - 126) ==>
      RecordOf(s) == Read(Failure(IncompleteRead), [])
  {
  }

  /** A SEQUENCE with whole length octets `h` that announce `n` octets of contents: at most 64 KiB are read,
      and no fewer than announced. */
  lemma RecordIs(h: bytes, n: nat, body: bytes)
    requires (|h| == 1 && h[0] < 0x80 && n == h[0])
          || (1 <= |h| <= 128 && h[0] == 0x80 + (|h| - 1) && n == FromBytes(h[1..]))
    ensures RecordOf([0x30] + h + body)
      == if n > 65536 then Read(Failure(ValueError), body)
         else if |body| < n then Read(Failure(IncompleteRead), [])
         else Read(Success([0x30] + h + body[..n]), body[n..])
  {
    var s := [0x30] + h + body;
    assert s[1] == h[0] && s[1 + |h|..] == body && s[..1 + |h|] == [0x30] + h;
    if h[0] >= 0x80 {
      assert s[2..1 + |h|] == h[1..];
    }
  }

  lemma RecordDelimits(contents: bytes, out: bytes)
    requires IsTlv(SEQUENCE, contents, out) && |contents| <= MAX_CREDSSP_RECORD_LEN
    ensures Delimits(RecordOf, out, out)
  {
    var h :| IsTlvWith(SEQUENCE, h, contents, out);
    forall rest
      ensures RecordOf(out + rest) == Read(Success(out), rest)
    {
      var s := out + rest;
      assert s[1] == h[0];
      if s[1] >= 0x80 {
        assert s[2..1 + |h|] == h[1..];
      }
      assert s[..1 + |h|] + contents == out && s[1 + |h|..] == contents + rest;
    }
  }

  lemma ContentsAreConsumed(header: bytes, body: bytes, plen: nat)
    ensures var r := ContentsOf(header, body, plen);
      r.result.Success? ==> header + body == r.result.value + r.rest
  {
    if plen <= |body| {
      assert body == body[..plen] + body[plen..];
    }
  }

  lemma ElementIsConsumed(s: bytes)
    requires s != []
    ensures var r := ElementOf(s); r.result.Success? ==> s == r.result.value + r.rest
  {
    if |s| >= 2 {
      var headerLen := if s[1] >= 0x80 then 2 + (s[1] - 0x80) else 2;
      if |s| >= headerLen {
        assert s == s[..headerLen] + s[headerLen..];
        ContentsAreConsumed(s[..headerLen], s[headerLen..],
                            if s[1] >= 0x80 then FromBytes(s[2..headerLen]) else s[1]);
      }
    }
  }

  lemma TpktIsRefused(payload: bytes, rest: bytes)
    requires BuildTpkt(payload).Success?
    ensures RecordOf(BuildTpkt(payload).value + rest) == Read(Failure(StructError), payload + rest)
  {
    assert (BuildTpkt(payload).value + rest)[4..] == payload + rest;
  }

  /** Whatever is read is exactly what was consumed, and it is a SEQUENCE; a TPKT frame never is. */
  lemma RecordIsConsumed(s: bytes)
    ensures var r := RecordOf(s);
      r.result.Success? ==> s != [] && s[0] == SEQUENCE && s == r.result.value + r.rest
    ensures forall payload, rest :: BuildTpkt(payload).Success? && s == BuildTpkt(payload).value + rest ==>
      RecordOf(s) == Read(Failure(StructError), payload + rest)
  {
    if s != [] {
      ElementIsConsumed(s);
    }
    forall payload, rest | BuildTpkt(payload).Success? && s == BuildTpkt(payload).value + rest
      ensures RecordOf(s) == Read(Failure(StructError), payload + rest)
    {
      TpktIsRefused(payload, rest);
    }
  }

  /** A concatenation of TSRequest encodings of at most 64 KiB each, in any length forms, reads back
      record by record with nothing left over, and each record decodes to its fields. */
  lemma RequestsReadBack(requests: seq<Fields>, records: seq<bytes>)
    requires |requests| == |records|
    requires forall i :: 0 <= i < |records| ==>
        Encodes(requests[i], records[i]) && |records[i]| <= MAX_CREDSSP_RECORD_LEN
    ensures ReadMany(RecordOf, Concat(records), |records|) == Some((records, []))
    ensures forall i :: 0 <= i < |records| ==> Parse(records[i]) == Success(requests[i])
  {
    forall i | 0 <= i < |records|
      ensures Delimits(RecordOf, records[i], records[i]) && Parse(records[i]) == Success(requests[i])
    {
      ParseUndoesEncoding(requests[i], records[i]);
      var versionContents, version, nego, auth, pubkey :|
        && IsTlv(CONTEXT_0, versionContents, version)
        && IsFieldBlob(requests[i], NegoData, nego) && IsFieldBlob(requests[i], AuthInfo, auth)
        && IsFieldBlob(requests[i], PubKeyAuth, pubkey)
        && IsTlv(SEQUENCE, version + nego + auth + pubkey, records[i]);
      RecordDelimits(version + nego + auth + pubkey, records[i]);
    }
    FramesReadBack(RecordOf, records, records, []);
    assert Concat(records) + [] == Concat(records);
  }

  // ---- X.224 ----

  const X224_CR: bytes := [0x0e, 0xe0, 0, 0, 0, 0, 0]
  const NEG_REQ: bytes := [0x01, 0x00, 0x08, 0x00]

  /** `build_x224_cr` */
  function BuildX224Cr(requestedProtocols: u32): Result<bytes> {
    BuildTpkt(X224_CR + (NEG_REQ + PackU32le(requestedProtocols)))
  }

  /** `extract_requested_protocols` */
  function ExtractRequestedProtocols(x224: bytes): u32 {
    var marker := Find(x224, NEG_REQ, 0);
    if marker.Some? && marker.value + 8 <= |x224| then U32le(x224, marker.value + 4)
    else REQUESTED_PROTOCOLS_HYBRID
  }

  /** The octets of a connection request. */
  lemma CrOctets(v: u32)
    ensures BuildX224Cr(v) == Success(
      [3, 0, 0, 19, 0x0e, 0xe0, 0, 0, 0, 0, 0, 1, 0, 8, 0] + PackU32le(v))
  {
    TpktOctets(X224_CR + (NEG_REQ + PackU32le(v)), 0, 19);
    assert [3, 0, 0, 19] + (X224_CR + (NEG_REQ + PackU32le(v)))
        == [3, 0, 0, 19, 0x0e, 0xe0, 0, 0, 0, 0, 0, 1, 0, 8, 0] + PackU32le(v);
  }

  /** A negotiation request starts at `i`. */
  predicate MarkerAt(x224: bytes, i: int) {
    0 <= i && i + 4 <= |x224| && x224[i] == 1 && x224[i + 1] == 0 && x224[i + 2] == 8 && x224[i + 3] == 0
  }

  /** The flags are those of the leftmost negotiation request; without one, and where it is cut short, both
      TLS and CredSSP are taken as requested. */
  lemma ExtractIs(x224: bytes, i: int)
    ensures (forall j :: !MarkerAt(x224, j)) ==> ExtractRequestedProtocols(x224) == 3
    ensures MarkerAt(x224, i) && (forall j :: 0 <= j < i ==> !MarkerAt(x224, j)) ==>
      ExtractRequestedProtocols(x224) == if i + 8 <= |x224| then U32le(x224, i + 4) else 3
  {
    forall j
      ensures MarkerAt(x224, j) <==> OccursAt(x224, NEG_REQ, j)
    {
      if 0 <= j && j + 4 <= |x224| {
        assert x224[j..j + 4] == [x224[j], x224[j + 1], x224[j + 2], x224[j + 3]];
      }
    }
  }

  /** Every u32 comes back from a connection request that was built, framed, read and searched. */
  lemma RequestedProtocolsSurvive(v: u32, rest: bytes)
    ensures var cr := BuildX224Cr(v);
      && cr.Success?
      && TpktOf(cr.value + rest).result.Success?
      && TpktOf(cr.value + rest).rest == rest
      && ExtractRequestedProtocols(TpktOf(cr.value + rest).result.value) == v
  {
    var payload := X224_CR + (NEG_REQ + PackU32le(v));
    TpktDelimits(payload);
    assert Delimits(TpktOf, BuildX224Cr(v).value, payload);
    forall j | 0 <= j < 7
      ensures !OccursAt(payload, NEG_REQ, j)
    {
      assert payload[j] == X224_CR[j];
      assert payload[j..j + 4][0] != NEG_REQ[0];
    }
    assert payload[7..11] == NEG_REQ;
    assert OccursAt(payload, NEG_REQ, 7);
    assert Find(payload, NEG_REQ, 0) == Some(7);
    assert payload[11..15] == PackU32le(v);
    UnpackUndoesPack(v);
  }
}
