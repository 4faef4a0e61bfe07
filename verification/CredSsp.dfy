/** The hand-written TSRequest encoder and decoder (section 2.2.1 of MS-CSSP) and the extraction of
    the raw public key from a SubjectPublicKeyInfo (section 4.1 of RFC 5280). */
module CredSsp {
  import opened Basics
  import opened Der

  const SEQUENCE: byte := 0x30
  const OCTET_STRING: byte := 0x04
  const INTEGER: byte := 0x02
  const BIT_STRING: byte := 0x03
  const CONTEXT_0: byte := 0xA0
  const CONTEXT_1: byte := 0xA1
  const CONTEXT_2: byte := 0xA2
  const CONTEXT_3: byte := 0xA3

  datatype Field = NegoData | AuthInfo | PubKeyAuth

  type Fields = map<Field, bytes>

  // ---- encoding ----

  /** A tag around an OCTET STRING. */
  function OctetBlob(tag: byte, data: bytes): Result<bytes> {
    var inner :- Tlv(OCTET_STRING, data);
    Tlv(tag, inner)
  }

  function NegoBlob(data: bytes): Result<bytes> {
    var inner :- OctetBlob(CONTEXT_0, data);
    var item :- Tlv(SEQUENCE, inner);
    var items :- Tlv(SEQUENCE, item);
    Tlv(CONTEXT_1, items)
  }

  function VersionBlob(): Result<bytes> {
    var inner :- Tlv(INTEGER, [2]);
    Tlv(CONTEXT_0, inner)
  }

  /** `get_data` */
  function GetData(f: Fields): Result<bytes> {
    var version :- VersionBlob();
    var nego :- if NegoData in f then NegoBlob(f[NegoData]) else Success([]);
    var auth :- if AuthInfo in f then OctetBlob(CONTEXT_2, f[AuthInfo]) else Success([]);
    var pubkey :- if PubKeyAuth in f then OctetBlob(CONTEXT_3, f[PubKeyAuth]) else Success([]);
    Tlv(SEQUENCE, version + nego + auth + pubkey)
  }

  // ---- decoding ----

  /** `_extract_octet_from_nego_data` */
  function ExtractOctet(raw: bytes): Result<bytes> {
    if raw == [] then Failure(IndexError)
    else if raw[0] != SEQUENCE then Success(raw)
    else
      var inner := Asn1Decode(raw[1..]).0;
      if inner == [] then Success(raw)
      else if inner[0] != SEQUENCE then Success(inner)
      else
        var inner2 := Asn1Decode(inner[1..]).0;
        if inner2 == [] then Success(inner)
        else if inner2[0] != CONTEXT_0 then Success(inner2)
        else
          var inner3 := Asn1Decode(inner2[1..]).0;
          if inner3 != [] && inner3[0] == OCTET_STRING then Success(Asn1Decode(inner3[1..]).0)
          else Success(inner3)
  }

  /** The fields after one element of the request; an element of another shape is skipped. */
  function Store(f: Fields, tag: byte, content: bytes): Result<Fields> {
    if tag == CONTEXT_1 then
      var payload :- ExtractOctet(content);
      Success(f[NegoData := payload])
    else if tag == CONTEXT_2 || tag == CONTEXT_3 then
      if content == [] then Failure(IndexError)
      else if content[0] != OCTET_STRING then Success(f)
      else
        var payload := Asn1Decode(content[1..]).0;
        Success(f[(if tag == CONTEXT_2 then AuthInfo else PubKeyAuth) := payload])
    else Success(f)
  }

  /** Decoding the elements `data` on top of the fields `f`. */
  function ParseFields(f: Fields, data: bytes): Result<Fields>
    decreases |data|
  {
    if data == [] then Success(f)
    else
      var (content, consumed) := Asn1Decode(data[1..]);
      var g :- Store(f, data[0], content);
      ParseFields(g, Slice(data[1..], consumed, |data|))
  }

  /** `TSRequest(data).fields` */
  function Parse(data: bytes): Result<Fields> {
    if data == [] then Success(map[])
    else if data[0] != SEQUENCE then Failure(ValueError)
    else ParseFields(map[], Asn1Decode(data[1..]).0)
  }

  class TSRequest {
    var fields: Fields

    constructor ()
      ensures fields == map[]
    {
      fields := map[];
    }

    /** The decode loop; it ends on every input. */
    method FromString(data: bytes) returns (r: Result<()>)
      modifies this
      ensures data == [] ==> r == Failure(IndexError)
      ensures data != [] && data[0] != 0x30 ==> r == Failure(ValueError) && fields == old(fields)
      ensures data != [] && data[0] == 0x30 ==>
        var parsed := ParseFields(old(fields), Asn1Decode(data[1..]).0);
        if parsed.Success? then r == Success(()) && fields == parsed.value else r == Failure(parsed.error)
    {
      if data == [] {
        return Failure(IndexError);
      }
      if data[0] != SEQUENCE {
        return Failure(ValueError);
      }
      var rest := Asn1Decode(data[1..]).0;
      ghost var whole := ParseFields(fields, rest);
      while rest != []
        invariant ParseFields(fields, rest) == whole
        decreases |rest|
      {
        var tag := rest[0];
        rest := rest[1..];
        var (content, consumed) := Asn1Decode(rest);
        rest := Slice(rest, consumed, |rest| + 1);
        var stored := Store(fields, tag, content);
        if stored.Failure? {
          return Failure(stored.error);
        }
        fields := stored.value;
      }
      r := Success(());
    }
  }

  // ---- what counts as an encoding ----

  /** An OCTET STRING within a tag. */
  ghost predicate IsOctetBlob(tag: byte, data: bytes, out: bytes) {
    exists inner :: IsTlv(0x04, data, inner) && IsTlv(tag, inner, out)
  }

  /** NegoData: [1] around a SEQUENCE of one SEQUENCE with the octets at [0]. */
  ghost predicate IsNegoBlob(data: bytes, out: bytes) {
    exists inner, item, items ::
      && IsOctetBlob(0xA0, data, inner) && IsTlv(0x30, inner, item)
      && IsTlv(0x30, item, items) && IsTlv(0xA1, items, out)
  }

  /** The encoding of an optional field, empty when the field is absent. */
  ghost predicate IsFieldBlob(f: Fields, field: Field, out: bytes) {
    if field !in f then out == []
    else match field
      case NegoData => IsNegoBlob(f[field], out)
      case AuthInfo => IsOctetBlob(0xA2, f[field], out)
      case PubKeyAuth => IsOctetBlob(0xA3, f[field], out)
  }

  /** `out` encodes the fields `f` with any definite length form at every level and any version. */
  ghost predicate Encodes(f: Fields, out: bytes) {
    exists versionContents, version, nego, auth, pubkey ::
      && IsTlv(0xA0, versionContents, version)
      && IsFieldBlob(f, NegoData, nego) && IsFieldBlob(f, AuthInfo, auth) && IsFieldBlob(f, PubKeyAuth, pubkey)
      && IsTlv(0x30, version + nego + auth + pubkey, out)
  }

  /** An encoding whose first element says version 2 in the shortest form. */
  ghost predicate EncodesVersion2(f: Fields, out: bytes) {
    exists nego, auth, pubkey ::
      && IsFieldBlob(f, NegoData, nego) && IsFieldBlob(f, AuthInfo, auth) && IsFieldBlob(f, PubKeyAuth, pubkey)
      && IsTlv(0x30, [0xA0, 0x03, 0x02, 0x01, 0x02] + nego + auth + pubkey, out)
  }

  lemma OctetBlobEncodes(tag: byte, data: bytes)
    ensures OctetBlob(tag, data).Success? ==> IsOctetBlob(tag, data, OctetBlob(tag, data).value)
  {
  }

  lemma NegoBlobEncodes(data: bytes)
    ensures NegoBlob(data).Success? ==> IsNegoBlob(data, NegoBlob(data).value)
  {
    OctetBlobEncodes(CONTEXT_0, data);
  }

  lemma VersionOctets()
    ensures VersionBlob() == Success([0xA0, 0x03, 0x02, 0x01, 0x02])
  {
    TlvIsShortest(0x02, [0x01], [0x02]);
    assert [0x02] + [0x01] + [0x02] == [0x02, 0x01, 0x02];
    TlvIsShortest(0xA0, [0x03], [0x02, 0x01, 0x02]);
    assert [0xA0] + [0x03] + [0x02, 0x01, 0x02] == [0xA0, 0x03, 0x02, 0x01, 0x02];
  }

  /** Whatever `get_data` returns is an encoding of the fields that announces version 2. */
  lemma GetDataEncodes(f: Fields)
    ensures GetData(f).Success? ==> EncodesVersion2(f, GetData(f).value) && Encodes(f, GetData(f).value)
  {
    if GetData(f).Success? {
      var version := VersionBlob().value;
      var nego := if NegoData in f then NegoBlob(f[NegoData]).value else [];
      var auth := if AuthInfo in f then OctetBlob(CONTEXT_2, f[AuthInfo]).value else [];
      var pubkey := if PubKeyAuth in f then OctetBlob(CONTEXT_3, f[PubKeyAuth]).value else [];
      VersionOctets();
      assert IsTlvWith(0xA0, [0x03], [0x02, 0x01, 0x02], version);
      if NegoData in f { NegoBlobEncodes(f[NegoData]); }
      if AuthInfo in f { OctetBlobEncodes(CONTEXT_2, f[AuthInfo]); }
      if PubKeyAuth in f { OctetBlobEncodes(CONTEXT_3, f[PubKeyAuth]); }
      assert IsFieldBlob(f, NegoData, nego) && IsFieldBlob(f, AuthInfo, auth) && IsFieldBlob(f, PubKeyAuth, pubkey);
      assert IsTlv(SEQUENCE, version + nego + auth + pubkey, GetData(f).value);
    }
  }

  // ---- decoding undoes encoding ----

  lemma ElementParses(f: Fields, tag: byte, contents: bytes, out: bytes, rest: bytes)
    requires IsTlv(tag, contents, out)
    ensures ParseFields(f, out + rest)
         == if Store(f, tag, contents).Success? then ParseFields(Store(f, tag, contents).value, rest)
            else Failure(Store(f, tag, contents).error)
  {
    TlvDecodes(tag, contents, out, rest);
  }

  lemma TlvAlone(tag: byte, contents: bytes, out: bytes)
    requires IsTlv(tag, contents, out)
    ensures out != [] && out[0] == tag && Asn1Decode(out[1..]).0 == contents
  {
    TlvDecodes(tag, contents, out, []);
    assert out + [] == out;
  }

  lemma OctetBlobParses(f: Fields, tag: byte, data: bytes, out: bytes, rest: bytes)
    requires IsOctetBlob(tag, data, out) && (tag == CONTEXT_2 || tag == CONTEXT_3)
    ensures ParseFields(f, out + rest)
         == ParseFields(f[(if tag == CONTEXT_2 then AuthInfo else PubKeyAuth) := data], rest)
  {
    var inner :| IsTlv(OCTET_STRING, data, inner) && IsTlv(tag, inner, out);
    TlvAlone(OCTET_STRING, data, inner);
    ElementParses(f, tag, inner, out, rest);
  }

  lemma NegoBlobParses(f: Fields, data: bytes, out: bytes, rest: bytes)
    requires IsNegoBlob(data, out)
    ensures ParseFields(f, out + rest) == ParseFields(f[NegoData := data], rest)
  {
    var inner, item, items :|
      && IsOctetBlob(CONTEXT_0, data, inner) && IsTlv(SEQUENCE, inner, item)
      && IsTlv(SEQUENCE, item, items) && IsTlv(CONTEXT_1, items, out);
    var octets :| IsTlv(OCTET_STRING, data, octets) && IsTlv(CONTEXT_0, octets, inner);
    TlvAlone(OCTET_STRING, data, octets);
    TlvAlone(CONTEXT_0, octets, inner);
    TlvAlone(SEQUENCE, inner, item);
    TlvAlone(SEQUENCE, item, items);
    ElementParses(f, CONTEXT_1, items, out, rest);
  }

  lemma FieldParses(f: Fields, g: Fields, field: Field, out: bytes, rest: bytes)
    requires IsFieldBlob(f, field, out)
    ensures ParseFields(g, out + rest) == ParseFields(if field in f then g[field := f[field]] else g, rest)
  {
    if field !in f {
      assert out + rest == rest;
    } else {
      match field {
        case NegoData => NegoBlobParses(g, f[field], out, rest);
        case AuthInfo => OctetBlobParses(g, CONTEXT_2, f[field], out, rest);
        case PubKeyAuth => OctetBlobParses(g, CONTEXT_3, f[field], out, rest);
      }
    }
  }

  lemma ThreeFields(f: Fields)
    ensures
      var f1 := if NegoData in f then map[NegoData := f[NegoData]] else map[];
      var f2 := if AuthInfo in f then f1[AuthInfo := f[AuthInfo]] else f1;
      f == if PubKeyAuth in f then f2[PubKeyAuth := f[PubKeyAuth]] else f2
  {
    forall k: Field | k in f
      ensures k == NegoData || k == AuthInfo || k == PubKeyAuth
    {
    }
  }

  lemma BlobsParse(f: Fields, versionContents: bytes, version: bytes, nego: bytes, auth: bytes, pubkey: bytes)
    requires IsTlv(0xA0, versionContents, version)
    requires IsFieldBlob(f, NegoData, nego) && IsFieldBlob(f, AuthInfo, auth) && IsFieldBlob(f, PubKeyAuth, pubkey)
    ensures ParseFields(map[], version + (nego + (auth + (pubkey + [])))) == Success(f)
  {
    var f0: Fields := map[];
    ElementParses(f0, CONTEXT_0, versionContents, version, nego + (auth + (pubkey + [])));
    FieldParses(f, f0, NegoData, nego, auth + (pubkey + []));
    var f1 := if NegoData in f then f0[NegoData := f[NegoData]] else f0;
    FieldParses(f, f1, AuthInfo, auth, pubkey + []);
    var f2 := if AuthInfo in f then f1[AuthInfo := f[AuthInfo]] else f1;
    FieldParses(f, f2, PubKeyAuth, pubkey, []);
    ThreeFields(f);
  }

  lemma FourParts(a: bytes, b: bytes, c: bytes, d: bytes)
    ensures a + b + c + d == a + (b + (c + (d + [])))
  {
  }

  /** For every subset of the fields, any contents and any length forms, decoding an encoding gives
      back exactly the fields. */
  lemma ParseUndoesEncoding(f: Fields, out: bytes)
    requires Encodes(f, out)
    ensures Parse(out) == Success(f)
  {
    var versionContents, version, nego, auth, pubkey :|
      && IsTlv(CONTEXT_0, versionContents, version)
      && IsFieldBlob(f, NegoData, nego) && IsFieldBlob(f, AuthInfo, auth) && IsFieldBlob(f, PubKeyAuth, pubkey)
      && IsTlv(SEQUENCE, version + nego + auth + pubkey, out);
    TlvAlone(SEQUENCE, version + nego + auth + pubkey, out);
    FourParts(version, nego, auth, pubkey);
    BlobsParse(f, versionContents, version, nego, auth, pubkey);
  }

  /** What the decoder does with elements of other kinds and shapes: those of an unknown tag and those
      that hold no OCTET STRING are skipped, and one without contents raises. */
  lemma OddElements(f: Fields, tag: byte, contents: bytes, out: bytes, rest: bytes)
    requires IsTlv(tag, contents, out)
    ensures tag !in [0xA1, 0xA2, 0xA3] ==> ParseFields(f, out + rest) == ParseFields(f, rest)
    ensures tag in [0xA2, 0xA3] && contents != [] && contents[0] != 0x04 ==>
      ParseFields(f, out + rest) == ParseFields(f, rest)
    ensures tag in [0xA1, 0xA2, 0xA3] && contents == [] ==> ParseFields(f, out + rest) == Failure(IndexError)
  {
    ElementParses(f, tag, contents, out, rest);
  }

  /** NegoData in other wrappings: each layer is taken off while it has the expected tag, and the last one
      that is not empty counts. */
  lemma PartlyWrapped(f: Fields, raw: bytes, items: bytes, item: bytes, octets: bytes, out: bytes, rest: bytes)
    requires IsTlv(0xA1, raw, out)
    ensures var taken := (data: bytes) => ParseFields(f, out + rest) == ParseFields(f[NegoData := data], rest);
      && (raw != [] && raw[0] != 0x30 ==> taken(raw))
      && (IsTlv(0x30, items, raw) && items == [] ==> taken(raw))
      && (IsTlv(0x30, items, raw) && items != [] && items[0] != 0x30 ==> taken(items))
      && (IsTlv(0x30, items, raw) && IsTlv(0x30, item, items) && item == [] ==> taken(items))
      && (IsTlv(0x30, items, raw) && IsTlv(0x30, item, items) && item != [] && item[0] != 0xA0 ==> taken(item))
      && ((IsTlv(0x30, items, raw) && IsTlv(0x30, item, items) && IsTlv(0xA0, octets, item)
           && (octets == [] || octets[0] != 0x04)) ==> taken(octets))
  {
    ElementParses(f, 0xA1, raw, out, rest);
    if IsTlv(0x30, items, raw) {
      TlvAlone(0x30, items, raw);
      if IsTlv(0x30, item, items) {
        TlvAlone(0x30, item, items);
        if IsTlv(0xA0, octets, item) {
          TlvAlone(0xA0, octets, item);
        }
      }
    }
  }

  /** What is no SEQUENCE is refused, and no data are no fields. */
  lemma OnlySequences(data: bytes)
    ensures data == [] ==> Parse(data) == Success(map[])
    ensures data != [] && data[0] != 0x30 ==> Parse(data) == Failure(ValueError)
    ensures forall f: Fields :: ParseFields(f, []) == Success(f)
  {
  }

  /** `TSRequest(ts.get_data())` has the fields of `ts`. */
  lemma RoundTrip(f: Fields)
    ensures GetData(f).Success? ==> Parse(GetData(f).value) == Success(f)
  {
    if GetData(f).Success? {
      GetDataEncodes(f);
      ParseUndoesEncoding(f, GetData(f).value);
    }
  }

  ghost function SizeOf(f: Fields, field: Field): nat {
    if field in f then |f[field]| else 0
  }

  lemma OctetBlobSize(tag: byte, data: bytes)
    requires |data| <= 4294967295 - 6
    ensures OctetBlob(tag, data).Success? && |OctetBlob(tag, data).value| <= |data| + 12
  {
  }

  lemma TlvSize(tag: byte, contents: bytes)
    requires |contents| <= 4294967295
    ensures Tlv(tag, contents).Success? && |Tlv(tag, contents).value| <= |contents| + 6
  {
  }

  lemma NegoBlobSize(data: bytes)
    requires |data| <= 4294967295 - 30
    ensures NegoBlob(data).Success? && |NegoBlob(data).value| <= |data| + 30
  {
    OctetBlobSize(CONTEXT_0, data);
    var inner := OctetBlob(CONTEXT_0, data).value;
    TlvSize(SEQUENCE, inner);
    var item := Tlv(SEQUENCE, inner).value;
    TlvSize(SEQUENCE, item);
    TlvSize(CONTEXT_1, Tlv(SEQUENCE, item).value);
  }

  /** `get_data` succeeds on everything that leaves room for the headers. */
  lemma GetDataSucceeds(f: Fields)
    requires SizeOf(f, NegoData) + SizeOf(f, AuthInfo) + SizeOf(f, PubKeyAuth) <= 4294967295 - 80
    ensures GetData(f).Success?
    ensures |GetData(f).value| <= SizeOf(f, NegoData) + SizeOf(f, AuthInfo) + SizeOf(f, PubKeyAuth) + 80
  {
    assert Tlv(INTEGER, [2]).Success? && |Tlv(INTEGER, [2]).value| <= 7;
    assert VersionBlob().Success? && |VersionBlob().value| <= 13;
    if NegoData in f { NegoBlobSize(f[NegoData]); }
    if AuthInfo in f { OctetBlobSize(CONTEXT_2, f[AuthInfo]); }
    if PubKeyAuth in f { OctetBlobSize(CONTEXT_3, f[PubKeyAuth]); }
  }

  // ---- SubjectPublicKeyInfo ----

  /** `spki` is a SEQUENCE of an AlgorithmIdentifier SEQUENCE and a BIT STRING holding `key`. */
  ghost predicate IsSpki(spki: bytes, key: bytes) {
    exists h0, h1, algorithm, h2, unused: byte :: IsSpkiWith(spki, key, h0, h1, algorithm, h2, unused)
  }

  ghost predicate IsSpkiWith(spki: bytes, key: bytes, h0: bytes, h1: bytes, algorithm: bytes, h2: bytes, unused: byte) {
    var algo := [0x30] + h1 + algorithm;
    var bits := [0x03] + h2 + ([unused] + key);
    && DefiniteLength(h1, |algorithm|)
    && DefiniteLength(h2, 1 + |key|)
    && DefiniteLength(h0, |algo| + |bits|)
    && spki == [0x30] + h0 + (algo + bits)
  }

  /** The offset after the length octets at `i`. */
  ghost function AfterLength(s: bytes, i: nat): nat
    requires i < |s|
  {
    if s[i] >= 0x80 then i + 1 + (s[i] - 0x80) else i + 1
  }

  /** The length that the octets at `i` give. */
  ghost function LengthAt(s: bytes, i: nat): nat
    requires i < |s|
  {
    if s[i] >= 0x80 then FromBytes(Slice(s, i + 1, i + 1 + (s[i] - 0x80))) else s[i]
  }

  lemma HeaderAt(s: bytes, pre: bytes, h: bytes, n: nat, rest: bytes)
    requires s == pre + h + rest && DefiniteLength(h, n)
    ensures |pre| < |s| && AfterLength(s, |pre|) == |pre| + |h| && LengthAt(s, |pre|) == n
  {
    assert s[|pre|] == h[0];
    if h[0] >= 0x80 {
      assert Slice(s, |pre| + 1, |pre| + |h|) == h[1..];
    }
  }

  /** The outer header and the AlgorithmIdentifier's header are in place. */
  ghost predicate AlgorithmPlaced(s: bytes) {
    && 2 <= |s| && s[0] == 0x30
    && AfterLength(s, 1) + 1 < |s| && s[AfterLength(s, 1)] == 0x30
  }

  /** The offset after the AlgorithmIdentifier. */
  ghost function AlgorithmEnd(s: bytes): nat
    requires AlgorithmPlaced(s)
  {
    AfterLength(s, AfterLength(s, 1) + 1) + LengthAt(s, AfterLength(s, 1) + 1)
  }

  /** At offset `o` a BIT STRING starts whose contents after one octet are `key`. */
  ghost predicate BitsPlaced(s: bytes, o: nat, key: bytes) {
    && o + 1 < |s| && s[o] == 0x03
    && AfterLength(s, o + 1) + 1 <= |s| && s[AfterLength(s, o + 1) + 1..] == key
  }

  lemma AlgorithmLayout(s: bytes, pre: bytes, h: bytes, algorithm: bytes, bits: bytes)
    requires s == pre + (([SEQUENCE] + h + algorithm) + bits) && DefiniteLength(h, |algorithm|)
    ensures |pre| + 1 < |s| && s[|pre|] == SEQUENCE
    ensures AfterLength(s, |pre| + 1) == |pre| + 1 + |h| && LengthAt(s, |pre| + 1) == |algorithm|
  {
    assert s == (pre + [SEQUENCE]) + h + (algorithm + bits);
    HeaderAt(s, pre + [SEQUENCE], h, |algorithm|, algorithm + bits);
  }

  lemma BitsLayout(s: bytes, pre: bytes, h: bytes, unused: byte, key: bytes)
    requires s == pre + ([BIT_STRING] + h + ([unused] + key)) && DefiniteLength(h, 1 + |key|)
    ensures BitsPlaced(s, |pre|, key)
  {
    assert s == (pre + [BIT_STRING]) + h + ([unused] + key);
    HeaderAt(s, pre + [BIT_STRING], h, 1 + |key|, [unused] + key);
  }

  lemma OuterHeader(s: bytes, h0: bytes, inner: bytes)
    requires s == [SEQUENCE] + h0 + inner && DefiniteLength(h0, |inner|)
    ensures 2 <= |s| && s[0] == 0x30 && AfterLength(s, 1) == 1 + |h0|
  {
    HeaderAt(s, [SEQUENCE], h0, |inner|, inner);
  }

  lemma OuterLayout(s: bytes, h0: bytes, h1: bytes, algorithm: bytes, bits: bytes)
    requires s == [SEQUENCE] + h0 + (([SEQUENCE] + h1 + algorithm) + bits)
    requires DefiniteLength(h0, 1 + |h1| + |algorithm| + |bits|) && DefiniteLength(h1, |algorithm|)
    ensures AlgorithmPlaced(s) && AlgorithmEnd(s) == 2 + |h0| + |h1| + |algorithm|
  {
    OuterHeader(s, h0, ([SEQUENCE] + h1 + algorithm) + bits);
    AlgorithmLayout(s, [SEQUENCE] + h0, h1, algorithm, bits);
  }

  lemma Regroup(a: bytes, b: bytes, c: bytes)
    ensures a + (b + c) == a + b + c
  {
  }

  lemma SpkiAlgorithm(s: bytes, key: bytes, h0: bytes, h1: bytes, algorithm: bytes, h2: bytes, unused: byte)
    requires IsSpkiWith(s, key, h0, h1, algorithm, h2, unused)
    ensures AlgorithmPlaced(s) && AlgorithmEnd(s) == 2 + |h0| + |h1| + |algorithm|
  {
    OuterLayout(s, h0, h1, algorithm, [BIT_STRING] + h2 + ([unused] + key));
  }

  lemma SpkiBits(s: bytes, key: bytes, h0: bytes, h1: bytes, algorithm: bytes, h2: bytes, unused: byte)
    requires IsSpkiWith(s, key, h0, h1, algorithm, h2, unused)
    ensures BitsPlaced(s, 2 + |h0| + |h1| + |algorithm|, key)
  {
    var algo := [SEQUENCE] + h1 + algorithm;
    Regroup([SEQUENCE] + h0, algo, [BIT_STRING] + h2 + ([unused] + key));
    BitsLayout(s, [SEQUENCE] + h0 + algo, h2, unused, key);
  }

  lemma SpkiLayoutWith(s: bytes, key: bytes, h0: bytes, h1: bytes, algorithm: bytes, h2: bytes, unused: byte)
    requires IsSpkiWith(s, key, h0, h1, algorithm, h2, unused)
    ensures AlgorithmPlaced(s) && BitsPlaced(s, AlgorithmEnd(s), key)
  {
    SpkiAlgorithm(s, key, h0, h1, algorithm, h2, unused);
    SpkiBits(s, key, h0, h1, algorithm, h2, unused);
  }

  lemma SpkiLayout(s: bytes, key: bytes)
    requires IsSpki(s, key)
    ensures AlgorithmPlaced(s) && BitsPlaced(s, AlgorithmEnd(s), key)
  {
    var h0, h1, algorithm, h2, unused: byte :| IsSpkiWith(s, key, h0, h1, algorithm, h2, unused);
    SpkiLayoutWith(s, key, h0, h1, algorithm, h2, unused);
  }

  lemma KeyIsPlaced(spki: bytes)
    ensures forall key :: IsSpki(spki, key) ==>
      && AlgorithmPlaced(spki) && AlgorithmEnd(spki) + 1 < |spki| && spki[AlgorithmEnd(spki)] == 0x03
      && Slice(spki, AfterLength(spki, AlgorithmEnd(spki) + 1) + 1, |spki|) == key
  {
    forall key | IsSpki(spki, key)
      ensures AlgorithmPlaced(spki) && BitsPlaced(spki, AlgorithmEnd(spki), key)
    {
      SpkiLayout(spki, key);
    }
  }

  /** One of the three tags is there and is another one. */
  ghost predicate WrongTag(s: bytes) {
    || s == [] || s[0] != 0x30
    || (2 <= |s| && AfterLength(s, 1) < |s| && s[AfterLength(s, 1)] != 0x30)
    || (AlgorithmPlaced(s) && AlgorithmEnd(s) < |s| && s[AlgorithmEnd(s)] != 0x03)
  }

  /** For every algorithm body, key and length form the key bytes come back. Any other input whose tags
      are in place gives what follows them, a wrong tag or no input is a ValueError, and input that ends
      before a tag or its length an IndexError. */
  method ExtractRawPubkey(spki: bytes) returns (r: Result<bytes>)
    ensures forall key :: IsSpki(spki, key) ==> r == Success(key)
    ensures r.Success? <==>
      AlgorithmPlaced(spki) && AlgorithmEnd(spki) + 1 < |spki| && spki[AlgorithmEnd(spki)] == 0x03
    ensures r.Success? ==>
      r.value == Slice(spki, AfterLength(spki, AlgorithmEnd(spki) + 1) + 1, |spki|)
    ensures r.Failure? ==> r.error == if WrongTag(spki) then ValueError else IndexError
  {
    KeyIsPlaced(spki);
    var algorithmEnd :- SkipAlgorithm(spki);
    r := SkipToKey(spki, algorithmEnd);
  }

  /** The first half of the extraction: to the end of the AlgorithmIdentifier. */
  method SkipAlgorithm(spki: bytes) returns (r: Result<nat>)
    ensures r.Success? <==> AlgorithmPlaced(spki)
    ensures r.Success? ==> r.value == AlgorithmEnd(spki)
    ensures r.Failure? ==> r.error == if WrongTag(spki) then ValueError else IndexError
  {
    if spki == [] || spki[0] != SEQUENCE {
      return Failure(ValueError);
    }
    var offset: nat := 2;
    if |spki| < 2 {
      return Failure(IndexError);
    }
    if spki[1] >= 0x80 {
      offset := offset + (spki[1] - 0x80);
    }
    assert offset == AfterLength(spki, 1);
    if |spki| <= offset {
      return Failure(IndexError);
    }
    if spki[offset] != SEQUENCE {
      return Failure(ValueError);
    }
    if |spki| <= offset + 1 {
      return Failure(IndexError);
    }
    var algoLenByte := spki[offset + 1];
    if algoLenByte >= 0x80 {
      var n := algoLenByte - 0x80;
      var algoLen := FromBytes(Slice(spki, offset + 2, offset + 2 + n));
      offset := offset + 2 + n + algoLen;
    } else {
      offset := offset + 2 + algoLenByte;
    }
    r := Success(offset);
  }

  /** The second half: over the BIT STRING's header and its unused-bits octet. */
  method SkipToKey(spki: bytes, start: nat) returns (r: Result<bytes>)
    ensures r.Success? <==> start + 1 < |spki| && spki[start] == 0x03
    ensures r.Success? ==> r.value == Slice(spki, AfterLength(spki, start + 1) + 1, |spki|)
    ensures r.Failure? ==> r.error == if start < |spki| && spki[start] != 0x03 then ValueError else IndexError
  {
    var offset: nat := start;
    if |spki| <= offset {
      return Failure(IndexError);
    }
    if spki[offset] != BIT_STRING {
      return Failure(ValueError);
    }
    offset := offset + 1;
    if |spki| <= offset {
      return Failure(IndexError);
    }
    var bitLenByte := spki[offset];
    offset := offset + 1;
    if bitLenByte >= 0x80 {
      offset := offset + (bitLenByte - 0x80);
    }
    offset := offset + 1;
    r := Success(Slice(spki, offset, |spki|));
  }
}
