/** The reader for PROXY protocol headers, versions 1 and 2. */
module ProxyProtocol {
  import opened Basics
  import opened Streams
  import opened Numerals

  /** Addresses stay in binary; the text form is not part of the model. */
  datatype Address = Local | V4(octets: bytes) | V6(octets: bytes) | Name(text: string)

  datatype ProxyInfo = ProxyInfo(src: Address, srcPort: int, dst: Address, dstPort: int, version: int)

  const V2_SIGNATURE: bytes := [0x0d, 0x0a, 0x0d, 0x0a, 0x00, 0x0d, 0x0a, 0x51, 0x55, 0x49, 0x54, 0x0a]
  const V1_PREFIX: bytes := [0x50, 0x52, 0x4f, 0x58, 0x59, 0x20]
  const CRLF: bytes := [0x0d, 0x0a]
  const MAX_V1_HEADER := 512

  // ---- version 2 ----

  /** The header fields after the address block has been read. */
  function V2Info(verCmd: byte, family: byte, a: bytes): Result<ProxyInfo> {
    if verCmd / 16 != 2 then Failure(ValueError)
    else if verCmd % 16 == 0 then Success(ProxyInfo(Local, 0, Local, 0, 2))
    else if family / 16 == 1 then
      if |a| < 12 then Failure(ValueError)
      else Success(ProxyInfo(V4(a[0..4]), U16be(a, 8), V4(a[4..8]), U16be(a, 10), 2))
    else if family / 16 == 2 then
      if |a| < 36 then Failure(ValueError)
      else Success(ProxyInfo(V6(a[0..16]), U16be(a, 32), V6(a[16..32]), U16be(a, 34), 2))
    else Failure(ValueError)
  }

  /** Reading a version 2 header whose first 13 bytes are `initial`. */
  function V2Of(initial: bytes, s: bytes): Read<ProxyInfo>
    requires |initial| == 13
  {
    if |s| < 3 then Read(Failure(IncompleteRead), [])
    else if |s| < 3 + U16be(s, 1) then Read(Failure(IncompleteRead), [])
    else Read(V2Info(initial[12], s[0], s[3..3 + U16be(s, 1)]), s[3 + U16be(s, 1)..])
  }

  method ParseV2(reader: StreamReader, initial: bytes) returns (r: Result<ProxyInfo>)
    requires reader.Valid() && |initial| == 13
    modifies reader`pos
    ensures reader.Valid() && Read(r, reader.Rest()) == V2Of(initial, old(reader.Rest()))
  {
    ghost var s := reader.Rest();
    var more := reader.ReadExactly(3);
    if more.Failure? {
      return Failure(more.error);
    }
    var header := initial + more.value;
    var addrLen := U16be(header, 14);
    assert addrLen == U16be(s, 1);
    var addrData := Success([]);
    if addrLen > 0 {
      addrData := reader.ReadExactly(addrLen);
      if addrData.Failure? {
        return Failure(addrData.error);
      }
    }
    assert addrData.value == s[3..3 + addrLen] && reader.Rest() == s[3 + addrLen..];
    r := V2Info(header[12], header[13], addrData.value);
  }

  // ---- version 1 ----

  function WordLength(s: string): (n: nat)
    ensures n <= |s| && (forall i :: 0 <= i < n ==> !IsSpace(s[i])) && (n < |s| ==> IsSpace(s[n]))
  {
    if s == [] || IsSpace(s[0]) then 0 else 1 + WordLength(s[1..])
  }

  /** `str.split()` */
  function Split(s: string): (words: seq<string>)
    ensures 2 * |words| <= |s| + 1
    decreases |s|, 1
  {
    WordsFrom(LStrip(s))
  }

  /** The words of a text that starts with one. */
  function WordsFrom(t: string): (words: seq<string>)
    requires t == [] || !IsSpace(t[0])
    ensures 2 * |words| <= |t| + 1
    decreases |t|, 0
  {
    if t == [] then []
    else
      var n := WordLength(t);
      if n == |t| then [t] else [t[..n]] + Split(t[n + 1..])
  }

  predicate IsAscii(line: bytes) {
    forall i :: 0 <= i < |line| ==> line[i] < 128
  }

  function Decode(line: bytes): string
    requires IsAscii(line)
  {
    seq(|line|, i requires 0 <= i < |line| => line[i] as char)
  }

  function V1Info(line: bytes): Result<ProxyInfo> {
    if !IsAscii(line) then Failure(ValueError)
    else
      var parts := Split(Decode(line));
      if |parts| < 6 then Failure(ValueError)
      else
        var srcPort :- ParseInt(parts[4]);
        var dstPort :- ParseInt(parts[5]);
        Success(ProxyInfo(Name(parts[2]), srcPort, Name(parts[3]), dstPort, 1))
  }

  predicate IsWord(w: string) {
    w != [] && forall i :: 0 <= i < |w| ==> !IsSpace(w[i])
  }

  lemma WordEnds(w: string, rest: string)
    requires IsWord(w)
    requires rest == [] || IsSpace(rest[0])
    ensures WordLength(w + rest) == |w|
    ensures LStrip(w + rest) == w + rest && w + rest != []
  {
    var s := w + rest;
    assert forall i :: 0 <= i < |w| ==> s[i] == w[i];
    assert rest != [] ==> s[|w|] == rest[0];
  }

  lemma OneWord(w: string)
    requires IsWord(w)
    ensures Split(w) == [w] && Split("") == []
  {
    WordEnds(w, "");
    assert w + "" == w;
  }

  lemma SplitFirst(w: string, c: char, rest: string)
    requires IsWord(w) && IsSpace(c)
    ensures Split(w + ([c] + rest)) == [w] + Split(rest)
  {
    var s := w + ([c] + rest);
    WordEnds(w, [c] + rest);
    assert LStrip(s) == s && WordLength(s) == |w|;
    assert s[..|w|] == w && s[|w| + 1..] == rest;
  }

  /** The text of a line that starts with the prefix: a word, a space, the rest. */
  lemma PrefixDecodes(line: bytes)
    requires IsAscii(line) && 6 <= |line| && line[..6] == V1_PREFIX
    ensures var text := Decode(line); IsWord(text[..5]) && text == text[..5] + ([' '] + text[6..])
  {
    assert forall i :: 0 <= i < 6 ==> line[i] == V1_PREFIX[i];
    assert Decode(line)[5] == ' ';
  }

  lemma SixWords(line: bytes)
    requires V1Info(line).Success?
    ensures IsAscii(line) && |Split(Decode(line))| >= 6 && 11 <= |line|
  {
  }

  /** Five more words after a first one take nine characters at least. */
  lemma SixWordsAreLong(s: string, w: string, rest: string)
    requires IsWord(w) && s == w + ([' '] + rest) && |Split(s)| >= 6
    ensures |s| >= |w| + 10
  {
    SplitFirst(w, ' ', rest);
    assert Split(s) == [w] + Split(rest);
    assert 2 * |Split(rest)| <= |rest| + 1;
  }

  lemma PrefixedIsLong(line: bytes, text: string)
    requires IsAscii(line) && 6 <= |line| && line[..6] == V1_PREFIX && text == Decode(line) && |Split(text)| >= 6
    ensures 15 <= |line|
  {
    PrefixDecodes(line);
    SixWordsAreLong(text, text[..5], text[6..]);
  }

  /** A line that starts with the prefix and parses is longer than the 11 bytes that could have
      arrived, with the line end, in the first read of 13. */
  lemma V1LineIsLong(line: bytes)
    requires V1Info(line).Success? && (6 <= |line| ==> line[..6] == V1_PREFIX)
    ensures 15 <= |line|
  {
    SixWords(line);
    PrefixedIsLong(line, Decode(line));
  }

  /** So a line end after a line that parses lies behind those 13 bytes. */
  lemma ParsedIsLong(s: bytes, n: nat)
    requires n <= |s| && 13 <= |s| && s[..6] == V1_PREFIX
    ensures V1Info(s[..n]).Success? ==> 15 <= n
  {
    var line := s[..n];
    assert 6 <= |line| ==> line[..6] == s[..6];
    if V1Info(line).Success? {
      V1LineIsLong(line);
    }
  }

  lemma OnlyValueErrors(line: bytes)
    ensures V1Info(line).Failure? ==> V1Info(line).error == ValueError
  {
  }

  function LineEnd(s: bytes): Option<nat> {
    Find(s, CRLF, 0)
  }

  /** A carriage return and a line feed lie at `i`. */
  predicate LineEndAt(s: bytes, i: int) {
    0 <= i && i + 2 <= |s| && s[i] == 0x0d && s[i + 1] == 0x0a
  }

  lemma LineEndIs(s: bytes)
    ensures LineEnd(s).Some? ==>
      LineEndAt(s, LineEnd(s).value) && forall j :: 0 <= j < LineEnd(s).value ==> !LineEndAt(s, j)
    ensures LineEnd(s).None? ==> forall j :: !LineEndAt(s, j)
  {
    forall j
      ensures LineEndAt(s, j) <==> OccursAt(s, CRLF, j)
    {
      if 0 <= j && j + 2 <= |s| {
        assert s[j..j + 2] == [s[j], s[j + 1]];
      }
    }
  }

  /** The header was taken from the front of `s` and ends with the first line end. */
  ghost predicate ConsumedThroughLineEnd(s: bytes, rest: bytes, info: ProxyInfo) {
    LineEnd(s).Some? && rest == s[LineEnd(s).value + 2..] && V1Info(s[..LineEnd(s).value]) == Success(info)
  }

  /** A whole version 1 header is there, within the size limit. */
  ghost predicate HasV1Header(s: bytes) {
    && LineEnd(s).Some?
    && LineEnd(s).value + 2 <= 512
    && V1Info(s[..LineEnd(s).value]).Success?
  }

  /** No line end lies within the first `n` bytes. */
  predicate NoLineEnd(s: bytes, n: int) {
    LineEnd(s).Some? ==> n < LineEnd(s).value + 2
  }

  lemma LineEndOfPrefix(s: bytes, n: nat)
    requires n <= |s|
    ensures LineEnd(s[..n]).Some? ==> LineEnd(s) == LineEnd(s[..n]) && LineEnd(s).value + 2 <= n
    ensures LineEnd(s[..n]).None? ==> NoLineEnd(s, n)
  {
    forall j | 0 <= j && j + 2 <= n
      ensures OccursAt(s, CRLF, j) <==> OccursAt(s[..n], CRLF, j)
    {
      assert s[j..j + 2] == s[..n][j..j + 2];
    }
  }

  /** The loop that reads on, octet by octet, until a line end is in the buffer. */
  method ReadLine(reader: StreamReader, initial: bytes) returns (r: Result<bytes>)
    requires reader.Valid() && |initial| == 13
    modifies reader`pos
    ensures reader.Valid()
    ensures var s := initial + old(reader.Rest());
      r.Success? <==> LineEnd(s).Some? && LineEnd(s).value + 2 <= 512
    ensures var s := initial + old(reader.Rest());
      r.Failure? ==> r.error == if LineEnd(s).None? && |s| <= 512 then IncompleteRead else ValueError
    ensures r.Success? ==> var s := initial + old(reader.Rest());
      && |r.value| == (if LineEnd(s).value + 2 <= 13 then 13 else LineEnd(s).value + 2) <= |s|
      && r.value == s[..|r.value|] && reader.Rest() == s[|r.value|..] && LineEnd(r.value) == LineEnd(s)
  {
    var buf := initial;
    ghost var s := initial + reader.Rest();
    assert s[..13] == initial;
    LineEndOfPrefix(s, 13);
    while LineEnd(buf).None?
      invariant reader.Valid() && 13 <= |buf| <= MAX_V1_HEADER && |buf| <= |s|
      invariant buf == s[..|buf|] && reader.Rest() == s[|buf|..]
      invariant LineEnd(buf).None? ==> NoLineEnd(s, |buf|)
      invariant LineEnd(buf).Some? ==> LineEnd(s) == LineEnd(buf) && LineEnd(s).value + 2 <= |buf|
      invariant |buf| > 13 ==> NoLineEnd(s, |buf| - 1)
      decreases MAX_V1_HEADER - |buf|
    {
      var chunk := reader.ReadExactly(1);
      if chunk.Failure? {
        assert buf == s;
        return Failure(chunk.error);
      }
      assert buf + chunk.value == s[..|buf| + 1];
      buf := buf + chunk.value;
      if |buf| > MAX_V1_HEADER {
        return Failure(ValueError);
      }
      LineEndOfPrefix(s, |buf|);
    }
    r := Success(buf);
  }

  /** `_parse_v1`: it succeeds exactly when a header is there, and then it has consumed exactly through
      the first line end, although 13 bytes were read up front. */
  method ParseV1(reader: StreamReader, initial: bytes) returns (r: Result<ProxyInfo>)
    requires reader.Valid() && |initial| == 13 && initial[..6] == V1_PREFIX
    modifies reader`pos
    ensures reader.Valid()
    ensures var s := initial + old(reader.Rest());
      && (r.Success? <==> HasV1Header(s))
      && (r.Failure? ==> r.error == if LineEnd(s).None? && |s| <= 512 then IncompleteRead else ValueError)
    ensures r.Success? ==> ConsumedThroughLineEnd(initial + old(reader.Rest()), reader.Rest(), r.value)
  {
    ghost var s := initial + reader.Rest();
    var buf := ReadLine(reader, initial);
    if buf.Failure? {
      return Failure(buf.error);
    }
    var lineEnd := LineEnd(buf.value).value;
    var line := buf.value[..lineEnd];
    assert line == s[..lineEnd];
    assert s[..6] == initial[..6];
    ParsedIsLong(s, lineEnd);
    OnlyValueErrors(line);
    r := V1Info(line);
  }

  /** What a whole stream is read as: version 2, version 1, or neither. */
  method ReadProxyProtocol(reader: StreamReader) returns (r: Result<ProxyInfo>)
    requires reader.Valid()
    modifies reader`pos
    ensures reader.Valid()
    ensures |old(reader.Rest())| < 13 ==> r == Failure(IncompleteRead)
    ensures var s := old(reader.Rest());
      13 <= |s| && s[..12] == [0x0d, 0x0a, 0x0d, 0x0a, 0x00, 0x0d, 0x0a, 0x51, 0x55, 0x49, 0x54, 0x0a] ==>
        Read(r, reader.Rest()) == V2Of(s[..13], s[13..])
    ensures var s := old(reader.Rest()); 13 <= |s| && s[..6] == [0x50, 0x52, 0x4f, 0x58, 0x59, 0x20] ==>
      && (r.Success? <==> HasV1Header(s))
      && (r.Success? ==> ConsumedThroughLineEnd(s, reader.Rest(), r.value))
      && (r.Failure? ==> r.error == if LineEnd(s).None? && |s| <= 512 then IncompleteRead else ValueError)
    ensures var s := old(reader.Rest());
      (&& 13 <= |s| && s[..12] != [0x0d, 0x0a, 0x0d, 0x0a, 0x00, 0x0d, 0x0a, 0x51, 0x55, 0x49, 0x54, 0x0a]
       && s[..6] != [0x50, 0x52, 0x4f, 0x58, 0x59, 0x20]) ==> r == Failure(ValueError)
  {
    ghost var s := reader.Rest();
    var peeked := reader.ReadExactly(13);
    if peeked.Failure? {
      return Failure(peeked.error);
    }
    assert peeked.value == s[..13] && peeked.value + reader.Rest() == s;
    assert s[..12] == peeked.value[..12] && s[..6] == peeked.value[..6];
    if peeked.value[..12] == V2_SIGNATURE {
      assert s[..6][0] == V2_SIGNATURE[0];
      r := ParseV2(reader, peeked.value);
      return;
    }
    if peeked.value[..6] == V1_PREFIX {
      r := ParseV1(reader, peeked.value);
      return;
    }
    r := Failure(ValueError);
  }

  // ---- version 2 headers (section 2.2 of the PROXY protocol specification) ----

  function PortBytes(port: nat): bytes
    requires port < 0x1_0000
  {
    [port / 256, port % 256]
  }

  /** The address block of a header for IPv4 or IPv6. */
  function AddressBlock(src: Address, srcPort: nat, dst: Address, dstPort: nat): bytes
    requires src.V4? || src.V6?
    requires dst.V4? || dst.V6?
    requires srcPort < 0x1_0000 && dstPort < 0x1_0000
  {
    src.octets + dst.octets + PortBytes(srcPort) + PortBytes(dstPort)
  }

  /** A PROXY command header; `transport` is the low half of the family byte. */
  function V2Header(src: Address, srcPort: nat, dst: Address, dstPort: nat, transport: nat, tlvs: bytes): bytes
    requires (src.V4? && dst.V4? && |src.octets| == |dst.octets| == 4)
          || (src.V6? && dst.V6? && |src.octets| == |dst.octets| == 16)
    requires srcPort < 0x1_0000 && dstPort < 0x1_0000 && transport < 16
    requires |AddressBlock(src, srcPort, dst, dstPort)| + |tlvs| < 0x1_0000
  {
    var block := AddressBlock(src, srcPort, dst, dstPort) + tlvs;
    [0x0d, 0x0a, 0x0d, 0x0a, 0x00, 0x0d, 0x0a, 0x51, 0x55, 0x49, 0x54, 0x0a]
    + [0x21, (if src.V4? then 0x10 else 0x20) + transport] + PortBytes(|block|) + block
  }

  /** Any version 2 header is read back as its addresses and ports, and exactly the header is consumed. */
  lemma V2HeaderReadsBack(
    src: Address, srcPort: nat, dst: Address, dstPort: nat, transport: nat, tlvs: bytes, rest: bytes)
    requires (src.V4? && dst.V4? && |src.octets| == |dst.octets| == 4)
          || (src.V6? && dst.V6? && |src.octets| == |dst.octets| == 16)
    requires srcPort < 0x1_0000 && dstPort < 0x1_0000 && transport < 16
    requires |AddressBlock(src, srcPort, dst, dstPort)| + |tlvs| < 0x1_0000
    ensures var s := V2Header(src, srcPort, dst, dstPort, transport, tlvs) + rest;
      && 13 <= |s| && s[..12] == V2_SIGNATURE
      && V2Of(s[..13], s[13..]) == Read(Success(ProxyInfo(src, srcPort, dst, dstPort, 2)), rest)
  {
    var block := AddressBlock(src, srcPort, dst, dstPort);
    var all := block + tlvs;
    var family := (if src.V4? then 0x10 else 0x20) + transport;
    var s := V2Header(src, srcPort, dst, dstPort, transport, tlvs) + rest;
    assert s[..13] == V2_SIGNATURE + [0x21];
    assert s[..12] == V2_SIGNATURE;
    assert s[13..] == [family] + PortBytes(|all|) + all + rest;
    var t := s[13..];
    assert U16be(t, 1) == |all|;
    assert t[3..3 + |all|] == all && t[3 + |all|..] == rest;
    BlockReadsBack(src, srcPort, dst, dstPort, family, tlvs);
  }

  /** Any other block of a version 2 header: another version or family and a short block raise, and the
      LOCAL command gives an entry without addresses; the header is consumed all the same. */
  lemma V2OtherHeaders(verCmd: byte, family: byte, block: bytes, rest: bytes)
    requires |block| < 0x1_0000
    ensures var s := [family] + PortBytes(|block|) + block + rest;
      var read := V2Of(V2_SIGNATURE + [verCmd], s);
      && read.rest == rest
      && (verCmd / 16 != 2 ==> read.result == Failure(ValueError))
      && (verCmd == 0x20 ==> read.result == Success(ProxyInfo(Local, 0, Local, 0, 2)))
      && (0x21 <= verCmd <= 0x2f ==>
            && (family / 16 == 1 && |block| < 12 ==> read.result == Failure(ValueError))
            && (family / 16 == 2 && |block| < 36 ==> read.result == Failure(ValueError))
            && (family / 16 != 1 && family / 16 != 2 ==> read.result == Failure(ValueError)))
  {
    var s := [family] + PortBytes(|block|) + block + rest;
    assert U16be(s, 1) == |block|;
    assert s[3..3 + |block|] == block && s[3 + |block|..] == rest;
  }

  /** A header that is cut short raises and leaves nothing. */
  lemma V2Truncated(initial: bytes, s: bytes)
    requires |initial| == 13 && (|s| < 3 || |s| < 3 + (256 * (s[1] as int) + s[2]))
    ensures V2Of(initial, s) == Read(Failure(IncompleteRead), [])
  {
    assert |s| >= 3 ==> U16be(s, 1) == 256 * (s[1] as int) + s[2];
  }

  lemma BlockReadsBack(src: Address, srcPort: nat, dst: Address, dstPort: nat, family: byte, tlvs: bytes)
    requires (src.V4? && dst.V4? && |src.octets| == |dst.octets| == 4 && family / 16 == 1)
          || (src.V6? && dst.V6? && |src.octets| == |dst.octets| == 16 && family / 16 == 2)
    requires srcPort < 0x1_0000 && dstPort < 0x1_0000
    ensures V2Info(0x21, family, AddressBlock(src, srcPort, dst, dstPort) + tlvs)
         == Success(ProxyInfo(src, srcPort, dst, dstPort, 2))
  {
    var n := |src.octets|;
    var a := AddressBlock(src, srcPort, dst, dstPort) + tlvs;
    assert a[0..n] == src.octets && a[n..2 * n] == dst.octets;
    assert a[2 * n..2 * n + 2] == PortBytes(srcPort) && a[2 * n + 2..2 * n + 4] == PortBytes(dstPort);
    assert a[2 * n] == PortBytes(srcPort)[0] && a[2 * n + 1] == PortBytes(srcPort)[1];
    assert a[2 * n + 2] == PortBytes(dstPort)[0] && a[2 * n + 3] == PortBytes(dstPort)[1];
  }

  // ---- version 1 lines ----

  /** The words, each with the white space before it, and what white space follows the last. */
  function Spaced(gaps: seq<string>, words: seq<string>): string
    requires |gaps| == |words| + 1
  {
    if words == [] then gaps[0] else gaps[0] + (words[0] + Spaced(gaps[1..], words[1..]))
  }

  ghost predicate AllWords(words: seq<string>) {
    forall i :: 0 <= i < |words| ==> IsWord(words[i])
  }

  /** White space around the words, some of it between any two. */
  ghost predicate AllGaps(gaps: seq<string>) {
    && (forall i :: 0 <= i < |gaps| ==> Blank(gaps[i]))
    && (forall i :: 0 < i < |gaps| - 1 ==> gaps[i] != "")
  }

  lemma {:induction false} LStripSkips(gap: string, rest: string)
    requires Blank(gap)
    ensures LStrip(gap + rest) == LStrip(rest)
  {
    if gap == "" {
      assert gap + rest == rest;
    } else {
      assert (gap + rest)[1..] == gap[1..] + rest;
      LStripSkips(gap[1..], rest);
    }
  }

  lemma SameSplit(s: string, t: string)
    requires LStrip(s) == LStrip(t)
    ensures Split(s) == Split(t)
  {
  }

  lemma SplitSkipsBlank(gap: string, rest: string)
    requires Blank(gap)
    ensures Split(gap + rest) == Split(rest)
  {
    LStripSkips(gap, rest);
    SameSplit(gap + rest, rest);
  }

  lemma SplitWordFirst(w: string, rest: string)
    requires IsWord(w) && (rest == "" || IsSpace(rest[0]))
    ensures Split(w + rest) == [w] + Split(rest)
  {
    if rest == "" {
      assert w + rest == w;
      OneWord(w);
    } else {
      var tail := rest[1..];
      assert rest == [rest[0]] + tail;
      SplitFirst(w, rest[0], tail);
      SplitSkipsBlank([rest[0]], tail);
    }
  }

  lemma GapsAfterFirst(gaps: seq<string>, words: seq<string>)
    requires |gaps| == |words| + 1 && words != [] && AllWords(words) && AllGaps(gaps)
    ensures Blank(gaps[0]) && IsWord(words[0]) && AllWords(words[1..]) && AllGaps(gaps[1..])
    ensures var rest := Spaced(gaps[1..], words[1..]); rest == "" || IsSpace(rest[0])
    ensures words == [words[0]] + words[1..]
  {
    assert Blank(gaps[1]);
    if |words| > 1 {
      assert gaps[1] != "";
    }
  }

  /** Splitting gives back the words, whatever white space stands around and between them. */
  lemma {:induction false} SplitUndoesJoin(gaps: seq<string>, words: seq<string>)
    requires |gaps| == |words| + 1 && AllWords(words) && AllGaps(gaps)
    ensures Split(Spaced(gaps, words)) == words
    decreases |words|
  {
    if words == [] {
      SplitSkipsBlank(gaps[0], "");
      assert gaps[0] + "" == gaps[0];
    } else {
      GapsAfterFirst(gaps, words);
      var rest := Spaced(gaps[1..], words[1..]);
      SplitSkipsBlank(gaps[0], words[0] + rest);
      SplitWordFirst(words[0], rest);
      SplitUndoesJoin(gaps[1..], words[1..]);
    }
  }

  /** In a line of words the third to the sixth are the addresses and the ports, whatever follows; fewer
      words, and ports that are no numerals, raise. */
  lemma V1LineReadsBack(line: bytes, gaps: seq<string>, words: seq<string>)
    requires |gaps| == |words| + 1 && AllWords(words) && AllGaps(gaps)
    requires IsAscii(line) && Decode(line) == Spaced(gaps, words)
    ensures V1Info(line)
      == if |words| < 6 || ParseInt(words[4]).Failure? || ParseInt(words[5]).Failure? then Failure(ValueError)
         else Success(ProxyInfo(Name(words[2]), ParseInt(words[4]).value, Name(words[3]), ParseInt(words[5]).value, 1))
  {
    SplitUndoesJoin(gaps, words);
    if |words| >= 6 {
      ParseIntIff(words[4]);
      ParseIntIff(words[5]);
    }
  }

  /** Octets of a line are its characters, and any above 127 raises. */
  lemma LineIsAscii(line: bytes, i: nat)
    requires i < |line|
    ensures line[i] >= 128 ==> V1Info(line) == Failure(ValueError)
    ensures IsAscii(line) ==> |Decode(line)| == |line| && Decode(line)[i] as int == line[i]
  {
  }

  /** The ports are the numbers that were written. */
  lemma V1PortsReadBack(line: bytes, gaps: seq<string>, words: seq<string>, srcPort: int, dstPort: int)
    requires |gaps| == |words| + 1 && AllWords(words) && AllGaps(gaps)
    requires IsAscii(line) && Decode(line) == Spaced(gaps, words)
    requires 6 <= |words| && words[4] == Decimal(srcPort) && words[5] == Decimal(dstPort)
    ensures V1Info(line) == Success(ProxyInfo(Name(words[2]), srcPort, Name(words[3]), dstPort, 1))
  {
    V1LineReadsBack(line, gaps, words);
    DecimalReadsBack(srcPort);
    DecimalReadsBack(dstPort);
  }
}
