/** Tag-length-value encoding with the definite length forms of section 8.1.3 of ITU-T X.690. */
module Der {
  import opened Basics

  /** `int.from_bytes(b, "big")` */
  function FromBytes(b: bytes): (n: nat)
    ensures b == [] ==> n == 0
    ensures |b| == 1 ==> n == b[0]
    ensures |b| == 2 ==> n / 256 == b[0] && n % 256 == b[1]
  {
    if b == [] then 0 else FromBytes(b[..|b| - 1]) * 256 + b[|b| - 1]
  }

  /** The number read from the other end. */
  lemma {:induction false} FirstOctetCounts(first: byte, rest: bytes)
    ensures FromBytes([first] + rest) == first * Pow256(|rest|) + FromBytes(rest)
  {
    if rest != [] {
      var front := rest[..|rest| - 1];
      FirstOctetCounts(first, front);
      assert ([first] + rest)[..|rest|] == [first] + front;
      assert first * Pow256(|rest|) == first * Pow256(|front|) * 256;
    }
  }

  /** The shortest big-endian form of a positive number. */
  function ToBytes(n: nat): (b: bytes)
    ensures FromBytes(b) == n
    ensures b != [] ==> b[0] != 0
  {
    if n == 0 then [] else
      var front := ToBytes(n / 256);
      assert (front + [n % 256])[..|front|] == front;
      front + [n % 256]
  }

  ghost function Pow256(k: nat): nat {
    if k == 0 then 1 else 256 * Pow256(k - 1)
  }

  /** `h` is a definite length of `n` contents octets: the short form, or the long form with any
      number of length octets, shortest or not (sections 8.1.3.4 and 8.1.3.5). */
  ghost predicate DefiniteLength(h: bytes, n: nat) {
    || (|h| == 1 && n < 128 && h[0] == n)
    || (2 <= |h| <= 127 && h[0] == 0x80 + (|h| - 1) && FromBytes(h[1..]) == n)
  }

  /** The one shortest form. */
  ghost predicate ShortestLength(h: bytes, n: nat) {
    || (n < 128 && h == [n])
    || (128 <= n < 256 && h == [0x81, n])
    || (256 <= n < 65536 && h == [0x82, n / 256, n % 256])
    || (65536 <= n < 16777216 && h == [0x83, n / 65536, n / 256 % 256, n % 256])
    || (16777216 <= n < 4294967296 && h == [0x84, n / 16777216, n / 65536 % 256, n / 256 % 256, n % 256])
  }

  const MAX_CONTENTS := 0xffff_ffff

  /** The imported encoder: the shortest definite length, then the contents. It raises when four
      length octets are not enough. */
  function Asn1Encode(data: bytes): (r: Result<bytes>)
    ensures r.Success? <==> |data| <= 0xffff_ffff
    ensures r.Success? ==> exists h :: DefiniteLength(h, |data|) && ShortestLength(h, |data|) && r.value == h + data
    ensures r.Failure? ==> r.error == ValueError
  {
    if |data| > MAX_CONTENTS then Failure(ValueError)
    else
      var h := LengthOctets(|data|);
      Success(h + data)
  }

  function LengthOctets(n: nat): (h: bytes)
    requires n <= MAX_CONTENTS
    ensures DefiniteLength(h, n) && ShortestLength(h, n) && |h| <= 5
  {
    if n < 128 then [n]
    else
      OctetsOf(n);
      var octets := ToBytes(n);
      var h := [0x80 + |octets|] + octets;
      assert h[1..] == octets;
      h
  }

  lemma LastOctet(n: nat)
    requires n > 0
    ensures ToBytes(n) == ToBytes(n / 256) + [n % 256]
    ensures n < 256 ==> ToBytes(n) == [n]
  {
    if n < 256 {
      assert ToBytes(n / 256) == [];
    }
  }

  lemma OctetsOf(n: nat)
    requires 128 <= n < 4294967296
    ensures |ToBytes(n)| <= 4 && ShortestLength([0x80 + |ToBytes(n)|] + ToBytes(n), n)
  {
    LastOctet(n);
    if n >= 256 {
      LastOctet(n / 256);
      if n >= 65536 {
        assert n / 256 / 256 == n / 65536;
        LastOctet(n / 65536);
        if n >= 16777216 {
          assert n / 65536 / 256 == n / 16777216;
          LastOctet(n / 16777216);
        }
      }
    }
  }

  /** The decoder of the application: the contents, and the octets taken by length and contents. Slices
      past the end are cut short, so the second number may exceed what is there. */
  function Asn1Decode(data: bytes): (bytes, nat) {
    if data == [] then ([], 0)
    else if data[0] >= 0x80 then
      var num := data[0] - 0x80;
      var length := FromBytes(Slice(data, 1, 1 + num));
      (Slice(data, 1 + num, 1 + num + length), 1 + num + length)
    else (Slice(data, 1, 1 + data[0]), 1 + data[0])
  }

  /** Decoding undoes encoding, for every length form and whatever follows. */
  lemma DecodeContents(h: bytes, contents: bytes, rest: bytes)
    requires DefiniteLength(h, |contents|)
    ensures Asn1Decode(h + contents + rest) == (contents, |h| + |contents|)
  {
    var data := h + contents + rest;
    assert data[0] == h[0];
    assert Slice(data, |h|, |h| + |contents|) == contents;
    if h[0] >= 0x80 {
      assert Slice(data, 1, |h|) == h[1..];
    }
  }

  /** Octets that say more than is there are cut short, and the number of octets taken says so. */
  lemma DecodeShortForm(k: nat, contents: bytes)
    requires k < 128
    ensures Asn1Decode([k] + contents) == (if k <= |contents| then contents[..k] else contents, 1 + k)
  {
    var data := [k] + contents;
    assert data[1..] == contents;
    if k <= |contents| {
      assert data[1..1 + k] == contents[..k];
    }
  }

  /** The same for any number of length octets, also for none. */
  lemma DecodeLongForm(h: bytes, n: nat, contents: bytes)
    requires 1 <= |h| <= 128 && h[0] == 0x80 + (|h| - 1) && n == FromBytes(h[1..])
    ensures Asn1Decode(h + contents) == (if n <= |contents| then contents[..n] else contents, |h| + n)
  {
    var data := h + contents;
    assert data[0] == h[0] && Slice(data, 1, |h|) == h[1..] && data[|h|..] == contents;
    assert n <= |contents| ==> data[|h|..|h| + n] == contents[..n];
  }

  /** Length octets that are cut short themselves count as far as they go, without contents. */
  lemma DecodeCutLength(data: bytes)
    requires data != [] ==> 0x80 + (|data| - 1) < data[0]
    ensures Asn1Decode(data) == ([], if data == [] then 0 else data[0] - 0x7f + FromBytes(data[1..]))
  {
    if data != [] {
      assert Slice(data, 1, 1 + (data[0] - 0x80)) == data[1..];
    }
  }

  /** `out` is one element: `tag`, a definite length, the contents. */
  ghost predicate IsTlv(tag: byte, contents: bytes, out: bytes) {
    exists h :: IsTlvWith(tag, h, contents, out)
  }

  ghost predicate IsTlvWith(tag: byte, h: bytes, contents: bytes, out: bytes) {
    DefiniteLength(h, |contents|) && out == [tag] + h + contents
  }

  lemma TlvDecodes(tag: byte, contents: bytes, out: bytes, rest: bytes)
    requires IsTlv(tag, contents, out)
    ensures |out| > 1 && (out + rest)[0] == tag
    ensures Asn1Decode((out + rest)[1..]) == (contents, |out| - 1)
    ensures Slice((out + rest)[1..], |out| - 1, |out + rest|) == rest
  {
    var h :| IsTlvWith(tag, h, contents, out);
    assert (out + rest)[1..] == h + contents + rest;
    DecodeContents(h, contents, rest);
  }

  /** What every hand-written element of the application is: a tag byte and an encoded body. */
  function Tlv(tag: byte, contents: bytes): (r: Result<bytes>)
    ensures r.Success? <==> |contents| <= 0xffff_ffff
    ensures r.Success? ==> IsTlv(tag, contents, r.value) && |r.value| <= |contents| + 6
    ensures r.Failure? ==> r.error == ValueError
  {
    if |contents| > MAX_CONTENTS then Failure(ValueError)
    else
      var h := LengthOctets(|contents|);
      assert [tag] + (h + contents) == [tag] + h + contents;
      assert IsTlvWith(tag, h, contents, [tag] + (h + contents));
      Success([tag] + Asn1Encode(contents).value)
  }

  lemma ShortestOneWay(h: bytes, h': bytes, n: nat)
    requires ShortestLength(h, n) && ShortestLength(h', n)
    ensures h == h'
  {
  }

  /** An element of the application has the shortest length. */
  lemma TlvIsShortest(tag: byte, h: bytes, contents: bytes)
    requires ShortestLength(h, |contents|)
    ensures Tlv(tag, contents) == Success([tag] + h + contents)
  {
    ShortestOneWay(h, LengthOctets(|contents|), |contents|);
    assert [tag] + (h + contents) == [tag] + h + contents;
  }
}
