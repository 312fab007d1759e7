/**
 The content-audio wire format: one canonical encoding per frame, a parser that
 accepts exactly the encodings, and signing bytes that fix what was signed.

 Whether bytes are UTF-8 text is the parameter `utf8`; the payload digest is the
 parameter `digest`, of which at most the length matters.
 */
module ContentAudioWire {
  import opened Machine

  const CONTENT_AUDIO_VERSION: Byte := 0x01
  const SIGNATURE_LEN: nat := 64
  const FIXED_PREFIX_LEN: nat := 15
  const MAX_SENDER_LEN: nat := 64

  datatype AudioFrame = AudioFrame(sender: Bytes, ptsUs: U64, seqNo: U32, signature: Bytes, payload: Bytes)

  // ----- Big-endian integers

  function Power256(n: nat): nat {
    if n == 0 then 1 else 256 * Power256(n - 1)
  }

  /** `x.to_be_bytes()` at a width of n bytes */
  function BigEndian(x: nat, n: nat): (b: Bytes)
    ensures |b| == n
  {
    if n == 0 then [] else BigEndian(x / 256, n - 1) + [x % 256]
  }

  function FromBigEndian(b: Bytes): nat {
    if b == [] then 0 else FromBigEndian(b[..|b| - 1]) * 256 + b[|b| - 1]
  }

  lemma {:induction false} FromToBigEndian(x: nat, n: nat)
    requires x < Power256(n)
    ensures FromBigEndian(BigEndian(x, n)) == x
  {
    if n > 0 {
      FromToBigEndian(x / 256, n - 1);
      assert BigEndian(x, n)[..n - 1] == BigEndian(x / 256, n - 1);
    }
  }

  lemma {:induction false} ToFromBigEndian(b: Bytes)
    ensures FromBigEndian(b) < Power256(|b|)
    ensures BigEndian(FromBigEndian(b), |b|) == b
  {
    if b != [] {
      ToFromBigEndian(b[..|b| - 1]);
      assert b == b[..|b| - 1] + [b[|b| - 1]];
    }
  }

  lemma Widths()
    ensures Power256(8) == U64_LIMIT && Power256(4) == U32_LIMIT && Power256(1) == 256
  {
    assert Power256(4) == 256 * 256 * 256 * 256;
  }

  // ----- Encoding

  function Header(ptsUs: U64, seqNo: U32, senderLen: nat): (h: Bytes)
    ensures |h| == FIXED_PREFIX_LEN
  {
    [CONTENT_AUDIO_VERSION, 0] + BigEndian(ptsUs, 8) + BigEndian(seqNo, 4) + BigEndian(senderLen, 1)
  }

  function Encode(f: AudioFrame): Option<Bytes> {
    if f.sender == [] || |f.sender| > MAX_SENDER_LEN then None
    else Some(Header(f.ptsUs, f.seqNo, |f.sender|) + f.sender + f.signature + f.payload)
  }

  /** Append the fields one after another. */
  method EncodeFrame(f: AudioFrame) returns (buf: Option<Bytes>)
    ensures buf == Encode(f)
  {
    if f.sender == [] || |f.sender| > MAX_SENDER_LEN {
      return None;
    }
    var b: Bytes := [CONTENT_AUDIO_VERSION];
    b := b + [0];
    assert b == [CONTENT_AUDIO_VERSION, 0];
    b := b + BigEndian(f.ptsUs, 8);
    b := b + BigEndian(f.seqNo, 4);
    b := b + BigEndian(|f.sender|, 1);
    assert b == Header(f.ptsUs, f.seqNo, |f.sender|);
    b := b + f.sender;
    b := b + f.signature;
    b := b + f.payload;
    return Some(b);
  }

  // ----- Parsing

  function FitsU64(b: Bytes): (x: U64)
    requires |b| == 8
  {
    ToFromBigEndian(b);
    Widths();
    FromBigEndian(b)
  }

  function FitsU32(b: Bytes): (x: U32)
    requires |b| == 4
  {
    ToFromBigEndian(b);
    Widths();
    FromBigEndian(b)
  }

  function Parse(utf8: Bytes -> bool, buf: Bytes): Option<AudioFrame> {
    if |buf| < FIXED_PREFIX_LEN then None
    else if buf[0] != CONTENT_AUDIO_VERSION then None
    else if buf[1] != 0 then None
    else
      var ptsUs := FitsU64(buf[2..10]);
      var seqNo := FitsU32(buf[10..14]);
      var senderLen := buf[14] as nat;
      if senderLen == 0 || senderLen > MAX_SENDER_LEN then None
      else
        var senderEnd := FIXED_PREFIX_LEN + senderLen;
        var sigEnd := senderEnd + SIGNATURE_LEN;
        if |buf| < sigEnd then None
        else if !utf8(buf[FIXED_PREFIX_LEN..senderEnd]) then None
        else Some(AudioFrame(buf[FIXED_PREFIX_LEN..senderEnd], ptsUs, seqNo, buf[senderEnd..sigEnd], buf[sigEnd..]))
  }

  /** A frame the sender's types allow: the sender is text, the signature has its length. */
  predicate Typed(utf8: Bytes -> bool, f: AudioFrame) {
    utf8(f.sender) && |f.signature| == SIGNATURE_LEN
  }

  lemma HeaderFields(ptsUs: U64, seqNo: U32, senderLen: nat)
    requires senderLen < 256
    ensures var h := Header(ptsUs, seqNo, senderLen);
            && h[0] == CONTENT_AUDIO_VERSION && h[1] == 0
            && h[2..10] == BigEndian(ptsUs, 8) && h[10..14] == BigEndian(seqNo, 4)
            && h[14] == senderLen
  {
    assert BigEndian(senderLen, 1) == [senderLen];
  }

  lemma HeaderNumbers(ptsUs: U64, seqNo: U32, senderLen: nat)
    requires senderLen < 256
    ensures var h := Header(ptsUs, seqNo, senderLen);
            FitsU64(h[2..10]) == ptsUs && FitsU32(h[10..14]) == seqNo
  {
    HeaderFields(ptsUs, seqNo, senderLen);
    Widths();
    FromToBigEndian(ptsUs, 8);
    FromToBigEndian(seqNo, 4);
  }

  /** Parsing an encoded frame returns its fields. */
  lemma ParseEncoded(utf8: Bytes -> bool, f: AudioFrame)
    requires Typed(utf8, f) && Encode(f).Some?
    ensures Parse(utf8, Encode(f).value) == Some(f)
  {
    hide Header, BigEndian, FromBigEndian;
    var n := |f.sender|;
    var h := Header(f.ptsUs, f.seqNo, n);
    var buf := h + f.sender + f.signature + f.payload;
    HeaderFields(f.ptsUs, f.seqNo, n);
    HeaderNumbers(f.ptsUs, f.seqNo, n);
    assert buf[2..10] == h[2..10] && buf[10..14] == h[10..14];
    var senderEnd := FIXED_PREFIX_LEN + n;
    assert buf[FIXED_PREFIX_LEN..senderEnd] == f.sender;
    assert buf[senderEnd..senderEnd + SIGNATURE_LEN] == f.signature;
    assert buf[senderEnd + SIGNATURE_LEN..] == f.payload;
  }

  lemma HeaderRebuilt(h: Bytes)
    requires |h| == FIXED_PREFIX_LEN && h[0] == CONTENT_AUDIO_VERSION && h[1] == 0
    ensures Header(FitsU64(h[2..10]), FitsU32(h[10..14]), h[14]) == h
  {
    ToFromBigEndian(h[2..10]);
    ToFromBigEndian(h[10..14]);
    assert BigEndian(h[14], 1) == [h[14]];
    assert [h[0], h[1]] + h[2..10] + h[10..14] + [h[14]] == h;
  }

  /** Re-encoding whatever parsed gives back the same bytes: the parser accepts
      encodings of well-typed frames and nothing else. */
  lemma EncodeParsed(utf8: Bytes -> bool, buf: Bytes)
    requires Parse(utf8, buf).Some?
    ensures Typed(utf8, Parse(utf8, buf).value)
    ensures Encode(Parse(utf8, buf).value) == Some(buf)
  {
    hide Header, BigEndian, FromBigEndian;
    var f := Parse(utf8, buf).value;
    var h := buf[..FIXED_PREFIX_LEN];
    assert h[2..10] == buf[2..10] && h[10..14] == buf[10..14];
    HeaderRebuilt(h);
    assert h + f.sender + f.signature + f.payload == buf;
  }

  /** The accepted buffers are exactly the encodings of well-typed frames. */
  lemma AcceptedExactly(utf8: Bytes -> bool, buf: Bytes)
    ensures Parse(utf8, buf).Some? <==> exists f :: Typed(utf8, f) && Encode(f) == Some(buf)
  {
    hide Parse, Encode;
    if Parse(utf8, buf).Some? { EncodeParsed(utf8, buf); }
    if f :| Typed(utf8, f) && Encode(f) == Some(buf) { ParseEncoded(utf8, f); }
  }

  /** Two frames with the same bytes on the wire are the same frame. */
  lemma EncodingInjective(utf8: Bytes -> bool, f: AudioFrame, g: AudioFrame)
    requires Typed(utf8, f) && Typed(utf8, g) && Encode(f).Some? && Encode(f) == Encode(g)
    ensures f == g
  {
    hide Parse, Encode;
    ParseEncoded(utf8, f);
    ParseEncoded(utf8, g);
  }

  // ----- The bytes themselves, by position and weight

  /** Four bytes as a number, the first of them the heaviest. */
  function Four(b: Bytes): nat
    requires |b| == 4
  {
    b[0] as int * 0x100_0000 + b[1] as int * 0x1_0000 + b[2] as int * 0x100 + b[3]
  }

  /** And eight. */
  function Eight(b: Bytes): nat
    requires |b| == 8
  {
    Four(b[..4]) * 0x1_0000_0000 + Four(b[4..])
  }

  lemma FromFour(b: Bytes)
    requires |b| == 4
    ensures FromBigEndian(b) == Four(b)
  {
    assert b[..3][..2] == b[..2] && b[..2][..1] == b[..1] && b[..1][..0] == [];
    assert FromBigEndian(b[..1]) == b[0];
    assert FromBigEndian(b[..2]) == b[0] as int * 0x100 + b[1];
    assert FromBigEndian(b[..3]) == b[0] as int * 0x1_0000 + b[1] as int * 0x100 + b[2];
  }

  lemma {:induction false} FromSplit(a: Bytes, b: Bytes)
    ensures FromBigEndian(a + b) == FromBigEndian(a) * Power256(|b|) + FromBigEndian(b)
    decreases |b|
  {
    if b == [] {
      assert a + b == a;
    } else {
      var k := |b| - 1;
      FromSplit(a, b[..k]);
      assert (a + b)[..|a + b| - 1] == a + b[..k];
      Regroup(FromBigEndian(a), Power256(k), FromBigEndian(b[..k]), b[k]);
    }
  }

  lemma Regroup(x: nat, p: nat, y: nat, z: nat)
    ensures (x * p + y) * 256 + z == x * (256 * p) + (y * 256 + z)
  {
    assert x * (256 * p) == (x * p) * 256;
  }

  lemma FromEight(b: Bytes)
    requires |b| == 8
    ensures FromBigEndian(b) == Eight(b)
  {
    assert b == b[..4] + b[4..];
    FromSplit(b[..4], b[4..]);
    FromFour(b[..4]);
    FromFour(b[4..]);
    Widths();
  }

  lemma NumbersWeigh(seqNo: U32, ptsUs: U64)
    ensures Four(BigEndian(seqNo, 4)) == seqNo && Eight(BigEndian(ptsUs, 8)) == ptsUs
  {
    hide BigEndian, FromBigEndian, Four, Eight;
    Widths();
    FromToBigEndian(seqNo, 4);
    FromToBigEndian(ptsUs, 8);
    FromFour(BigEndian(seqNo, 4));
    FromEight(BigEndian(ptsUs, 8));
  }

  /** An encoded frame byte by byte: version 1, no flags, the time and the number heaviest
      byte first, then the sender with its length, 64 bytes of signature, the payload. */
  lemma EncodedBytes(f: AudioFrame)
    requires |f.signature| == 64
    ensures Encode(f).None? <==> f.sender == [] || |f.sender| > 64
    ensures Encode(f).Some? ==>
              var b, n := Encode(f).value, |f.sender|;
              && |b| == 79 + n + |f.payload|
              && b[0] == 1 && b[1] == 0
              && Eight(b[2..10]) == f.ptsUs && Four(b[10..14]) == f.seqNo && b[14] == n
              && b[15..15 + n] == f.sender && b[15 + n..79 + n] == f.signature && b[79 + n..] == f.payload
  {
    hide Header, BigEndian, Four, Eight;
    if Encode(f).Some? {
      var b, n := Encode(f).value, |f.sender|;
      var h := Header(f.ptsUs, f.seqNo, n);
      HeaderFields(f.ptsUs, f.seqNo, n);
      NumbersWeigh(f.seqNo, f.ptsUs);
      assert b[2..10] == h[2..10] && b[10..14] == h[10..14];
    }
  }

  /** A buffer parses exactly when it has a header of version 1 without flags, a sender
      of 1 to 64 bytes that is text, and room for the signature. */
  lemma ParsedBytes(utf8: Bytes -> bool, buf: Bytes)
    ensures Parse(utf8, buf).Some? <==>
            && |buf| >= 15 && buf[0] == 1 && buf[1] == 0 && 1 <= buf[14] <= 64
            && |buf| >= 79 + buf[14] && utf8(buf[15..15 + buf[14]])
  {
  }

  // ----- Signing bytes

  /** `(x as u32).to_be_bytes()`, which keeps only the low 32 bits of a longer length */
  function LengthPrefix(n: nat): (b: Bytes)
    ensures |b| == 4
  {
    BigEndian(n % U32_LIMIT, 4)
  }

  function SigningBytes(domain: Bytes, convId: Bytes, sender: Bytes, seqNo: U32, ptsUs: U64, payloadDigest: Bytes): Bytes {
    domain + LengthPrefix(|convId|) + convId + LengthPrefix(|sender|) + sender
    + BigEndian(seqNo, 4) + BigEndian(ptsUs, 8) + payloadDigest
  }

  /** The tag that keeps these signatures apart from every other: the 31 ASCII bytes of
      "conquerd.content.audio.frame.v1". */
  const CONTENT_AUDIO_SIG_DOMAIN: Bytes :=
    [0x63, 0x6f, 0x6e, 0x71, 0x75, 0x65, 0x72, 0x64, 0x2e, 0x63, 0x6f, 0x6e, 0x74, 0x65,
     0x6e, 0x74, 0x2e, 0x61, 0x75, 0x64, 0x69, 0x6f, 0x2e, 0x66, 0x72, 0x61, 0x6d, 0x65,
     0x2e, 0x76, 0x31]

  /** Append the fields one after another; the payload goes in as its digest. */
  method ContentAudioSigningBytes(digest: Bytes -> Bytes, convId: Bytes, sender: Bytes,
                                  seqNo: U32, ptsUs: U64, payload: Bytes) returns (out: Bytes)
    ensures out == SigningBytes(CONTENT_AUDIO_SIG_DOMAIN, convId, sender, seqNo, ptsUs, digest(payload))
  {
    out := CONTENT_AUDIO_SIG_DOMAIN;
    out := out + LengthPrefix(|convId|);
    out := out + convId;
    out := out + LengthPrefix(|sender|);
    out := out + sender;
    out := out + BigEndian(seqNo, 4);
    out := out + BigEndian(ptsUs, 8);
    out := out + digest(payload);
  }

  /** A prefix fixes the low 32 bits of a length, and so a length that has no others. */
  lemma PrefixInjective(a: nat, b: nat)
    requires LengthPrefix(a) == LengthPrefix(b)
    ensures a % U32_LIMIT == b % U32_LIMIT
    ensures a < U32_LIMIT && b < U32_LIMIT ==> a == b
  {
    hide BigEndian, FromBigEndian;
    Widths();
    FromToBigEndian(a % U32_LIMIT, 4);
    FromToBigEndian(b % U32_LIMIT, 4);
  }

  /** A length-prefixed field is read off the front without looking further. */
  lemma FieldSplits(a: Bytes, rest: Bytes, a': Bytes, rest': Bytes)
    requires |a| < U32_LIMIT && |a'| < U32_LIMIT
    requires LengthPrefix(|a|) + (a + rest) == LengthPrefix(|a'|) + (a' + rest')
    ensures a == a' && rest == rest'
  {
    hide LengthPrefix;
    var l, r := LengthPrefix(|a|) + (a + rest), LengthPrefix(|a'|) + (a' + rest');
    assert l[..4] == LengthPrefix(|a|) && r[..4] == LengthPrefix(|a'|);
    PrefixInjective(|a|, |a'|);
    assert l[4..] == a + rest && r[4..] == a' + rest';
    assert a == (a + rest)[..|a|] && a' == (a' + rest')[..|a|];
    assert rest == (a + rest)[|a|..] && rest' == (a' + rest')[|a|..];
  }

  lemma TrailerSplits(seqNo: U32, ptsUs: U64, d: Bytes, seqNo': U32, ptsUs': U64, d': Bytes)
    requires BigEndian(seqNo, 4) + BigEndian(ptsUs, 8) + d == BigEndian(seqNo', 4) + BigEndian(ptsUs', 8) + d'
    ensures seqNo == seqNo' && ptsUs == ptsUs' && d == d'
  {
    hide BigEndian;
    var l, r := BigEndian(seqNo, 4) + BigEndian(ptsUs, 8) + d, BigEndian(seqNo', 4) + BigEndian(ptsUs', 8) + d';
    assert l[..4] == BigEndian(seqNo, 4) && r[..4] == BigEndian(seqNo', 4);
    assert l[4..12] == BigEndian(ptsUs, 8) && r[4..12] == BigEndian(ptsUs', 8);
    assert l[12..] == d && r[12..] == d';
    Widths();
    FromToBigEndian(seqNo, 4);
    FromToBigEndian(seqNo', 4);
    FromToBigEndian(ptsUs, 8);
    FromToBigEndian(ptsUs', 8);
  }

  lemma SigningShape(domain: Bytes, convId: Bytes, sender: Bytes, seqNo: U32, ptsUs: U64, d: Bytes)
    ensures SigningBytes(domain, convId, sender, seqNo, ptsUs, d) ==
            domain + (LengthPrefix(|convId|) + (convId + (LengthPrefix(|sender|) + (sender
            + (BigEndian(seqNo, 4) + BigEndian(ptsUs, 8) + d)))))
  {
    hide LengthPrefix, BigEndian;
  }

  /** The signed bytes one by one: the tag, the conversation id and the sender each with
      its length before it, the number and the time heaviest byte first, the digest. */
  lemma SigningLayout(domain: Bytes, convId: Bytes, sender: Bytes, seqNo: U32, ptsUs: U64, d: Bytes)
    requires |convId| < 0x1_0000_0000 && |sender| < 0x1_0000_0000
    ensures var b := SigningBytes(domain, convId, sender, seqNo, ptsUs, d);
            var conv := |domain| + 4;
            var send := conv + |convId| + 4;
            var rest := send + |sender|;
            && |b| == rest + 12 + |d|
            && b[..|domain|] == domain
            && Four(b[|domain|..conv]) == |convId| && b[conv..send - 4] == convId
            && Four(b[send - 4..send]) == |sender| && b[send..rest] == sender
            && Four(b[rest..rest + 4]) == seqNo && Eight(b[rest + 4..rest + 12]) == ptsUs
            && b[rest + 12..] == d
  {
    hide BigEndian, Four, Eight, SigningBytes, LengthPrefix, FromBigEndian, Power256;
    var b := SigningBytes(domain, convId, sender, seqNo, ptsUs, d);
    SigningShape(domain, convId, sender, seqNo, ptsUs, d);
    var tail := BigEndian(seqNo, 4) + (BigEndian(ptsUs, 8) + d);
    assert BigEndian(seqNo, 4) + BigEndian(ptsUs, 8) + d == tail;
    assert b[0..] == b;
    Peel(b, 0, domain, LengthPrefix(|convId|) + (convId + (LengthPrefix(|sender|) + (sender + tail))));
    PeelCounted(b, |domain|, convId, LengthPrefix(|sender|) + (sender + tail));
    var send := |domain| + 4 + |convId|;
    PeelCounted(b, send, sender, tail);
    PeelNumbers(b, send + 4 + |sender|, seqNo, ptsUs, d);
  }

  /** A field with its length before it. */
  lemma PeelCounted(b: Bytes, at: nat, field: Bytes, rest: Bytes)
    requires |field| < 0x1_0000_0000 && at <= |b| && b[at..] == LengthPrefix(|field|) + (field + rest)
    ensures at + 4 + |field| <= |b| && b[at + 4 + |field|..] == rest
    ensures Four(b[at..at + 4]) == |field| && b[at + 4..at + 4 + |field|] == field
  {
    PrefixOf(|field|);
    hide LengthPrefix, BigEndian, Four;
    NumbersWeigh(|field|, 0);
    Peel(b, at, LengthPrefix(|field|), field + rest);
    Peel(b, at + 4, field, rest);
  }

  lemma PeelNumbers(b: Bytes, at: nat, seqNo: U32, ptsUs: U64, d: Bytes)
    requires at <= |b| && b[at..] == BigEndian(seqNo, 4) + (BigEndian(ptsUs, 8) + d)
    ensures at + 12 + |d| == |b| && b[at + 12..] == d
    ensures Four(b[at..at + 4]) == seqNo && Eight(b[at + 4..at + 12]) == ptsUs
  {
    hide BigEndian, Four, Eight;
    NumbersWeigh(seqNo, ptsUs);
    Peel(b, at, BigEndian(seqNo, 4), BigEndian(ptsUs, 8) + d);
    Peel(b, at + 4, BigEndian(ptsUs, 8), d);
  }

  lemma PrefixOf(n: nat)
    requires n < 0x1_0000_0000
    ensures LengthPrefix(n) == BigEndian(n, 4)
  {
    hide BigEndian;
    assert n % U32_LIMIT == n;
  }

  lemma Peel(b: Bytes, at: nat, field: Bytes, rest: Bytes)
    requires at <= |b| && b[at..] == field + rest
    ensures at + |field| <= |b| && b[at..at + |field|] == field && b[at + |field|..] == rest
    ensures |b| == at + |field| + |rest|
  {
    assert b[at..][..|field|] == field && b[at..][|field|..] == rest;
    assert b[at..][..|field|] == b[at..at + |field|] && b[at..][|field|..] == b[at + |field|..];
  }

  lemma AfterDomain(domain: Bytes, a: Bytes, b: Bytes)
    requires domain + a == domain + b
    ensures a == b
  {
    assert (domain + a)[|domain|..] == a && (domain + b)[|domain|..] == b;
  }

  /** With lengths that fit 32 bits, the signed bytes determine everything signed. */
  lemma SigningBytesInjective(domain: Bytes, convId: Bytes, sender: Bytes, seqNo: U32, ptsUs: U64, d: Bytes,
                              convId': Bytes, sender': Bytes, seqNo': U32, ptsUs': U64, d': Bytes)
    requires |convId| < U32_LIMIT && |convId'| < U32_LIMIT && |sender| < U32_LIMIT && |sender'| < U32_LIMIT
    requires SigningBytes(domain, convId, sender, seqNo, ptsUs, d) ==
             SigningBytes(domain, convId', sender', seqNo', ptsUs', d')
    ensures convId == convId' && sender == sender' && seqNo == seqNo' && ptsUs == ptsUs' && d == d'
  {
    hide SigningBytes, LengthPrefix, BigEndian;
    SigningShape(domain, convId, sender, seqNo, ptsUs, d);
    SigningShape(domain, convId', sender', seqNo', ptsUs', d');
    var tail, tail' := BigEndian(seqNo, 4) + BigEndian(ptsUs, 8) + d, BigEndian(seqNo', 4) + BigEndian(ptsUs', 8) + d';
    var rest, rest' := LengthPrefix(|sender|) + (sender + tail), LengthPrefix(|sender'|) + (sender' + tail');
    AfterDomain(domain, LengthPrefix(|convId|) + (convId + rest), LengthPrefix(|convId'|) + (convId' + rest'));
    FieldSplits(convId, rest, convId', rest');
    FieldSplits(sender, tail, sender', tail');
    TrailerSplits(seqNo, ptsUs, d, seqNo', ptsUs', d');
  }

  lemma SigningLength(domain: Bytes, convId: Bytes, sender: Bytes, seqNo: U32, ptsUs: U64, d: Bytes)
    ensures |SigningBytes(domain, convId, sender, seqNo, ptsUs, d)| == |domain| + |convId| + |sender| + |d| + 20
  {
    hide LengthPrefix, BigEndian;
  }

  lemma OtherLengthFits(a: nat, b: nat, a': nat, b': nat)
    requires a < U32_LIMIT && b < U32_LIMIT && a' % U32_LIMIT == a % U32_LIMIT && a + b == a' + b'
    ensures a' == a && b' == b
  {
  }

  lemma ConvPrefixes(domain: Bytes, convId: Bytes, rest: Bytes, convId': Bytes, rest': Bytes)
    requires domain + (LengthPrefix(|convId|) + (convId + rest)) == domain + (LengthPrefix(|convId'|) + (convId' + rest'))
    ensures LengthPrefix(|convId|) == LengthPrefix(|convId'|)
  {
    hide LengthPrefix;
    var l, r := LengthPrefix(|convId|) + (convId + rest), LengthPrefix(|convId'|) + (convId' + rest');
    AfterDomain(domain, l, r);
    assert l[..4] == LengthPrefix(|convId|) && r[..4] == LengthPrefix(|convId'|);
  }

  /** What was signed cannot be passed off as anything else: with digests of one
      length, it is enough that the lengths signed fit 32 bits; whatever the other
      input is, however long, the same bytes mean the same fields. */
  lemma SignedIsUnique(domain: Bytes, convId: Bytes, sender: Bytes, seqNo: U32, ptsUs: U64, d: Bytes,
                       convId': Bytes, sender': Bytes, seqNo': U32, ptsUs': U64, d': Bytes)
    requires |convId| < U32_LIMIT && |sender| < U32_LIMIT && |d| == |d'|
    requires SigningBytes(domain, convId, sender, seqNo, ptsUs, d) ==
             SigningBytes(domain, convId', sender', seqNo', ptsUs', d')
    ensures convId == convId' && sender == sender' && seqNo == seqNo' && ptsUs == ptsUs' && d == d'
  {
    hide SigningBytes, LengthPrefix, BigEndian;
    SigningLength(domain, convId, sender, seqNo, ptsUs, d);
    SigningLength(domain, convId', sender', seqNo', ptsUs', d');
    SigningShape(domain, convId, sender, seqNo, ptsUs, d);
    SigningShape(domain, convId', sender', seqNo', ptsUs', d');
    var tail, tail' := BigEndian(seqNo, 4) + BigEndian(ptsUs, 8) + d, BigEndian(seqNo', 4) + BigEndian(ptsUs', 8) + d';
    ConvPrefixes(domain, convId, LengthPrefix(|sender|) + (sender + tail), convId', LengthPrefix(|sender'|) + (sender' + tail'));
    PrefixInjective(|convId'|, |convId|);
    OtherLengthFits(|convId|, |sender|, |convId'|, |sender'|);
    SigningBytesInjective(domain, convId, sender, seqNo, ptsUs, d, convId', sender', seqNo', ptsUs', d');
  }

  /** The bound is the exact one: signed, a conversation id of 2^32 bytes writes the length
      prefix of an empty one, and its bytes can then pass for part of the sender. */
  lemma SigningBytesCollide(domain: Bytes, filler: Bytes, sender: Bytes, seqNo: U32, ptsUs: U64, d: Bytes)
    requires |filler| == U32_LIMIT - 4 && |sender| < U32_LIMIT
    ensures var convId := LengthPrefix(|sender|) + filler;
            var sender' := filler + LengthPrefix(|sender|) + sender;
            && |convId| == U32_LIMIT && |sender'| == U32_LIMIT + |sender|
            && SigningBytes(domain, convId, sender, seqNo, ptsUs, d) ==
               SigningBytes(domain, [], sender', seqNo, ptsUs, d)
  {
    hide BigEndian;
    var convId := LengthPrefix(|sender|) + filler;
    var sender' := filler + LengthPrefix(|sender|) + sender;
    assert LengthPrefix(|convId|) == LengthPrefix(0);
    assert LengthPrefix(|sender'|) == LengthPrefix(|sender|);
    hide LengthPrefix;
    var tail := BigEndian(seqNo, 4) + BigEndian(ptsUs, 8) + d;
    SigningShape(domain, convId, sender, seqNo, ptsUs, d);
    SigningShape(domain, [], sender', seqNo, ptsUs, d);
    assert convId + (LengthPrefix(|sender|) + (sender + tail)) ==
           [] + (LengthPrefix(|sender|) + (sender' + tail));
  }
}
