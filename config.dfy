/**
 * The configuration checks and `SensitiveString`, the wrapper that keeps
 * the Jira API token out of logs and stores it in the configuration file
 * as "enc[" + URL-safe base64 (section 5 of RFC 4648, padded) + "]".
 *
 * Texts are byte sequences (their UTF-8 encoding).
 */
module Config {
  import opened Wrappers

  type Byte = x: int | 0 <= x < 256

  /** The bytes of an ASCII literal. */
  function Ascii(s: string): (r: seq<Byte>)
    requires forall i :: 0 <= i < |s| ==> s[i] as int < 128
    ensures |r| == |s|
  {
    seq(|s|, i requires 0 <= i < |s| => s[i] as int)
  }

  datatype JiraConfig = JiraConfig(baseUrl: seq<Byte>, username: seq<Byte>, apiToken: seq<Byte>)

  /** `Config::is_configured`: both the Jira URL and the user name are filled in. */
  predicate IsConfigured(c: JiraConfig) {
    |c.baseUrl| > 0 && |c.username| > 0
  }

  /** Being configured depends on the URL and user name only: the token plays no part, and
      a missing URL or user name is never configured. */
  lemma ConfiguredNeedsUrlAndUser(c: JiraConfig, token: seq<Byte>)
    ensures IsConfigured(c) <==> IsConfigured(c.(apiToken := token))
    ensures c.baseUrl == [] || c.username == [] ==> !IsConfigured(c)
  {
  }

  /** What `Debug` and `Display` print for a secret, whatever it holds. */
  function Hidden(secret: seq<Byte>): (r: seq<Byte>)
    ensures r == Ascii("[HIDDEN]")
  {
    Ascii("[HIDDEN]")
  }

  // ---------------------------------------------------------------
  // URL-safe base64 (RFC 4648 section 5) with '=' padding.
  // ---------------------------------------------------------------

  const Pad: Byte := 61

  /** The character for a six-bit value: A-Z, a-z, 0-9, '-', '_'. */
  function SextetChar(v: int): (c: Byte)
    requires 0 <= v < 64
  {
    if v < 26 then 65 + v
    else if v < 52 then 97 + (v - 26)
    else if v < 62 then 48 + (v - 52)
    else if v == 62 then 45
    else 95
  }

  /** The six-bit value of an alphabet character; None for anything else, padding included. */
  function SextetValue(c: Byte): (r: Option<int>)
    ensures r.Some? ==> 0 <= r.value < 64 && SextetChar(r.value) == c
  {
    if 65 <= c <= 90 then Some(c - 65)
    else if 97 <= c <= 122 then Some(c - 97 + 26)
    else if 48 <= c <= 57 then Some(c - 48 + 52)
    else if c == 45 then Some(62)
    else if c == 95 then Some(63)
    else None
  }

  lemma SextetRoundTrip(v: int)
    requires 0 <= v < 64
    ensures SextetValue(SextetChar(v)) == Some(v)
  {
  }

  /** Four characters for three bytes. */
  function EncodeGroup(b0: Byte, b1: Byte, b2: Byte): (r: seq<Byte>)
    ensures |r| == 4
  {
    [SextetChar(b0 / 4), SextetChar((b0 % 4) * 16 + b1 / 16), SextetChar((b1 % 16) * 4 + b2 / 64), SextetChar(b2 % 64)]
  }

  /** One byte left: two characters and two pads. */
  function EncodeLastOne(b0: Byte): (r: seq<Byte>)
    ensures |r| == 4 && r[2] == Pad && r[3] == Pad
  {
    [SextetChar(b0 / 4), SextetChar((b0 % 4) * 16), Pad, Pad]
  }

  /** Two bytes left: three characters and one pad. */
  function EncodeLastTwo(b0: Byte, b1: Byte): (r: seq<Byte>)
    ensures |r| == 4 && r[3] == Pad
  {
    [SextetChar(b0 / 4), SextetChar((b0 % 4) * 16 + b1 / 16), SextetChar((b1 % 16) * 4), Pad]
  }

  /** `URL_SAFE.encode`: whole groups, then a padded group for the one or two bytes left. */
  function Base64Encode(bs: seq<Byte>): (r: seq<Byte>)
    ensures |r| % 4 == 0
    ensures |bs| == 0 <==> |r| == 0
    decreases |bs|
  {
    if |bs| == 0 then []
    else if |bs| == 1 then EncodeLastOne(bs[0])
    else if |bs| == 2 then EncodeLastTwo(bs[0], bs[1])
    else EncodeGroup(bs[0], bs[1], bs[2]) + Base64Encode(bs[3..])
  }

  /** Three bytes from four six-bit values. */
  function DecodeGroup(s0: int, s1: int, s2: int, s3: int): (r: seq<Byte>)
    requires 0 <= s0 < 64 && 0 <= s1 < 64 && 0 <= s2 < 64 && 0 <= s3 < 64
  {
    [s0 * 4 + s1 / 16, (s1 % 16) * 16 + s2 / 4, (s2 % 4) * 64 + s3]
  }

  /**
   * `URL_SAFE.decode` with canonical padding: the length is a multiple of
   * four, '=' appears only as the last one or two characters of the last
   * group, and the bits the padding discards are zero.
   */
  function Base64Decode(cs: seq<Byte>): (r: Option<seq<Byte>>)
    decreases |cs|
  {
    if |cs| == 0 then Some([])
    else if |cs| < 4 then None
    else
      var v0, v1, v2, v3 := SextetValue(cs[0]), SextetValue(cs[1]), SextetValue(cs[2]), SextetValue(cs[3]);
      if |cs| == 4 && v0.Some? && v1.Some? && cs[2] == Pad && cs[3] == Pad then
        if v1.value % 16 == 0 then Some([v0.value * 4 + v1.value / 16]) else None
      else if |cs| == 4 && v0.Some? && v1.Some? && v2.Some? && cs[3] == Pad then
        if v2.value % 4 == 0 then Some([v0.value * 4 + v1.value / 16, (v1.value % 16) * 16 + v2.value / 4]) else None
      else if v0.Some? && v1.Some? && v2.Some? && v3.Some? then
        match Base64Decode(cs[4..])
        case None => None
        case Some(rest) => Some(DecodeGroup(v0.value, v1.value, v2.value, v3.value) + rest)
      else None
  }

  /** Decoding the four six-bit values of a group gives its three bytes back. */
  lemma GroupRoundTrip(b0: Byte, b1: Byte, b2: Byte)
    ensures DecodeGroup(b0 / 4, (b0 % 4) * 16 + b1 / 16, (b1 % 16) * 4 + b2 / 64, b2 % 64) == [b0, b1, b2]
  {
    var v0, v1, v2, v3 := b0 / 4, (b0 % 4) * 16 + b1 / 16, (b1 % 16) * 4 + b2 / 64, b2 % 64;
    assert v0 * 4 + v1 / 16 == b0;
    assert (v1 % 16) * 16 + v2 / 4 == b1;
    assert (v2 % 4) * 64 + v3 == b2;
  }

  lemma RoundTripOne(b0: Byte)
    ensures Base64Decode(Base64Encode([b0])) == Some([b0])
  {
    var v0, v1 := b0 / 4, (b0 % 4) * 16;
    SextetRoundTrip(v0);
    SextetRoundTrip(v1);
    assert v0 * 4 + v1 / 16 == b0 && v1 % 16 == 0;
  }

  lemma RoundTripTwo(b0: Byte, b1: Byte)
    ensures Base64Decode(Base64Encode([b0, b1])) == Some([b0, b1])
  {
    var v0, v1, v2 := b0 / 4, (b0 % 4) * 16 + b1 / 16, (b1 % 16) * 4;
    SextetRoundTrip(v0);
    SextetRoundTrip(v1);
    SextetRoundTrip(v2);
    assert SextetChar(v2) != Pad;
    assert v1 / 16 == b0 % 4 && v1 % 16 == b1 / 16 && v2 / 4 == b1 % 16 && v2 % 4 == 0;
    assert v0 * 4 + v1 / 16 == b0 && (v1 % 16) * 16 + v2 / 4 == b1;
  }

  /** Four alphabet characters in front decode as a group in front of whatever the rest decodes to. */
  lemma DecodeFront(cs: seq<Byte>, v0: int, v1: int, v2: int, v3: int, tail: seq<Byte>)
    requires |cs| >= 4
    requires SextetValue(cs[0]) == Some(v0) && SextetValue(cs[1]) == Some(v1)
    requires SextetValue(cs[2]) == Some(v2) && SextetValue(cs[3]) == Some(v3)
    requires Base64Decode(cs[4..]) == Some(tail)
    ensures Base64Decode(cs) == Some(DecodeGroup(v0, v1, v2, v3) + tail)
  {
    assert cs[2] != Pad && cs[3] != Pad;
  }

  /** An encoded group in front of encoded text decodes to the group's bytes in front of the text's. */
  lemma GroupThenRest(b0: Byte, b1: Byte, b2: Byte, rest: seq<Byte>, tail: seq<Byte>)
    requires Base64Decode(rest) == Some(tail)
    ensures Base64Decode(EncodeGroup(b0, b1, b2) + rest) == Some([b0, b1, b2] + tail)
  {
    var v0, v1, v2, v3 := b0 / 4, (b0 % 4) * 16 + b1 / 16, (b1 % 16) * 4 + b2 / 64, b2 % 64;
    var cs := EncodeGroup(b0, b1, b2) + rest;
    assert cs[0] == SextetChar(v0) && cs[1] == SextetChar(v1) && cs[2] == SextetChar(v2) && cs[3] == SextetChar(v3);
    assert cs[4..] == rest;
    SextetRoundTrip(v0);
    SextetRoundTrip(v1);
    SextetRoundTrip(v2);
    SextetRoundTrip(v3);
    GroupRoundTrip(b0, b1, b2);
    DecodeFront(cs, v0, v1, v2, v3, tail);
  }

  /** A full group in front decodes to its three bytes in front of the rest. */
  lemma RoundTripGroup(bs: seq<Byte>)
    requires |bs| > 2
    requires Base64Decode(Base64Encode(bs[3..])) == Some(bs[3..])
    ensures Base64Decode(Base64Encode(bs)) == Some(bs)
  {
    assert Base64Encode(bs) == EncodeGroup(bs[0], bs[1], bs[2]) + Base64Encode(bs[3..]);
    GroupThenRest(bs[0], bs[1], bs[2], Base64Encode(bs[3..]), bs[3..]);
    SplitFront(bs);
  }

  lemma SplitFront(bs: seq<Byte>)
    requires |bs| > 2
    ensures [bs[0], bs[1], bs[2]] + bs[3..] == bs
  {
  }

  /** Decoding what was encoded gives the bytes back. */
  lemma {:induction false} Base64RoundTrip(bs: seq<Byte>)
    ensures Base64Decode(Base64Encode(bs)) == Some(bs)
    decreases |bs|
  {
    if |bs| == 1 {
      RoundTripOne(bs[0]);
      assert bs == [bs[0]];
    } else if |bs| == 2 {
      RoundTripTwo(bs[0], bs[1]);
      assert bs == [bs[0], bs[1]];
    } else if |bs| > 2 {
      Base64RoundTrip(bs[3..]);
      RoundTripGroup(bs);
    }
  }

  /** Every encoded character is in the alphabet or is padding. */
  lemma {:induction false} EncodedChars(bs: seq<Byte>)
    ensures forall i :: 0 <= i < |Base64Encode(bs)| ==> SextetValue(Base64Encode(bs)[i]).Some? || Base64Encode(bs)[i] == Pad
    decreases |bs|
  {
    if |bs| > 2 {
      EncodedChars(bs[3..]);
      var b0, b1, b2 := bs[0], bs[1], bs[2];
      SextetRoundTrip(b0 / 4);
      SextetRoundTrip((b0 % 4) * 16 + b1 / 16);
      SextetRoundTrip((b1 % 16) * 4 + b2 / 64);
      SextetRoundTrip(b2 % 64);
      assert Base64Encode(bs) == EncodeGroup(b0, b1, b2) + Base64Encode(bs[3..]);
    } else if |bs| == 1 {
      SextetRoundTrip(bs[0] / 4);
      SextetRoundTrip((bs[0] % 4) * 16);
    } else if |bs| == 2 {
      SextetRoundTrip(bs[0] / 4);
      SextetRoundTrip((bs[0] % 4) * 16 + bs[1] / 16);
      SextetRoundTrip((bs[1] % 16) * 4);
    }
  }

  // ---------------------------------------------------------------
  // SensitiveString
  // ---------------------------------------------------------------

  const EncOpen: seq<Byte> := [101, 110, 99, 91]
  const Close: Byte := 93

  /** `encode`: "enc[" + base64 + "]"; it is also what serialisation writes. */
  function Encode(secret: seq<Byte>): (r: seq<Byte>)
    ensures r == EncOpen + Base64Encode(secret) + [Close]
  {
    EncOpen + Base64Encode(secret) + [Close]
  }

  /** ASCII letters, digits and '_': the characters `\w` accepts in ASCII text. */
  predicate IsWordByte(c: Byte) {
    (65 <= c <= 90) || (97 <= c <= 122) || (48 <= c <= 57) || c == 95
  }

  /** A character the body of a value written by `encode` can hold: the alphabet and '='. */
  predicate IsEncodedByte(c: Byte) {
    SextetValue(c).Some? || c == Pad
  }

  /** The length of the longest prefix whose characters pass `body`'s test. */
  function Run(s: seq<Byte>, wordOnly: bool): (n: nat)
    ensures n <= |s|
    ensures forall k :: 0 <= k < n ==> (if wordOnly then IsWordByte(s[k]) else IsEncodedByte(s[k]))
    ensures n < |s| ==> !(if wordOnly then IsWordByte(s[n]) else IsEncodedByte(s[n]))
  {
    if |s| == 0 || !(if wordOnly then IsWordByte(s[0]) else IsEncodedByte(s[0])) then 0
    else 1 + Run(s[1..], wordOnly)
  }

  /**
   * The body captured by "enc[(body)]" at position `i`. With `wordOnly`
   * the body is `\w+` as the program writes it; without it the body is
   * any run of encoded characters, possibly empty.
   */
  function CaptureAt(s: seq<Byte>, i: nat, wordOnly: bool): (r: Option<seq<Byte>>)
    requires i <= |s|
  {
    var rest := s[i..];
    if |rest| < 4 || rest[..4] != EncOpen then None
    else
      var n := Run(rest[4..], wordOnly);
      if (wordOnly && n == 0) || 4 + n >= |rest| || rest[4 + n] != Close then None
      else Some(rest[4..4 + n])
  }

  /** `Regex::captures`: the leftmost position with a match. */
  function FirstCapture(s: seq<Byte>, i: nat, wordOnly: bool): (r: Option<seq<Byte>>)
    requires i <= |s|
    decreases |s| - i
  {
    if CaptureAt(s, i, wordOnly).Some? then CaptureAt(s, i, wordOnly)
    else if i == |s| then None
    else FirstCapture(s, i + 1, wordOnly)
  }

  /** `decode_str` as written: the `\w+` body is base64-decoded; no match or bad base64 is an error. */
  function DecodeStr(s: seq<Byte>): (r: Result<seq<Byte>, ()>)
  {
    match FirstCapture(s, 0, true)
    case None => Err(())
    case Some(body) =>
      match Base64Decode(body)
      case None => Err(())
      case Some(bs) => Ok(bs)
  }

  /** `from_str`: a decodable text yields its secret, any other text is kept verbatim. */
  function FromStr(s: seq<Byte>): (r: seq<Byte>)
    ensures DecodeStr(s).Ok? ==> r == DecodeStr(s).value
    ensures DecodeStr(s).Err? ==> r == s
  {
    match DecodeStr(s)
    case Ok(bs) => bs
    case Err(_) => s
  }

  /** `decode_str` with a body pattern that accepts everything `encode` writes. */
  function DecodeStrFixed(s: seq<Byte>): (r: Result<seq<Byte>, ()>)
  {
    match FirstCapture(s, 0, false)
    case None => Err(())
    case Some(body) =>
      match Base64Decode(body)
      case None => Err(())
      case Some(bs) => Ok(bs)
  }

  function FromStrFixed(s: seq<Byte>): (r: seq<Byte>)
    ensures DecodeStrFixed(s).Ok? ==> r == DecodeStrFixed(s).value
    ensures DecodeStrFixed(s).Err? ==> r == s
  {
    match DecodeStrFixed(s)
    case Ok(bs) => bs
    case Err(_) => s
  }

  /** With the fixed pattern, deserialising what serialisation wrote gives the secret back. */
  lemma SerializeRoundTripFixed(secret: seq<Byte>)
    ensures FromStrFixed(Encode(secret)) == secret
  {
    var b := Base64Encode(secret);
    var s := Encode(secret);
    EncodedChars(secret);
    assert s[0..][..4] == EncOpen;
    assert s[0..][4..] == b + [Close];
    RunStopsAtClose(b, false);
    assert CaptureAt(s, 0, false) == Some(b);
    Base64RoundTrip(secret);
  }

  /** A run over encoded characters stops exactly at the closing bracket. */
  lemma RunStopsAtClose(b: seq<Byte>, wordOnly: bool)
    requires forall i :: 0 <= i < |b| ==> (if wordOnly then IsWordByte(b[i]) else IsEncodedByte(b[i]))
    ensures Run(b + [Close], wordOnly) == |b|
    decreases |b|
  {
    if |b| > 0 {
      assert (b + [Close])[1..] == b[1..] + [Close];
      RunStopsAtClose(b[1..], wordOnly);
    }
  }

  /** When the encoding needs neither padding nor '-', the program's own pattern reads it back. */
  lemma SerializeRoundTripWordOnly(secret: seq<Byte>)
    requires |secret| > 0
    requires forall i :: 0 <= i < |Base64Encode(secret)| ==> IsWordByte(Base64Encode(secret)[i])
    ensures FromStr(Encode(secret)) == secret
  {
    var b := Base64Encode(secret);
    var s := Encode(secret);
    assert s[0..][..4] == EncOpen;
    assert s[0..][4..] == b + [Close];
    RunStopsAtClose(b, true);
    assert CaptureAt(s, 0, true) == Some(b);
    Base64RoundTrip(secret);
  }

  /** The one-byte secret "a" is written as "enc[YQ==]". */
  lemma EncodeA()
    ensures Encode([97]) == EncOpen + [89, 81, Pad, Pad] + [Close]
  {
  }

  /** The program's pattern finds nothing in "enc[YQ==]", so the stored text comes back verbatim. */
  lemma PaddedSecretComesBackVerbatim()
    ensures FromStr(Encode([97])) == Encode([97])
    ensures FromStr(Encode([97])) != [97]
  {
    var s := Encode([97]);
    EncodeA();
    assert |s| == 9;
    assert s[0..][..4] == EncOpen;
    var t := s[0..][4..];
    assert t == [89, 81, Pad, Pad, Close];
    assert t[1..][1..] == [Pad, Pad, Close];
    assert Run(t[1..][1..], true) == 0;
    assert Run(t[1..], true) == 1;
    assert Run(t, true) == 2;
    assert CaptureAt(s, 0, true).None?;
    forall i | 1 <= i <= |s| ensures CaptureAt(s, i, true).None? {
      assert |s[i..]| < 4 || s[i..][..4] != EncOpen;
    }
    NoCaptureFrom(s, 0, true);
  }

  /** The empty secret (the default token) is written as "enc[]" and also comes back verbatim. */
  lemma EmptySecretComesBackVerbatim()
    ensures FromStr(Encode([])) == EncOpen + [Close]
  {
    var s := Encode([]);
    assert s == [101, 110, 99, 91, 93];
    assert Run(s[0..][4..], true) == 0;
    forall i | 0 <= i <= |s| ensures CaptureAt(s, i, true).None? {
      if i > 0 { assert |s[i..]| < 4 || s[i..][..4] != EncOpen; }
    }
    NoCaptureFrom(s, 0, true);
  }

  lemma {:induction false} NoCaptureFrom(s: seq<Byte>, i: nat, wordOnly: bool)
    requires i <= |s|
    requires forall j :: i <= j <= |s| ==> CaptureAt(s, j, wordOnly).None?
    ensures FirstCapture(s, i, wordOnly).None?
    decreases |s| - i
  {
    if i < |s| {
      NoCaptureFrom(s, i + 1, wordOnly);
    }
  }

  /** `from_str` never fails: it always yields a secret, decoded or verbatim. */
  lemma FromStrTotal(s: seq<Byte>)
    ensures FromStr(s) == s || DecodeStr(s) == Ok(FromStr(s))
  {
  }
}
