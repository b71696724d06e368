/**
 * Branding: the texts and secrets the program keeps inside its own logo,
 * a PNG image, in a zTXt chunk (section 11.3.4.4 of the PNG
 * specification, second edition) whose keyword is "chronie_data".
 *
 * `extract_metadata` checks the PNG signature, walks the chunks and
 * returns the UTF-8 bytes of the first such chunk, decompressed. zlib
 * decompression is a parameter (`Inflate`); the chunk layout, the walk
 * and every check around it are modelled. The getters read the decoded
 * categories of texts.
 */
module Branding {
  import opened Wrappers
  import opened Config

  /** The eight-byte PNG signature (section 5.2 of the PNG specification). */
  const PngSignature: seq<Byte> := [0x89, 0x50, 0x4E, 0x47, 0x0D, 0x0A, 0x1A, 0x0A]

  /** The chunk type "zTXt". */
  const ZtxtType: seq<Byte> := [0x7A, 0x54, 0x58, 0x74]

  /** The keyword of the branding chunk. */
  const ChronieKeyword: seq<Byte> := Ascii("chronie_data")

  /** zlib decompression: None when the stream is not valid. */
  type Inflate = seq<Byte> -> Option<seq<Byte>>

  datatype MetadataError =
    | NotPng        // "Not a valid PNG file"
    | InvalidUtf8   // a keyword or the decompressed text is not UTF-8
    | InflateFailed // the compressed stream does not decompress
    | NotFound      // "Branding metadata not found in logo"

  type Extracted = Result<seq<Byte>, MetadataError>

  // ---------------------------------------------------------------------
  // Big-endian lengths (section 5.3 of the PNG specification)
  // ---------------------------------------------------------------------

  const Two32: nat := 0x1_0000_0000

  /** `u32::from_be_bytes`. */
  function BeU32(b: seq<Byte>): (n: nat)
    requires |b| == 4
    ensures n < Two32
  {
    b[0] as int * 0x100_0000 + b[1] as int * 0x1_0000 + b[2] as int * 0x100 + b[3] as int
  }

  /** `u32::to_be_bytes`, what a PNG writer puts before a chunk. */
  function Be4(n: nat): (b: seq<Byte>)
    requires n < Two32
    ensures |b| == 4
  {
    [n / 0x100_0000, (n / 0x1_0000) % 0x100, (n / 0x100) % 0x100, n % 0x100]
  }

  /** Reading back the four bytes gives the length that was written. */
  lemma BeRoundTrip(n: nat)
    requires n < Two32
    ensures BeU32(Be4(n)) == n
  {
    var b := Be4(n);
    var q1 := n / 0x100;
    var q2 := q1 / 0x100;
    assert n == q1 * 0x100 + n % 0x100;
    assert q1 == q2 * 0x100 + q1 % 0x100;
    assert q2 == n / 0x1_0000;
    assert q2 / 0x100 == n / 0x100_0000;
    assert q2 == (q2 / 0x100) * 0x100 + q2 % 0x100;
  }

  // ---------------------------------------------------------------------
  // UTF-8 (the well-formed byte sequences of Table 3-7 of the Unicode Standard)
  // ---------------------------------------------------------------------

  predicate InByteRange(b: Byte, lo: Byte, hi: Byte) {
    lo <= b <= hi
  }

  /** The length of the well-formed sequence that starts `bs`, 0 when none does. */
  function SequenceLength(bs: seq<Byte>): (n: nat)
    requires |bs| > 0
    ensures n <= 4 && n <= |bs|
    ensures bs[0] < 0x80 ==> n == 1
    ensures 0x80 <= bs[0] < 0xC2 || bs[0] > 0xF4 ==> n == 0
  {
    var b := bs[0];
    if b < 0x80 then 1
    else if 0xC2 <= b <= 0xDF then
      if |bs| >= 2 && InByteRange(bs[1], 0x80, 0xBF) then 2 else 0
    else if 0xE0 <= b <= 0xEF then
      var lo := if b == 0xE0 then 0xA0 else 0x80;
      var hi := if b == 0xED then 0x9F else 0xBF;
      if |bs| >= 3 && InByteRange(bs[1], lo, hi) && InByteRange(bs[2], 0x80, 0xBF) then 3 else 0
    else if 0xF0 <= b <= 0xF4 then
      var lo := if b == 0xF0 then 0x90 else 0x80;
      var hi := if b == 0xF4 then 0x8F else 0xBF;
      if |bs| >= 4 && InByteRange(bs[1], lo, hi) && InByteRange(bs[2], 0x80, 0xBF) && InByteRange(bs[3], 0x80, 0xBF) then 4
      else 0
    else 0
  }

  /** `str::from_utf8` succeeds: the bytes are a run of well-formed sequences. */
  predicate Utf8Valid(bs: seq<Byte>)
    decreases |bs|
  {
    |bs| == 0 || (SequenceLength(bs) > 0 && Utf8Valid(bs[SequenceLength(bs)..]))
  }

  /** ASCII bytes are valid UTF-8. */
  lemma {:induction false} AsciiIsUtf8(bs: seq<Byte>)
    requires forall i :: 0 <= i < |bs| ==> bs[i] < 0x80
    ensures Utf8Valid(bs)
    decreases |bs|
  {
    if |bs| > 0 {
      assert bs[0] < 0x80;
      AsciiIsUtf8(bs[1..]);
    }
  }

  /** A continuation byte cannot start a text. */
  lemma LoneContinuationInvalid(bs: seq<Byte>)
    requires |bs| > 0 && 0x80 <= bs[0] <= 0xBF
    ensures !Utf8Valid(bs)
  {
  }

  // ---------------------------------------------------------------------
  // One chunk
  // ---------------------------------------------------------------------

  /** `iter().position(|&b| b == 0)`: the first zero byte. */
  function FirstZero(bs: seq<Byte>): (r: Option<nat>)
    ensures r.None? <==> forall j :: 0 <= j < |bs| ==> bs[j] != 0
    ensures r.Some? ==> r.value < |bs| && bs[r.value] == 0 && forall j :: 0 <= j < r.value ==> bs[j] != 0
    decreases |bs|
  {
    if |bs| == 0 then None
    else if bs[0] == 0 then Some(0)
    else
      var r := FirstZero(bs[1..]);
      assert forall j :: 0 < j < |bs| ==> bs[j] == bs[1..][j - 1];
      if r.Some? then Some(r.value + 1) else None
  }

  /**
   * What one chunk decides: None to go on to the next chunk, or the value
   * `extract_metadata` returns. Only a zTXt chunk is looked into; a
   * keyword that is not UTF-8 ends the walk with an error whatever it
   * says; one that reads "chronie_data" with compression method 0 ends it
   * with the decompressed text.
   */
  function ChunkVerdict(kind: seq<Byte>, data: seq<Byte>, inflate: Inflate): (v: Option<Extracted>)
    ensures kind != ZtxtType ==> v.None?
    ensures v == Some(Err(NotFound)) ==> false
    ensures v.Some? && v.value.Ok? ==> kind == ZtxtType && Utf8Valid(v.value.value)
  {
    if kind != ZtxtType then None
    else
      match FirstZero(data)
      case None => None
      case Some(np) =>
        var keyword := data[..np];
        if !Utf8Valid(keyword) then Some(Err(InvalidUtf8))
        else if keyword != ChronieKeyword then None
        else if |data| > np + 1 && data[np + 1] == 0 then
          match inflate(data[np + 2..])
          case None => Some(Err(InflateFailed))
          case Some(text) => if Utf8Valid(text) then Some(Ok(text)) else Some(Err(InvalidUtf8))
        else None
  }

  /** Bytes without a zero, then a zero: the first zero is right after them. */
  lemma {:induction false} FirstZeroAfter(prefix: seq<Byte>, rest: seq<Byte>)
    requires forall j :: 0 <= j < |prefix| ==> prefix[j] != 0
    requires |rest| > 0 && rest[0] == 0
    ensures FirstZero(prefix + rest) == Some(|prefix|)
    decreases |prefix|
  {
    if |prefix| > 0 {
      assert (prefix + rest)[1..] == prefix[1..] + rest;
      FirstZeroAfter(prefix[1..], rest);
    }
  }

  lemma KeywordAscii()
    ensures |ChronieKeyword| == 12
    ensures forall i :: 0 <= i < 12 ==> 0 < ChronieKeyword[i] < 0x80
  {
  }

  /**
   * A zTXt chunk holding "chronie_data", a zero separator and method byte
   * `m`: with method 0 the chunk decides the result, by what the stream
   * decompresses to; with any other method it is passed over.
   */
  lemma BrandingChunkVerdict(m: Byte, z: seq<Byte>, inflate: Inflate)
    ensures m != 0 ==> ChunkVerdict(ZtxtType, ChronieKeyword + [0, m] + z, inflate).None?
    ensures m == 0 && inflate(z).None? ==> ChunkVerdict(ZtxtType, ChronieKeyword + [0, m] + z, inflate) == Some(Err(InflateFailed))
    ensures m == 0 && inflate(z).Some? && Utf8Valid(inflate(z).value) ==>
              ChunkVerdict(ZtxtType, ChronieKeyword + [0, m] + z, inflate) == Some(Ok(inflate(z).value))
  {
    var data := ChronieKeyword + [0, m] + z;
    KeywordAscii();
    assert data == ChronieKeyword + ([0, m] + z);
    FirstZeroAfter(ChronieKeyword, [0, m] + z);
    assert data[..12] == ChronieKeyword;
    AsciiIsUtf8(ChronieKeyword);
    assert data[13] == m;
    assert data[14..] == z;
  }

  // ---------------------------------------------------------------------
  // The chunk walk
  // ---------------------------------------------------------------------

  /**
   * The walk over the bytes after the signature. A chunk is a four-byte
   * length, a four-byte type, the data and a four-byte CRC (section 5.3);
   * the walk ends when fewer than eight bytes remain or when the declared
   * length would run past the end.
   */
  function Walk(rest: seq<Byte>, inflate: Inflate): (r: Extracted)
    decreases |rest|
  {
    if |rest| < 8 then Err(NotFound)
    else
      var len := BeU32(rest[..4]);
      if 12 + len > |rest| then Err(NotFound)
      else
        var v := ChunkVerdict(rest[4..8], rest[8..8 + len], inflate);
        if v.Some? then v.value else Walk(rest[12 + len..], inflate)
  }

  /** Whether the data starts with the PNG signature. */
  predicate HasSignature(data: seq<Byte>) {
    |data| >= 8 && data[..8] == PngSignature
  }

  /** What `extract_metadata` returns. */
  function Extract(data: seq<Byte>, inflate: Inflate): (r: Extracted)
    ensures !HasSignature(data) ==> r == Err(NotPng)
    ensures r.Ok? ==> Utf8Valid(r.value)
  {
    if !HasSignature(data) then Err(NotPng) else WalkValid(data[8..], inflate); Walk(data[8..], inflate)
  }

  lemma {:induction false} WalkValid(rest: seq<Byte>, inflate: Inflate)
    ensures Walk(rest, inflate).Ok? ==> Utf8Valid(Walk(rest, inflate).value)
    ensures Walk(rest, inflate) != Err(NotPng)
    decreases |rest|
  {
    if |rest| >= 8 {
      var len := BeU32(rest[..4]);
      if 12 + len <= |rest| {
        WalkValid(rest[12 + len..], inflate);
      }
    }
  }

  /** The fields of a chunk read at `pos` are those read at the front of the bytes from there. */
  lemma ChunkSlices(data: seq<Byte>, pos: nat, len: nat)
    requires pos + 8 <= |data|
    ensures data[pos..][..4] == data[pos..pos + 4] && data[pos..][4..8] == data[pos + 4..pos + 8]
    ensures pos + 12 + len <= |data| ==>
              data[pos..][8..8 + len] == data[pos + 8..pos + 8 + len] && data[pos..][12 + len..] == data[pos + 12 + len..]
  {
  }

  /** One whole chunk at the front: its verdict, or else the walk over what follows it. */
  lemma WalkStep(rest: seq<Byte>, len: nat, kind: seq<Byte>, chunk: seq<Byte>, tail: seq<Byte>, inflate: Inflate)
    requires |rest| >= 8 && len == BeU32(rest[..4]) && 12 + len <= |rest|
    requires kind == rest[4..8] && chunk == rest[8..8 + len] && tail == rest[12 + len..]
    ensures Walk(rest, inflate) == var v := ChunkVerdict(kind, chunk, inflate); if v.Some? then v.value else Walk(tail, inflate)
  {
  }

  /** Past the signature, extracting is walking the rest. */
  lemma ExtractIsWalk(data: seq<Byte>, rest: seq<Byte>, target: Extracted, inflate: Inflate)
    requires |data| >= 8 && data[..8] == PngSignature && rest == data[8..] && target == Extract(data, inflate)
    ensures Walk(rest, inflate) == target
  {
  }

  /** Fewer than eight bytes hold no chunk. */
  lemma WalkEnd(rest: seq<Byte>, inflate: Inflate)
    requires |rest| < 8
    ensures Walk(rest, inflate) == Err(NotFound)
  {
  }

  /** A chunk whose length runs past the bytes ends the walk. */
  lemma WalkCut(rest: seq<Byte>, len: nat, inflate: Inflate)
    requires |rest| >= 8 && len == BeU32(rest[..4]) && 12 + len > |rest|
    ensures Walk(rest, inflate) == Err(NotFound)
  {
  }

  /** `extract_metadata`: the `while pos + 8 <= len` loop over the chunks. */
  method ExtractMetadata(data: seq<Byte>, inflate: Inflate) returns (r: Extracted)
    ensures r == Extract(data, inflate)
  {
    if |data| < |PngSignature| || data[..|PngSignature|] != PngSignature {
      return Err(NotPng);
    }
    var pos := |PngSignature|;
    ghost var rest := data[pos..];
    ghost var target := Extract(data, inflate);
    ExtractIsWalk(data, rest, target, inflate);
    while pos + 8 <= |data|
      invariant 8 <= pos <= |data| && rest == data[pos..]
      invariant Walk(rest, inflate) == target
      decreases |data| - pos
    {
      var length := BeU32(data[pos..pos + 4]);
      var chunkType := data[pos + 4..pos + 8];
      ChunkSlices(data, pos, length);
      if pos + 12 + length > |data| {
        WalkCut(rest, length, inflate);
        break;
      }
      var chunkData := data[pos + 8..pos + 8 + length];
      WalkStep(rest, length, chunkType, chunkData, data[pos + 12 + length..], inflate);
      var v := ChunkVerdict(chunkType, chunkData, inflate);
      if v.Some? {
        return v.value;
      }
      pos := pos + 12 + length;
      rest := data[pos..];
    }
    if pos + 8 > |data| {
      WalkEnd(rest, inflate);
    }
    return Err(NotFound);
  }


  // ---------------------------------------------------------------------
  // The walk over an image built from chunks
  // ---------------------------------------------------------------------

  datatype Chunk = Chunk(kind: seq<Byte>, data: seq<Byte>, crc: seq<Byte>)

  predicate WellSized(c: Chunk) {
    |c.kind| == 4 && |c.crc| == 4 && |c.data| < Two32
  }

  /** The bytes of a chunk as a PNG writer lays them out. */
  function Encode(c: Chunk): (b: seq<Byte>)
    requires WellSized(c)
    ensures |b| == 12 + |c.data|
  {
    Be4(|c.data|) + c.kind + c.data + c.crc
  }

  function EncodeAll(cs: seq<Chunk>): seq<Byte>
    requires forall i :: 0 <= i < |cs| ==> WellSized(cs[i])
    decreases |cs|
  {
    if |cs| == 0 then [] else Encode(cs[0]) + EncodeAll(cs[1..])
  }

  /** The first chunk, in order, whose verdict ends the walk. */
  function Search(cs: seq<Chunk>, inflate: Inflate): Option<Extracted>
    decreases |cs|
  {
    if |cs| == 0 then None
    else
      var v := ChunkVerdict(cs[0].kind, cs[0].data, inflate);
      if v.Some? then v else Search(cs[1..], inflate)
  }

  /** The walk reads one encoded chunk: its length, its type and its data, and lands on what follows. */
  lemma WalkOneChunk(c: Chunk, after: seq<Byte>, inflate: Inflate)
    requires WellSized(c)
    ensures Walk(Encode(c) + after, inflate) ==
              var v := ChunkVerdict(c.kind, c.data, inflate);
              if v.Some? then v.value else Walk(after, inflate)
  {
    var rest := Encode(c) + after;
    var n := |c.data|;
    BeRoundTrip(n);
    assert rest[..4] == Be4(n);
    assert rest[4..8] == c.kind;
    assert rest[8..8 + n] == c.data;
    assert rest[12 + n..] == after;
  }

  /**
   * Walking chunks laid out one after another visits them in order: the
   * first chunk with a verdict decides, and when none has one the walk
   * goes on into whatever follows them.
   */
  lemma {:induction false} WalkEncoded(cs: seq<Chunk>, tail: seq<Byte>, inflate: Inflate)
    requires forall i :: 0 <= i < |cs| ==> WellSized(cs[i])
    ensures Walk(EncodeAll(cs) + tail, inflate) ==
              if Search(cs, inflate).Some? then Search(cs, inflate).value else Walk(tail, inflate)
    decreases |cs|
  {
    if |cs| > 0 {
      var after := EncodeAll(cs[1..]) + tail;
      assert EncodeAll(cs) + tail == Encode(cs[0]) + after;
      WalkOneChunk(cs[0], after, inflate);
      WalkEncoded(cs[1..], tail, inflate);
    } else {
      assert EncodeAll(cs) + tail == tail;
    }
  }

  /** A well-formed image: the result is the first deciding chunk's, or NotFound. */
  lemma ExtractImage(cs: seq<Chunk>, inflate: Inflate)
    requires forall i :: 0 <= i < |cs| ==> WellSized(cs[i])
    ensures Extract(PngSignature + EncodeAll(cs), inflate) == Search(cs, inflate).UnwrapOr(Err(NotFound))
  {
    assert EncodeAll(cs) + [] == EncodeAll(cs);
    ExtractAfterSignature(EncodeAll(cs), inflate);
    WalkEncoded(cs, [], inflate);
  }

  lemma ExtractAfterSignature(rest: seq<Byte>, inflate: Inflate)
    ensures Extract(PngSignature + rest, inflate) == Walk(rest, inflate)
  {
    var data := PngSignature + rest;
    assert data[..8] == PngSignature;
    assert data[8..] == rest;
  }

  /** An image without a zTXt chunk has no branding. */
  lemma {:induction false} NoZtxtNotFound(cs: seq<Chunk>, inflate: Inflate)
    requires forall i :: 0 <= i < |cs| ==> WellSized(cs[i]) && cs[i].kind != ZtxtType
    ensures Extract(PngSignature + EncodeAll(cs), inflate) == Err(NotFound)
  {
    NoZtxtNoVerdict(cs, inflate);
    ExtractImage(cs, inflate);
  }

  lemma {:induction false} NoZtxtNoVerdict(cs: seq<Chunk>, inflate: Inflate)
    requires forall i :: 0 <= i < |cs| ==> cs[i].kind != ZtxtType
    ensures Search(cs, inflate).None?
    decreases |cs|
  {
    if |cs| > 0 {
      assert cs[0].kind != ZtxtType;
      NoZtxtNoVerdict(cs[1..], inflate);
    }
  }

  /**
   * A chunk cut short by the end of the data is never read, even a
   * branding chunk: the walk stops before its declared length overruns.
   */
  lemma TruncatedChunkIgnored(cs: seq<Chunk>, c: Chunk, k: nat, inflate: Inflate)
    requires forall i :: 0 <= i < |cs| ==> WellSized(cs[i])
    requires WellSized(c) && k < |Encode(c)|
    ensures Extract(PngSignature + (EncodeAll(cs) + Encode(c)[..k]), inflate) == Search(cs, inflate).UnwrapOr(Err(NotFound))
  {
    ExtractAfterSignature(EncodeAll(cs) + Encode(c)[..k], inflate);
    WalkEncodedTruncated(cs, c, k, inflate);
  }

  lemma WalkEncodedTruncated(cs: seq<Chunk>, c: Chunk, k: nat, inflate: Inflate)
    requires forall i :: 0 <= i < |cs| ==> WellSized(cs[i])
    requires WellSized(c) && k < |Encode(c)|
    ensures Walk(EncodeAll(cs) + Encode(c)[..k], inflate) == Search(cs, inflate).UnwrapOr(Err(NotFound))
  {
    WalkEncoded(cs, Encode(c)[..k], inflate);
    WalkTruncated(c, k, inflate);
  }

  lemma WalkTruncated(c: Chunk, k: nat, inflate: Inflate)
    requires WellSized(c) && k < |Encode(c)|
    ensures Walk(Encode(c)[..k], inflate) == Err(NotFound)
  {
    var tail := Encode(c)[..k];
    if k >= 8 {
      BeRoundTrip(|c.data|);
      assert tail[..4] == Be4(|c.data|);
    }
  }

  /** Chunks before the branding chunk that do not decide leave it in charge. */
  lemma BrandingFound(cs: seq<Chunk>, z: seq<Byte>, crc: seq<Byte>, inflate: Inflate)
    requires forall i :: 0 <= i < |cs| ==> WellSized(cs[i])
    requires Search(cs, inflate).None?
    requires |crc| == 4 && |ChronieKeyword + [0, 0] + z| < Two32
    requires inflate(z).Some? && Utf8Valid(inflate(z).value)
    ensures Extract(PngSignature + EncodeAll(cs + [Chunk(ZtxtType, ChronieKeyword + [0, 0] + z, crc)]), inflate) == Ok(inflate(z).value)
  {
    var c := Chunk(ZtxtType, ChronieKeyword + [0, 0] + z, crc);
    var all := cs + [c];
    forall i | 0 <= i < |all| ensures WellSized(all[i]) {
      if i < |cs| {
        assert all[i] == cs[i];
      }
    }
    BrandingChunkVerdict(0, z, inflate);
    assert ChunkVerdict(c.kind, c.data, inflate) == Some(Ok(inflate(z).value));
    SearchAppend(cs, c, inflate);
    ExtractImage(all, inflate);
  }

  lemma {:induction false} SearchAppend(cs: seq<Chunk>, c: Chunk, inflate: Inflate)
    requires Search(cs, inflate).None?
    ensures Search(cs + [c], inflate) == ChunkVerdict(c.kind, c.data, inflate)
    decreases |cs|
  {
    if |cs| > 0 {
      assert (cs + [c])[1..] == cs[1..] + [c];
      SearchAppend(cs[1..], c, inflate);
    } else {
      assert (cs + [c])[1..] == [];
    }
  }

  // ---------------------------------------------------------------------
  // The decoded branding and its getters
  // ---------------------------------------------------------------------

  datatype SecretSequence = SecretSequence(achievement: string, keys: seq<string>)

  datatype SecretAchievement = SecretAchievement(name: string, description: string, icon: string, chronieMessage: string)

  datatype Secrets = Secrets(sequences: map<string, SecretSequence>, achievements: map<string, SecretAchievement>)

  datatype AppBranding = AppBranding(version: string, categories: map<string, seq<string>>, secrets: Option<Secrets>)

  /** `get_all`: the texts of a category, none for an unknown one. */
  function GetAll(b: AppBranding, category: string): (r: seq<string>)
    ensures category !in b.categories ==> r == []
    ensures category in b.categories ==> r == b.categories[category]
  {
    if category in b.categories then b.categories[category] else []
  }

  /** `get_by_index`: the text at `index` modulo the category's size; None for an unknown or empty category. */
  function GetByIndex(b: AppBranding, category: string, index: nat): (r: Option<string>)
    ensures r.None? <==> GetAll(b, category) == []
    ensures r.Some? ==> r.value in GetAll(b, category)
  {
    if category !in b.categories then None
    else
      var msgs := b.categories[category];
      if |msgs| == 0 then None else Some(msgs[index % |msgs|])
  }

  /** Indexes that differ by the category's size pick the same text. */
  lemma ByIndexWraps(b: AppBranding, category: string, index: nat)
    ensures GetByIndex(b, category, index + |GetAll(b, category)|) == GetByIndex(b, category, index)
  {
    var n := |GetAll(b, category)|;
    if n > 0 {
      ModAddPeriod(index, n);
    }
  }

  lemma ModAddPeriod(i: nat, n: nat)
    requires n > 0
    ensures (i + n) % n == i % n
  {
    assert i + n == (i / n + 1) * n + i % n;
    ModUnique(i + n, n, i / n + 1, i % n);
  }

  /** Euclidean division has one quotient and one remainder. */
  lemma ModUnique(x: int, n: nat, q: int, r: int)
    requires n > 0 && 0 <= r < n && x == q * n + r
    ensures x % n == r
  {
    var k := q - x / n;
    assert k * n == x % n - r;
    if k >= 1 {
      MulAtLeast(k, n);
    } else if k <= -1 {
      MulAtLeast(-k, n);
    }
    assert k == 0;
  }

  lemma MulAtLeast(k: int, n: nat)
    requires k >= 1
    ensures k * n >= n
  {
    assert k * n == (k - 1) * n + n;
    assert (k - 1) * n >= 0;
  }

  /** Every text of a category can be reached by some index. */
  lemma ByIndexReachesAll(b: AppBranding, category: string, k: nat)
    requires k < |GetAll(b, category)|
    ensures GetByIndex(b, category, k) == Some(GetAll(b, category)[k])
  {
  }

  /**
   * `get_text`: a text of the category chosen at random; the random
   * choice is the parameter `pick`, any index into the category.
   */
  function GetText(b: AppBranding, category: string, pick: nat): (r: Option<string>)
    ensures r.None? <==> GetAll(b, category) == []
    ensures r.Some? ==> r.value in GetAll(b, category)
  {
    var msgs := GetAll(b, category);
    if |msgs| == 0 then None else Some(msgs[pick % |msgs|])
  }
}
