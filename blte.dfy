/** The BLTE chunk container (crates/casc-cdn-client/src/blte.rs).

    Wire layout: the magic `BLTE`; a big-endian 32-bit header size; the flag
    byte 0x0F; a 24-bit big-endian chunk count; one 24-byte record per chunk
    (compressed size, decoded size, MD5 of the compressed bytes); then the
    chunk payloads back to back, each a tag byte (`N` raw, `Z` zlib) followed
    by the chunk's bytes.

    `Decode` is the reference definition, `Parse` the cursor-driven decoder
    that fills a preallocated output buffer window by window. MD5 and
    inflate are parameters: the model holds for every digest function and
    every inflater. */
module Blte {
  import opened Common

  /** `miniz_oxide::inflate::decompress_slice_iter_to_slice` given the
      zlib stream, the capacity of the output window and whether to skip the
      Adler-32 check; it yields the bytes it wrote, or None on an inflate
      error. */
  type Inflater = (seq<byte>, nat, bool) -> Option<seq<byte>>

  const MAGIC: seq<byte> := [0x42, 0x4C, 0x54, 0x45]  // "BLTE"
  const FLAG: byte := 0x0F
  const TAG_RAW: byte := 0x4E  // 'N'
  const TAG_ZLIB: byte := 0x5A  // 'Z'

  /** One record of the chunk table. */
  datatype ChunkInfo = ChunkInfo(compressedSize: nat, decodedSize: nat, checksum: u128)

  function HeaderSize(data: seq<byte>): nat
    requires |data| >= 8
  {
    BeAt(data, 4, 4)
  }

  /** The 24-bit chunk count `(u8 << 16) | u16` at byte 9; the two bit ranges
      are disjoint, so the `|` is the sum below. */
  function ChunkCount(data: seq<byte>): nat
    requires |data| >= 12
  {
    data[9] as nat * 0x1_0000 + BeAt(data, 10, 2)
  }

  function ChunkInfoAt(data: seq<byte>, off: nat): ChunkInfo
    requires off + 24 <= |data|
  {
    ChunkInfo(BeAt(data, off, 4), BeAt(data, off + 4, 4), U128At(data, off + 8))
  }

  /** The chunk table: `count` records from byte 12 on. */
  function ChunkTable(data: seq<byte>, count: nat): (t: seq<ChunkInfo>)
    requires 12 + 24 * count <= |data|
    ensures |t| == count
  {
    seq(count, k requires 0 <= k < count => ChunkInfoAt(data, 12 + 24 * k))
  }

  lemma ChunkTableAt(data: seq<byte>, count: nat, k: nat)
    requires 12 + 24 * count <= |data| && k < count
    ensures 12 + 24 * k + 24 <= |data| && ChunkTable(data, count)[k] == ChunkInfoAt(data, 12 + 24 * k)
  {
  }

  lemma TakeSnoc<T>(s: seq<T>, i: nat)
    requires i < |s|
    ensures s[..i + 1] == s[..i] + [s[i]]
  {
  }

  function TotalDecoded(infos: seq<ChunkInfo>): nat
  {
    if |infos| == 0 then 0 else infos[0].decodedSize + TotalDecoded(infos[1..])
  }

  function TotalCompressed(infos: seq<ChunkInfo>): nat
  {
    if |infos| == 0 then 0 else infos[0].compressedSize + TotalCompressed(infos[1..])
  }

  lemma {:induction false} TotalDecodedAppend(infos: seq<ChunkInfo>, c: ChunkInfo)
    ensures TotalDecoded(infos + [c]) == TotalDecoded(infos) + c.decodedSize
  {
    if |infos| > 0 {
      assert (infos + [c])[1..] == infos[1..] + [c];
      TotalDecodedAppend(infos[1..], c);
    }
  }

  /** The decoded sizes of records k, k+1, ... of `infos`. */
  function DecodedFrom(infos: seq<ChunkInfo>, k: nat): nat
    decreases |infos| - k
  {
    if k >= |infos| then 0 else infos[k].decodedSize + DecodedFrom(infos, k + 1)
  }

  lemma {:induction false} DecodedFromTotal(infos: seq<ChunkInfo>, k: nat)
    requires k <= |infos|
    ensures DecodedFrom(infos, k) == TotalDecoded(infos[k..])
    decreases |infos| - k
  {
    if k < |infos| {
      DecodedFromTotal(infos, k + 1);
      assert infos[k..][1..] == infos[k + 1..];
    }
  }

  /** `parse_blte_chunk`: what one chunk payload decodes to when its output
      window holds `size` bytes. */
  function DecodeChunk(chunk: seq<byte>, size: nat, inflate: Inflater, verify: bool): (r: Result<seq<byte>>)
    ensures r.Ok? ==> |r.value| == size
    ensures r.Ok? ==> |chunk| >= 1 && (chunk[0] == TAG_RAW || chunk[0] == TAG_ZLIB)
    ensures r.Ok? && chunk[0] == TAG_RAW ==> r.value == chunk[1..]
    ensures r.Ok? && chunk[0] == TAG_ZLIB ==> inflate(chunk[1..], size, !verify) == Some(r.value)
  {
    if |chunk| == 0 then Err(Panic)  // `&data[1..]` of an empty chunk
    else if chunk[0] == TAG_RAW then
      if |chunk| - 1 == size then Ok(chunk[1..]) else Err(RawSizeMismatch)
    else if chunk[0] == TAG_ZLIB then
      match inflate(chunk[1..], size, !verify)
      case None => Err(InflateFailed)
      case Some(out) => if |out| == size then Ok(out) else Err(InflateSizeMismatch)
    else Err(InvalidEncoding)
  }

  /** The first chunk of `payload` under record `c`: its bytes must be
      there, match their digest when `verify` is on, and decode. */
  function ChunkStep(c: ChunkInfo, payload: seq<byte>, md5: Md5, inflate: Inflater, verify: bool): (r: Result<seq<byte>>)
    ensures r.Ok? ==> c.compressedSize <= |payload| && |r.value| == c.decodedSize
  {
    if c.compressedSize > |payload| then Err(Panic)  // `&p[0..compressed_size]`
    else
      var chunk := payload[..c.compressedSize];
      if verify && md5(chunk) != c.checksum then Err(ChunkChecksum)
      else DecodeChunk(chunk, c.decodedSize, inflate, verify)
  }

  /** The chunk payloads `payload` decoded in table order; the payload must
      be used up exactly. */
  function DecodeChunks(infos: seq<ChunkInfo>, payload: seq<byte>, md5: Md5, inflate: Inflater, verify: bool): (r: Result<seq<byte>>)
    decreases |infos|
  {
    if |infos| == 0 then
      if |payload| == 0 then Ok([]) else Err(TrailingData)
    else
      match ChunkStep(infos[0], payload, md5, inflate, verify)
      case Err(e) => Err(e)
      case Ok(bytes) => Prefixed(bytes, DecodeChunks(infos[1..], payload[infos[0].compressedSize..], md5, inflate, verify))
  }

  /** A successful decode yields exactly the decoded sizes of the table. */
  lemma {:induction false} DecodeChunksLength(infos: seq<ChunkInfo>, payload: seq<byte>, md5: Md5, inflate: Inflater, verify: bool)
    ensures var r := DecodeChunks(infos, payload, md5, inflate, verify);
            r.Ok? ==> |r.value| == TotalDecoded(infos)
    decreases |infos|
  {
    if |infos| > 0 && ChunkStep(infos[0], payload, md5, inflate, verify).Ok? {
      DecodeChunksLength(infos[1..], payload[infos[0].compressedSize..], md5, inflate, verify);
    }
  }

  /** The header checks of `blte::parse`, in the code's order: the chunk
      count when the header is well formed. A `header_size` below 8 makes
      `header_size - 8` underflow: a panic when overflow checks are on (as
      they are with `debug_assertions`, which `verify` stands for), and a
      wrapped, huge bound that fails the length check when they are off. */
  function Header(checksum: u128, data: seq<byte>, md5: Md5, verify: bool): (r: Result<nat>)
    ensures r.Ok? ==> |data| >= 12 && data[..4] == MAGIC && r.value == ChunkCount(data)
    ensures r.Ok? ==> HeaderSize(data) != 0 && HeaderSize(data) <= |data|
    ensures r.Ok? ==> md5(data[..HeaderSize(data)]) == checksum
    ensures r.Ok? ==> data[8] == FLAG && HeaderSize(data) == ChunkCount(data) * 24 + 12
  {
    if |data| < 12 then Err(TruncatedHeader)
    else if data[..4] != MAGIC then Err(NotBlte)
    else
      var headerSize := HeaderSize(data);
      if headerSize == 0 then Err(MissingHeader)
      else if headerSize < 8 then if verify then Err(Panic) else Err(ShortHeader)
      else if |data| - 8 < headerSize - 8 then Err(ShortHeader)
      else if md5(data[..headerSize]) != checksum then Err(HeaderChecksum)
      else if data[8] != FLAG then Err(BadFlag)
      else
        var count := ChunkCount(data);
        if headerSize != count * 24 + 12 then Err(HeaderSizeMismatch)
        else Ok(count)
  }

  /** A header size of 1 to 7 is refused before the header digest is
      looked at: by the underflow panic with overflow checks on, by the
      length check without them. */
  lemma SmallHeaderSize(checksum: u128, data: seq<byte>, md5: Md5, verify: bool)
    requires |data| >= 12 && data[..4] == MAGIC && 0 < HeaderSize(data) < 8
    ensures Header(checksum, data, md5, verify) == if verify then Err(Panic) else Err(ShortHeader)
  {
  }

  /** `blte::parse(checksum, data)`: the reference definition. */
  function Decode(checksum: u128, data: seq<byte>, md5: Md5, inflate: Inflater, verify: bool): (r: Result<seq<byte>>)
    ensures r.Ok? ==> |data| >= 12 && data[..4] == MAGIC
    ensures r.Ok? ==> HeaderSize(data) != 0 && HeaderSize(data) <= |data|
    ensures r.Ok? ==> md5(data[..HeaderSize(data)]) == checksum
    ensures r.Ok? ==> data[8] == FLAG && HeaderSize(data) == ChunkCount(data) * 24 + 12
  {
    match Header(checksum, data, md5, verify)
    case Err(e) => Err(e)
    case Ok(count) => DecodeChunks(ChunkTable(data, count), data[HeaderSize(data)..], md5, inflate, verify)
  }

  /** The decoded blob is as long as the chunk table's decoded sizes add up
      to (the `overall_uncompressed_size` the output is allocated with). */
  lemma DecodeLength(checksum: u128, data: seq<byte>, md5: Md5, inflate: Inflater, verify: bool)
    ensures var r := Decode(checksum, data, md5, inflate, verify);
            r.Ok? ==> |r.value| == TotalDecoded(ChunkTable(data, ChunkCount(data)))
  {
    var r := Decode(checksum, data, md5, inflate, verify);
    if r.Ok? {
      DecodeChunksLength(ChunkTable(data, ChunkCount(data)), data[HeaderSize(data)..], md5, inflate, verify);
    }
  }

  /** `parse_blte_chunk(chunk, &mut out[lo..lo + size])`: decodes one chunk
      into its output window and touches nothing outside it. */
  method ParseChunk(chunk: seq<byte>, out: array<byte>, lo: nat, size: nat, inflate: Inflater, verify: bool)
    returns (r: Result<()>)
    requires lo + size <= out.Length
    modifies out
    ensures r.Ok? <==> DecodeChunk(chunk, size, inflate, verify).Ok?
    ensures r.Err? ==> r.error == DecodeChunk(chunk, size, inflate, verify).error
    ensures r.Ok? ==> out[lo..lo + size] == DecodeChunk(chunk, size, inflate, verify).value
    ensures out[..lo] == old(out[..lo]) && out[lo + size..] == old(out[lo + size..])
  {
    if |chunk| == 0 {
      return Err(Panic);
    }
    var chunkData := chunk[1..];
    var bytes: seq<byte>;
    if chunk[0] == TAG_RAW {
      if |chunkData| != size {
        return Err(RawSizeMismatch);
      }
      bytes := chunkData;
    } else if chunk[0] == TAG_ZLIB {
      var inflated := inflate(chunkData, size, !verify);
      if inflated.None? {
        return Err(InflateFailed);
      }
      if |inflated.value| != size {
        return Err(InflateSizeMismatch);
      }
      bytes := inflated.value;
    } else {
      return Err(InvalidEncoding);
    }
    // copy_from_slice into the window
    forall j | 0 <= j < size {
      out[lo + j] := bytes[j];
    }
    r := Ok(());
  }

  /** `blte::parse`: reads the header with a cursor, sums the decoded sizes
      of the chunk table, allocates the output once and decodes every chunk
      into the next window of it. */
  method Parse(checksum: u128, data: seq<byte>, md5: Md5, inflate: Inflater, verify: bool)
    returns (r: Result<seq<byte>>)
    ensures r == Decode(checksum, data, md5, inflate, verify)
  {
    var header := ReadHeader(checksum, data, md5, verify);
    if header.Err? {
      return Err(header.error);
    }
    var chunkInfo, overall := ReadChunkTable(data, header.value);
    r := DecodeInto(chunkInfo, overall, data, HeaderSize(data), md5, inflate, verify);
  }

  /** The cursor-driven header reads of `blte::parse`. */
  method ReadHeader(checksum: u128, data: seq<byte>, md5: Md5, verify: bool) returns (r: Result<nat>)
    ensures r == Header(checksum, data, md5, verify)
  {
    var p := 0;  // bytes of `data` consumed so far
    if |data| - p < 12 {
      return Err(TruncatedHeader);
    }
    if data[p..p + 4] != MAGIC {
      return Err(NotBlte);
    }
    p := p + 4;
    var headerSize := BeAt(data, p, 4);
    p := p + 4;
    if headerSize == 0 {
      return Err(MissingHeader);
    }
    if headerSize < 8 {
      // `header_size - 8` underflows: a panic with overflow checks, a
      // bound no data can meet without them
      return if verify then Err(Panic) else Err(ShortHeader);
    }
    if |data| - p < headerSize - 8 {
      return Err(ShortHeader);
    }
    if md5(data[..headerSize]) != checksum {
      return Err(HeaderChecksum);
    }
    if data[p] != FLAG {
      return Err(BadFlag);
    }
    var chunkCount := data[p + 1] as nat * 0x1_0000 + BeAt(data, p + 2, 2);
    if headerSize != chunkCount * 24 + 12 {
      return Err(HeaderSizeMismatch);
    }
    return Ok(chunkCount);
  }

  /** The loop that reads the chunk table and sums the decoded sizes
      (`overall_uncompressed_size`). */
  method ReadChunkTable(data: seq<byte>, chunkCount: nat) returns (chunkInfo: seq<ChunkInfo>, overall: nat)
    requires 12 + 24 * chunkCount <= |data|
    ensures chunkInfo == ChunkTable(data, chunkCount)
    ensures overall == TotalDecoded(chunkInfo)
  {
    ghost var table := ChunkTable(data, chunkCount);
    chunkInfo := [];
    overall := 0;
    var p := 12;
    for i := 0 to chunkCount
      invariant p == 12 + 24 * i
      invariant chunkInfo == table[..i]
      invariant overall == TotalDecoded(chunkInfo)
    {
      var info := ChunkInfoAt(data, p);
      ChunkTableAt(data, chunkCount, i);
      TakeSnoc(table, i);
      TotalDecodedAppend(chunkInfo, info);
      chunkInfo := chunkInfo + [info];
      overall := overall + info.decodedSize;
      p := p + 24;
    }
  }

  /** One turn of the loop over the chunk table: slices chunk `info` off
      the cursor, checks its digest when `verify` is on and decodes it into
      `result[resultPtr..]`. */
  method DecodeOne(info: ChunkInfo, data: seq<byte>, p: nat, result: array<byte>, resultPtr: nat,
                   md5: Md5, inflate: Inflater, verify: bool)
    returns (r: Result<seq<byte>>)
    requires p <= |data| && resultPtr + info.decodedSize <= result.Length
    modifies result
    ensures r == ChunkStep(info, data[p..], md5, inflate, verify)
    ensures r.Ok? ==> result[..resultPtr + info.decodedSize] == old(result[..resultPtr]) + r.value
    ensures result[..resultPtr] == old(result[..resultPtr])
    ensures result[resultPtr + info.decodedSize..] == old(result[resultPtr + info.decodedSize..])
  {
    if info.compressedSize > |data| - p {
      return Err(Panic);
    }
    var chunk := data[p..p + info.compressedSize];
    assert data[p..][..info.compressedSize] == chunk;
    if verify && md5(chunk) != info.checksum {
      return Err(ChunkChecksum);
    }
    var outcome := ParseChunk(chunk, result, resultPtr, info.decodedSize, inflate, verify);
    if outcome.Err? {
      return Err(outcome.error);
    }
    r := Ok(result[resultPtr..resultPtr + info.decodedSize]);
    assert result[..resultPtr + info.decodedSize] == result[..resultPtr] + r.value;
  }

  /** The chunk decode from record k and payload byte p on: the loop's view
      of `DecodeChunks`, which reads the table and the payload by index. */
  function ChunksFrom(infos: seq<ChunkInfo>, k: nat, data: seq<byte>, p: nat, md5: Md5, inflate: Inflater, verify: bool)
    : Result<seq<byte>>
    requires k <= |infos| && p <= |data|
    decreases |infos| - k
  {
    if k == |infos| then
      if p == |data| then Ok([]) else Err(TrailingData)
    else
      match ChunkStep(infos[k], data[p..], md5, inflate, verify)
      case Err(e) => Err(e)
      case Ok(bytes) => Prefixed(bytes, ChunksFrom(infos, k + 1, data, p + infos[k].compressedSize, md5, inflate, verify))
  }

  lemma {:induction false} ChunksFromIs(infos: seq<ChunkInfo>, k: nat, data: seq<byte>, p: nat, md5: Md5, inflate: Inflater, verify: bool)
    requires k <= |infos| && p <= |data|
    ensures ChunksFrom(infos, k, data, p, md5, inflate, verify) == DecodeChunks(infos[k..], data[p..], md5, inflate, verify)
    decreases |infos| - k
  {
    if k < |infos| {
      var step := ChunkStep(infos[k], data[p..], md5, inflate, verify);
      assert infos[k..][0] == infos[k] && infos[k..][1..] == infos[k + 1..];
      if step.Ok? {
        ChunksFromIs(infos, k + 1, data, p + infos[k].compressedSize, md5, inflate, verify);
        assert data[p..][infos[k].compressedSize..] == data[p + infos[k].compressedSize..];
      }
    }
  }

  /** One turn of the chunk loop: chunk k, read at the cursor `p`, decoded
      into the window of `result` at `resultPtr`, moving its bytes from the
      undecoded rest of the reference decode to the decoded prefix. */
  method DecodeStep(chunkInfo: seq<ChunkInfo>, k: nat, data: seq<byte>, p: nat, result: array<byte>, resultPtr: nat,
                    ghost whole: Result<seq<byte>>, md5: Md5, inflate: Inflater, verify: bool)
    returns (r: Result<nat>)
    requires k < |chunkInfo| && p <= |data|
    requires resultPtr + DecodedFrom(chunkInfo, k) == result.Length
    requires whole == Prefixed(result[..resultPtr], ChunksFrom(chunkInfo, k, data, p, md5, inflate, verify))
    modifies result
    ensures r.Err? ==> whole == Err(r.error)
    ensures r.Ok? ==> r.value == resultPtr + chunkInfo[k].decodedSize && p + chunkInfo[k].compressedSize <= |data|
    ensures r.Ok? ==> r.value + DecodedFrom(chunkInfo, k + 1) == result.Length
    ensures r.Ok? ==> whole == Prefixed(result[..r.value], ChunksFrom(chunkInfo, k + 1, data, p + chunkInfo[k].compressedSize, md5, inflate, verify))
  {
    ghost var done := result[..resultPtr];
    var step := DecodeOne(chunkInfo[k], data, p, result, resultPtr, md5, inflate, verify);
    if step.Err? {
      return Err(step.error);
    }
    PrefixedAppend(done, step.value, ChunksFrom(chunkInfo, k + 1, data, p + chunkInfo[k].compressedSize, md5, inflate, verify));
    r := Ok(resultPtr + chunkInfo[k].decodedSize);
  }

  /** The loop over the chunk table: decodes chunk k, read at the cursor
      `p`, into the window of `result` that starts where chunk k-1's ended,
      and gives back the cursor after the last chunk. */
  method DecodeLoop(chunkInfo: seq<ChunkInfo>, data: seq<byte>, start: nat, result: array<byte>,
                    md5: Md5, inflate: Inflater, verify: bool)
    returns (r: Result<nat>)
    requires start <= |data|
    requires result.Length == DecodedFrom(chunkInfo, 0)
    modifies result
    ensures r.Err? ==> ChunksFrom(chunkInfo, 0, data, start, md5, inflate, verify) == Err(r.error)
    ensures r.Ok? ==> start <= r.value <= |data|
    ensures r.Ok? ==> ChunksFrom(chunkInfo, 0, data, start, md5, inflate, verify)
                      == Prefixed(result[..], ChunksFrom(chunkInfo, |chunkInfo|, data, r.value, md5, inflate, verify))
  {
    var p: nat := start;
    var resultPtr: nat := 0;
    ghost var whole := ChunksFrom(chunkInfo, 0, data, start, md5, inflate, verify);
    PrefixedEmpty(whole);
    for k := 0 to |chunkInfo|
      invariant start <= p <= |data|
      invariant resultPtr + DecodedFrom(chunkInfo, k) == result.Length
      invariant whole == Prefixed(result[..resultPtr], ChunksFrom(chunkInfo, k, data, p, md5, inflate, verify))
    {
      var step := DecodeStep(chunkInfo, k, data, p, result, resultPtr, whole, md5, inflate, verify);
      if step.Err? {
        return Err(step.error);
      }
      resultPtr := step.value;
      p := p + chunkInfo[k].compressedSize;
    }
    assert result[..] == result[..resultPtr];
    return Ok(p);
  }

  /** Allocates `overall` bytes, runs the chunk loop and refuses payload
      bytes left after the last chunk. */
  method DecodeInto(chunkInfo: seq<ChunkInfo>, overall: nat, data: seq<byte>, start: nat,
                    md5: Md5, inflate: Inflater, verify: bool)
    returns (r: Result<seq<byte>>)
    requires start <= |data|
    requires overall == TotalDecoded(chunkInfo)
    ensures r == DecodeChunks(chunkInfo, data[start..], md5, inflate, verify)
  {
    var result := new byte[overall];
    DecodedFromTotal(chunkInfo, 0);
    ChunksFromIs(chunkInfo, 0, data, start, md5, inflate, verify);
    assert chunkInfo[0..] == chunkInfo;
    var end := DecodeLoop(chunkInfo, data, start, result, md5, inflate, verify);
    if end.Err? {
      return Err(end.error);
    }
    if end.value < |data| {
      return Err(TrailingData);
    }
    assert result[..] + [] == result[..];
    r := Ok(result[..]);
  }

  /** Chunk k of `infos` sits at the k-th compressed offset of `payload`,
      passed its digest check when `verify` is on, and decoded to exactly
      the window of `out` that starts at the k-th decoded offset. */
  ghost predicate ChunkDecodedAt(infos: seq<ChunkInfo>, payload: seq<byte>, out: seq<byte>, k: nat,
                                 md5: Md5, inflate: Inflater, verify: bool)
    requires k < |infos|
  {
    var c := infos[k];
    var from := TotalCompressed(infos[..k]);
    var to := TotalDecoded(infos[..k]);
    && from + c.compressedSize <= |payload|
    && to + c.decodedSize <= |out|
    && (verify ==> md5(payload[from..from + c.compressedSize]) == c.checksum)
    && DecodeChunk(payload[from..from + c.compressedSize], c.decodedSize, inflate, verify)
       == Ok(out[to..to + c.decodedSize])
  }

  /** A successful decode of the payloads uses every payload byte and puts
      each chunk's bytes in its own window, in table order. */
  lemma {:induction false} ChunkLayout(infos: seq<ChunkInfo>, payload: seq<byte>, out: seq<byte>,
                                       md5: Md5, inflate: Inflater, verify: bool)
    requires DecodeChunks(infos, payload, md5, inflate, verify) == Ok(out)
    ensures TotalCompressed(infos) == |payload|
    ensures forall k :: 0 <= k < |infos| ==> ChunkDecodedAt(infos, payload, out, k, md5, inflate, verify)
    decreases |infos|
  {
    if |infos| > 0 {
      var c := infos[0];
      var chunk := payload[..c.compressedSize];
      var bytes := DecodeChunk(chunk, c.decodedSize, inflate, verify).value;
      var tail := payload[c.compressedSize..];
      var rest := out[c.decodedSize..];
      assert out[..c.decodedSize] == bytes;
      ChunkLayout(infos[1..], tail, rest, md5, inflate, verify);
      forall k | 0 <= k < |infos|
        ensures ChunkDecodedAt(infos, payload, out, k, md5, inflate, verify)
      {
        if k == 0 {
          assert infos[..0] == [];
        } else {
          ChunkDecodedAtShift(infos, payload, out, k, md5, inflate, verify);
        }
      }
    }
  }

  /** Chunk k of the table is chunk k-1 of the table that follows chunk 0. */
  lemma ChunkDecodedAtShift(infos: seq<ChunkInfo>, payload: seq<byte>, out: seq<byte>, k: nat,
                            md5: Md5, inflate: Inflater, verify: bool)
    requires 0 < k < |infos|
    requires infos[0].compressedSize <= |payload| && infos[0].decodedSize <= |out|
    requires ChunkDecodedAt(infos[1..], payload[infos[0].compressedSize..], out[infos[0].decodedSize..], k - 1, md5, inflate, verify)
    ensures ChunkDecodedAt(infos, payload, out, k, md5, inflate, verify)
  {
    var c := infos[0];
    var tail := payload[c.compressedSize..];
    var rest := out[c.decodedSize..];
    assert infos[..k][1..] == infos[1..][..k - 1];
    var from := TotalCompressed(infos[..k]);
    var to := TotalDecoded(infos[..k]);
    assert from == c.compressedSize + TotalCompressed(infos[1..][..k - 1]);
    assert to == c.decodedSize + TotalDecoded(infos[1..][..k - 1]);
    assert infos[1..][k - 1] == infos[k];
    DropSlice(payload, c.compressedSize, from - c.compressedSize, from - c.compressedSize + infos[k].compressedSize);
    DropSlice(out, c.decodedSize, to - c.decodedSize, to - c.decodedSize + infos[k].decodedSize);
  }

  /** What a successful `blte::parse` promises about its input and output:
      no byte follows the last chunk, and chunk k of the table decodes into
      output bytes [sum of earlier decoded sizes, + its own). */
  lemma DecodeLayout(checksum: u128, data: seq<byte>, out: seq<byte>, md5: Md5, inflate: Inflater, verify: bool)
    requires Decode(checksum, data, md5, inflate, verify) == Ok(out)
    ensures HeaderSize(data) + TotalCompressed(ChunkTable(data, ChunkCount(data))) == |data|
    ensures forall k :: 0 <= k < ChunkCount(data) ==>
      ChunkDecodedAt(ChunkTable(data, ChunkCount(data)), data[HeaderSize(data)..], out, k, md5, inflate, verify)
  {
    ChunkLayout(ChunkTable(data, ChunkCount(data)), data[HeaderSize(data)..], out, md5, inflate, verify);
  }

  /** The count `(hi << 16) | u16` is the 24-bit big-endian field at byte 9. */
  lemma ChunkCountIs24Bit(data: seq<byte>)
    requires |data| >= 12
    ensures ChunkCount(data) == FromBe(data[9..12]) < 0x100_0000
  {
    assert data[9..12] == data[9..10] + data[10..12];
    FromBeAppend(data[9..10], data[10..12]);
    assert FromBe(data[9..10]) == data[9] by {
      assert data[9..10][..0] == [];
    }
    FromBeBound(data[9..12]);
  }

  /** The five bytes "hello" stored raw in a chunk with digest `d`. */
  function HelloContainer(d: u128): (data: seq<byte>)
    ensures |data| == 42
  {
    Pow256Of16();
    MAGIC + [0, 0, 0, 36, FLAG, 0, 0, 1, 0, 0, 0, 6, 0, 0, 0, 5] + ToBe(d, 16)
      + [TAG_RAW, 0x68, 0x65, 0x6C, 0x6C, 0x6F]
  }

  lemma HelloHeader(d: u128)
    ensures var data := HelloContainer(d);
            data[..4] == MAGIC && data[8] == FLAG && HeaderSize(data) == 36 && ChunkCount(data) == 1
  {
    var data := HelloContainer(d);
    assert data[4..8] == [0, 0, 0, 36];
    FromBe4(data[4..8]);
    assert data[10..12] == [0, 1];
    FromBe2(data[10..12]);
  }

  lemma HelloTable(d: u128)
    ensures ChunkTable(HelloContainer(d), 1) == [ChunkInfo(6, 5, d)]
  {
    var data := HelloContainer(d);
    Pow256Of16();
    assert data[12..16] == [0, 0, 0, 6];
    FromBe4(data[12..16]);
    assert data[16..20] == [0, 0, 0, 5];
    FromBe4(data[16..20]);
    assert data[20..36] == ToBe(d, 16);
    FromBeToBe(d, 16);
    assert ChunkInfoAt(data, 12) == ChunkInfo(6, 5, d);
  }

  lemma HelloChunks(chunk: seq<byte>, d: u128, md5: Md5, inflate: Inflater, verify: bool)
    requires chunk == [TAG_RAW, 0x68, 0x65, 0x6C, 0x6C, 0x6F] && d == md5(chunk)
    ensures DecodeChunks([ChunkInfo(6, 5, d)], chunk, md5, inflate, verify) == Ok([0x68, 0x65, 0x6C, 0x6C, 0x6F])
  {
    var hello: seq<byte> := [0x68, 0x65, 0x6C, 0x6C, 0x6F];
    assert chunk[1..] == hello;
    assert chunk[..6] == chunk;
    assert ChunkStep(ChunkInfo(6, 5, d), chunk, md5, inflate, verify) == Ok(hello);
    assert chunk[6..] == [];
    assert [ChunkInfo(6, 5, d)][1..] == [];
    assert hello + [] == hello;
  }

  /** A one-chunk container holding "hello" raw, with a 36-byte header
      (12 fixed bytes and one 24-byte chunk record), decodes to "hello". */
  lemma HelloExample(md5: Md5, inflate: Inflater, verify: bool)
    ensures var d := md5([TAG_RAW, 0x68, 0x65, 0x6C, 0x6C, 0x6F]);
            var data := HelloContainer(d);
            Decode(md5(data[..36]), data, md5, inflate, verify) == Ok([0x68, 0x65, 0x6C, 0x6C, 0x6F])
  {
    var chunk: seq<byte> := [TAG_RAW, 0x68, 0x65, 0x6C, 0x6C, 0x6F];
    var d := md5(chunk);
    var data := HelloContainer(d);
    HelloHeader(d);
    HelloTable(d);
    assert data[36..] == chunk;
    HelloChunks(chunk, d, md5, inflate, verify);
  }

  /** The same container with header size 12, as a one-chunk example of
      the format is sometimes written, is refused: the code requires
      12 + 24 bytes of header per chunk. */
  lemma ShortHeaderExampleRefused(md5: Md5, inflate: Inflater, verify: bool)
    ensures var chunk: seq<byte> := [TAG_RAW, 0x68, 0x65, 0x6C, 0x6C, 0x6F];
            var data := MAGIC + [0, 0, 0, 12, FLAG, 0, 0, 1] + chunk;
            Decode(md5(data[..12]), data, md5, inflate, verify) == Err(HeaderSizeMismatch)
  {
    var chunk: seq<byte> := [TAG_RAW, 0x68, 0x65, 0x6C, 0x6C, 0x6F];
    var data := MAGIC + [0, 0, 0, 12, FLAG, 0, 0, 1] + chunk;
    assert data[..4] == MAGIC;
    assert data[4..8] == [0, 0, 0, 12];
    FromBe4(data[4..8]);
    assert data[10..12] == [0, 1];
    FromBe2(data[10..12]);
  }
}
