/** The archive index (`parse_index` in main.rs): 4096-byte blocks of
    24-byte records, a table of contents with each block's last key and the
    high 64 bits of its digest, and a 28-byte footer. `Decode` is the
    reference definition; `Parse` is the cursor-driven code proved equal
    to it. */
module ArchiveIndex {
  import opened Common

  const BLOCK := 4096
  const TOC_ENTRY := 24         // 16-byte last key + 8-byte block hash
  const BYTES_PER_BLOCK := 4120 // BLOCK + TOC_ENTRY
  const FOOTER := 28
  const RECORD := 24            // key, size, offset

  /** Where an encoding key's data lives: the archive, its size and offset. */
  datatype Location = Location(archive: u128, size: nat, offset: nat)

  /** `Index`: the map from encoding keys to their locations. */
  datatype Index = Index(entries: map<u128, Location>)

  /** `(md5hash(x) >> 64) as u64`. */
  function High64(d: u128): nat
  {
    d / 0x1_0000_0000_0000_0000
  }

  /** The key of record i of a block. */
  function RecordKey(block: seq<byte>, i: nat): u128
    requires RECORD * i + RECORD <= |block|
  {
    U128At(block, RECORD * i)
  }

  /** The location record i of a block stores for archive `name`. */
  function RecordLocation(block: seq<byte>, i: nat, name: u128): Location
    requires RECORD * i + RECORD <= |block|
  {
    Location(name, BeAt(block, RECORD * i + 16, 4), BeAt(block, RECORD * i + 20, 4))
  }

  /** The scan of one block: insert record after record into `m`, failing on
      a key already present, until the record whose key is `lastKey`. */
  function ScanBlock(block: seq<byte>, lastKey: u128, name: u128, m: map<u128, Location>): Result<map<u128, Location>>
    decreases |block|
  {
    if |block| < RECORD then Err(LastKeyMismatch)
    else
      var key := RecordKey(block, 0);
      if key in m then Err(DuplicateKey)
      else
        var m' := m[key := RecordLocation(block, 0, name)];
        if key == lastKey then Ok(m')
        else ScanBlock(block[RECORD..], lastKey, name, m')
  }

  /** A block scan keeps every earlier entry, files every new one under the
      archive `name`, adds the last key as a new key, and fails only on a
      duplicate key or a missing last key. */
  lemma {:induction false} ScanBlockFrame(block: seq<byte>, lastKey: u128, name: u128, m: map<u128, Location>)
    ensures var r := ScanBlock(block, lastKey, name, m);
            && (r.Ok? ==> forall k :: k in m ==> k in r.value && r.value[k] == m[k])
            && (r.Ok? ==> forall k :: k in r.value && k !in m ==> r.value[k].archive == name)
            && (r.Ok? ==> lastKey in r.value && lastKey !in m)
            && (r.Err? ==> r.error == DuplicateKey || r.error == LastKeyMismatch)
    decreases |block|
  {
    if |block| >= RECORD {
      var key := RecordKey(block, 0);
      if key !in m && key != lastKey {
        ScanBlockFrame(block[RECORD..], lastKey, name, m[key := RecordLocation(block, 0, name)]);
      }
    }
  }

  /** The first record of the block whose key is `lastKey`, if any. */
  function LastRecord(block: seq<byte>, lastKey: u128): (r: Option<nat>)
    ensures r.Some? ==> RECORD * r.value + RECORD <= |block| && RecordKey(block, r.value) == lastKey
    decreases |block|
  {
    if |block| < RECORD then None
    else if RecordKey(block, 0) == lastKey then Some(0)
    else
      match LastRecord(block[RECORD..], lastKey)
      case None => None
      case Some(n) =>
        RecordShift(block, n);
        Some(n + 1)
  }

  /** Records 0..n of the block have keys that differ from each other and
      from every key of `m`. */
  predicate FreshKeys(block: seq<byte>, n: nat, m: map<u128, Location>)
    requires RECORD * n + RECORD <= |block|
  {
    (forall i :: 0 <= i <= n ==> RecordKey(block, i) !in m)
    && (forall i, j :: 0 <= i < j <= n ==> RecordKey(block, i) != RecordKey(block, j))
  }

  /** `m` with records 0..n of the block added. */
  function WithRecords(block: seq<byte>, n: nat, name: u128, m: map<u128, Location>): map<u128, Location>
    requires RECORD * n + RECORD <= |block|
  {
    var m' := m[RecordKey(block, 0) := RecordLocation(block, 0, name)];
    if n == 0 then m' else WithRecords(block[RECORD..], n - 1, name, m')
  }

  lemma RecordShift(block: seq<byte>, i: nat)
    requires RECORD * i + 2 * RECORD <= |block|
    ensures RecordKey(block[RECORD..], i) == RecordKey(block, i + 1)
  {
    DropSlice(block, RECORD, RECORD * i, RECORD * i + 16);
  }

  /** A block scans successfully exactly when some record carries the last
      key and the records up to the first such one carry keys seen nowhere
      before; it then adds exactly those records. A key seen twice fails. */
  lemma {:induction false} ScanBlockSpec(block: seq<byte>, lastKey: u128, name: u128, m: map<u128, Location>)
    ensures ScanBlock(block, lastKey, name, m).Ok?
            <==> LastRecord(block, lastKey).Some? && FreshKeys(block, LastRecord(block, lastKey).value, m)
    ensures ScanBlock(block, lastKey, name, m).Ok? ==>
              ScanBlock(block, lastKey, name, m).value == WithRecords(block, LastRecord(block, lastKey).value, name, m)
    decreases |block|
  {
    if |block| >= RECORD && RecordKey(block, 0) != lastKey {
      var m' := m[RecordKey(block, 0) := RecordLocation(block, 0, name)];
      ScanBlockSpec(block[RECORD..], lastKey, name, m');
      ScanBlockSpecStep(block, lastKey, name, m);
    }
  }

  /** The step of ScanBlockSpec: a first record without the last key. */
  lemma ScanBlockSpecStep(block: seq<byte>, lastKey: u128, name: u128, m: map<u128, Location>)
    requires |block| >= RECORD && RecordKey(block, 0) != lastKey
    requires var rest, m' := block[RECORD..], m[RecordKey(block, 0) := RecordLocation(block, 0, name)];
             && (ScanBlock(rest, lastKey, name, m').Ok?
                 <==> LastRecord(rest, lastKey).Some? && FreshKeys(rest, LastRecord(rest, lastKey).value, m'))
             && (ScanBlock(rest, lastKey, name, m').Ok? ==>
                   ScanBlock(rest, lastKey, name, m').value == WithRecords(rest, LastRecord(rest, lastKey).value, name, m'))
    ensures ScanBlock(block, lastKey, name, m).Ok?
            <==> LastRecord(block, lastKey).Some? && FreshKeys(block, LastRecord(block, lastKey).value, m)
    ensures ScanBlock(block, lastKey, name, m).Ok? ==>
              ScanBlock(block, lastKey, name, m).value == WithRecords(block, LastRecord(block, lastKey).value, name, m)
  {
    var rest := block[RECORD..];
    var last := LastRecord(rest, lastKey);
    if last.Some? {
      RecordsShift(block, last.value);
      FreshShift(block, last.value, m, name);
    }
  }

  lemma RecordsShift(block: seq<byte>, n: nat)
    requires RECORD * (n + 1) + RECORD <= |block|
    ensures forall i :: 0 <= i <= n ==> RecordKey(block[RECORD..], i) == RecordKey(block, i + 1)
  {
    forall i | 0 <= i <= n
      ensures RecordKey(block[RECORD..], i) == RecordKey(block, i + 1)
    {
      RecordShift(block, i);
    }
  }

  /** Freshness of records 0..n+1 splits into record 0 being new and the
      rest being fresh once record 0 is in. */
  lemma FreshShift(block: seq<byte>, n: nat, m: map<u128, Location>, name: u128)
    requires RECORD * (n + 1) + RECORD <= |block|
    requires forall i :: 0 <= i <= n ==> RecordKey(block[RECORD..], i) == RecordKey(block, i + 1)
    ensures FreshKeys(block, n + 1, m)
            <==> RecordKey(block, 0) !in m
                 && FreshKeys(block[RECORD..], n, m[RecordKey(block, 0) := RecordLocation(block, 0, name)])
  {
    var rest := block[RECORD..];
    var m' := m[RecordKey(block, 0) := RecordLocation(block, 0, name)];
    if FreshKeys(block, n + 1, m) {
      forall i | 0 <= i <= n
        ensures RecordKey(rest, i) !in m'
      {
        assert RecordKey(block, i + 1) != RecordKey(block, 0);
      }
      forall i, j | 0 <= i < j <= n
        ensures RecordKey(rest, i) != RecordKey(rest, j)
      {
        assert RecordKey(block, i + 1) != RecordKey(block, j + 1);
      }
    }
    if RecordKey(block, 0) !in m && FreshKeys(rest, n, m') {
      forall i | 0 <= i <= n + 1
        ensures RecordKey(block, i) !in m
      {
        if i > 0 {
          assert RecordKey(rest, i - 1) !in m';
        }
      }
      forall i, j | 0 <= i < j <= n + 1
        ensures RecordKey(block, i) != RecordKey(block, j)
      {
        assert RecordKey(rest, j - 1) !in m';
        if i > 0 {
          assert RecordKey(rest, i - 1) != RecordKey(rest, j - 1);
        }
      }
    }
  }

  /** The blocks of `p` in order, block k checked against hash k of
      `hashes` and scanned up to last key k of `lastKeys`, all into one map. */
  function Blocks(p: seq<byte>, lastKeys: seq<byte>, hashes: seq<byte>, nb: nat, name: u128, md5: Md5,
                  m: map<u128, Location>): (r: Result<map<u128, Location>>)
    requires |p| == BLOCK * nb && |lastKeys| == 16 * nb && |hashes| == 8 * nb
    decreases nb
  {
    if nb == 0 then Ok(m)
    else
      var block := p[..BLOCK];
      if High64(md5(block)) != BeAt(hashes, 0, 8) then Err(BlockChecksum)
      else
        match ScanBlock(block, U128At(lastKeys, 0), name, m)
        case Err(e) => Err(e)
        case Ok(m') => Blocks(p[BLOCK..], lastKeys[16..], hashes[8..], nb - 1, name, md5, m')
  }

  /** The block scans keep every earlier entry and file every new one under
      the archive `name`. */
  lemma {:induction false} BlocksFrame(p: seq<byte>, lastKeys: seq<byte>, hashes: seq<byte>, nb: nat, name: u128, md5: Md5,
                                       m: map<u128, Location>)
    requires |p| == BLOCK * nb && |lastKeys| == 16 * nb && |hashes| == 8 * nb
    ensures var r := Blocks(p, lastKeys, hashes, nb, name, md5, m);
            && (r.Ok? ==> forall k :: k in m ==> k in r.value && r.value[k] == m[k])
            && (r.Ok? ==> forall k :: k in r.value && k !in m ==> r.value[k].archive == name)
    decreases nb
  {
    if nb > 0 {
      var block := p[..BLOCK];
      var scan := ScanBlock(block, U128At(lastKeys, 0), name, m);
      if High64(md5(block)) == BeAt(hashes, 0, 8) && scan.Ok? {
        ScanBlockFrame(block, U128At(lastKeys, 0), name, m);
        BlocksFrame(p[BLOCK..], lastKeys[16..], hashes[8..], nb - 1, name, md5, scan.value);
      }
    }
  }

  /** Block k of `p` passed its digest check and holds its last key. */
  predicate BlockChecked(p: seq<byte>, lastKeys: seq<byte>, hashes: seq<byte>, k: nat, md5: Md5)
    requires BLOCK * k + BLOCK <= |p| && 16 * k + 16 <= |lastKeys| && 8 * k + 8 <= |hashes|
  {
    var block := p[BLOCK * k..BLOCK * k + BLOCK];
    High64(md5(block)) == BeAt(hashes, 8 * k, 8) && LastRecord(block, U128At(lastKeys, 16 * k)).Some?
  }

  lemma BlockShift(p: seq<byte>, lastKeys: seq<byte>, hashes: seq<byte>, j: nat, md5: Md5)
    requires BLOCK * j + 2 * BLOCK <= |p| && 16 * j + 32 <= |lastKeys| && 8 * j + 16 <= |hashes|
    ensures BlockChecked(p[BLOCK..], lastKeys[16..], hashes[8..], j, md5) == BlockChecked(p, lastKeys, hashes, j + 1, md5)
  {
    assert p[BLOCK..][BLOCK * j..BLOCK * j + BLOCK] == p[BLOCK * (j + 1)..BLOCK * (j + 1) + BLOCK];
    assert hashes[8..][8 * j..8 * j + 8] == hashes[8 * (j + 1)..8 * (j + 1) + 8];
    assert lastKeys[16..][16 * j..16 * j + 16] == lastKeys[16 * (j + 1)..16 * (j + 1) + 16];
  }

  /** Every block's digest matched its hash and its scan found its last key. */
  lemma {:induction false} BlocksChecked(p: seq<byte>, lastKeys: seq<byte>, hashes: seq<byte>, nb: nat, name: u128,
                                         md5: Md5, m: map<u128, Location>)
    requires |p| == BLOCK * nb && |lastKeys| == 16 * nb && |hashes| == 8 * nb
    requires Blocks(p, lastKeys, hashes, nb, name, md5, m).Ok?
    ensures forall k :: 0 <= k < nb ==> BlockChecked(p, lastKeys, hashes, k, md5)
    decreases nb
  {
    if nb > 0 {
      var block := p[..BLOCK];
      var m' := ScanBlock(block, U128At(lastKeys, 0), name, m).value;
      BlocksChecked(p[BLOCK..], lastKeys[16..], hashes[8..], nb - 1, name, md5, m');
      ScanBlockSpec(block, U128At(lastKeys, 0), name, m);
      assert p[0..BLOCK] == block;
      assert BlockChecked(p, lastKeys, hashes, 0, md5);
      forall k | 0 < k < nb
        ensures BlockChecked(p, lastKeys, hashes, k, md5)
      {
        BlockShift(p, lastKeys, hashes, k - 1, md5);
      }
    }
  }

  /** The fixed footer bytes: version 1, two zero bytes, block size class 4,
      offset and size widths 4, key size 16, checksum size 8. */
  const FOOTER_FORMAT: seq<byte> := [1, 0, 0, 4, 4, 4, 16, 8]

  /** The error for each format byte that differs from FOOTER_FORMAT. */
  const FORMAT_ERRORS: seq<Error> := [UnexpectedIndexVersion, NonzeroIndexByte, NonzeroIndexByte, UnexpectedBlockSize,
                                      UnexpectedOffsetBytes, UnexpectedSizeBytes, UnexpectedKeySize, UnexpectedChecksumSize]

  /** The error of the first format byte from position i on that is wrong. */
  function FormatError(fields: seq<byte>, i: nat): Option<Error>
    requires |fields| == 8 && i <= 8
    decreases 8 - i
  {
    if i == 8 then None
    else if fields[i] != FOOTER_FORMAT[i] then Some(FORMAT_ERRORS[i])
    else FormatError(fields, i + 1)
  }

  /** No error exactly when the bytes from i on are the expected ones; an
      error is the one of a byte that differs. */
  lemma {:induction false} FormatErrorSpec(fields: seq<byte>, i: nat)
    requires |fields| == 8 && i <= 8
    ensures FormatError(fields, i).None? <==> fields[i..] == FOOTER_FORMAT[i..]
    ensures FormatError(fields, i).Some? ==>
              exists j :: i <= j < 8 && fields[j] != FOOTER_FORMAT[j] && FormatError(fields, i).value == FORMAT_ERRORS[j]
    decreases 8 - i
  {
    if i < 8 {
      assert fields[i..][0] == fields[i] && FOOTER_FORMAT[i..][0] == FOOTER_FORMAT[i];
      if fields[i] == FOOTER_FORMAT[i] {
        FormatErrorSpec(fields, i + 1);
        assert fields[i..] == [fields[i]] + fields[i + 1..];
        assert FOOTER_FORMAT[i..] == [FOOTER_FORMAT[i]] + FOOTER_FORMAT[i + 1..];
      }
    }
  }

  /** The footer checks, in the order the code makes them: the table of
      contents against the footer's first hash, the eight format bytes, then
      footer bytes 8..20 padded with zeros to 20 bytes against the footer's
      second hash. Yields the element count. */
  function CheckFooter(footer: seq<byte>, toc: seq<byte>, md5: Md5): Result<nat>
    requires |footer| == FOOTER
  {
    if High64(md5(toc)) != BeAt(footer, 0, 8) then Err(TocChecksum)
    else if FormatError(footer[8..16], 0).Some? then Err(FormatError(footer[8..16], 0).value)
    else if High64(md5(footer[8..20] + [0, 0, 0, 0, 0, 0, 0, 0])) != BeAt(footer, 20, 8) then Err(FooterChecksum)
    else Ok(FromLe(footer[16..20]))
  }

  /** A footer passes exactly when both hashes match and the format bytes
      are the expected ones; it then yields the little-endian element count. */
  lemma CheckFooterAccepts(footer: seq<byte>, toc: seq<byte>, md5: Md5)
    requires |footer| == FOOTER
    ensures CheckFooter(footer, toc, md5).Ok?
            <==> High64(md5(toc)) == BeAt(footer, 0, 8)
                 && footer[8..16] == FOOTER_FORMAT
                 && High64(md5(footer[8..20] + [0, 0, 0, 0, 0, 0, 0, 0])) == BeAt(footer, 20, 8)
    ensures CheckFooter(footer, toc, md5).Ok? ==> CheckFooter(footer, toc, md5).value == FromLe(footer[16..20])
  {
    FormatErrorSpec(footer[8..16], 0);
    assert footer[8..16][0..] == footer[8..16];
  }

  /** The regions of an index of `nb` blocks: the blocks (`p`), the table
      of contents (the last keys, `entries`, then the block hashes,
      `blockhashes`) and the footer. */
  datatype Layout = Layout(blocks: seq<byte>, lastKeys: seq<byte>, hashes: seq<byte>, footer: seq<byte>)

  function LayoutOf(data: seq<byte>, nb: nat): (l: Layout)
    requires |data| == BYTES_PER_BLOCK * nb + FOOTER
    ensures |l.blocks| == BLOCK * nb && |l.lastKeys| == 16 * nb && |l.hashes| == 8 * nb && |l.footer| == FOOTER
    ensures data == l.blocks + l.lastKeys + l.hashes + l.footer
  {
    var nf := BYTES_PER_BLOCK * nb;
    var l := Layout(data[..BLOCK * nb], data[BLOCK * nb..nf - 8 * nb], data[nf - 8 * nb..nf], data[nf..]);
    assert data == l.blocks + l.lastKeys + l.hashes + l.footer;
    l
  }

  /** The number of blocks of an index, when its size has the form
      4120 * blocks + 28. */
  function NumBlocks(data: seq<byte>): (r: Option<nat>)
    ensures r.Some? <==> |data| >= FOOTER && (|data| - FOOTER) % BYTES_PER_BLOCK == 0
    ensures r.Some? ==> |data| == BYTES_PER_BLOCK * r.value + FOOTER
  {
    if |data| < FOOTER || (|data| - FOOTER) % BYTES_PER_BLOCK != 0 then None
    else Some((|data| - FOOTER) / BYTES_PER_BLOCK)
  }

  /** The checks once the regions are cut out: the footer, then the blocks,
      then the element count. */
  function DecodeRegions(name: u128, l: Layout, nb: nat, md5: Md5): Result<Index>
    requires |l.blocks| == BLOCK * nb && |l.lastKeys| == 16 * nb && |l.hashes| == 8 * nb && |l.footer| == FOOTER
  {
    match CheckFooter(l.footer, l.lastKeys + l.hashes, md5)
    case Err(e) => Err(e)
    case Ok(numElements) =>
      match Blocks(l.blocks, l.lastKeys, l.hashes, nb, name, md5, map[])
      case Err(e) => Err(e)
      case Ok(m) => if |m| != numElements then Err(ElementCountMismatch) else Ok(Index(m))
  }

  /** `parse_index(name, data)`: the reference definition. */
  function Decode(name: u128, data: seq<byte>, md5: Md5): Result<Index>
  {
    if |data| < FOOTER then Err(TruncatedIndex)
    else if NumBlocks(data).None? then Err(InvalidIndexFormat)
    else DecodeRegions(name, LayoutOf(data, NumBlocks(data).value), NumBlocks(data).value, md5)
  }

  lemma DecodeLaidOut(name: u128, data: seq<byte>, md5: Md5, nb: nat)
    requires |data| == BYTES_PER_BLOCK * nb + FOOTER
    ensures Decode(name, data, md5) == DecodeRegions(name, LayoutOf(data, nb), nb, md5)
  {
    assert NumBlocks(data) == Some(nb);
  }

  /** Every location of a decoded index names the index's own archive. */
  lemma DecodeArchive(name: u128, data: seq<byte>, md5: Md5)
    ensures var r := Decode(name, data, md5);
            r.Ok? ==> forall k :: k in r.value.entries ==> r.value.entries[k].archive == name
  {
    var nb := NumBlocks(data);
    if nb.Some? {
      var l := LayoutOf(data, nb.value);
      BlocksFrame(l.blocks, l.lastKeys, l.hashes, nb.value, name, md5, map[]);
    }
  }

  /** An index decodes exactly when its size has the form 4120 * blocks + 28,
      its footer passes, every block scans, and the footer's element count
      matches the number of keys found; the keys are those of the scan. */
  lemma DecodeAccepts(name: u128, data: seq<byte>, md5: Md5)
    ensures Decode(name, data, md5).Ok?
            <==> NumBlocks(data).Some?
                 && var nb := NumBlocks(data).value;
                    var l := LayoutOf(data, nb);
                    var scan := Blocks(l.blocks, l.lastKeys, l.hashes, nb, name, md5, map[]);
                    CheckFooter(l.footer, l.lastKeys + l.hashes, md5).Ok? && scan.Ok?
                    && |scan.value| == CheckFooter(l.footer, l.lastKeys + l.hashes, md5).value
    ensures Decode(name, data, md5).Ok? ==>
              var nb := NumBlocks(data).value;
              var l := LayoutOf(data, nb);
              Blocks(l.blocks, l.lastKeys, l.hashes, nb, name, md5, map[]) == Ok(Decode(name, data, md5).value.entries)
  {
  }

  /** Block k of the index passed its digest check and holds the last key
      its table-of-contents entry names. */
  predicate IndexBlockChecked(data: seq<byte>, k: nat, md5: Md5)
    requires NumBlocks(data).Some? && k < NumBlocks(data).value
  {
    var l := LayoutOf(data, NumBlocks(data).value);
    BlockChecked(l.blocks, l.lastKeys, l.hashes, k, md5)
  }

  /** A decoded index passed every block's check. */
  lemma DecodeChecksBlocks(name: u128, data: seq<byte>, md5: Md5)
    requires Decode(name, data, md5).Ok?
    ensures NumBlocks(data).Some?
    ensures forall k :: 0 <= k < NumBlocks(data).value ==> IndexBlockChecked(data, k, md5)
  {
    var nb := NumBlocks(data).value;
    var l := LayoutOf(data, nb);
    BlocksChecked(l.blocks, l.lastKeys, l.hashes, nb, name, md5, map[]);
  }

  /** The scan loop of one block, leaving at the record with the last key. */
  method ScanBlockLoop(block: seq<byte>, lastKey: u128, name: u128, m0: map<u128, Location>)
    returns (r: Result<map<u128, Location>>)
    ensures r == ScanBlock(block, lastKey, name, m0)
  {
    var m: map<u128, Location> := m0;
    var q := block;
    var found := false;
    while |q| >= RECORD
      invariant ScanBlock(block, lastKey, name, m0) == ScanBlock(q, lastKey, name, m)
      decreases |q|
    {
      var ekey := U128At(q, 0);
      var size := BeAt(q, 16, 4);
      var offset := BeAt(q, 20, 4);
      if ekey in m {
        return Err(DuplicateKey);
      }
      m := m[ekey := Location(name, size, offset)];
      if ekey == lastKey {
        found := true;
        break;
      }
      q := q[RECORD..];
    }
    if !found {
      return Err(LastKeyMismatch);
    }
    return Ok(m);
  }

  /** The loop over the blocks, reading each block's hash and last key off
      the cursors `blockhashes` and `entries`. */
  method ScanBlocks(p0: seq<byte>, entries0: seq<byte>, hashes0: seq<byte>, nb: nat, name: u128, md5: Md5)
    returns (r: Result<map<u128, Location>>)
    requires |p0| == BLOCK * nb && |entries0| == 16 * nb && |hashes0| == 8 * nb
    ensures r == Blocks(p0, entries0, hashes0, nb, name, md5, map[])
  {
    var m: map<u128, Location> := map[];
    var p, entries, blockhashes := p0, entries0, hashes0;
    for i := 0 to nb
      invariant |p| == BLOCK * (nb - i) && |entries| == 16 * (nb - i) && |blockhashes| == 8 * (nb - i)
      invariant Blocks(p0, entries0, hashes0, nb, name, md5, map[]) == Blocks(p, entries, blockhashes, nb - i, name, md5, m)
    {
      var block := p[..BLOCK];
      var blockChecksum := BeAt(blockhashes, 0, 8);
      blockhashes := blockhashes[8..];
      if High64(md5(block)) != blockChecksum {
        return Err(BlockChecksum);
      }
      var lastEkey := U128At(entries, 0);
      entries := entries[16..];
      var scanned := ScanBlockLoop(block, lastEkey, name, m);
      if scanned.Err? {
        return Err(scanned.error);
      }
      m := scanned.value;
      p := p[BLOCK..];
    }
    return Ok(m);
  }

  /** The eight format bytes read one `get_u8` after another, each checked
      as it is read. */
  method ReadFormat(fields: seq<byte>) returns (r: Option<Error>)
    requires |fields| == 8
    ensures r == FormatError(fields, 0)
  {
    var f := fields;
    for i := 0 to 8
      invariant f == fields[i..]
      invariant FormatError(fields, 0) == FormatError(fields, i)
    {
      var b := f[0];
      f := f[1..];
      if b != FOOTER_FORMAT[i] {
        return Some(FORMAT_ERRORS[i]);
      }
    }
    return None;
  }

  /** The footer read through its cursor, one `get_*` after another. */
  method ReadFooter(footer: seq<byte>, toc: seq<byte>, md5: Md5) returns (r: Result<nat>)
    requires |footer| == FOOTER
    ensures r == CheckFooter(footer, toc, md5)
  {
    var f := footer;
    var tocChecksum := BeAt(f, 0, 8);
    f := f[8..];
    if High64(md5(toc)) != tocChecksum {
      return Err(TocChecksum);
    }
    assert f[..8] == footer[8..16];
    var bad := ReadFormat(f[..8]);
    if bad.Some? {
      return Err(bad.value);
    }
    f := f[8..];
    assert f == footer[16..];
    assert f[..4] == footer[16..20];
    var numElements := FromLe(f[..4]);
    f := f[4..];
    assert f[0..8] == footer[20..28];
    var footerChecksum := BeAt(f, 0, 8);
    var footerToCheck := footer[8..20] + [0, 0, 0, 0, 0, 0, 0, 0];
    if High64(md5(footerToCheck)) != footerChecksum {
      return Err(FooterChecksum);
    }
    return Ok(numElements);
  }

  /** The footer, then the blocks, then the element count. */
  method ParseRegions(name: u128, p: seq<byte>, entries: seq<byte>, blockhashes: seq<byte>, footer: seq<byte>,
                      numBlocks: nat, md5: Md5) returns (r: Result<Index>)
    requires |p| == BLOCK * numBlocks && |entries| == 16 * numBlocks && |blockhashes| == 8 * numBlocks
    requires |footer| == FOOTER
    ensures r == DecodeRegions(name, Layout(p, entries, blockhashes, footer), numBlocks, md5)
  {
    var numElements := ReadFooter(footer, entries + blockhashes, md5);
    if numElements.Err? {
      return Err(numElements.error);
    }
    var scanned := ScanBlocks(p, entries, blockhashes, numBlocks, name, md5);
    if scanned.Err? {
      return Err(scanned.error);
    }
    if |scanned.value| != numElements.value {
      return Err(ElementCountMismatch);
    }
    return Ok(Index(scanned.value));
  }

  /** `parse_index`: the size checks, then the regions cut out of `data`. */
  method Parse(name: u128, data: seq<byte>, md5: Md5) returns (r: Result<Index>)
    ensures r == Decode(name, data, md5)
  {
    if |data| < FOOTER {
      return Err(TruncatedIndex);
    }
    var nonFooterSize := |data| - FOOTER;
    var numBlocks := nonFooterSize / BYTES_PER_BLOCK;
    if nonFooterSize % BYTES_PER_BLOCK != 0 {
      assert NumBlocks(data).None?;
      return Err(InvalidIndexFormat);
    }
    assert NumBlocks(data) == Some(numBlocks);
    DecodeLaidOut(name, data, md5, numBlocks);
    var l := LayoutOf(data, numBlocks);
    assert Layout(l.blocks, l.lastKeys, l.hashes, l.footer) == l;
    r := ParseRegions(name, l.blocks, l.lastKeys, l.hashes, l.footer, numBlocks, md5);
  }
}
