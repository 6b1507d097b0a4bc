/** The encoding table (encoding.rs): the `EN` header, the NUL-separated
    espec strings, the content pages that map content keys to encoding keys,
    and the encoding pages that list the encoding keys with their espec
    index and size. `Decode` is the reference definition of `parse`;
    `Parse`, `BuildC2e` and `BuildE2i` are the cursor-driven loops of the
    code, each proved equal to it. */
module EncodingTable {
  import opened Common

  const SENTINEL: byte := 0x30  // b'0', the byte that ends a page scan
  const CONTENT_ENTRY := 22     // key count, 40-bit size, content key
  const ENCODING_ENTRY := 25    // encoding key, espec index, 40-bit size

  /** A page directory entry: the key the page starts with and the digest of
      the page's bytes. */
  datatype PageRef = PageRef(firstKey: u128, hash: u128)

  /** One content-page entry: the content key, its `key_count` encoding
      keys in page order, and the file size. */
  datatype ContentEntry = ContentEntry(ckey: u128, ekeys: seq<u128>, size: nat)

  /** A row of `c2e`: content key, first encoding key, file size. */
  datatype C2eRow = C2eRow(ckey: u128, ekey: u128, size: nat)

  /** A row of `e2i`: encoding key, espec index, file size. */
  datatype E2iRow = E2iRow(ekey: u128, index: nat, size: nat)

  /** The state of the `Encoding` struct. */
  datatype Encoding = Encoding(
    especs: seq<seq<byte>>,
    c2e: seq<C2eRow>,
    e2i: seq<E2iRow>,
    cmapExtra: map<u128, seq<u128>>,
    espec: seq<byte>)
  {
    /** `Encoding::c2e`: the binary search of `c2e` by content key. A key it
        returns always belongs to the content key asked for; when `c2e` is
        sorted by content key, every content key in it is found. */
    function C2e(c: u128): (r: Result<u128>)
      ensures r.Ok? ==> exists i :: 0 <= i < |c2e| && c2e[i].ckey == c && c2e[i].ekey == r.value
      ensures SortedByCkey(c2e) && (exists i :: 0 <= i < |c2e| && c2e[i].ckey == c) ==> r.Ok?
      ensures r.Err? ==> r.error == UnknownContentKey
    {
      SearchFindsSorted(c2e, c);
      match Search(c2e, c, 0, |c2e|)
      case Some(i) => Ok(c2e[i].ekey)
      case None => Err(UnknownContentKey)
    }
  }

  predicate SortedByCkey(rows: seq<C2eRow>)
  {
    forall i, j :: 0 <= i < j < |rows| ==> rows[i].ckey <= rows[j].ckey
  }

  /** `binary_search_by_key` on `rows[lo..hi]`: the index of a row with key
      `c`, if the halving finds one. */
  function Search(rows: seq<C2eRow>, c: u128, lo: nat, hi: nat): (r: Option<nat>)
    requires lo <= hi <= |rows|
    ensures r.Some? ==> lo <= r.value < hi && rows[r.value].ckey == c
    decreases hi - lo
  {
    if lo == hi then None
    else
      var mid := (lo + hi) / 2;
      if rows[mid].ckey == c then Some(mid)
      else if rows[mid].ckey < c then Search(rows, c, mid + 1, hi)
      else Search(rows, c, lo, mid)
  }

  /** In sorted rows, a row with a smaller key comes first. */
  lemma SortedBefore(rows: seq<C2eRow>, i: nat, j: nat)
    requires i < |rows| && j < |rows| && SortedByCkey(rows) && rows[i].ckey < rows[j].ckey
    ensures i < j
  {
  }

  /** On sorted rows the halving never discards a row with key `c`. */
  lemma {:induction false} SearchComplete(rows: seq<C2eRow>, c: u128, lo: nat, hi: nat)
    requires lo <= hi <= |rows| && SortedByCkey(rows)
    requires exists i :: lo <= i < hi && rows[i].ckey == c
    ensures Search(rows, c, lo, hi).Some?
    decreases hi - lo
  {
    var i :| lo <= i < hi && rows[i].ckey == c;
    var mid := (lo + hi) / 2;
    if rows[mid].ckey < c {
      SortedBefore(rows, mid, i);
      assert mid + 1 <= i < hi && rows[i].ckey == c;
      SearchComplete(rows, c, mid + 1, hi);
    } else if rows[mid].ckey > c {
      SortedBefore(rows, i, mid);
      assert lo <= i < mid && rows[i].ckey == c;
      SearchComplete(rows, c, lo, mid);
    }
  }

  lemma SearchFindsSorted(rows: seq<C2eRow>, c: u128)
    ensures SortedByCkey(rows) && (exists i :: 0 <= i < |rows| && rows[i].ckey == c) ==> Search(rows, c, 0, |rows|).Some?
  {
    if SortedByCkey(rows) && exists i :: 0 <= i < |rows| && rows[i].ckey == c {
      SearchComplete(rows, c, 0, |rows|);
    }
  }

  /** The 40-bit file size `(u8 << 32) | u32` at `off`. */
  function FileSize(s: seq<byte>, off: nat): nat
    requires off + 5 <= |s|
  {
    s[off] as nat * 0x1_0000_0000 + BeAt(s, off + 1, 4)
  }

  /** The file size is the 5-byte big-endian number at `off`, so it is below 2^40. */
  lemma FileSizeIs40Bit(s: seq<byte>, off: nat)
    requires off + 5 <= |s|
    ensures FileSize(s, off) == BeAt(s, off, 5) < 0x100_0000_0000
  {
    var w := s[off..off + 5];
    assert w == [s[off]] + s[off + 1..off + 5];
    FromBeAppend([s[off]], s[off + 1..off + 5]);
    assert FromBe([s[off]]) == s[off] by {
      assert [s[off]][..0] == [];
    }
    assert Pow256(4) == 0x1_0000_0000;
    FromBeBound(w);
    assert Pow256(5) == 0x100_0000_0000;
  }

  /** The `count` directory entries at the start of `s`, 32 bytes each. */
  function Directory(s: seq<byte>, count: nat): (dir: seq<PageRef>)
    requires 32 * count <= |s|
    ensures |dir| == count
  {
    seq(count, i requires 0 <= i < count => PageRef(U128At(s, 32 * i), U128At(s, 32 * i + 16)))
  }

  /** The `n` 16-byte keys at the start of `s`. */
  function KeysAt(s: seq<byte>, n: nat): (keys: seq<u128>)
    requires 16 * n <= |s|
    ensures |keys| == n
  {
    seq(n, i requires 0 <= i < n => U128At(s, 16 * i))
  }

  /** The content entry whose key count is at byte `o`: the 40-bit file
      size follows the count, then the content key, then `key_count`
      16-byte encoding keys. */
  function EntryFields(page: seq<byte>, o: nat): ContentEntry
    requires o + CONTENT_ENTRY <= |page| && o + CONTENT_ENTRY + 16 * page[o] as nat <= |page|
  {
    ContentEntry(U128At(page, o + 6), KeysAt(page[o + CONTENT_ENTRY..], page[o] as nat), FileSize(page, o + 1))
  }

  /** An entry read from a suffix of `page` is the entry at the shifted offset. */
  lemma EntryFieldsShift(page: seq<byte>, k: nat, o: nat)
    requires k + o + CONTENT_ENTRY <= |page| && k + o + CONTENT_ENTRY + 16 * page[k + o] as nat <= |page|
    ensures EntryFields(page[k..], o) == EntryFields(page, k + o)
  {
    assert page[k..][o] == page[k + o];
    assert page[k..][o + 6..o + 22] == page[k + o + 6..k + o + 22];
    assert page[k..][o + 2..o + 6] == page[k + o + 2..k + o + 6];
    assert page[k..][o + CONTENT_ENTRY..] == page[k + o + CONTENT_ENTRY..];
  }

  /** The entry at the start of a content page and the number of bytes it
      takes. With `verify`, the first entry of a page must carry the
      directory's first key and the encoding keys must fit in the page;
      without it, keys past the end panic. */
  function ContentEntryAt(page: seq<byte>, firstKey: u128, first: bool, verify: bool): (r: Result<(ContentEntry, nat)>)
    requires |page| >= CONTENT_ENTRY
    ensures r.Ok? ==> CONTENT_ENTRY <= r.value.1 <= |page| && |r.value.0.ekeys| == page[0] as nat
    ensures r.Ok? && verify && first ==> r.value.0.ckey == firstKey
    ensures r.Ok? <==> !(verify && first && firstKey != U128At(page, 6))
                       && CONTENT_ENTRY + 16 * page[0] as nat <= |page|
    ensures r.Ok? ==> r.value == (EntryFields(page, 0), CONTENT_ENTRY + 16 * page[0] as nat)
  {
    var keyCount := page[0] as nat;
    var ckey := U128At(page, 6);
    if verify && first && firstKey != ckey then Err(ContentFirstKeyMismatch)
    else if |page| - CONTENT_ENTRY < 16 * keyCount then
      if verify then Err(TruncatedContentEntry) else Err(Panic)
    else Ok((ContentEntry(ckey, KeysAt(page[CONTENT_ENTRY..], keyCount), FileSize(page, 1)), CONTENT_ENTRY + 16 * keyCount))
  }

  /** The scan of one content page: entries are read while at least 22
      bytes remain and the next byte is not `'0'`. */
  function ContentPage(page: seq<byte>, firstKey: u128, first: bool, verify: bool): (r: Result<seq<ContentEntry>>)
    ensures r.Ok? ==> forall i :: 0 <= i < |r.value| ==> |r.value[i].ekeys| < 256
    ensures r.Ok? && verify && first && |r.value| > 0 ==> r.value[0].ckey == firstKey
    decreases |page|
  {
    if |page| < CONTENT_ENTRY || page[0] == SENTINEL then Ok([])
    else
      match ContentEntryAt(page, firstKey, first, verify)
      case Err(e) => Err(e)
      case Ok((entry, len)) => Prefixed([entry], ContentPage(page[len..], firstKey, false, verify))
  }

  /** The byte at `o`, and 0 past the end of the page. */
  function ByteAt(page: seq<byte>, o: nat): nat
  {
    if o < |page| then page[o] else 0
  }

  /** The byte at which the k-th entry of a content page starts: the first
      at 0, each next one after the 22 fixed bytes and the 16 bytes per
      encoding key of the one before. (Past the end of the page the value
      is of no use.) */
  function EntryOffset(page: seq<byte>, k: nat): nat
  {
    if k == 0 then 0 else EntryOffset(page, k - 1) + CONTENT_ENTRY + 16 * ByteAt(page, EntryOffset(page, k - 1))
  }

  /** Entry `e` lies at offset `o` of the page, which is not `'0'`, and was
      read from the bytes there, its encoding keys included. */
  predicate EntryAtOffset(page: seq<byte>, e: ContentEntry, o: nat)
  {
    o + CONTENT_ENTRY <= |page| && page[o] != SENTINEL
    && o + CONTENT_ENTRY + 16 * page[o] as nat <= |page|
    && e == EntryFields(page, o)
  }

  /** Entry i of a scanned content page lies at the i-th offset. */
  predicate EntryAt(page: seq<byte>, es: seq<ContentEntry>, i: nat)
    requires i < |es|
  {
    EntryAtOffset(page, es[i], EntryOffset(page, i))
  }

  /** Where a content-page scan stops: fewer than 22 bytes remain at the
      offset, or the byte there is `'0'`. */
  predicate ScanStops(page: seq<byte>, o: nat)
  {
    o + CONTENT_ENTRY > |page| || page[o] == SENTINEL
  }

  /** A scanned content page is the sequence of entries at the successive
      offsets, and the scan read every entry up to the stop. */
  lemma {:induction false} ContentPageEntries(page: seq<byte>, firstKey: u128, first: bool, verify: bool)
    requires ContentPage(page, firstKey, first, verify).Ok?
    ensures var es := ContentPage(page, firstKey, first, verify).value;
            (forall i :: 0 <= i < |es| ==> EntryAt(page, es, i)) && ScanStops(page, EntryOffset(page, |es|))
    decreases |page|
  {
    if !(|page| < CONTENT_ENTRY || page[0] == SENTINEL) {
      var es := ContentPage(page, firstKey, first, verify).value;
      var rest := page[CONTENT_ENTRY + 16 * page[0] as nat..];
      var tail := ContentPage(rest, firstKey, false, verify).value;
      ContentPageEntries(rest, firstKey, false, verify);
      assert es == [EntryFields(page, 0)] + tail;
      ConsEntries(page, rest, tail, es);
    }
  }

  /** The entries at the offsets of a page are its first entry followed by
      the entries at the offsets of what follows it. */
  lemma ConsEntries(page: seq<byte>, rest: seq<byte>, tail: seq<ContentEntry>, es: seq<ContentEntry>)
    requires CONTENT_ENTRY <= |page| && page[0] != SENTINEL && CONTENT_ENTRY + 16 * page[0] as nat <= |page|
    requires rest == page[CONTENT_ENTRY + 16 * page[0] as nat..]
    requires es == [EntryFields(page, 0)] + tail
    requires forall i :: 0 <= i < |tail| ==> EntryAt(rest, tail, i)
    requires ScanStops(rest, EntryOffset(rest, |tail|))
    ensures forall i :: 0 <= i < |es| ==> EntryAt(page, es, i)
    ensures ScanStops(page, EntryOffset(page, |es|))
  {
    forall i | 0 <= i < |es|
      ensures EntryAt(page, es, i)
    {
      if i == 0 {
        ConsFirst(page, es);
      } else {
        assert es[i] == tail[i - 1];
        ConsLater(page, rest, tail, es, i);
      }
    }
    StopShift(page, rest, |tail|);
  }

  lemma ConsFirst(page: seq<byte>, es: seq<ContentEntry>)
    requires CONTENT_ENTRY <= |page| && page[0] != SENTINEL && CONTENT_ENTRY + 16 * page[0] as nat <= |page|
    requires |es| > 0 && es[0] == EntryFields(page, 0)
    ensures EntryAt(page, es, 0)
  {
    assert EntryAtOffset(page, es[0], 0);
  }

  lemma ConsLater(page: seq<byte>, rest: seq<byte>, tail: seq<ContentEntry>, es: seq<ContentEntry>, i: nat)
    requires CONTENT_ENTRY <= |page| && CONTENT_ENTRY + 16 * page[0] as nat <= |page|
    requires rest == page[CONTENT_ENTRY + 16 * page[0] as nat..]
    requires 0 < i < |es| && i - 1 < |tail| && es[i] == tail[i - 1]
    requires EntryAt(rest, tail, i - 1)
    ensures EntryAt(page, es, i)
  {
    OffsetShift(page, i);
    EntryAtShift(page, rest, tail[i - 1], EntryOffset(rest, i - 1));
  }

  /** The stop of the scan of `rest` is the stop of the scan of the page. */
  lemma StopShift(page: seq<byte>, rest: seq<byte>, n: nat)
    requires CONTENT_ENTRY <= |page| && CONTENT_ENTRY + 16 * page[0] as nat <= |page|
    requires rest == page[CONTENT_ENTRY + 16 * page[0] as nat..]
    requires ScanStops(rest, EntryOffset(rest, n))
    ensures ScanStops(page, EntryOffset(page, n + 1))
  {
    OffsetShift(page, n + 1);
    var n' := EntryOffset(rest, n);
    if n' < |rest| {
      assert rest[n'] == page[CONTENT_ENTRY + 16 * page[0] as nat + n'];
    }
  }

  /** Offsets in what follows the first entry are offsets in the page,
      one entry later. */
  lemma {:induction false} OffsetShift(page: seq<byte>, i: nat)
    requires CONTENT_ENTRY <= |page| && CONTENT_ENTRY + 16 * page[0] as nat <= |page| && i > 0
    ensures EntryOffset(page, i) == CONTENT_ENTRY + 16 * page[0] as nat
                                   + EntryOffset(page[CONTENT_ENTRY + 16 * page[0] as nat..], i - 1)
  {
    if i > 1 {
      OffsetShift(page, i - 1);
      var len := CONTENT_ENTRY + 16 * page[0] as nat;
      var o' := EntryOffset(page[len..], i - 2);
      assert ByteAt(page[len..], o') == ByteAt(page, len + o');
    }
  }

  /** An entry at offset `o'` of what follows the first entry is at offset
      `len + o'` of the page. */
  lemma EntryAtShift(page: seq<byte>, rest: seq<byte>, e: ContentEntry, o': nat)
    requires CONTENT_ENTRY <= |page| && CONTENT_ENTRY + 16 * page[0] as nat <= |page|
    requires rest == page[CONTENT_ENTRY + 16 * page[0] as nat..]
    requires EntryAtOffset(rest, e, o')
    ensures EntryAtOffset(page, e, CONTENT_ENTRY + 16 * page[0] as nat + o')
  {
    var len := CONTENT_ENTRY + 16 * page[0] as nat;
    assert rest[o'] == page[len + o'];
    EntryFieldsShift(page, len, o');
  }

  /** Page k of the page area `p`. */
  function PageAt(p: seq<byte>, k: nat, pageSize: nat): seq<byte>
    requires k * pageSize + pageSize <= |p|
  {
    p[k * pageSize..k * pageSize + pageSize]
  }

  /** All content pages of directory `dir`, each `pageSize` bytes of `p`,
      scanned in order; a page past the end of the data panics. */
  function ContentPages(dir: seq<PageRef>, p: seq<byte>, pageSize: nat, md5: Md5, verify: bool): (r: Result<seq<ContentEntry>>)
    ensures r.Ok? ==> |dir| * pageSize <= |p|
    decreases |dir|
  {
    if |dir| == 0 then Ok([])
    else if pageSize > |p| then Err(Panic)
    else
      var page := p[..pageSize];
      if verify && md5(page) != dir[0].hash then Err(ContentPageChecksum)
      else
        match ContentPage(page, dir[0].firstKey, true, verify)
        case Err(e) => Err(e)
        case Ok(es) =>
          assert |dir| * pageSize == (|dir| - 1) * pageSize + pageSize;
          Prefixed(es, ContentPages(dir[1..], p[pageSize..], pageSize, md5, verify))
  }

  /** The `c2e` rows that entry `e` contributes: one, with its first
      encoding key, when it has any. */
  function RowOf(e: ContentEntry): seq<C2eRow>
  {
    if |e.ekeys| > 0 then [C2eRow(e.ckey, e.ekeys[0], e.size)] else []
  }

  /** `c2e` after pushing the entries `es` in order. */
  function C2eRows(es: seq<ContentEntry>): seq<C2eRow>
  {
    if |es| == 0 then [] else C2eRows(es[..|es| - 1]) + RowOf(es[|es| - 1])
  }

  /** `cmap_extra` after inserting the entries `es` in order: an entry with
      more than one encoding key maps its content key to the others. */
  function ExtraMap(es: seq<ContentEntry>): map<u128, seq<u128>>
  {
    if |es| == 0 then map[]
    else
      var e := es[|es| - 1];
      var m := ExtraMap(es[..|es| - 1]);
      if |e.ekeys| > 1 then m[e.ckey := e.ekeys[1..]] else m
  }

  /** `c2e` grows in input order: the rows of a sequence of entries are the
      rows of its parts, one part after the other. */
  lemma {:induction false} C2eRowsAppend(a: seq<ContentEntry>, b: seq<ContentEntry>)
    ensures C2eRows(a + b) == C2eRows(a) + C2eRows(b)
    decreases |b|
  {
    if |b| == 0 {
      assert a + b == a;
    } else {
      var b' := b[..|b| - 1];
      assert (a + b)[..|a + b| - 1] == a + b';
      C2eRowsAppend(a, b');
    }
  }

  /** Each entry contributes one row (content key, first encoding key, size)
      when it has at least one encoding key, and none otherwise. */
  lemma C2eRowsOne(e: ContentEntry)
    ensures |e.ekeys| >= 1 ==> C2eRows([e]) == [C2eRow(e.ckey, e.ekeys[0], e.size)]
    ensures |e.ekeys| == 0 ==> C2eRows([e]) == []
  {
    assert [e][..0] == [];
  }

  /** A content key is in `cmap_extra` exactly when some entry for it has
      more than one encoding key, and it then holds the alternates of the
      last such entry, in order. */
  lemma {:induction false} ExtraMapLookup(es: seq<ContentEntry>, k: u128)
    ensures k in ExtraMap(es) <==> exists i :: 0 <= i < |es| && es[i].ckey == k && |es[i].ekeys| > 1
    ensures k in ExtraMap(es) ==>
              exists i :: 0 <= i < |es| && es[i].ckey == k && |es[i].ekeys| > 1
                && ExtraMap(es)[k] == es[i].ekeys[1..]
                && forall j :: i < j < |es| && es[j].ckey == k ==> |es[j].ekeys| <= 1
  {
    if |es| > 0 {
      var init := es[..|es| - 1];
      var e := es[|es| - 1];
      ExtraMapLookup(init, k);
      if e.ckey == k && |e.ekeys| > 1 {
        assert ExtraMap(es)[k] == e.ekeys[1..];
      } else {
        assert ExtraMap(es) == ExtraMap(init) || ExtraMap(es) == ExtraMap(init)[e.ckey := e.ekeys[1..]];
        if k in ExtraMap(es) {
          assert k in ExtraMap(init);
          var i :| 0 <= i < |init| && init[i].ckey == k && |init[i].ekeys| > 1
                   && ExtraMap(init)[k] == init[i].ekeys[1..]
                   && forall j :: i < j < |init| && init[j].ckey == k ==> |init[j].ekeys| <= 1;
          assert es[i] == init[i];
          assert forall j :: i < j < |es| && es[j].ckey == k ==> |es[j].ekeys| <= 1 by {
            forall j | i < j < |es| && es[j].ckey == k
              ensures |es[j].ekeys| <= 1
            {
              if j < |init| {
                assert es[j] == init[j];
              }
            }
          }
        } else {
          forall i | 0 <= i < |es| && es[i].ckey == k
            ensures |es[i].ekeys| <= 1
          {
            if i < |init| {
              assert es[i] == init[i];
            }
          }
        }
      }
    }
  }

  /** The record at `off` of an encoding page. */
  function E2iRecord(s: seq<byte>, off: nat): E2iRow
    requires off + ENCODING_ENTRY <= |s|
  {
    E2iRow(U128At(s, off), BeAt(s, off + 16, 4), FileSize(s, off + 20))
  }

  /** The scan of one encoding page: 25-byte records while at least 25
      bytes remain and the next byte is not `'0'`; with `verify`, the first
      record must carry the directory's first key. */
  function EncodingPage(page: seq<byte>, firstKey: u128, first: bool, verify: bool): (r: Result<seq<E2iRow>>)
    ensures r.Ok? ==> ENCODING_ENTRY * |r.value| <= |page|
    ensures r.Ok? && verify && first && |r.value| > 0 ==> r.value[0].ekey == firstKey
    ensures !verify ==> r.Ok?
    decreases |page|
  {
    if |page| < ENCODING_ENTRY || page[0] == SENTINEL then Ok([])
    else
      var row := E2iRecord(page, 0);
      if verify && first && firstKey != row.ekey then Err(EncodingFirstKeyMismatch)
      else Prefixed([row], EncodingPage(page[ENCODING_ENTRY..], firstKey, false, verify))
  }

  /** Row i of `rows` is the record at byte 25*i of `page`, which does not
      start with `'0'`. */
  predicate RowAt(page: seq<byte>, rows: seq<E2iRow>, i: nat)
    requires i < |rows|
  {
    ENCODING_ENTRY * i + ENCODING_ENTRY <= |page| && page[ENCODING_ENTRY * i] != SENTINEL
    && rows[i] == E2iRecord(page, ENCODING_ENTRY * i)
  }

  /** Every row of a scanned encoding page comes from its own 25-byte
      record, in page order, and the scan read every record up to the
      stop: fewer than 25 bytes left, or a `'0'`. */
  lemma {:induction false} EncodingPageRecords(page: seq<byte>, firstKey: u128, first: bool, verify: bool)
    requires EncodingPage(page, firstKey, first, verify).Ok?
    ensures var rows := EncodingPage(page, firstKey, first, verify).value;
            (forall i :: 0 <= i < |rows| ==> RowAt(page, rows, i))
            && (ENCODING_ENTRY * |rows| + ENCODING_ENTRY > |page| || page[ENCODING_ENTRY * |rows|] == SENTINEL)
    decreases |page|
  {
    if !(|page| < ENCODING_ENTRY || page[0] == SENTINEL) {
      var rest := page[ENCODING_ENTRY..];
      var rows := EncodingPage(page, firstKey, first, verify).value;
      var tail := EncodingPage(rest, firstKey, false, verify).value;
      EncodingPageRecords(rest, firstKey, false, verify);
      assert rows == [E2iRecord(page, 0)] + tail;
      ConsRows(page, tail, rows);
    }
  }

  /** The records of a page are its first record followed by the records
      of what follows it. */
  lemma ConsRows(page: seq<byte>, tail: seq<E2iRow>, rows: seq<E2iRow>)
    requires ENCODING_ENTRY <= |page| && page[0] != SENTINEL && rows == [E2iRecord(page, 0)] + tail
    requires forall i :: 0 <= i < |tail| ==> RowAt(page[ENCODING_ENTRY..], tail, i)
    requires ENCODING_ENTRY * |tail| + ENCODING_ENTRY > |page| - ENCODING_ENTRY
             || page[ENCODING_ENTRY..][ENCODING_ENTRY * |tail|] == SENTINEL
    ensures forall i :: 0 <= i < |rows| ==> RowAt(page, rows, i)
    ensures ENCODING_ENTRY * |rows| + ENCODING_ENTRY > |page| || page[ENCODING_ENTRY * |rows|] == SENTINEL
  {
    forall i | 0 <= i < |rows|
      ensures RowAt(page, rows, i)
    {
      if i > 0 {
        assert rows[i] == tail[i - 1];
        RowAtShift(page, tail, rows, i);
      }
    }
    var n' := ENCODING_ENTRY * |tail|;
    assert ENCODING_ENTRY * |rows| == ENCODING_ENTRY + n';
    if n' < |page| - ENCODING_ENTRY {
      assert page[ENCODING_ENTRY..][n'] == page[ENCODING_ENTRY + n'];
    }
  }

  /** Row i of the page is row i - 1 of what follows the first record. */
  lemma RowAtShift(page: seq<byte>, tail: seq<E2iRow>, rows: seq<E2iRow>, i: nat)
    requires ENCODING_ENTRY <= |page| && 0 < i < |rows| && i - 1 < |tail| && rows[i] == tail[i - 1]
    requires RowAt(page[ENCODING_ENTRY..], tail, i - 1)
    ensures RowAt(page, rows, i)
  {
    var off := ENCODING_ENTRY * (i - 1);
    assert ENCODING_ENTRY * i == ENCODING_ENTRY + off;
    assert page[ENCODING_ENTRY..][off] == page[ENCODING_ENTRY + off];
    RecordShift(page, ENCODING_ENTRY, off);
  }

  /** A record read from a suffix of `s` is the record at the shifted offset. */
  lemma RecordShift(s: seq<byte>, k: nat, off: nat)
    requires k + off + ENCODING_ENTRY <= |s|
    ensures E2iRecord(s[k..], off) == E2iRecord(s, k + off)
  {
    assert s[k..][off..off + 16] == s[k + off..k + off + 16];
    assert s[k..][off + 16..off + 20] == s[k + off + 16..k + off + 20];
    assert s[k..][off + 21..off + 25] == s[k + off + 21..k + off + 25];
  }

  /** All encoding pages of directory `dir`, each `pageSize` bytes of `p`. */
  function EncodingPages(dir: seq<PageRef>, p: seq<byte>, pageSize: nat, md5: Md5, verify: bool): (r: Result<seq<E2iRow>>)
    ensures r.Ok? ==> |dir| * pageSize <= |p|
    decreases |dir|
  {
    if |dir| == 0 then Ok([])
    else if pageSize > |p| then Err(Panic)
    else
      var page := p[..pageSize];
      if verify && md5(page) != dir[0].hash then Err(EncodingPageChecksum)
      else
        match EncodingPage(page, dir[0].firstKey, true, verify)
        case Err(e) => Err(e)
        case Ok(rows) =>
          assert |dir| * pageSize == (|dir| - 1) * pageSize + pageSize;
          Prefixed(rows, EncodingPages(dir[1..], p[pageSize..], pageSize, md5, verify))
  }

  /** A successful scan of content pages checked and scanned the first page,
      and scanned the pages after it successfully. */
  lemma ContentPagesHead(dir: seq<PageRef>, p: seq<byte>, pageSize: nat, md5: Md5, verify: bool)
    requires ContentPages(dir, p, pageSize, md5, verify).Ok? && |dir| > 0
    ensures pageSize <= |p| && (verify ==> md5(p[..pageSize]) == dir[0].hash)
    ensures ContentPage(p[..pageSize], dir[0].firstKey, true, verify).Ok?
    ensures ContentPages(dir[1..], p[pageSize..], pageSize, md5, verify).Ok?
  {
  }

  /** Page k of a successful scan of content pages lies inside the data, had
      its digest checked when verification is on, and scanned successfully. */
  lemma {:induction false} ContentPageChecked(dir: seq<PageRef>, p: seq<byte>, pageSize: nat, md5: Md5, verify: bool, k: nat)
    requires ContentPages(dir, p, pageSize, md5, verify).Ok? && k < |dir|
    ensures k * pageSize + pageSize <= |p|
    ensures verify ==> md5(PageAt(p, k, pageSize)) == dir[k].hash
    ensures ContentPage(PageAt(p, k, pageSize), dir[k].firstKey, true, verify).Ok?
    decreases k
  {
    ContentPagesHead(dir, p, pageSize, md5, verify);
    if k == 0 {
      assert PageAt(p, 0, pageSize) == p[..pageSize];
    } else {
      ContentPageChecked(dir[1..], p[pageSize..], pageSize, md5, verify, k - 1);
      MulStep(k, pageSize);
      PageShift(p, k, pageSize);
      assert dir[1..][k - 1] == dir[k];
    }
  }

  /** With verification on, a successful scan of content pages checked every
      page's digest, and every page's own scan succeeded. */
  lemma ContentPagesChecked(dir: seq<PageRef>, p: seq<byte>, pageSize: nat, md5: Md5, verify: bool)
    requires ContentPages(dir, p, pageSize, md5, verify).Ok?
    ensures forall k :: 0 <= k < |dir| ==>
              k * pageSize + pageSize <= |p|
              && (verify ==> md5(PageAt(p, k, pageSize)) == dir[k].hash)
              && ContentPage(PageAt(p, k, pageSize), dir[k].firstKey, true, verify).Ok?
  {
    forall k | 0 <= k < |dir|
      ensures k * pageSize + pageSize <= |p|
      ensures verify ==> md5(PageAt(p, k, pageSize)) == dir[k].hash
      ensures ContentPage(PageAt(p, k, pageSize), dir[k].firstKey, true, verify).Ok?
    {
      ContentPageChecked(dir, p, pageSize, md5, verify, k);
    }
  }

  lemma MulStep(k: nat, n: nat)
    requires k > 0
    ensures k * n == (k - 1) * n + n
  {
  }

  /** Page k of `p` is page k-1 of what follows the first page. */
  lemma PageShift(p: seq<byte>, k: nat, pageSize: nat)
    requires k > 0 && k * pageSize + pageSize <= |p|
    ensures pageSize <= |p| && (k - 1) * pageSize + pageSize <= |p| - pageSize
    ensures PageAt(p[pageSize..], k - 1, pageSize) == PageAt(p, k, pageSize)
  {
    assert k * pageSize == (k - 1) * pageSize + pageSize;
  }

  /** A successful scan of encoding pages checked and scanned the first page,
      and scanned the pages after it successfully. */
  lemma EncodingPagesHead(dir: seq<PageRef>, p: seq<byte>, pageSize: nat, md5: Md5, verify: bool)
    requires EncodingPages(dir, p, pageSize, md5, verify).Ok? && |dir| > 0
    ensures pageSize <= |p| && (verify ==> md5(p[..pageSize]) == dir[0].hash)
    ensures EncodingPage(p[..pageSize], dir[0].firstKey, true, verify).Ok?
    ensures EncodingPages(dir[1..], p[pageSize..], pageSize, md5, verify).Ok?
  {
  }

  /** The same for page k of encoding pages. */
  lemma {:induction false} EncodingPageChecked(dir: seq<PageRef>, p: seq<byte>, pageSize: nat, md5: Md5, verify: bool, k: nat)
    requires EncodingPages(dir, p, pageSize, md5, verify).Ok? && k < |dir|
    ensures k * pageSize + pageSize <= |p|
    ensures verify ==> md5(PageAt(p, k, pageSize)) == dir[k].hash
    ensures EncodingPage(PageAt(p, k, pageSize), dir[k].firstKey, true, verify).Ok?
    decreases k
  {
    EncodingPagesHead(dir, p, pageSize, md5, verify);
    if k == 0 {
      assert PageAt(p, 0, pageSize) == p[..pageSize];
    } else {
      EncodingPageChecked(dir[1..], p[pageSize..], pageSize, md5, verify, k - 1);
      MulStep(k, pageSize);
      PageShift(p, k, pageSize);
      assert dir[1..][k - 1] == dir[k];
    }
  }

  /** The same for all encoding pages. */
  lemma EncodingPagesChecked(dir: seq<PageRef>, p: seq<byte>, pageSize: nat, md5: Md5, verify: bool)
    requires EncodingPages(dir, p, pageSize, md5, verify).Ok?
    ensures forall k :: 0 <= k < |dir| ==>
              k * pageSize + pageSize <= |p|
              && (verify ==> md5(PageAt(p, k, pageSize)) == dir[k].hash)
              && EncodingPage(PageAt(p, k, pageSize), dir[k].firstKey, true, verify).Ok?
  {
    forall k | 0 <= k < |dir|
      ensures k * pageSize + pageSize <= |p|
      ensures verify ==> md5(PageAt(p, k, pageSize)) == dir[k].hash
      ensures EncodingPage(PageAt(p, k, pageSize), dir[k].firstKey, true, verify).Ok?
    {
      EncodingPageChecked(dir, p, pageSize, md5, verify, k);
    }
  }

  /** The scan reads nothing past the pages: whatever follows the
      `|dir| * pageSize` page bytes does not change the result. */
  lemma {:induction false} ContentPagesIgnoreTail(dir: seq<PageRef>, p: seq<byte>, tail: seq<byte>, pageSize: nat, md5: Md5, verify: bool)
    requires |dir| * pageSize == |p|
    ensures ContentPages(dir, p + tail, pageSize, md5, verify) == ContentPages(dir, p, pageSize, md5, verify)
    decreases |dir|
  {
    if |dir| > 0 {
      assert |dir| * pageSize == (|dir| - 1) * pageSize + pageSize;
      assert (p + tail)[..pageSize] == p[..pageSize];
      assert (p + tail)[pageSize..] == p[pageSize..] + tail;
      ContentPagesIgnoreTail(dir[1..], p[pageSize..], tail, pageSize, md5, verify);
    }
  }

  /** The outcome of the content pages as `parse` keeps it: `c2e`,
      `cmap_extra`, and the cursor one page size per directory entry on. */
  function C2eOf(cpages: seq<PageRef>, pageSize: nat, p: seq<byte>, md5: Md5, verify: bool)
    : (r: Result<(seq<C2eRow>, map<u128, seq<u128>>, seq<byte>)>)
    ensures r.Ok? ==> |cpages| * pageSize <= |p| && r.value.2 == p[|cpages| * pageSize..]
  {
    match ContentPages(cpages, p, pageSize, md5, verify)
    case Err(e) => Err(e)
    case Ok(es) => Ok((C2eRows(es), ExtraMap(es), p[|cpages| * pageSize..]))
  }

  /** `build_e2i`: the rows of the encoding pages and the cursor after them. */
  function E2iOf(epages: seq<PageRef>, epagekb: nat, p: seq<byte>, md5: Md5, verify: bool)
    : (r: Result<(seq<E2iRow>, seq<byte>)>)
    ensures r.Ok? ==> |epages| * (epagekb * 1024) <= |p| && r.value.1 == p[|epages| * (epagekb * 1024)..]
  {
    var pageSize := epagekb * 1024;
    match EncodingPages(epages, p, pageSize, md5, verify)
    case Err(e) => Err(e)
    case Ok(rows) => Ok((rows, p[|epages| * pageSize..]))
  }

  /** `encoding::parse(data)`: the reference definition. The header is
      checked field by field; `get_u32` at offset 13 and `get_u8` at
      offset 17 panic on fewer than 18 bytes, `get_u32` at 18 on fewer
      than 22. */
  function Decode(data: seq<byte>, md5: Md5, verify: bool): (r: Result<Encoding>)
    ensures r.Ok? ==> |data| >= 22 && data[0] == 0x45 && data[1] == 0x4E
                      && data[2] == 1 && data[3] == 16 && data[4] == 16 && data[17] == 0
  {
    if |data| < 16 then Err(TruncatedHeader)
    else if data[0] != 0x45 || data[1] != 0x4E then Err(NotEncoding)  // "EN"
    else if data[2] != 1 then Err(UnsupportedVersion)
    else if data[3] != 16 then Err(UnsupportedCkeySize)
    else if data[4] != 16 then Err(UnsupportedEkeySize)
    else if |data| < 18 then Err(Panic)
    else if data[17] != 0 then Err(NonzeroHeaderByte)
    else if |data| < 22 then Err(Panic)
    else DecodeTables(data[22..], Header(data), md5, verify)
  }

  /** The header fields: page sizes in KiB, directory entry counts and the
      espec table size. */
  datatype HeaderFields = HeaderFields(cpagekb: nat, epagekb: nat, ccount: nat, ecount: nat, especSize: nat)

  function Header(data: seq<byte>): HeaderFields
    requires |data| >= 22
  {
    HeaderFields(BeAt(data, 5, 2), BeAt(data, 7, 2), BeAt(data, 9, 4), BeAt(data, 13, 4), BeAt(data, 18, 4))
  }

  /** Everything after the 22 header bytes: the espec table, the content
      directory and pages, the encoding directory and pages, and the
      trailing espec string. */
  function DecodeTables(p: seq<byte>, h: HeaderFields, md5: Md5, verify: bool): (r: Result<Encoding>)
    ensures r.Ok? ==> h.especSize + 32 * h.ccount + h.ccount * (h.cpagekb * 1024) <= |p|
    ensures r.Ok? ==> r.value.especs == Split(p[..h.especSize], 0)
  {
    if |p| < h.especSize then Err(TruncatedEspec)
    else
      var especs := Split(p[..h.especSize], 0);
      var p := p[h.especSize..];
      if |p| < h.ccount * 32 then Err(TruncatedContentDirectory)
      else
        var cpages := Directory(p, h.ccount);
        match C2eOf(cpages, h.cpagekb * 1024, p[h.ccount * 32..], md5, verify)
        case Err(e) => Err(e)
        case Ok((c2e, extra, p)) =>
          if |p| < h.ecount * 32 then Err(TruncatedEncodingDirectory)
          else
            var epages := Directory(p, h.ecount);
            match E2iOf(epages, h.epagekb, p[h.ecount * 32..], md5, verify)
            case Err(e) => Err(e)
            case Ok((e2i, p)) => Ok(Encoding(especs, c2e, e2i, extra, p))
  }

  /** The `n` keys at the start of `s`, read one `get_u128` at a time. */
  method ReadKeys(s: seq<byte>, n: nat) returns (keys: seq<u128>)
    requires 16 * n <= |s|
    ensures keys == KeysAt(s, n)
  {
    keys := [];
    for i := 0 to n
      invariant keys == KeysAt(s, n)[..i]
    {
      keys := keys + [U128At(s, 16 * i)];
    }
  }

  /** The `count` directory entries at the start of `p`. */
  method ReadDirectory(p: seq<byte>, count: nat) returns (dir: seq<PageRef>)
    requires 32 * count <= |p|
    ensures dir == Directory(p, count)
  {
    dir := [];
    for i := 0 to count
      invariant dir == Directory(p, count)[..i]
    {
      dir := dir + [PageRef(U128At(p, 32 * i), U128At(p, 32 * i + 16))];
    }
  }

  /** Pushing one more entry adds its row to `c2e` and, with alternates,
      its map entry to `cmap_extra`. */
  lemma PushEntry(before: seq<ContentEntry>, entry: ContentEntry)
    ensures C2eRows(before + [entry]) == C2eRows(before) + RowOf(entry)
    ensures ExtraMap(before + [entry])
            == if |entry.ekeys| > 1 then ExtraMap(before)[entry.ckey := entry.ekeys[1..]] else ExtraMap(before)
  {
    assert (before + [entry])[..|before|] == before;
  }

  /** One entry of a content page, read field by field. */
  method ReadContentEntry(q: seq<byte>, firstKey: u128, first: bool, verify: bool) returns (r: Result<(ContentEntry, nat)>)
    requires |q| >= CONTENT_ENTRY
    ensures r == ContentEntryAt(q, firstKey, first, verify)
  {
    var keyCount := q[0] as nat;
    var fileSize := FileSize(q, 1);
    var ckey := U128At(q, 6);
    if verify && !(!first || firstKey == ckey) {
      return Err(ContentFirstKeyMismatch);
    }
    if |q| - CONTENT_ENTRY < 16 * keyCount {
      if verify {
        return Err(TruncatedContentEntry);
      }
      return Err(Panic);
    }
    var ekeys := ReadKeys(q[CONTENT_ENTRY..], keyCount);
    return Ok((ContentEntry(ckey, ekeys, fileSize), CONTENT_ENTRY + 16 * keyCount));
  }

  /** A content-page scan that reads an entry goes on right after it. */
  lemma ContentPageStep(q: seq<byte>, firstKey: u128, first: bool, verify: bool)
    requires |q| >= CONTENT_ENTRY && q[0] != SENTINEL && ContentEntryAt(q, firstKey, first, verify).Ok?
    ensures var (entry, len) := ContentEntryAt(q, firstKey, first, verify).value;
            len <= |q| && ContentPage(q, firstKey, first, verify) == Prefixed([entry], ContentPage(q[len..], firstKey, false, verify))
  {
  }

  /** The `c2e`/`cmap_extra` outcome of a scan result, on top of the entries
      `seen` scanned before it. */
  function Absorb(seen: seq<ContentEntry>, r: Result<seq<ContentEntry>>): Result<(seq<C2eRow>, map<u128, seq<u128>>)>
  {
    match r
    case Err(e) => Err(e)
    case Ok(es) => Ok((C2eRows(seen + es), ExtraMap(seen + es)))
  }

  /** The `while` loop over one content page, pushing to `c2e` and
      inserting into `cmap_extra` as it goes. */
  method ScanContentPage(page: seq<byte>, firstKey: u128, verify: bool,
                         c2e0: seq<C2eRow>, extra0: map<u128, seq<u128>>, ghost seen: seq<ContentEntry>)
    returns (r: Result<(seq<C2eRow>, map<u128, seq<u128>>)>)
    requires c2e0 == C2eRows(seen) && extra0 == ExtraMap(seen)
    ensures r == Absorb(seen, ContentPage(page, firstKey, true, verify))
  {
    var c2e, extra := c2e0, extra0;
    var q := page;
    var first := true;
    ghost var done: seq<ContentEntry> := [];
    ghost var whole := ContentPage(page, firstKey, true, verify);
    assert seen + done == seen;
    PrefixedEmpty(whole);
    while |q| >= CONTENT_ENTRY && q[0] != SENTINEL
      invariant c2e == C2eRows(seen + done) && extra == ExtraMap(seen + done)
      invariant whole == Prefixed(done, ContentPage(q, firstKey, first, verify))
      decreases |q|
    {
      var step := ReadContentEntry(q, firstKey, first, verify);
      if step.Err? {
        return Err(step.error);
      }
      ghost var first' := first;
      first := false;
      var entry, len := step.value.0, step.value.1;
      var keyCount := |entry.ekeys|;
      PushEntry(seen + done, entry);
      if keyCount > 0 {
        c2e := c2e + [C2eRow(entry.ckey, entry.ekeys[0], entry.size)];
        if keyCount > 1 {
          extra := extra[entry.ckey := entry.ekeys[1..]];
        }
      }
      var next := q[len..];
      ContentPageStep(q, firstKey, first', verify);
      assert seen + (done + [entry]) == (seen + done) + [entry];
      PrefixedAppend(done, [entry], ContentPage(next, firstKey, false, verify));
      done := done + [entry];
      q := next;
    }
    assert ContentPage(q, firstKey, first, verify) == Ok([]);
    assert done + [] == done;
    return Ok((c2e, extra));
  }

  /** The loop over the content directory: scan each page, then advance the
      cursor by one page size. */
  method BuildC2e(cpages: seq<PageRef>, pageSize: nat, p: seq<byte>, md5: Md5, verify: bool)
    returns (r: Result<(seq<C2eRow>, map<u128, seq<u128>>, seq<byte>)>)
    ensures r == C2eOf(cpages, pageSize, p, md5, verify)
  {
    var c2e: seq<C2eRow> := [];
    var extra: map<u128, seq<u128>> := map[];
    var q := p;
    ghost var done: seq<ContentEntry> := [];
    ghost var whole := ContentPages(cpages, p, pageSize, md5, verify);
    PrefixedEmpty(whole);
    for k := 0 to |cpages|
      invariant k * pageSize <= |p| && q == p[k * pageSize..]
      invariant c2e == C2eRows(done) && extra == ExtraMap(done)
      invariant whole == Prefixed(done, ContentPages(cpages[k..], q, pageSize, md5, verify))
    {
      assert cpages[k..][0] == cpages[k] && cpages[k..][1..] == cpages[k + 1..];
      if pageSize > |q| {
        return Err(Panic);
      }
      var page := q[..pageSize];
      if verify && cpages[k].hash != md5(page) {
        return Err(ContentPageChecksum);
      }
      var scanned := ScanContentPage(page, cpages[k].firstKey, verify, c2e, extra, done);
      ghost var entries := ContentPage(page, cpages[k].firstKey, true, verify);
      if scanned.Err? {
        return Err(scanned.error);
      }
      c2e, extra := scanned.value.0, scanned.value.1;
      PrefixedAppend(done, entries.value, ContentPages(cpages[k + 1..], q[pageSize..], pageSize, md5, verify));
      done := done + entries.value;
      MulStep(k + 1, pageSize);
      assert q[pageSize..] == p[(k + 1) * pageSize..];
      q := q[pageSize..];
    }
    assert cpages[|cpages|..] == [] && done + [] == done;
    return Ok((c2e, extra, q));
  }

  /** The `while` loop over one encoding page, pushing to `e2i`. */
  method ScanEncodingPage(page: seq<byte>, firstKey: u128, verify: bool, e2i0: seq<E2iRow>)
    returns (r: Result<seq<E2iRow>>)
    ensures r == Prefixed(e2i0, EncodingPage(page, firstKey, true, verify))
  {
    var e2i := e2i0;
    var q := page;
    var first := true;
    ghost var done: seq<E2iRow> := [];
    ghost var whole := EncodingPage(page, firstKey, true, verify);
    PrefixedEmpty(whole);
    while |q| >= ENCODING_ENTRY && q[0] != SENTINEL
      invariant e2i == e2i0 + done
      invariant whole == Prefixed(done, EncodingPage(q, firstKey, first, verify))
      decreases |q|
    {
      var ekey := U128At(q, 0);
      var index := BeAt(q, 16, 4);
      var fileSize := FileSize(q, 20);
      if first {
        if verify && firstKey != ekey {
          return Err(EncodingFirstKeyMismatch);
        }
        first := false;
      }
      var row := E2iRow(ekey, index, fileSize);
      e2i := e2i + [row];
      PrefixedAppend(done, [row], EncodingPage(q[ENCODING_ENTRY..], firstKey, false, verify));
      done := done + [row];
      q := q[ENCODING_ENTRY..];
    }
    assert EncodingPage(q, firstKey, first, verify) == Ok([]);
    assert done + [] == done;
    PrefixedAppend(e2i0, done, Ok([]));
    return Ok(e2i);
  }

  /** `build_e2i`: the loop over the encoding directory. */
  method BuildE2i(epages: seq<PageRef>, epagekb: nat, p: seq<byte>, md5: Md5, verify: bool)
    returns (r: Result<(seq<E2iRow>, seq<byte>)>)
    ensures r == E2iOf(epages, epagekb, p, md5, verify)
  {
    var pageSize := epagekb * 1024;
    var e2i: seq<E2iRow> := [];
    var q := p;
    ghost var whole := EncodingPages(epages, p, pageSize, md5, verify);
    PrefixedEmpty(whole);
    for k := 0 to |epages|
      invariant k * pageSize <= |p| && q == p[k * pageSize..]
      invariant whole == Prefixed(e2i, EncodingPages(epages[k..], q, pageSize, md5, verify))
    {
      assert epages[k..][0] == epages[k] && epages[k..][1..] == epages[k + 1..];
      if pageSize > |q| {
        return Err(Panic);
      }
      var page := q[..pageSize];
      if verify && epages[k].hash != md5(page) {
        return Err(EncodingPageChecksum);
      }
      ghost var rows := EncodingPage(page, epages[k].firstKey, true, verify);
      var scanned := ScanEncodingPage(page, epages[k].firstKey, verify, e2i);
      if scanned.Err? {
        return Err(scanned.error);
      }
      PrefixedAppend(e2i, rows.value, EncodingPages(epages[k + 1..], q[pageSize..], pageSize, md5, verify));
      e2i := scanned.value;
      MulStep(k + 1, pageSize);
      assert q[pageSize..] == p[(k + 1) * pageSize..];
      q := q[pageSize..];
    }
    assert epages[|epages|..] == [] && e2i + [] == e2i;
    return Ok((e2i, q));
  }

  /** `encoding::parse`: the cursor `p` walks the header, the espec table,
      the two directories and their pages. */
  method Parse(data: seq<byte>, md5: Md5, verify: bool) returns (r: Result<Encoding>)
    ensures r == Decode(data, md5, verify)
  {
    var p := data;
    if |p| < 16 {
      return Err(TruncatedHeader);
    }
    if p[0] != 0x45 || p[1] != 0x4E {
      return Err(NotEncoding);
    }
    if p[2] != 1 {
      return Err(UnsupportedVersion);
    }
    if p[3] != 16 {
      return Err(UnsupportedCkeySize);
    }
    if p[4] != 16 {
      return Err(UnsupportedEkeySize);
    }
    if |p| < 18 {
      return Err(Panic);
    }
    if p[17] != 0 {
      return Err(NonzeroHeaderByte);
    }
    if |p| < 22 {
      return Err(Panic);
    }
    var h := HeaderFields(BeAt(p, 5, 2), BeAt(p, 7, 2), BeAt(p, 9, 4), BeAt(p, 13, 4), BeAt(p, 18, 4));
    r := ParseTables(p[22..], h, md5, verify);
  }

  /** The rest of `parse` after the header, with the cursor `p` at byte 22. */
  method ParseTables(p0: seq<byte>, h: HeaderFields, md5: Md5, verify: bool) returns (r: Result<Encoding>)
    ensures r == DecodeTables(p0, h, md5, verify)
  {
    var p := p0;
    var cpagekb, epagekb, ccount, ecount, especSize := h.cpagekb, h.epagekb, h.ccount, h.ecount, h.especSize;
    if |p| < especSize {
      return Err(TruncatedEspec);
    }
    var especs := Split(p[..especSize], 0);
    p := p[especSize..];
    if |p| < ccount * 32 {
      return Err(TruncatedContentDirectory);
    }
    var cpages := ReadDirectory(p, ccount);
    p := p[ccount * 32..];
    var content := BuildC2e(cpages, cpagekb * 1024, p, md5, verify);
    if content.Err? {
      return Err(content.error);
    }
    var c2e, extra := content.value.0, content.value.1;
    p := content.value.2;
    if |p| < ecount * 32 {
      return Err(TruncatedEncodingDirectory);
    }
    var epages := ReadDirectory(p, ecount);
    p := p[ecount * 32..];
    var built := BuildE2i(epages, epagekb, p, md5, verify);
    if built.Err? {
      return Err(built.error);
    }
    var e2i := built.value.0;
    p := built.value.1;
    return Ok(Encoding(especs, c2e, e2i, extra, p));
  }
}
