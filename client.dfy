/** The client's lookups (`CascClient` in main.rs): a file's data is fetched
    by its encoding key from the CDN's sharded `data/` path and decoded as a
    chunk container; a content key is first mapped to its encoding key
    through the encoding table. The fetch is a parameter. */
module Client {
  import opened Common
  import opened Keys
  import Blte
  import EncodingTable

  /** `CacheByKey::get` of a URL: the bytes served for it, or an error. */
  type Fetch = string -> Result<seq<byte>>

  /** The parts of `CascClient` the lookups use: the CDN path prefix and the
      encoding table. */
  datatype CascClient = CascClient(cdnPrefix: string, encoding: EncodingTable.Encoding)

  /** The URL of an encoding key's data: the prefix, `data/`, then the
      sharded hex path of the key. */
  function DataPath(cdnPrefix: string, ekey: Key): (r: string)
    ensures |r| == |cdnPrefix| + 5 + 38
    ensures r[..|cdnPrefix|] == cdnPrefix && r[|cdnPrefix|..|cdnPrefix| + 5] == "data/"
    ensures Split(r[|cdnPrefix| + 5..], '/') == [AsHex(ekey)[0..2], AsHex(ekey)[2..4], AsHex(ekey)]
  {
    KeyPath(ekey);
    var r := cdnPrefix + "data/" + FormatHexKey(AsHex(ekey));
    assert r[|cdnPrefix| + 5..] == FormatHexKey(AsHex(ekey));
    r
  }

  /** `get_by_ekey`: the fetched bytes, decoded as a chunk container whose
      header digest is the encoding key itself. */
  function GetByEkey(c: CascClient, ekey: Key, fetch: Fetch, md5: Md5, inflate: Blte.Inflater, verify: bool)
    : (r: Result<seq<byte>>)
    ensures r.Ok? ==> fetch(DataPath(c.cdnPrefix, ekey)).Ok?
    ensures r.Ok? ==> var data := fetch(DataPath(c.cdnPrefix, ekey)).value;
                      Blte.Decode(ekey, data, md5, inflate, verify) == r
                      && md5(data[..Blte.HeaderSize(data)]) == ekey
  {
    match fetch(DataPath(c.cdnPrefix, ekey))
    case Err(e) => Err(e)
    case Ok(bytes) => Blte.Decode(ekey, bytes, md5, inflate, verify)
  }

  /** `get_by_keys`: when the encoding table knows the content key, the
      encoding key it gives must be the caller's; then the data is fetched
      by the caller's encoding key. */
  function GetByKeys(c: CascClient, k: FileKeys, fetch: Fetch, md5: Md5, inflate: Blte.Inflater, verify: bool)
    : (r: Result<seq<byte>>)
    ensures c.encoding.C2e(k.ckey).Ok? && c.encoding.C2e(k.ckey).value != k.ekey ==> r == Err(EncodingKeyMismatch)
    ensures c.encoding.C2e(k.ckey).Err? || c.encoding.C2e(k.ckey).value == k.ekey ==>
              r == GetByEkey(c, k.ekey, fetch, md5, inflate, verify)
  {
    match c.encoding.C2e(k.ckey)
    case Ok(e) => if e != k.ekey then Err(EncodingKeyMismatch) else GetByEkey(c, k.ekey, fetch, md5, inflate, verify)
    case Err(_) => GetByEkey(c, k.ekey, fetch, md5, inflate, verify)
  }

  /** `get_by_ckey`: the encoding key the table gives for the content key,
      fetched; a content key not in the table is an error. */
  function GetByCkey(c: CascClient, ckey: Key, fetch: Fetch, md5: Md5, inflate: Blte.Inflater, verify: bool)
    : (r: Result<seq<byte>>)
    ensures c.encoding.C2e(ckey).Err? ==> r == Err(UnknownContentKey)
    ensures c.encoding.C2e(ckey).Ok? ==> r == GetByEkey(c, c.encoding.C2e(ckey).value, fetch, md5, inflate, verify)
  {
    match c.encoding.C2e(ckey)
    case Err(_) => Err(UnknownContentKey)
    case Ok(e) => GetByEkey(c, e, fetch, md5, inflate, verify)
  }

  /** Asking by a content key and the encoding key the table gives for it is
      asking by the content key alone. */
  lemma ByKeysAgreesWithByCkey(c: CascClient, ckey: Key, fetch: Fetch, md5: Md5, inflate: Blte.Inflater, verify: bool)
    requires c.encoding.C2e(ckey).Ok?
    ensures GetByKeys(c, FileKeys(ckey, c.encoding.C2e(ckey).value), fetch, md5, inflate, verify)
            == GetByCkey(c, ckey, fetch, md5, inflate, verify)
  {
  }

  /** In a table sorted by content key where every row of the content key
      names one encoding key, a caller naming another encoding key is
      refused, whatever the CDN would serve. */
  lemma MismatchRefused(c: CascClient, k: FileKeys, e: Key, fetch: Fetch, md5: Md5, inflate: Blte.Inflater, verify: bool)
    requires EncodingTable.SortedByCkey(c.encoding.c2e)
    requires exists i :: 0 <= i < |c.encoding.c2e| && c.encoding.c2e[i].ckey == k.ckey
    requires forall i :: 0 <= i < |c.encoding.c2e| && c.encoding.c2e[i].ckey == k.ckey ==> c.encoding.c2e[i].ekey == e
    requires e != k.ekey
    ensures GetByKeys(c, k, fetch, md5, inflate, verify) == Err(EncodingKeyMismatch)
  {
    var r := c.encoding.C2e(k.ckey);
    assert r.Ok?;
    var i :| 0 <= i < |c.encoding.c2e| && c.encoding.c2e[i].ckey == k.ckey && c.encoding.c2e[i].ekey == r.value;
  }
}
