/** The install manifest (install.rs): the `IN` header, the tag records with
    one bit per file, the file records, the filter on the tags named
    "Windows", "x86_64" and "US", the backslash-free root names, and the two
    sorts. `Collect` is the reference definition of everything before the
    sorts; `Parse` is the cursor-driven code, proved to return sorted
    permutations of what `Collect` gathers. */
module Install {
  import opened Common

  const BACKSLASH: byte := 0x5C

  /** A tag record: name, type and the bit mask over the files. */
  datatype Tag = Tag(name: seq<byte>, ty: nat, mask: seq<byte>)

  /** A file record as read: name, content key and size. */
  datatype Record = Record(name: seq<byte>, key: u128, size: nat)

  /** `InstallFile`: a kept file's name and content key. */
  datatype InstallFile = InstallFile(name: seq<byte>, key: u128)

  /** `Install`: the root names and the kept files. */
  datatype Install = Install(rootNames: seq<seq<byte>>, files: seq<InstallFile>)

  /** `num_files.div_ceil(8)`: one bit per file. */
  function MaskLen(numFiles: nat): (r: nat)
    ensures numFiles <= 8 * r < numFiles + 8
  {
    (numFiles + 7) / 8
  }

  /** `read_until(b'\0')` on a slice: the bytes up to and including the
      first NUL, or all of them when there is none, and what follows. */
  function ReadUntil(p: seq<byte>): (seq<byte>, seq<byte>)
  {
    if |p| == 0 then ([], [])
    else if p[0] == 0 then ([0], p[1..])
    else
      var (t, rest) := ReadUntil(p[1..]);
      ([p[0]] + t, rest)
  }

  /** With its first NUL at i, `read_until` takes bytes 0..=i. */
  lemma {:induction false} ReadUntilFirst(p: seq<byte>, i: nat)
    requires i < |p| && p[i] == 0 && 0 !in p[..i]
    ensures ReadUntil(p) == (p[..i + 1], p[i + 1..])
  {
    if i == 0 {
      assert p[..1] == [0];
    } else {
      assert p[0] == p[..i][0];
      assert p[1..][..i - 1] == p[1..i];
      assert forall x :: x in p[1..i] ==> x in p[..i];
      ReadUntilFirst(p[1..], i - 1);
      assert [p[0]] + p[1..][..i] == p[..i + 1];
      assert p[1..][i..] == p[i + 1..];
    }
  }

  /** Without a NUL, `read_until` takes everything. */
  lemma {:induction false} ReadUntilNone(p: seq<byte>)
    requires 0 !in p
    ensures ReadUntil(p) == (p, [])
  {
    if |p| > 0 {
      assert p[0] in p;
      assert forall x :: x in p[1..] ==> x in p;
      ReadUntilNone(p[1..]);
      assert [p[0]] + p[1..] == p;
    }
  }

  /** `Vec::pop`, its result discarded. */
  function Pop(v: seq<byte>): seq<byte>
  {
    if |v| == 0 then v else v[..|v| - 1]
  }

  /** A NUL-terminated name: `read_until` then `pop`. An unterminated name
      at the end of the data loses its last byte to the `pop`. */
  function ReadName(p: seq<byte>): (seq<byte>, seq<byte>)
  {
    var (taken, rest) := ReadUntil(p);
    (Pop(taken), rest)
  }

  /** A name written with its terminator is read back whole, and the cursor
      lands just past the terminator. */
  lemma ReadNameTerminated(name: seq<byte>, rest: seq<byte>)
    requires 0 !in name
    ensures ReadName(name + [0] + rest) == (name, rest)
  {
    var p := name + [0] + rest;
    assert p[..|name|] == name;
    ReadUntilFirst(p, |name|);
    assert p[..|name| + 1] == name + [0] && p[|name| + 1..] == rest;
  }

  /** A name with no terminator takes the rest of the data, less its last byte. */
  lemma ReadNameUnterminated(p: seq<byte>)
    requires 0 !in p
    ensures ReadName(p) == (Pop(p), [])
  {
    ReadUntilNone(p);
  }

  /** The tag record at the start of `p`: `get_u16` panics on fewer than
      two bytes, `read_exact` of the mask fails with `UnexpectedEof`. */
  function TagAt(p: seq<byte>, maskLen: nat): (r: Result<(Tag, seq<byte>)>)
    ensures r.Ok? ==> |r.value.0.mask| == maskLen
  {
    var (name, p1) := ReadName(p);
    if |p1| < 2 then Err(Panic)
    else
      var p2 := p1[2..];
      if |p2| < maskLen then Err(UnexpectedEof)
      else Ok((Tag(name, BeAt(p1, 0, 2), p2[..maskLen]), p2[maskLen..]))
  }

  /** `n` tag records in order, and the cursor after them. */
  function Tags(p: seq<byte>, n: nat, maskLen: nat): Result<(seq<Tag>, seq<byte>)>
    decreases n
  {
    if n == 0 then Ok(([], p))
    else
      match TagAt(p, maskLen)
      case Err(e) => Err(e)
      case Ok((t, rest)) => Consed([t], Tags(rest, n - 1, maskLen))
  }

  /** `n` tags are read, each with a mask of `maskLen` bytes. */
  lemma {:induction false} TagsMasks(p: seq<byte>, n: nat, maskLen: nat)
    ensures var r := Tags(p, n, maskLen);
            r.Ok? ==> |r.value.0| == n && forall k :: 0 <= k < n ==> |r.value.0[k].mask| == maskLen
    decreases n
  {
    if n > 0 && TagAt(p, maskLen).Ok? {
      var (t, rest) := TagAt(p, maskLen).value;
      TagsMasks(rest, n - 1, maskLen);
      var r := Tags(rest, n - 1, maskLen);
      if r.Ok? {
        assert forall k :: 0 < k < n ==> ([t] + r.value.0)[k] == r.value.0[k - 1];
      }
    }
  }

  /** `prefix` put in front of the items of a successful read. */
  function Consed<T>(prefix: seq<T>, r: Result<(seq<T>, seq<byte>)>): Result<(seq<T>, seq<byte>)>
  {
    match r
    case Err(e) => Err(e)
    case Ok((items, rest)) => Ok((prefix + items, rest))
  }

  lemma ConsedEmpty<T>(r: Result<(seq<T>, seq<byte>)>)
    ensures Consed([], r) == r
  {
    if r.Ok? {
      assert [] + r.value.0 == r.value.0;
    }
  }

  lemma ConsedAppend<T>(a: seq<T>, b: seq<T>, r: Result<(seq<T>, seq<byte>)>)
    ensures Consed(a, Consed(b, r)) == Consed(a + b, r)
  {
    if r.Ok? {
      assert a + (b + r.value.0) == (a + b) + r.value.0;
    }
  }

  /** The file record at the start of `p`: name, `get_u128`, `get_u32`,
      each getter panicking past the end. */
  function RecordAt(p: seq<byte>): Result<(Record, seq<byte>)>
  {
    var (name, p1) := ReadName(p);
    if |p1| < 20 then Err(Panic)
    else Ok((Record(name, U128At(p1, 0), BeAt(p1, 16, 4)), p1[20..]))
  }

  /** `n` file records in order, and the cursor after them. */
  function Records(p: seq<byte>, n: nat): Result<(seq<Record>, seq<byte>)>
    decreases n
  {
    if n == 0 then Ok(([], p))
    else
      match RecordAt(p)
      case Err(e) => Err(e)
      case Ok((rec, rest)) => Consed([rec], Records(rest, n - 1))
  }

  /** The tag names the filter looks for. */
  predicate IsNeeded(name: seq<byte>)
  {
    name == [0x57, 0x69, 0x6E, 0x64, 0x6F, 0x77, 0x73]     // "Windows"
    || name == [0x78, 0x38, 0x36, 0x5F, 0x36, 0x34]         // "x86_64"
    || name == [0x55, 0x53]                                 // "US"
  }

  /** `needed_tags`: the tags with a needed name, in order. */
  function NeededTags(tags: seq<Tag>): seq<Tag>
  {
    if |tags| == 0 then []
    else (if IsNeeded(tags[0].name) then [tags[0]] else []) + NeededTags(tags[1..])
  }

  /** The needed tags are the tags with a needed name. */
  lemma {:induction false} NeededTagsMembers(tags: seq<Tag>)
    ensures forall t :: t in NeededTags(tags) <==> t in tags && IsNeeded(t.name)
  {
    if |tags| > 0 {
      NeededTagsMembers(tags[1..]);
      assert tags == [tags[0]] + tags[1..];
    }
  }

  /** `mask & (1 << k) != 0`: bit k of a mask byte. */
  predicate MaskBit(m: byte, k: nat)
    requires k < 8
  {
    (m as bv8) & (1 << k) != 0
  }

  /** The bit test is the k-th binary digit of the byte. */
  lemma MaskBitIsDigit(m: byte, k: nat)
    requires k < 8
    ensures MaskBit(m, k) <==> (m / Pow2(k)) % 2 == 1
  {
    var b := m as bv8;
    assert Pow2(1) == 2 && Pow2(2) == 4 && Pow2(3) == 8 && Pow2(4) == 16;
    assert Pow2(5) == 32 && Pow2(6) == 64 && Pow2(7) == 128;
    if k == 0 {
      assert (b & 1 != 0) <==> (m % 2 == 1);
    } else if k == 1 {
      assert (b & 2 != 0) <==> ((m / 2) % 2 == 1);
    } else if k == 2 {
      assert (b & 4 != 0) <==> ((m / 4) % 2 == 1);
    } else if k == 3 {
      assert (b & 8 != 0) <==> ((m / 8) % 2 == 1);
    } else if k == 4 {
      assert (b & 16 != 0) <==> ((m / 16) % 2 == 1);
    } else if k == 5 {
      assert (b & 32 != 0) <==> ((m / 32) % 2 == 1);
    } else if k == 6 {
      assert (b & 64 != 0) <==> ((m / 64) % 2 == 1);
    } else {
      assert (b & 128 != 0) <==> ((m / 128) % 2 == 1);
    }
  }

  function Pow2(k: nat): (r: nat)
    ensures r > 0
  {
    if k == 0 then 1 else 2 * Pow2(k - 1)
  }

  /** File i is kept when every needed tag has bit `i % 8` of mask byte
      `i / 8` set. */
  predicate Kept(needed: seq<Tag>, i: nat)
  {
    forall k :: 0 <= k < |needed| ==> i / 8 < |needed[k].mask| && MaskBit(needed[k].mask[i / 8], i % 8)
  }

  function FileOf(rec: Record): InstallFile
  {
    InstallFile(rec.name, rec.key)
  }

  /** `files` before sorting: the kept records, in record order. */
  function KeptFiles(rs: seq<Record>, needed: seq<Tag>): seq<InstallFile>
  {
    if |rs| == 0 then []
    else
      var i := |rs| - 1;
      KeptFiles(rs[..i], needed) + (if Kept(needed, i) then [FileOf(rs[i])] else [])
  }

  /** `root_names` before sorting: the names without a backslash, in record order. */
  function RootNames(rs: seq<Record>): seq<seq<byte>>
  {
    if |rs| == 0 then []
    else
      var i := |rs| - 1;
      RootNames(rs[..i]) + (if BACKSLASH in rs[i].name then [] else [rs[i].name])
  }

  /** The last record contributes its file when it is kept. */
  lemma KeptFilesLast(rs: seq<Record>, needed: seq<Tag>)
    requires |rs| > 0
    ensures KeptFiles(rs, needed) == KeptFiles(rs[..|rs| - 1], needed)
                                     + (if Kept(needed, |rs| - 1) then [FileOf(rs[|rs| - 1])] else [])
  {
  }

  /** Every kept file is record i for a kept index i. */
  lemma {:induction false} KeptFilesSound(rs: seq<Record>, needed: seq<Tag>, f: InstallFile)
    requires f in KeptFiles(rs, needed)
    ensures exists i :: 0 <= i < |rs| && Kept(needed, i) && f == FileOf(rs[i])
  {
    var n := |rs| - 1;
    var init := rs[..n];
    KeptFilesLast(rs, needed);
    var front := KeptFiles(init, needed);
    if f in front {
      KeptFilesSound(init, needed, f);
      var i :| 0 <= i < n && Kept(needed, i) && f == FileOf(init[i]);
      assert init[i] == rs[i];
    } else {
      assert Kept(needed, n) && KeptFiles(rs, needed) == front + [FileOf(rs[n])];
      assert f == FileOf(rs[n]);
    }
  }

  /** Record i for a kept index i is a kept file. */
  lemma {:induction false} KeptFilesComplete(rs: seq<Record>, needed: seq<Tag>, i: nat)
    requires i < |rs| && Kept(needed, i)
    ensures FileOf(rs[i]) in KeptFiles(rs, needed)
  {
    var n := |rs| - 1;
    var init := rs[..n];
    KeptFilesLast(rs, needed);
    var front := KeptFiles(init, needed);
    if i < n {
      KeptFilesComplete(init, needed, i);
      assert init[i] == rs[i];
      assert forall x :: x in front ==> x in KeptFiles(rs, needed);
    } else {
      assert i == n;
      assert KeptFiles(rs, needed)[|front|] == FileOf(rs[i]);
    }
  }

  /** A file is kept exactly when it is record i for a kept index i, with
      that record's own name and key. */
  lemma KeptFilesMembers(rs: seq<Record>, needed: seq<Tag>, f: InstallFile)
    ensures f in KeptFiles(rs, needed) <==> exists i :: 0 <= i < |rs| && Kept(needed, i) && f == FileOf(rs[i])
  {
    if f in KeptFiles(rs, needed) {
      KeptFilesSound(rs, needed, f);
    }
    if exists i :: 0 <= i < |rs| && Kept(needed, i) && f == FileOf(rs[i]) {
      var i :| 0 <= i < |rs| && Kept(needed, i) && f == FileOf(rs[i]);
      KeptFilesComplete(rs, needed, i);
    }
  }

  /** With no needed tags every file is kept, in record order. */
  lemma {:induction false} NoNeededTagsKeepsAll(rs: seq<Record>)
    ensures KeptFiles(rs, []) == seq(|rs|, i requires 0 <= i < |rs| => FileOf(rs[i]))
  {
    if |rs| > 0 {
      var n := |rs| - 1;
      NoNeededTagsKeepsAll(rs[..n]);
      assert Kept([], n);
    }
  }

  /** Every backslash-free name is a root name, whatever the tags say, and
      every root name is one. */
  lemma {:induction false} RootNamesMembers(rs: seq<Record>, name: seq<byte>)
    ensures name in RootNames(rs) <==> exists i :: 0 <= i < |rs| && BACKSLASH !in rs[i].name && name == rs[i].name
  {
    if |rs| > 0 {
      var n := |rs| - 1;
      RootNamesMembers(rs[..n], name);
      if exists i :: 0 <= i < |rs| && BACKSLASH !in rs[i].name && name == rs[i].name {
        var i :| 0 <= i < |rs| && BACKSLASH !in rs[i].name && name == rs[i].name;
        if i < n {
          assert rs[..n][i] == rs[i];
        }
      }
      if exists i :: 0 <= i < n && BACKSLASH !in rs[..n][i].name && name == rs[..n][i].name {
        var i :| 0 <= i < n && BACKSLASH !in rs[..n][i].name && name == rs[..n][i].name;
        assert rs[..n][i] == rs[i];
      }
    }
  }

  /** An index below the file count has its byte in every mask. */
  lemma MaskCoversFile(numFiles: nat, i: nat)
    requires i < numFiles
    ensures i / 8 < MaskLen(numFiles)
  {
  }

  /** `install::parse(data)` up to the sorts: the reference definition. */
  function Collect(data: seq<byte>): (r: Result<Install>)
    ensures r.Ok? ==> |data| >= 16 && data[0] == 0x49 && data[1] == 0x4E && data[2] == 1
  {
    if |data| < 16 then Err(TruncatedHeader)
    else if data[0] != 0x49 || data[1] != 0x4E then Err(NotInstall)  // "IN"
    else if data[2] != 1 then Err(UnsupportedVersion)
    else
      var numTags := BeAt(data, 4, 2);
      var numFiles := BeAt(data, 6, 4);
      match Tags(data[10..], numTags, MaskLen(numFiles))
      case Err(e) => Err(e)
      case Ok((tags, p)) =>
        match Records(p, numFiles)
        case Err(e) => Err(e)
        case Ok((rs, _)) => Ok(Install(RootNames(rs), KeptFiles(rs, NeededTags(tags))))
  }

  /** Every tag the filter uses has the mask length of the header's file
      count, so the filter's index `i / 8` is in range for every file. */
  lemma CollectMasks(data: seq<byte>)
    requires |data| >= 10
    ensures var r := Tags(data[10..], BeAt(data, 4, 2), MaskLen(BeAt(data, 6, 4)));
            r.Ok? ==> forall t :: t in NeededTags(r.value.0) ==> |t.mask| == MaskLen(BeAt(data, 6, 4))
  {
    var r := Tags(data[10..], BeAt(data, 4, 2), MaskLen(BeAt(data, 6, 4)));
    TagsMasks(data[10..], BeAt(data, 4, 2), MaskLen(BeAt(data, 6, 4)));
    if r.Ok? {
      NeededTagsMembers(r.value.0);
    }
  }

  // ---- the code ----

  /** `read_until(b'\0', &mut name_vec)` on the cursor. */
  method ReadUntilNul(p: seq<byte>) returns (taken: seq<byte>, rest: seq<byte>)
    ensures (taken, rest) == ReadUntil(p)
  {
    var i := 0;
    while i < |p| && p[i] != 0
      invariant 0 <= i <= |p| && 0 !in p[..i]
    {
      assert p[..i + 1] == p[..i] + [p[i]];
      i := i + 1;
    }
    if i < |p| {
      ReadUntilFirst(p, i);
      taken, rest := p[..i + 1], p[i + 1..];
    } else {
      assert p[..i] == p;
      ReadUntilNone(p);
      taken, rest := p, [];
    }
  }

  /** One tag record: name, `get_u16`, then `read_exact` into the shared
      mask buffer, whose contents the tag keeps a copy of. */
  method ReadTag(p: seq<byte>, buf: array<byte>) returns (r: Result<(Tag, seq<byte>)>)
    modifies buf
    ensures r == TagAt(p, buf.Length)
    ensures r.Ok? ==> buf[..] == r.value.0.mask
  {
    var nameVec, p1 := ReadUntilNul(p);
    if |nameVec| > 0 {
      nameVec := nameVec[..|nameVec| - 1];
    }
    if |p1| < 2 {
      return Err(Panic);
    }
    var ty := BeAt(p1, 0, 2);
    var p2 := p1[2..];
    if |p2| < buf.Length {
      return Err(UnexpectedEof);
    }
    forall j | 0 <= j < buf.Length {
      buf[j] := p2[j];
    }
    assert buf[..] == p2[..buf.Length];
    return Ok((Tag(nameVec, ty, buf[..]), p2[buf.Length..]));
  }

  /** The loop over the tag records. */
  method ReadTags(p: seq<byte>, numTags: nat, maskLen: nat) returns (r: Result<(seq<Tag>, seq<byte>)>)
    ensures r == Tags(p, numTags, maskLen)
  {
    var buf := new byte[maskLen];
    var tags: seq<Tag> := [];
    var q := p;
    ghost var whole := Tags(p, numTags, maskLen);
    ConsedEmpty(whole);
    for i := 0 to numTags
      invariant buf.Length == maskLen
      invariant whole == Consed(tags, Tags(q, numTags - i, maskLen))
    {
      var step := ReadTag(q, buf);
      if step.Err? {
        return Err(step.error);
      }
      var tag, rest := step.value.0, step.value.1;
      ConsedAppend(tags, [tag], Tags(rest, numTags - i - 1, maskLen));
      tags := tags + [tag];
      q := rest;
    }
    assert Tags(q, 0, maskLen) == Ok(([], q)) && tags + [] == tags;
    return Ok((tags, q));
  }

  /** `has_needed_tags`: the loop over the needed tags, leaving at the
      first one whose bit for file i is clear. */
  method HasNeededTags(needed: seq<Tag>, i: nat) returns (b: bool)
    requires forall k :: 0 <= k < |needed| ==> i / 8 < |needed[k].mask|
    ensures b == Kept(needed, i)
  {
    b := true;
    for k := 0 to |needed|
      invariant b == Kept(needed[..k], i)
    {
      assert needed[..k + 1][..k] == needed[..k];
      if !MaskBit(needed[k].mask[i / 8], i % 8) {
        b := false;
        assert !Kept(needed, i);
        return;
      }
    }
    assert needed[..|needed|] == needed;
  }

  /** One file record: name, `get_u128`, `get_u32`. */
  method ReadRecord(p: seq<byte>) returns (r: Result<(Record, seq<byte>)>)
    ensures r == RecordAt(p)
  {
    var nameVec, p1 := ReadUntilNul(p);
    if |nameVec| > 0 {
      nameVec := nameVec[..|nameVec| - 1];
    }
    if |p1| < 20 {
      return Err(Panic);
    }
    var key := U128At(p1, 0);
    var size := BeAt(p1, 16, 4);
    return Ok((Record(nameVec, key, size), p1[20..]));
  }

  /** Record after record appended at the end. */
  lemma PushRecord(rs: seq<Record>, rec: Record, needed: seq<Tag>)
    ensures RootNames(rs + [rec]) == RootNames(rs) + (if BACKSLASH in rec.name then [] else [rec.name])
    ensures KeptFiles(rs + [rec], needed) == KeptFiles(rs, needed) + (if Kept(needed, |rs|) then [FileOf(rec)] else [])
  {
    assert (rs + [rec])[..|rs|] == rs;
  }

  /** One turn of the file loop: read record i, push its name to
      `root_names` when it has no backslash and its file to `files` when
      every needed tag has its bit. */
  method FileStep(q: seq<byte>, numFiles: nat, i: nat, needed: seq<Tag>, rootNames: seq<seq<byte>>,
                  files: seq<InstallFile>, ghost done: seq<Record>, ghost whole: Result<(seq<Record>, seq<byte>)>)
    returns (r: Result<(seq<seq<byte>>, seq<InstallFile>, seq<byte>)>, ghost done': seq<Record>)
    requires forall k :: 0 <= k < |needed| ==> |needed[k].mask| == MaskLen(numFiles)
    requires |done| == i < numFiles
    requires rootNames == RootNames(done) && files == KeptFiles(done, needed)
    requires whole == Consed(done, Records(q, numFiles - i))
    ensures r.Err? ==> whole == Err(r.error)
    ensures r.Ok? ==> |done'| == i + 1 && r.value.0 == RootNames(done') && r.value.1 == KeptFiles(done', needed)
                      && whole == Consed(done', Records(r.value.2, numFiles - i - 1))
  {
    var step := ReadRecord(q);
    if step.Err? {
      return Err(step.error), done;
    }
    var rec, rest := step.value.0, step.value.1;
    assert Records(q, numFiles - i) == Consed([rec], Records(rest, numFiles - i - 1));
    PushRecord(done, rec, needed);
    var names := rootNames;
    if BACKSLASH !in rec.name {
      names := names + [rec.name];
    }
    MaskCoversFile(numFiles, i);
    var hasNeededTags := HasNeededTags(needed, i);
    var kept := files;
    if hasNeededTags {
      kept := kept + [InstallFile(rec.name, rec.key)];
    }
    ConsedAppend(done, [rec], Records(rest, numFiles - i - 1));
    return Ok((names, kept, rest)), done + [rec];
  }

  /** The loop over the file records. */
  method ReadFiles(p: seq<byte>, numFiles: nat, needed: seq<Tag>)
    returns (r: Result<(seq<seq<byte>>, seq<InstallFile>)>)
    requires forall k :: 0 <= k < |needed| ==> |needed[k].mask| == MaskLen(numFiles)
    ensures Records(p, numFiles).Err? ==> r == Err(Records(p, numFiles).error)
    ensures Records(p, numFiles).Ok? ==>
              var rs := Records(p, numFiles).value.0;
              r == Ok((RootNames(rs), KeptFiles(rs, needed)))
  {
    var rootNames: seq<seq<byte>> := [];
    var files: seq<InstallFile> := [];
    var q := p;
    ghost var done: seq<Record> := [];
    ghost var whole := Records(p, numFiles);
    ConsedEmpty(whole);
    for i := 0 to numFiles
      invariant |done| == i
      invariant rootNames == RootNames(done) && files == KeptFiles(done, needed)
      invariant whole == Consed(done, Records(q, numFiles - i))
    {
      var step;
      step, done := FileStep(q, numFiles, i, needed, rootNames, files, done, whole);
      if step.Err? {
        return Err(step.error);
      }
      rootNames, files, q := step.value.0, step.value.1, step.value.2;
    }
    assert Records(q, 0) == Ok(([], q)) && done + [] == done;
    return Ok((rootNames, files));
  }

  /** Byte-lexicographic order, as `Ord` compares strings and byte slices:
      a proper prefix comes first. */
  predicate LexLe(a: seq<byte>, b: seq<byte>)
  {
    |a| == 0 || (|b| > 0 && (a[0] < b[0] || (a[0] == b[0] && LexLe(a[1..], b[1..]))))
  }

  lemma {:induction false} LexLeTotal(a: seq<byte>, b: seq<byte>)
    ensures LexLe(a, b) || LexLe(b, a)
  {
    if |a| > 0 && |b| > 0 && a[0] == b[0] {
      LexLeTotal(a[1..], b[1..]);
    }
  }

  lemma {:induction false} LexLeTrans(a: seq<byte>, b: seq<byte>, c: seq<byte>)
    requires LexLe(a, b) && LexLe(b, c)
    ensures LexLe(a, c)
  {
    if |a| > 0 && a[0] == b[0] && b[0] == c[0] {
      LexLeTrans(a[1..], b[1..], c[1..]);
    }
  }

  lemma {:induction false} LexLeAntisym(a: seq<byte>, b: seq<byte>)
    requires LexLe(a, b) && LexLe(b, a)
    ensures a == b
  {
    if |a| > 0 {
      LexLeAntisym(a[1..], b[1..]);
      assert a == [a[0]] + a[1..] && b == [b[0]] + b[1..];
    }
  }

  lemma LexLeRefl(a: seq<byte>)
    ensures LexLe(a, a)
  {
  }

  predicate SortedBy<T>(s: seq<T>, key: T -> seq<byte>)
  {
    forall x, y :: 0 <= x < y < |s| ==> LexLe(key(s[x]), key(s[y]))
  }

  /** During the insertion of element i: the first `n` elements other than
      the one at `j` are in order, and the one at `j` is below all after it. */
  predicate Sinking<T>(s: seq<T>, n: nat, j: nat, key: T -> seq<byte>)
    requires j < n <= |s|
  {
    (forall x, y :: 0 <= x < y < n && x != j && y != j ==> LexLe(key(s[x]), key(s[y])))
    && (forall y :: j < y < n ==> LexLe(key(s[j]), key(s[y])))
  }

  lemma SinkStart<T>(s: seq<T>, i: nat, key: T -> seq<byte>)
    requires i < |s| && SortedBy(s[..i], key)
    ensures Sinking(s, i + 1, i, key)
  {
    forall x, y | 0 <= x < y < i + 1 && x != i && y != i
      ensures LexLe(key(s[x]), key(s[y]))
    {
      assert s[..i][x] == s[x] && s[..i][y] == s[y];
    }
  }

  /** One swap moves the element down and keeps the shape. */
  lemma SinkStep<T>(s: seq<T>, n: nat, j: nat, key: T -> seq<byte>)
    requires 0 < j < n <= |s| && Sinking(s, n, j, key) && !LexLe(key(s[j - 1]), key(s[j]))
    ensures Sinking(s[j - 1 := s[j]][j := s[j - 1]], n, j - 1, key)
  {
    LexLeTotal(key(s[j - 1]), key(s[j]));
  }

  /** When the element stops, the first `n` are in order. */
  lemma SinkDone<T>(s: seq<T>, n: nat, j: nat, key: T -> seq<byte>)
    requires j < n <= |s| && Sinking(s, n, j, key) && (j == 0 || LexLe(key(s[j - 1]), key(s[j])))
    ensures SortedBy(s[..n], key)
  {
    forall x, y | 0 <= x < y < n
      ensures LexLe(key(s[x]), key(s[y]))
    {
      if y == j && x < j - 1 {
        LexLeTrans(key(s[x]), key(s[j - 1]), key(s[j]));
      }
    }
    assert forall x :: 0 <= x < n ==> s[..n][x] == s[x];
  }

  /** Elements j - 1 and j trade places. */
  method Swap<T>(a: array<T>, j: nat)
    requires 0 < j < a.Length
    modifies a
    ensures a[..] == old(a[..])[j - 1 := old(a[j])][j := old(a[j - 1])]
    ensures multiset(a[..]) == multiset(old(a[..]))
  {
    a[j - 1], a[j] := a[j], a[j - 1];
  }

  /** Element i sinks past the larger ones before it, one swap at a time. */
  method Sink<T>(a: array<T>, i: nat, key: T -> seq<byte>)
    requires i < a.Length && SortedBy(a[..i], key)
    modifies a
    ensures SortedBy(a[..i + 1], key)
    ensures multiset(a[..i + 1]) == multiset(old(a[..i + 1]))
    ensures a[i + 1..] == old(a[i + 1..])
    ensures multiset(a[..]) == multiset(old(a[..]))
  {
    SinkStart(a[..], i, key);
    var j := i;
    while j > 0 && !LexLe(key(a[j - 1]), key(a[j]))
      invariant 0 <= j <= i
      invariant Sinking(a[..], i + 1, j, key)
      invariant multiset(a[..i + 1]) == multiset(old(a[..i + 1]))
      invariant a[i + 1..] == old(a[i + 1..])
      invariant multiset(a[..]) == multiset(old(a[..]))
    {
      SinkStep(a[..], i + 1, j, key);
      Swap(a, j);
      j := j - 1;
    }
    SinkDone(a[..], i + 1, j, key);
  }

  /** `sort_unstable`/`sort_unstable_by`: an insertion sort in place, by
      the byte order of `key`. */
  method SortBy<T>(a: array<T>, key: T -> seq<byte>)
    modifies a
    ensures SortedBy(a[..], key)
    ensures multiset(a[..]) == multiset(old(a[..]))
  {
    for i := 0 to a.Length
      invariant SortedBy(a[..i], key)
      invariant multiset(a[..]) == multiset(old(a[..]))
    {
      Sink(a, i, key);
    }
    assert a[..a.Length] == a[..];
  }

  /** A list sorted in a buffer of its own: the same elements, in order. */
  method Sorted<T>(s: seq<T>, key: T -> seq<byte>) returns (t: seq<T>)
    ensures SortedBy(t, key) && multiset(t) == multiset(s)
  {
    var a := new T[|s|](k requires 0 <= k < |s| => s[k]);
    assert a[..] == s;
    SortBy(a, key);
    t := a[..];
  }

  function NameOf(f: InstallFile): seq<byte> { f.name }

  function Same(s: seq<byte>): seq<byte> { s }

  /** `install::parse(data)` up to the sorts: the header read through the
      cursor, the tag loop, the filter and the file loop. */
  method ReadInstall(data: seq<byte>) returns (r: Result<Install>)
    ensures r == Collect(data)
  {
    var p := data;
    if |p| < 16 {
      return Err(TruncatedHeader);
    }
    if p[0] != 0x49 || p[1] != 0x4E {
      return Err(NotInstall);
    }
    if p[2] != 1 {
      return Err(UnsupportedVersion);
    }
    var numTags := BeAt(p, 4, 2);
    var numFiles := BeAt(p, 6, 4);
    var numMaskBytes := MaskLen(numFiles);
    p := p[10..];
    var tagsRead := ReadTags(p, numTags, numMaskBytes);
    if tagsRead.Err? {
      return Err(tagsRead.error);
    }
    var tags := tagsRead.value.0;
    p := tagsRead.value.1;
    var needed := NeededTags(tags);
    CollectMasks(data);
    assert forall k :: 0 <= k < |needed| ==> needed[k] in needed;
    var gathered := ReadFiles(p, numFiles, needed);
    if gathered.Err? {
      return Err(gathered.error);
    }
    return Ok(Install(gathered.value.0, gathered.value.1));
  }

  /** `install::parse(data)`: the header, the tags, the files, then both
      lists sorted. The result holds exactly the entries `Collect` gathers,
      each list sorted by name. */
  method Parse(data: seq<byte>) returns (r: Result<Install>)
    ensures r.Ok? == Collect(data).Ok? && (r.Err? ==> r.error == Collect(data).error)
    ensures r.Ok? ==> multiset(r.value.rootNames) == multiset(Collect(data).value.rootNames)
                      && SortedBy(r.value.rootNames, Same)
    ensures r.Ok? ==> multiset(r.value.files) == multiset(Collect(data).value.files)
                      && SortedBy(r.value.files, NameOf)
  {
    var gathered := ReadInstall(data);
    if gathered.Err? {
      return Err(gathered.error);
    }
    var rootNames := Sorted(gathered.value.rootNames, Same);
    var files := Sorted(gathered.value.files, NameOf);
    return Ok(Install(rootNames, files));
  }
}
