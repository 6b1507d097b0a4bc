/** Vocabulary shared by every decoder: bytes, 128-bit keys, the big-endian and
    little-endian field readers of `bytes::Buf`, one error type for the
    `anyhow` errors and the panics of the code, and the `split` of Rust
    slices and strings. */
module Common {

  /** One octet of a fetched blob. */
  type byte = x: int | 0 <= x < 256

  /** The 128-bit keys (content, encoding and archive keys) as unsigned numbers. */
  type u128 = x: nat | x < 0x1_0000_0000_0000_0000_0000_0000_0000_0000

  /** `md5hash` (main.rs): the MD5 digest of a byte string read as a
      big-endian u128. The digest itself is a parameter of every decoder. */
  type Md5 = seq<byte> -> u128

  datatype Option<T> = None | Some(value: T)

  /** Every way a decoder can fail. `Panic` stands for the places where the
      code panics instead of returning an error (a slice index out of range,
      a `Buf` getter past the end, an `unwrap`, a `usize` underflow). The
      other variants follow the messages of the `ensure!`/`bail!` calls. */
  datatype Error =
    | Panic
      // chunk container (blte.rs)
    | TruncatedHeader | NotBlte | MissingHeader | ShortHeader | HeaderChecksum
    | BadFlag | HeaderSizeMismatch | ChunkChecksum | RawSizeMismatch
    | InflateFailed | InflateSizeMismatch | InvalidEncoding | TrailingData
      // encoding table (encoding.rs)
    | NotEncoding | UnsupportedVersion | UnsupportedCkeySize | UnsupportedEkeySize
    | NonzeroHeaderByte | TruncatedEspec | TruncatedContentDirectory
    | ContentPageChecksum | ContentFirstKeyMismatch | TruncatedContentEntry
    | TruncatedEncodingDirectory | EncodingPageChecksum | EncodingFirstKeyMismatch
      // install manifest (install.rs)
    | NotInstall | UnexpectedEof
      // archive index (main.rs)
    | TruncatedIndex | InvalidIndexFormat | TocChecksum | UnexpectedIndexVersion | NonzeroIndexByte
    | UnexpectedBlockSize | UnexpectedOffsetBytes | UnexpectedSizeBytes
    | UnexpectedKeySize | UnexpectedChecksumSize | FooterChecksum | BlockChecksum
    | DuplicateKey | LastKeyMismatch | ElementCountMismatch
      // hex keys and key pairs (main.rs)
    | OddLength | InvalidHexCharacter | MissingKey
      // client (main.rs)
    | UnknownContentKey | EncodingKeyMismatch | FetchFailed

  datatype Result<T> = Ok(value: T) | Err(error: Error) {
    predicate IsFailure() { Err? }
    function PropagateFailure<U>(): Result<U> requires Err? { Err(error) }
    function Extract(): T requires Ok? { value }
  }

  /** `prefix` put in front of a successful result; errors pass through. */
  function Prefixed<T>(prefix: seq<T>, r: Result<seq<T>>): Result<seq<T>>
  {
    match r
    case Ok(rest) => Ok(prefix + rest)
    case Err(e) => Err(e)
  }

  lemma PrefixedEmpty<T>(r: Result<seq<T>>)
    ensures Prefixed([], r) == r
  {
    if r.Ok? {
      assert [] + r.value == r.value;
    }
  }

  lemma PrefixedAppend<T>(a: seq<T>, b: seq<T>, r: Result<seq<T>>)
    ensures Prefixed(a, Prefixed(b, r)) == Prefixed(a + b, r)
  {
    if r.Ok? {
      assert a + (b + r.value) == (a + b) + r.value;
    }
  }

  function Pow256(n: nat): (r: nat)
    ensures r > 0
  {
    if n == 0 then 1 else 256 * Pow256(n - 1)
  }

  lemma Pow256Of16()
    ensures Pow256(16) == 0x1_0000_0000_0000_0000_0000_0000_0000_0000
  {
    assert Pow256(4) == 0x1_0000_0000;
    assert Pow256(8) == 0x1_0000_0000_0000_0000;
    assert Pow256(12) == 0x1_0000_0000_0000_0000_0000_0000;
  }

  /** The unsigned number whose big-endian bytes are `s`. */
  function FromBe(s: seq<byte>): nat
  {
    if |s| == 0 then 0 else FromBe(s[..|s| - 1]) * 256 + s[|s| - 1]
  }

  /** The `n` big-endian bytes of `x` (`to_be_bytes`). */
  function ToBe(x: nat, n: nat): (r: seq<byte>)
    requires x < Pow256(n)
    ensures |r| == n
  {
    if n == 0 then [] else ToBe(x / 256, n - 1) + [x % 256]
  }

  /** The unsigned number whose little-endian bytes are `s`. */
  function FromLe(s: seq<byte>): nat
  {
    if |s| == 0 then 0 else s[0] + 256 * FromLe(s[1..])
  }

  lemma {:induction false} FromBeBound(s: seq<byte>)
    ensures FromBe(s) < Pow256(|s|)
  {
    if |s| > 0 {
      FromBeBound(s[..|s| - 1]);
      var x := FromBe(s[..|s| - 1]);
      assert x * 256 + 256 <= Pow256(|s| - 1) * 256;
    }
  }

  /** Reading back the bytes that `to_be_bytes` wrote gives the number. */
  lemma {:induction false} FromBeToBe(x: nat, n: nat)
    requires x < Pow256(n)
    ensures FromBe(ToBe(x, n)) == x
  {
    if n > 0 {
      FromBeToBe(x / 256, n - 1);
      assert ToBe(x, n)[..n - 1] == ToBe(x / 256, n - 1);
    }
  }

  /** Writing the bytes of a number read from `s` gives `s` back. */
  lemma {:induction false} ToBeFromBe(s: seq<byte>)
    ensures FromBe(s) < Pow256(|s|) && ToBe(FromBe(s), |s|) == s
  {
    FromBeBound(s);
    if |s| > 0 {
      var init := s[..|s| - 1];
      ToBeFromBe(init);
      assert FromBe(s) / 256 == FromBe(init);
      assert FromBe(s) % 256 == s[|s| - 1];
      assert s == init + [s[|s| - 1]];
    }
  }

  lemma MulShift(x: nat, p: nat)
    ensures x * (p * 256) == (x * p) * 256
  {
  }

  /** Big-endian numbers concatenate: the high bytes are worth 256^|lo| each. */
  lemma {:induction false} FromBeAppend(hi: seq<byte>, lo: seq<byte>)
    ensures FromBe(hi + lo) == FromBe(hi) * Pow256(|lo|) + FromBe(lo)
  {
    if |lo| > 0 {
      var lo' := lo[..|lo| - 1];
      assert (hi + lo)[..|hi + lo| - 1] == hi + lo';
      FromBeAppend(hi, lo');
      var x, p := FromBe(hi), Pow256(|lo'|);
      assert Pow256(|lo|) == p * 256;
      MulShift(x, p);
    } else {
      assert hi + lo == hi;
    }
  }

  lemma FromBe2(s: seq<byte>)
    requires |s| == 2
    ensures FromBe(s) == s[0] as nat * 0x100 + s[1]
  {
    assert s[..1][..0] == [];
    assert FromBe(s[..1]) == s[0];
  }

  lemma FromBe4(s: seq<byte>)
    requires |s| == 4
    ensures FromBe(s) == s[0] as nat * 0x100_0000 + s[1] as nat * 0x1_0000 + s[2] as nat * 0x100 + s[3]
  {
    FromBe2(s[..2]);
    assert s[..3][..2] == s[..2];
  }

  /** The big-endian unsigned number in the `n` bytes of `s` at `off`, as
      `get_u8/get_u16/get_u32/get_u64` read it. */
  function BeAt(s: seq<byte>, off: nat, n: nat): (r: nat)
    requires off + n <= |s|
    ensures r < Pow256(n)
  {
    FromBeBound(s[off..off + n]);
    FromBe(s[off..off + n])
  }

  /** `get_u128`: a big-endian 128-bit key at `off`. */
  function U128At(s: seq<byte>, off: nat): u128
    requires off + 16 <= |s|
  {
    Pow256Of16();
    BeAt(s, off, 16)
  }

  /** A slice of a suffix is a slice of the whole. */
  lemma DropSlice<T>(s: seq<T>, c: nat, a: nat, b: nat)
    requires a <= b && c + b <= |s|
    ensures s[c..][a..b] == s[c + a..c + b]
  {
  }

  /** Rust's `split` of a slice or a string on one separator: the pieces
      between separators, in order. */
  function Split<T(==)>(s: seq<T>, sep: T): (r: seq<seq<T>>)
    ensures |r| >= 1
    decreases |s|
  {
    if |s| == 0 then [[]]
    else
      var rest := Split(s[1..], sep);
      if s[0] == sep then [[]] + rest
      else [[s[0]] + rest[0]] + rest[1..]
  }

  /** The pieces with one separator between neighbours (the inverse of Split). */
  function Join<T>(parts: seq<seq<T>>, sep: T): seq<T>
  {
    if |parts| == 0 then []
    else if |parts| == 1 then parts[0]
    else parts[0] + [sep] + Join(parts[1..], sep)
  }

  lemma {:induction false} JoinSplit<T>(s: seq<T>, sep: T)
    ensures Join(Split(s, sep), sep) == s
    decreases |s|
  {
    if |s| > 0 {
      var rest := Split(s[1..], sep);
      JoinSplit(s[1..], sep);
      if s[0] != sep {
        if |rest| > 1 {
          assert ([[s[0]] + rest[0]] + rest[1..])[1..] == rest[1..];
        }
      }
    }
  }

  lemma {:induction false} SplitJoin<T>(parts: seq<seq<T>>, sep: T)
    requires |parts| >= 1
    requires forall i :: 0 <= i < |parts| ==> sep !in parts[i]
    ensures Split(Join(parts, sep), sep) == parts
    decreases |Join(parts, sep)|, |parts|
  {
    if |parts[0]| == 0 {
      if |parts| > 1 {
        var tail := Join(parts[1..], sep);
        assert Join(parts, sep) == [sep] + tail;
        assert Join(parts, sep)[1..] == tail;
        SplitJoin(parts[1..], sep);
      }
    } else {
      var j := Join(parts, sep);
      var shorter := [parts[0][1..]] + parts[1..];
      assert j[0] == parts[0][0];
      assert j[1..] == Join(shorter, sep) by {
        if |parts| > 1 {
          assert shorter[1..] == parts[1..];
        }
      }
      assert forall i :: 0 <= i < |shorter| ==> sep !in shorter[i] by {
        forall i | 0 <= i < |shorter| ensures sep !in shorter[i] {
          if i == 0 {
            assert forall x :: x in parts[0][1..] ==> x in parts[0];
          } else {
            assert shorter[i] == parts[i];
          }
        }
      }
      SplitJoin(shorter, sep);
      assert [parts[0][0]] + parts[0][1..] == parts[0];
      assert shorter[1..] == parts[1..];
    }
  }
}
