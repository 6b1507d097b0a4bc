# casc-cdn-client decoders in Dafny

This project models the binary decoders of `casc-cdn-client`, a client for Blizzard's CASC content network. Each decoder turns a fetched blob into a lookup table. The project also models the small text helpers around them. It then proves what each decoder promises about its input and its output.

- **The BLTE chunk container** (`blte.rs`, module `Blte`). The header has these checks, in order:
  - the `BLTE` magic;
  - the header size;
  - the MD5 of the header against the caller's key;
  - the `0x0F` flag byte;
  - the 24-bit chunk count.

  Then come two loops:
  - one loop reads the chunk table and sums the decoded sizes;
  - the other decodes every chunk into its own window of an output array allocated up front. `N` chunks are copied and `Z` chunks are inflated.

  Trailing bytes are an error.
- **The encoding table** (`encoding.rs`, module `EncodingTable`). The parser reads:
  - the `EN` header;
  - the NUL-split espec table;
  - the content and encoding page directories;
  - the page scans.

  The scans fill the flat `c2e` rows, the `cmap_extra` map of alternate encoding keys, and the `e2i` rows. `Encoding.C2e` is the binary search over `c2e`.
- **The install manifest** (`install.rs`, module `Install`). The parser reads the `IN` header, the tag records with their file bit masks, and the file records. Then it applies two rules:
  - the tag filter keeps a file only when every tag named `Windows`, `x86_64` or `US` has that file's bit set;
  - every name without a backslash becomes a root name.

  Finally, both lists are sorted.
- **The archive index** (`parse_index` in `main.rs`, module `ArchiveIndex`). It covers:
  - the 28-byte footer and its two truncated MD5 checks;
  - the table of contents of last keys and block hashes;
  - the scan of every 4096-byte block up to its last key, where a duplicate key is an error;
  - the element count.
- **Keys as text** (`main.rs`, module `Keys`). It covers hex decoding and encoding of keys, the space-separated key pair and the sharded `ab/cd/abcd…` path.
- **Pipe-separated files** (`main.rs`, module `PipeSeparated`). It covers `load_pipe_separated_vars`, with fields held as ranges into the backing text, and the host choice of `pick_cdn`.
- **The client lookups** (`main.rs`, module `Client`). These are `get_by_ekey`, `get_by_ckey` and the cross-check of `get_by_keys`.

Module `Common` holds the shared vocabulary:
- bytes, 128-bit keys, and the big-endian and little-endian readers of `bytes::Buf`;
- one error type;
- Rust's `split`, with its inverse.

Every imperative routine of the code is a `method` with its cursor, loops and flags. Each method is proved equal to a reference function of its inputs, and the properties are proved about that function. The four cursor-driven decoders follow this pattern: `Blte.Parse`, `EncodingTable.Parse`, `Install.Parse` and `ArchiveIndex.Parse`. So does the line loop `PipeSeparated.LoadPipeSeparatedVars`.

Design choices:
- **Output buffers are arrays.** The BLTE output is an `array` filled in place, window by window. The install sort is an in-place sort of an array.
- **Panics are errors.** A place where the code panics is the error `Panic`, not a precondition. Such places include a `Buf` getter past the end, an out-of-range slice and an `unwrap`. The `usize` underflow of `header_size - 8` panics only when overflow checks are on. By default overflow checks are on exactly when `debug_assertions` is, and `verify` stands for both settings together, so the underflow is `Panic` when `verify` is true. Without overflow checks the subtraction wraps, and the length check after it fails with its ordinary error.
- **Debug-only checks are a parameter.** The checks compiled only under `cfg(debug_assertions)` run when the parameter `verify` is true. The same parameter also stands for overflow checks, which the default build profiles turn on together with `debug_assertions`. These are the chunk MD5, the page MD5s, the first-key checks and the key-count check of content pages.
- **Foreign code is a parameter.** MD5 is a function parameter (`Md5`). So are inflate (`Blte.Inflater`) and the CDN fetch (`Client.Fetch`).

Notes on what the code does:
- The archive index block checksum (main.rs:496-501) is checked in every build. It is not under `cfg(debug_assertions)`.
- A one-chunk BLTE container needs a 36-byte header (`12 + 24 * 1`). A 12-byte header with one chunk is refused with a size mismatch (`Blte.ShortHeaderExampleRefused`).
- The install tag filter uses the three hard-coded names `Windows`, `x86_64` and `US`.
- Page scans stop at the byte `b'0'` (0x30).
- The install manifest's 16-byte guard fails with the error text "truncated encoding header". The model calls this `TruncatedHeader`.
- The encoding header guard checks 16 bytes, but fields are read up to byte 22. A 16- to 21-byte input can still fail at the magic, version or hash-size checks. Past those checks, it panics in a getter, or fails at the reserved-byte check when that byte is readable and nonzero.

## Model

| member | source | states |
|---|---|---|
| Blte.ChunkTable | crates/casc-cdn-client/src/blte.rs:46-54 | the table holds exactly the declared number of 24-byte records |
| Blte.TotalDecodedAppend | crates/casc-cdn-client/src/blte.rs:53 | adding a record to the table adds its decoded size to the total |
| Blte.DecodeChunk | crates/casc-cdn-client/src/blte.rs:5-26 | a chunk decodes only when its tag is `N` or `Z`, always to exactly the window size; an `N` chunk yields its bytes after the tag unchanged; a `Z` chunk yields what inflate returns for the bytes after the tag, with the window size and the checksum flag `!verify` |
| Blte.ChunkStep | crates/casc-cdn-client/src/blte.rs:57-67 | a chunk decodes only when `compressedSize` bytes remain, and yields its declared decoded size |
| Blte.DecodeChunks | crates/casc-cdn-client/src/blte.rs:57-69 | defines the chunk loop: the chunk payloads decoded one by one in table order up to the first error, and an error when payload bytes are left over; `DecodeChunksLength` and `ChunkLayout` state its properties |
| Blte.DecodeChunksLength | crates/casc-cdn-client/src/blte.rs:55-68 | a successful chunk loop produces exactly the sum of the declared decoded sizes |
| Blte.Header | crates/casc-cdn-client/src/blte.rs:29-45 | the header is accepted only when all of these hold: at least 12 bytes, the `BLTE` magic, a nonzero header size within the data, the header's MD5 equal to the checksum, flag `0x0F`, and header size = 24 · count + 12 |
| Blte.SmallHeaderSize | crates/casc-cdn-client/src/blte.rs:38 | a header size of 1 to 7 is a panic with overflow checks and a length-check error without them |
| Blte.Decode | crates/casc-cdn-client/src/blte.rs:28-71 | success implies the magic, a nonzero header size, the header MD5, the flag and the size equation |
| Blte.DecodeLength | crates/casc-cdn-client/src/blte.rs:46-55 | the output is as long as the chunk table's decoded sizes add up to |
| Blte.ChunkLayout | crates/casc-cdn-client/src/blte.rs:55-69 | a successful chunk loop uses every payload byte; chunk k is read at the sum of the earlier compressed sizes and written at the sum of the earlier decoded sizes, and its digest is checked when verifying |
| Blte.DecodeLayout | crates/casc-cdn-client/src/blte.rs:28-71 | on success the header plus all compressed sizes is the whole input, so there are no trailing bytes, and every chunk sits in its own output window in table order |
| Blte.ChunkCountIs24Bit | crates/casc-cdn-client/src/blte.rs:44 | `(u8 << 16) \| u16` is the 24-bit big-endian number at byte 9, below 2^24 |
| Blte.ParseChunk | crates/casc-cdn-client/src/blte.rs:5-26 | writes the decoded chunk into `out[lo..lo + size]`, leaves the rest of the array unchanged, and fails exactly when the chunk does not decode |
| Blte.ReadHeader | crates/casc-cdn-client/src/blte.rs:29-45 | the cursor reads of the header give `Header` |
| Blte.ReadChunkTable | crates/casc-cdn-client/src/blte.rs:46-54 | the loop reads the chunk table and sums its decoded sizes |
| Blte.DecodeOne | crates/casc-cdn-client/src/blte.rs:57-67 | one loop turn decodes one chunk and appends it behind the filled part of the output; the output before and after the chunk's window is unchanged |
| Blte.DecodeStep | crates/casc-cdn-client/src/blte.rs:57-68 | one loop turn keeps the loop's invariant: the filled prefix plus what remains to decode is the whole decode |
| Blte.DecodeLoop | crates/casc-cdn-client/src/blte.rs:55-68 | the chunk loop fills the whole output array, or fails with the chunk decode's error |
| Blte.DecodeInto | crates/casc-cdn-client/src/blte.rs:55-69 | the allocated output, the loop and the trailing-data check give the chunk decode of the payload |
| Blte.Parse | crates/casc-cdn-client/src/blte.rs:28-71 | `blte::parse` returns exactly `Decode` |
| Blte.HelloHeader | crates/casc-cdn-client/src/blte.rs:30-45 | a one-chunk container has magic, flag, header size 36 and count 1 |
| Blte.HelloTable | crates/casc-cdn-client/src/blte.rs:46-54 | its chunk table is the single record (6, 5, digest) |
| Blte.HelloChunks | crates/casc-cdn-client/src/blte.rs:8-12 | a raw chunk `N` + "hello" decodes to "hello" |
| Blte.HelloExample | crates/casc-cdn-client/src/blte.rs:28-71 | the whole one-chunk container decodes to "hello" |
| Blte.ShortHeaderExampleRefused | crates/casc-cdn-client/src/blte.rs:45 | the same container with header size 12 is refused with a size mismatch |
| EncodingTable.Encoding.C2e | crates/casc-cdn-client/src/encoding.rs:21-28 | a key it finds is the encoding key of a row with that content key; on rows sorted by content key, every key present is found; otherwise the error is "unknown content key" |
| EncodingTable.Search | crates/casc-cdn-client/src/encoding.rs:22 | the binary search only returns a row in range with the searched key |
| EncodingTable.SearchComplete | crates/casc-cdn-client/src/encoding.rs:22 | on sorted rows the binary search finds every key present in the range |
| EncodingTable.SearchFindsSorted | crates/casc-cdn-client/src/encoding.rs:22-24 | on sorted rows a present key is found over the whole table |
| EncodingTable.FileSizeIs40Bit | crates/casc-cdn-client/src/encoding.rs:89 | `(u8 << 32) \| u32` is the 5-byte big-endian size, below 2^40 |
| EncodingTable.Directory | crates/casc-cdn-client/src/encoding.rs:70-74 | the directory has one (first key, hash) pair per declared page |
| EncodingTable.ContentEntryAt | crates/casc-cdn-client/src/encoding.rs:88-107 | an entry is read exactly when its keys fit in the page and, when verifying, the first entry carries the page's first key; it is the count at byte 0, the 40-bit size at byte 1, the content key at byte 6 and the encoding keys from byte 22, and it takes 22 + 16 · count bytes |
| EncodingTable.ContentPage | crates/casc-cdn-client/src/encoding.rs:85-109 | the entries of a page have fewer than 256 keys each; when verifying, the first entry has the directory's first key |
| EncodingTable.ContentPageEntries | crates/casc-cdn-client/src/encoding.rs:87-108 | entry k of a scanned page is read from offset oₖ, where o₀ = 0 and oₖ₊₁ = oₖ + 22 + 16 · page[oₖ], and its byte there is not `'0'`; the scan stops at the first offset with fewer than 22 bytes left or a `'0'` |
| EncodingTable.ContentPages | crates/casc-cdn-client/src/encoding.rs:78-111 | success implies every page lies inside the data |
| EncodingTable.ContentPageChecked | crates/casc-cdn-client/src/encoding.rs:78-111 | page k of a successful scan lies inside the data, scanned successfully from the directory's first key, and, when verifying, had the MD5 of its directory entry |
| EncodingTable.ContentPagesChecked | crates/casc-cdn-client/src/encoding.rs:80-92 | the same for every content page at once |
| EncodingTable.ContentPagesIgnoreTail | crates/casc-cdn-client/src/encoding.rs:85-110 | the cursor advances exactly one page per directory entry: bytes after the pages do not change the scan |
| EncodingTable.C2eRows | crates/casc-cdn-client/src/encoding.rs:97-98 | defines `c2e` after the pushes of entries in order: one row (content key, first encoding key, size) per entry with a key |
| EncodingTable.C2eRowsAppend | crates/casc-cdn-client/src/encoding.rs:97-98 | `c2e` grows in input order |
| EncodingTable.C2eRowsOne | crates/casc-cdn-client/src/encoding.rs:97-98 | an entry with at least one key adds exactly the row (content key, first encoding key, size); one with none adds nothing |
| EncodingTable.ExtraMap | crates/casc-cdn-client/src/encoding.rs:100-107 | defines `cmap_extra` after the inserts of entries in order: an entry with more than one key maps its content key to the other keys, a later insert replacing an earlier one |
| EncodingTable.ExtraMapLookup | crates/casc-cdn-client/src/encoding.rs:100-107 | a content key is in `cmap_extra` exactly when some entry for it has more than one key, and it maps to the remaining keys of the last such entry, in order |
| EncodingTable.PushEntry | crates/casc-cdn-client/src/encoding.rs:97-107 | pushing an entry adds its row to `c2e` and, with alternates, sets its `cmap_extra` entry |
| EncodingTable.EncodingPage | crates/casc-cdn-client/src/encoding.rs:152-165 | the rows of a page fit in it; without verification the scan cannot fail; when verifying, the first row has the directory's first key |
| EncodingTable.E2iRecord | crates/casc-cdn-client/src/encoding.rs:155-157 | defines one 25-byte encoding-page record: the 16-byte encoding key, the 4-byte big-endian index and the 40-bit size |
| EncodingTable.EncodingPageRecords | crates/casc-cdn-client/src/encoding.rs:154-163 | row i of a page is the 25-byte record at byte 25·i, and no row starts with the sentinel `'0'`; the scan stops where fewer than 25 bytes remain after the rows or the next byte is `'0'` |
| EncodingTable.EncodingPages | crates/casc-cdn-client/src/encoding.rs:145-167 | success implies every page lies inside the data |
| EncodingTable.EncodingPageChecked | crates/casc-cdn-client/src/encoding.rs:145-167 | page k of a successful scan lies inside the data, scanned from its first key, and, when verifying, had its directory MD5 |
| EncodingTable.EncodingPagesChecked | crates/casc-cdn-client/src/encoding.rs:147-161 | the same for every encoding page at once |
| EncodingTable.C2eOf | crates/casc-cdn-client/src/encoding.rs:76-111 | after the content pages the cursor stands exactly past them |
| EncodingTable.DecodeTables | crates/casc-cdn-client/src/encoding.rs:63-134 | success implies the espec table and both content regions lie inside the data, and the especs are the NUL-split pieces of the espec table |
| EncodingTable.Header | crates/casc-cdn-client/src/encoding.rs:58-64 | defines the header fields as the big-endian values at bytes 5, 7, 9, 13 and 18 |
| EncodingTable.Decode | crates/casc-cdn-client/src/encoding.rs:49-135 | success implies `EN`, version 1, hash sizes 16 and 16, and a zero reserved byte |
| EncodingTable.ReadKeys | crates/casc-cdn-client/src/encoding.rs:101-104 | reads the alternate encoding keys one `get_u128` at a time |
| EncodingTable.ReadDirectory | crates/casc-cdn-client/src/encoding.rs:71-74 | the directory loop reads the directory |
| EncodingTable.ReadContentEntry | crates/casc-cdn-client/src/encoding.rs:88-107 | the field-by-field reads give `ContentEntryAt` |
| EncodingTable.ScanContentPage | crates/casc-cdn-client/src/encoding.rs:85-109 | the page loop adds to `c2e`/`cmap_extra` what the page's entries contribute |
| EncodingTable.BuildC2e | crates/casc-cdn-client/src/encoding.rs:78-111 | the directory loop gives `C2eOf` |
| EncodingTable.ScanEncodingPage | crates/casc-cdn-client/src/encoding.rs:152-165 | the page loop appends the page's rows to `e2i` |
| EncodingTable.E2iOf | crates/casc-cdn-client/src/encoding.rs:138-170 | on success, the pages fit in the data and the cursor stands one page size per directory entry on |
| EncodingTable.BuildE2i | crates/casc-cdn-client/src/encoding.rs:138-170 | `build_e2i` gives `E2iOf` |
| EncodingTable.ParseTables | crates/casc-cdn-client/src/encoding.rs:63-134 | the code after the header gives `DecodeTables` |
| EncodingTable.Parse | crates/casc-cdn-client/src/encoding.rs:49-135 | `encoding::parse` returns exactly `Decode` |
| Install.MaskLen | crates/casc-cdn-client/src/install.rs:49 | `div_ceil(8)`: the least byte count holding one bit per file |
| Install.ReadNameTerminated | crates/casc-cdn-client/src/install.rs:58-59 | a NUL-terminated name is read back whole, with the terminator stripped, and the cursor lands past it |
| Install.ReadNameUnterminated | crates/casc-cdn-client/src/install.rs:81-83 | a name with no terminator takes the rest of the data, less its last byte |
| Install.TagAt | crates/casc-cdn-client/src/install.rs:57-69 | a tag read successfully has a mask of exactly the mask length |
| Install.ReadUntil | crates/casc-cdn-client/src/install.rs:58 | defines `read_until(0)` on a slice: the bytes up to and including the first NUL, or all bytes when there is none, and the bytes after them |
| Install.Tags | crates/casc-cdn-client/src/install.rs:56-70 | defines the tag loop: `num_tags` tags read one after another (name, type, mask), up to the first error |
| Install.TagsMasks | crates/casc-cdn-client/src/install.rs:56-70 | the tag loop reads `num_tags` tags, each with a mask of the mask length |
| Install.NeededTags | crates/casc-cdn-client/src/install.rs:72-76 | defines `needed_tags` as the tags with one of the three names, kept in order |
| Install.NeededTagsMembers | crates/casc-cdn-client/src/install.rs:72-76 | the needed tags are exactly the tags named Windows, x86_64 or US |
| Install.MaskBitIsDigit | crates/casc-cdn-client/src/install.rs:105 | `mask & (1 << k) != 0` is the k-th binary digit of the byte |
| Install.MaskCoversFile | crates/casc-cdn-client/src/install.rs:49-105 | every file index has its byte inside the masks |
| Install.CollectMasks | crates/casc-cdn-client/src/install.rs:55-76 | every needed tag's mask has the length the header's file count gives |
| Install.Kept | crates/casc-cdn-client/src/install.rs:103-109 | defines the `has_needed_tags` test: every needed tag has bit `i % 8` of mask byte `i / 8` set |
| Install.KeptFiles | crates/casc-cdn-client/src/install.rs:110-115 | defines `files` before the sort: the kept records as (name, key), in record order |
| Install.KeptFilesSound | crates/casc-cdn-client/src/install.rs:103-115 | every kept file is record i for an index i whose bit every needed tag has |
| Install.KeptFilesComplete | crates/casc-cdn-client/src/install.rs:103-115 | every record whose bit every needed tag has is kept |
| Install.KeptFilesMembers | crates/casc-cdn-client/src/install.rs:80-115 | a file is kept exactly when it carries the name and content key of a record whose bit is set in every needed tag |
| Install.NoNeededTagsKeepsAll | crates/casc-cdn-client/src/install.rs:103-115 | with no needed tags every file is kept, in record order |
| Install.RootNames | crates/casc-cdn-client/src/install.rs:87-89 | defines `root_names` before the sort: the record names without a backslash, in record order |
| Install.RootNamesMembers | crates/casc-cdn-client/src/install.rs:87-89 | a name is a root name exactly when some record has that name and it holds no backslash, whatever the tags |
| Install.Collect | crates/casc-cdn-client/src/install.rs:39-116 | success implies at least 16 bytes, `IN` and version 1 |
| Install.ReadUntilNul | crates/casc-cdn-client/src/install.rs:58 | the `read_until` scan gives the bytes up to and including the first NUL |
| Install.ReadTag | crates/casc-cdn-client/src/install.rs:57-69 | one tag read through the shared mask buffer gives `TagAt`, and on success the buffer holds the tag's mask |
| Install.ReadTags | crates/casc-cdn-client/src/install.rs:54-70 | the tag loop gives `Tags` |
| Install.HasNeededTags | crates/casc-cdn-client/src/install.rs:103-109 | the flag loop is true exactly when every needed tag has the file's bit |
| Install.RecordAt | crates/casc-cdn-client/src/install.rs:81-86 | defines one file record: the NUL-terminated name, the `get_u128` key and the `get_u32` size, a getter past the end being a panic |
| Install.Records | crates/casc-cdn-client/src/install.rs:80-86 | defines the `num_files` records read one after another, up to the first error |
| Install.ReadRecord | crates/casc-cdn-client/src/install.rs:81-86 | one file record: name, key and size |
| Install.PushRecord | crates/casc-cdn-client/src/install.rs:87-115 | one more record adds its name to the root names exactly when it has no backslash, and its file to the files exactly when it is kept |
| Install.FileStep | crates/casc-cdn-client/src/install.rs:80-116 | one turn of the file loop keeps the loop's invariant |
| Install.ReadFiles | crates/casc-cdn-client/src/install.rs:80-116 | the file loop gives the root names and kept files of the records |
| Install.LexLeTotal | crates/casc-cdn-client/src/install.rs:118-120 | byte order compares every two names |
| Install.LexLeTrans | crates/casc-cdn-client/src/install.rs:118-120 | byte order is transitive |
| Install.LexLeAntisym | crates/casc-cdn-client/src/install.rs:118-120 | byte order is antisymmetric |
| Install.Sink | crates/casc-cdn-client/src/install.rs:118-120 | inserting element i extends the sorted prefix by one, permutes the first i + 1 elements among themselves and leaves the rest unchanged |
| Install.SortBy | crates/casc-cdn-client/src/install.rs:118-120 | the in-place sort leaves the array sorted by key and a permutation of what it held |
| Install.Sorted | crates/casc-cdn-client/src/install.rs:118-120 | the sorted copy is sorted and has the same elements |
| Install.ReadInstall | crates/casc-cdn-client/src/install.rs:41-116 | the header reads and both loops give `Collect` |
| Install.Parse | crates/casc-cdn-client/src/install.rs:39-123 | `install::parse` fails exactly as `Collect` does; on success both lists hold exactly the collected entries, root names sorted and files sorted by name |
| ArchiveIndex.ScanBlockFrame | crates/casc-cdn-client/src/main.rs:502-517 | a block scan keeps every earlier entry, files every new one under the archive's name, adds the last key, and fails only on a duplicate or a missing last key |
| ArchiveIndex.LastRecord | crates/casc-cdn-client/src/main.rs:504-515 | the found record lies inside the block and carries the last key |
| ArchiveIndex.ScanBlock | crates/casc-cdn-client/src/main.rs:502-517 | defines the scan of one block: records inserted in order, a key already present being an error, until the record with the block's last key; running out of records is an error |
| ArchiveIndex.ScanBlockSpec | crates/casc-cdn-client/src/main.rs:502-517 | a block scans exactly when some record carries the last key and the records up to it bring new distinct keys; the result is the map plus those records |
| ArchiveIndex.FreshShift | crates/casc-cdn-client/src/main.rs:508-511 | a duplicate-free run of records splits into its first record being new and the rest being new after that insert |
| ArchiveIndex.Blocks | crates/casc-cdn-client/src/main.rs:495-519 | defines the block loop: block k checked against hash k and scanned up to last key k, all into one map |
| ArchiveIndex.BlocksFrame | crates/casc-cdn-client/src/main.rs:495-519 | the block loop keeps earlier entries and files every new entry under the archive's name |
| ArchiveIndex.BlocksChecked | crates/casc-cdn-client/src/main.rs:495-519 | every block of a successful loop matched its hash and held its last key |
| ArchiveIndex.FormatErrorSpec | crates/casc-cdn-client/src/main.rs:460-479 | no format error exactly when the bytes are 1,0,0,4,4,4,16,8; otherwise the error is the one of a wrong byte |
| ArchiveIndex.CheckFooter | crates/casc-cdn-client/src/main.rs:456-490 | defines the footer checks in the code's order: TOC hash, format bytes, footer hash; the result is the element count |
| ArchiveIndex.CheckFooterAccepts | crates/casc-cdn-client/src/main.rs:456-490 | the footer passes exactly when the TOC hash, the format bytes and the zero-padded footer hash all match; the count is the little-endian u32 |
| ArchiveIndex.LayoutOf | crates/casc-cdn-client/src/main.rs:452-494 | the index is the blocks, the last keys, the block hashes and the footer, in this order |
| ArchiveIndex.NumBlocks | crates/casc-cdn-client/src/main.rs:444-451 | a block count exists exactly when len >= 28 and len - 28 is a multiple of 4120 |
| ArchiveIndex.DecodeArchive | crates/casc-cdn-client/src/main.rs:509 | every location of a decoded index names the index's own archive |
| ArchiveIndex.Decode | crates/casc-cdn-client/src/main.rs:443-525 | defines `parse_index`: the size check, then the footer, the blocks and the element count; `DecodeAccepts` states when it succeeds |
| ArchiveIndex.DecodeAccepts | crates/casc-cdn-client/src/main.rs:443-525 | an index decodes exactly when its size has the block form, the footer passes, every block scans, and the map size equals the element count |
| ArchiveIndex.DecodeChecksBlocks | crates/casc-cdn-client/src/main.rs:495-501 | every block of a decoded index passed its checksum and holds its last key |
| ArchiveIndex.ScanBlockLoop | crates/casc-cdn-client/src/main.rs:502-517 | the `while` loop with its `found` flag gives `ScanBlock` |
| ArchiveIndex.ScanBlocks | crates/casc-cdn-client/src/main.rs:491-522 | the block loop with its three cursors gives `Blocks` |
| ArchiveIndex.ReadFormat | crates/casc-cdn-client/src/main.rs:460-479 | the `get_u8` checks give the first error of the format bytes |
| ArchiveIndex.ReadFooter | crates/casc-cdn-client/src/main.rs:452-490 | the footer cursor gives `CheckFooter` |
| ArchiveIndex.ParseRegions | crates/casc-cdn-client/src/main.rs:456-524 | footer, blocks, then element count |
| ArchiveIndex.Parse | crates/casc-cdn-client/src/main.rs:443-525 | `parse_index` returns exactly `Decode` |
| Keys.HexEncode | crates/casc-cdn-client/src/main.rs:196 | `hex::encode` writes two characters per byte |
| Keys.HexEncodeDigits | crates/casc-cdn-client/src/main.rs:196 | `hex::encode` writes lowercase hex digits |
| Keys.HexDecode | crates/casc-cdn-client/src/main.rs:191 | decoding succeeds exactly on an even number of UTF-8 bytes that are all hex digits; an odd byte count is `OddLength`, otherwise the error is an invalid character |
| Keys.DecodeEncode | crates/casc-cdn-client/src/main.rs:190-197 | decoding undoes encoding |
| Keys.EncodeDecode | crates/casc-cdn-client/src/main.rs:190-197 | encoding what was decoded gives the digits back in lowercase |
| Keys.KeyFromStr | crates/casc-cdn-client/src/main.rs:190-193 | parses exactly 32 hex digits; other even-length digit strings panic at the `unwrap` |
| Keys.AsHex | crates/casc-cdn-client/src/main.rs:195-197 | 32 lowercase ASCII hex digits |
| Keys.KeyRoundTrip | crates/casc-cdn-client/src/main.rs:189-198 | every key parses back from its hex string |
| Keys.KeyFromStrAsHex | crates/casc-cdn-client/src/main.rs:189-198 | a string that parses is the key's hex string up to case |
| Keys.FileKeysFromStr | crates/casc-cdn-client/src/main.rs:206-212 | the keys are the first two space-separated pieces; a missing second piece is an error only after the first key parsed |
| Keys.FileKeysRoundTrip | crates/casc-cdn-client/src/main.rs:206-212 | two keys written with a space between parse back |
| Keys.FormatHexKey | crates/casc-cdn-client/src/main.rs:120-122 | the path is six characters longer than the key |
| Keys.FormatHexKeySplit | crates/casc-cdn-client/src/main.rs:120-122 | the path splits at its slashes into `h[0..2]`, `h[2..4]` and `h` |
| Keys.KeyPath | crates/casc-cdn-client/src/main.rs:266-270 | a key's path has 38 characters and is sharded by its first two bytes |
| PipeSeparated.LinesFrom | crates/casc-cdn-client/src/main.rs:132 | defines `str::lines`: each line ends before its newline, and before a carriage return in front of that newline |
| PipeSeparated.LinesFromClear | crates/casc-cdn-client/src/main.rs:132 | the lines lie inside the text and hold no line break |
| PipeSeparated.LinesAreSplit | crates/casc-cdn-client/src/main.rs:132 | without carriage returns and a final newline the lines are `split('\n')` |
| PipeSeparated.PiecesFrom | crates/casc-cdn-client/src/main.rs:134-145 | the pieces of a range lie inside it, at least one |
| PipeSeparated.PiecesAreSplit | crates/casc-cdn-client/src/main.rs:134-145 | the pieces are Rust's `split(c)` of the range |
| PipeSeparated.TrimStartSkips | crates/casc-cdn-client/src/main.rs:125 | the skipped head is white space |
| PipeSeparated.TrimEndSkips | crates/casc-cdn-client/src/main.rs:125 | the dropped tail is white space |
| PipeSeparated.Trim | crates/casc-cdn-client/src/main.rs:125 | the trimmed range lies in the piece and starts and ends with non-white-space |
| PipeSeparated.TrimDropsWhiteSpace | crates/casc-cdn-client/src/main.rs:125 | trimming drops only white space |
| PipeSeparated.TrimmedIndex | crates/casc-cdn-client/src/main.rs:124-129 | the trimmed range, refused exactly when it ends at the end of the text |
| PipeSeparated.TrimAll | crates/casc-cdn-client/src/main.rs:134-137 | one field per piece, or a panic |
| PipeSeparated.TrimAllFields | crates/casc-cdn-client/src/main.rs:134-137 | each field is the trimmed range of its piece and lies in the text with no separator |
| PipeSeparated.PiecesInRange | crates/casc-cdn-client/src/main.rs:134-145 | the pieces of a line hold no separator and no line break |
| PipeSeparated.FieldsOf | crates/casc-cdn-client/src/main.rs:142-145 | one field per `split('|')` piece |
| PipeSeparated.FieldsOfFields | crates/casc-cdn-client/src/main.rs:142-145 | the fields of a line are fields of the text |
| PipeSeparated.Route | crates/casc-cdn-client/src/main.rs:141-153 | defines the loop over the lines after the header: a line whose field count differs from the headings', or that starts with `##`, goes to `meta` with a newline; any other line becomes an entry |
| PipeSeparated.RouteSpec | crates/casc-cdn-client/src/main.rs:141-153 | every line lands once: as an entry with one field per heading, or as one newline-ended line of `meta`; the entries are the field lists of the non-comment lines with one field per heading, in order, and `meta` gains the other lines, in order, each followed by a newline |
| PipeSeparated.RouteFilter | crates/casc-cdn-client/src/main.rs:141-153 | the loop's result is the entry lines filtered out of the lines in order, and the meta lines likewise |
| PipeSeparated.RouteFails | crates/casc-cdn-client/src/main.rs:141-145 | the loop panics exactly when some line fails to split into fields |
| PipeSeparated.Load | crates/casc-cdn-client/src/main.rs:131-161 | the storage is the backing text |
| PipeSeparated.LoadSpec | crates/casc-cdn-client/src/main.rs:131-161 | at least one heading; every entry has one field per heading; the lines after the header are the entries plus the lines of `meta`; the headings are the first line's fields, the entries and `meta` the entry lines and the other lines after it |
| PipeSeparated.LoadFails | crates/casc-cdn-client/src/main.rs:131-161 | loading panics exactly when there is no line, or the first line or a later one fails to split into fields |
| PipeSeparated.LoadPipeSeparatedVars | crates/casc-cdn-client/src/main.rs:131-161 | the line loop gives `Load` |
| PipeSeparated.EntryTexts | crates/casc-cdn-client/src/main.rs:96-100 | one text per field of every entry |
| PipeSeparated.FirstWanted | crates/casc-cdn-client/src/main.rs:167-174 | the first host of the list with the filter's properties, or none when no host has them |
| PipeSeparated.ChooseHost | crates/casc-cdn-client/src/main.rs:167-174 | an https host of the list, a Blizzard one when there is one; none exactly when no host is https |
| PipeSeparated.BeforeQuery | crates/casc-cdn-client/src/main.rs:175-177 | a prefix of the URL without `?`, cut at the first `?` |
| PipeSeparated.FirstUs | crates/casc-cdn-client/src/main.rs:164-166 | the first entry whose first field is `us` |
| PipeSeparated.PickCdn | crates/casc-cdn-client/src/main.rs:163-183 | the chosen host of the first `us` entry before its query, then the path and `/`; a result exactly when there is such an entry with at least four fields and a host to choose, a panic otherwise |
| Client.DataPath | crates/casc-cdn-client/src/main.rs:266-270 | prefix, `data/`, then the sharded key path |
| Client.GetByEkey | crates/casc-cdn-client/src/main.rs:265-277 | success implies the fetched container decodes under its own key as header digest |
| Client.GetByKeys | crates/casc-cdn-client/src/main.rs:255-263 | an encoding key known for the content key that differs from the caller's is refused; otherwise the caller's key is fetched |
| Client.GetByCkey | crates/casc-cdn-client/src/main.rs:245-253 | an unknown content key is an error; otherwise the table's encoding key is fetched |
| Client.ByKeysAgreesWithByCkey | crates/casc-cdn-client/src/main.rs:245-263 | asking by a content key and its table encoding key is asking by the content key |
| Client.MismatchRefused | crates/casc-cdn-client/src/main.rs:255-263 | in a sorted table, a caller naming another encoding key is refused whatever the CDN serves |

## Left out

- Network and cache I/O (`fetch`, `CacheByKey`, main.rs:33-82): the fetch is the parameter `Client.Fetch`.
- The orchestration (`cdn_casc_client`, `get_client_binaries`, `main`, main.rs:279-420): INI parsing through the `ini` crate, disk writes and tracing set-up are foreign code and I/O.
- MD5 and inflate internals: they are function parameters. The bytes of a `Z` chunk are whatever the inflate parameter returns for the chunk, as long as their length is the window's.
- UTF-8 conversions: especs, the trailing espec and install names are kept as bytes. `String::from_utf8` failures and the replacement characters of `from_utf8_lossy` are not modelled. For valid UTF-8 names the backslash test and the byte order agree with the code's string test and order.
- Tracing, including the debug-only tag dump of install.rs:90-101: it has no effect on the result.
- `Debug`/`Display` implementations: output only.
- `HashMap` hashing: `cmap_extra` and the index map are Dafny maps.
- EncodingTable.Search: it is the binary search of `binary_search_by_key` in Rust's standard library before version 1.82 (`mid = left + size / 2`, stopping at the first match). Later versions use a loop without an early exit. When content keys repeat, which matching row is returned depends on the version, and the model fixes one choice. Its contract, like the library's documentation, promises only some matching row.
- `sort_unstable`: the model's sort is an insertion sort. It promises what `sort_unstable` promises, sorted and a permutation. The order of equal names is not fixed.
- `trimmed_index` pointer arithmetic: ranges are character indices into the backing text, not byte offsets.
- Slicing inside a multi-byte character: `&hex[0..2]` panics off a character boundary, and this is not modelled.
- Keys.FormatHexKey: it requires four ASCII characters rather than returning a panic. Inside this model its only caller is `Client.DataPath`, which always passes `AsHex(ekey)`. The code also calls it on raw fields of the versions table (main.rs:347-348) and on the cache key (main.rs:54). Those calls can pass any text, and they are not part of this model. The requires also excludes inputs that do not panic: non-ASCII text whose byte offsets 2 and 4 fall on character boundaries.
- The `try_into()?` conversions to `usize`: these cannot fail on a 64-bit target, so the model has no error for them.
