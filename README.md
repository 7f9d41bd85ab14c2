# Dungeondraft asset packs, modelled in Dafny

Dungeondraft asset packs are Godot PCK archives. A pack holds:

- a header: the magic number "GDPC", a four-field Godot version record, 64 reserved bytes and an i32 file count;
- a directory: one entry per file, holding a length-prefixed path, an offset, a size and an md5 slot;
- the files' contents, one after the other.

`AssetPack::from_read` reads such an archive and routes each file by its path:

- the root `<id>.json` document becomes the pack metadata;
- `data/default.dungeondraft_tags` becomes the tags document;
- files under `textures/objects/` become object files;
- the second copy of the metadata, `res://packs/<id>/pack.json`, normalises to a bare `pack.json`, which passes the root-json test as well, so it is parsed as the metadata a second time (`PathUtils.BarePackFile`, `RoundTrip.DocumentRoutes`);
- a `pack.json` inside a directory is skipped;
- everything else becomes an "other" file.

`AssetPack::to_write` emits an archive for a pack. `AssetPack::clean_tags` removes tags that name missing files, then empty tags, then sets that name removed tags.

The project models the `src/asset_pack/` core of the tool: the pack, its directory entries, the version record, the tags document, the path tests and the string reader. Each piece takes the form it has in the source:

- Reading and writing are methods over a `Reader` (bytes plus a cursor, like `std::io::Cursor`) and a `Writer` (the bytes written so far).
- Each method is proved to follow a pure function of the stream's bytes (`Follows`).
- `AssetPack` is a class whose `CleanTags` updates its `tags` field in place. It is proved equal to the pure `TagCleaning.Clean`.

The main property is the round trip, proved for every pack and not only for one sample pack: `RoundTrip.ReadAfterWrite` shows that `from_read` applied to the bytes `to_write` produces gives back the same pack (version, metadata, tags, object files and other files) and consumes the whole stream. Its hypotheses are:

- the JSON serialiser and parser undo each other;
- the pack id is non-empty, has no '/' and is not `packs`;
- object-file keys route to the object files and other keys to the other files;
- the sizes fit the integer widths the format uses.

Modules:

- `Binary`: the byte encodings of `byteorder`'s little-endian reads and writes, and Rust's `as` casts between integer widths.
- `Stream`: the streams, and `ReadMany`/`WriteMany`, the generic "n records in a row".
- `Utf8`: `as_bytes` and `String::from_utf8`.
- `Strings`: the `str` methods the source calls.
- `Utils`: `read_string` and the layout constants.
- `PathUtils`: `std::path::Path` on Unix and the path tests.
- `FileMeta`: directory entries.
- `Version`: the version record and its `Display`.
- `AssetTags`: the tags document and its `Display`.
- `Json`: the metadata documents and the JSON codec interface.
- `Sorting`: `files_meta.sort()`.
- `PackFormat`: what `to_write` emits, as functions.
- `PackRead`: what `from_read` computes, as functions.
- `AssetPacks`: the `AssetPack` class and the loops of its methods.
- `TagCleaning`: `clean_tags` as functions.
- `RoundTrip`: the read-after-write proof.

The model follows the code where the two could differ. Two examples:

- `FileMetaData::from_read` strips every repetition of `res://` and of `packs/`, and then the first path segment, whatever it is.
- `Tags`' `Display` lists the tag map a second time under the "Tag sets:" heading.

## Model

| member | source | states |
|---|---|---|
| Binary.DecodeEncodeLE | src/asset_pack/godot_version.rs:27-43 | A value written in `width` little-endian bytes reads back as itself |
| Binary.EncodeDecodeLE | src/asset_pack/godot_version.rs:27-43 | Any byte string is the little-endian encoding, at its own width, of the value it decodes to |
| Binary.I64AsU64 | src/asset_pack/file_meta_data.rs:43-44 | `as u64` on an i64 keeps every non-negative value |
| Binary.I32AsU64 | src/asset_pack/file_meta_data.rs:31 | `as usize` on an i32 keeps non-negative values and sends a negative length to at least 2^64 - 2^31 |
| Binary.UsizeAsI32 | src/asset_pack/file_meta_data.rs:58 | `as i32` keeps the value modulo 2^32 and keeps every value below 2^31 exactly |
| Binary.U64AsI64 | src/asset_pack/file_meta_data.rs:60-61 | `as i64` keeps every u64 below 2^63 |
| Binary.I32RoundTrip | src/asset_pack/godot_version.rs:27-43 | `read_i32::<LE>` returns what `write_i32::<LE>` wrote |
| Binary.I32Canonical | src/asset_pack/godot_version.rs:27-43 | Every four bytes are the `write_i32::<LE>` output of the i32 they read as |
| Binary.U64RoundTrip | src/asset_pack/file_meta_data.rs:43-44 | A u64 written `as i64` and read back `as u64` is unchanged |
| Binary.CastsAreInverse | src/asset_pack/file_meta_data.rs:43-61 | `as i64` and `as u64` between the two 64-bit widths undo each other in both directions |
| Stream.TakeBytes | src/asset_pack/utils.rs:11-14 | `read_exact` of n bytes succeeds exactly when n bytes remain, fails with end-of-stream otherwise, and consumes n bytes |
| Stream.TakeI32 | src/asset_pack/godot_version.rs:27-34 | `read_i32::<LE>` needs four bytes, fails with end-of-stream otherwise, and consumes four |
| Stream.TakeI64 | src/asset_pack/file_meta_data.rs:43-44 | `read_i64::<LE>` needs eight bytes, fails with end-of-stream otherwise, and consumes eight |
| Stream.ReadWritten | src/asset_pack/utils.rs:11-14 | Reading `|w|` bytes from a stream that starts with `w` returns `w` and leaves the rest |
| Stream.ReadWrittenI32 | src/asset_pack/godot_version.rs:27-43 | An i32 written to the front of a stream reads back unchanged and leaves the rest |
| Stream.ReadWrittenU64 | src/asset_pack/file_meta_data.rs:43-61 | A u64 written as i64 reads back `as u64` unchanged and leaves the rest |
| Stream.ReadManyWritten | src/asset_pack/asset_pack.rs:45-55 | When each record reads back what was written for it, n records written in a row read back in order and stop at their end |
| Stream.Reader.constructor | src/asset_pack/test_asset_pack_serialization.rs:61 | A new cursor holds the data and is at position 0 |
| Stream.Reader.Rest | src/asset_pack/asset_pack.rs:26-28 | The unread bytes are the data after the cursor, or none past the end |
| Stream.Reader.ReadExact | src/asset_pack/utils.rs:11-14 | The read returns and consumes what `TakeBytes` gives on the unread bytes |
| Stream.Reader.ReadI32 | src/asset_pack/godot_version.rs:27-34 | The read returns and consumes what `TakeI32` gives on the unread bytes |
| Stream.Reader.ReadI64 | src/asset_pack/file_meta_data.rs:43-44 | The read returns and consumes what `TakeI64` gives on the unread bytes |
| Stream.Reader.Seek | src/asset_pack/asset_pack.rs:37 | `seek(SeekFrom::Start(to))` puts the cursor at `to` |
| Stream.Writer.constructor | src/asset_pack/test_asset_pack_serialization.rs:65 | A new output buffer is empty |
| Stream.Writer.WriteAll | src/asset_pack/asset_pack.rs:114 | `write_all` appends exactly the given bytes |
| Stream.Writer.WriteI32 | src/asset_pack/godot_version.rs:36-43 | `write_i32::<LE>` appends the four-byte encoding |
| Stream.Writer.WriteU64AsI64 | src/asset_pack/file_meta_data.rs:60-61 | `write_i64::<LE>(x as i64)` appends the eight-byte encoding of x |
| Utf8.DecodeEncodeChar | src/asset_pack/utils.rs:16 | Decoding the first character of a character's UTF-8 bytes gives the character and its byte count |
| Utf8.EncodeDecodeChar | src/asset_pack/utils.rs:16 | A character `from_utf8` accepts was encoded by exactly the bytes it consumed |
| Utf8.DecodeEncode | src/asset_pack/utils.rs:16 | `String::from_utf8(s.as_bytes())` gives back `s` for every string |
| Utf8.EncodeDecode | src/asset_pack/utils.rs:16 | When `from_utf8` accepts bytes, the string's `as_bytes` is exactly those bytes |
| Utf8.EncodeLength | src/asset_pack/file_meta_data.rs:72 | A string's byte length is at least its character count |
| Utf8.EncodeAscii | src/asset_pack/path_utils.rs:4-8 | ASCII text is its own byte string |
| Strings.IndexOfFirst | src/asset_pack/file_meta_data.rs:37-39 | `find` returns None exactly when the character is absent, else the first position holding it |
| Strings.LastIndexOfLast | src/asset_pack/path_utils.rs:11-12 | `rfind` returns None exactly when the character is absent, else the last position holding it |
| Strings.TrimStartMatchesSuffix | src/asset_pack/file_meta_data.rs:33-34 | `trim_start_matches` leaves a suffix of the input that no longer starts with the pattern |
| Strings.SplitOnceParts | src/asset_pack/file_meta_data.rs:37-39 | `split_once` fails exactly when the separator is absent, and otherwise splits at its first occurrence |
| Strings.SplitPieces | src/asset_pack/path_utils.rs:11-19 | No piece of a split contains the separator |
| Strings.SplitOnceJoined | src/asset_pack/file_meta_data.rs:37-39 | A separator-free head is recovered by `split_once` from head, separator, tail |
| Strings.SplitJoined | src/asset_pack/path_utils.rs:11-19 | Splitting head, separator, tail gives the head followed by the tail's pieces |
| Strings.TrimOnce | src/asset_pack/file_meta_data.rs:33-34 | Trimming `p` from `p + s` removes only that `p` when `s` does not itself start with `p` |
| Utils.TakeString | src/asset_pack/utils.rs:11-17 | `read_string` succeeds exactly when `length` bytes remain and are valid UTF-8, fails with end-of-stream or invalid UTF-8 otherwise, and the text's encoding is `length` bytes |
| Utils.ReadStringWritten | src/asset_pack/utils.rs:11-17 | A string's UTF-8 bytes read back, with their length, as that string |
| Utils.ReadString | src/asset_pack/utils.rs:11-17 | The reader method returns and consumes what `TakeString` gives |
| PathUtils.SingleName | src/asset_pack/path_utils.rs:11-19 | A plain name is one normal component: its own file name, with the empty path as parent |
| PathUtils.TwoNames | src/asset_pack/path_utils.rs:11-19 | `dir/name` has file name `name` and parent `dir` |
| PathUtils.ExtensionOfName | src/asset_pack/path_utils.rs:11-14 | The extension of `stem.ext` is `ext` when the stem is non-empty and `ext` has no dot |
| PathUtils.RootJsonName | src/asset_pack/path_utils.rs:10-14 | `<id>.json` is a root json file for every non-empty id without '/' |
| PathUtils.BarePackFile | src/asset_pack/path_utils.rs:11-19 | A bare `pack.json` passes both the root-json test and the pack-file test |
| PathUtils.NestedPackFile | src/asset_pack/path_utils.rs:16-19 | `pack.json` inside a directory is a pack file but not a root json file |
| PathUtils.TagsFileName | src/asset_pack/path_utils.rs:21-29 | The tags document's path is a tags file, is not a root json file and is not an object file |
| PathUtils.RootJsonExample | src/asset_pack/asset_pack.rs:297-302 | `8UWKyQPf.json` is a root json file |
| PathUtils.NestedJsonExample | src/asset_pack/asset_pack.rs:297-302 | `bla/8UWKyQPf.json` is not a root json file |
| PathUtils.TxtExample | src/asset_pack/asset_pack.rs:297-302 | `8UWKyQPf.txt` is not a root json file |
| FileMeta.New | src/asset_pack/file_meta_data.rs:20-27 | A new entry has the given path and size, offset 0 and an all-zero md5 |
| FileMeta.CmpIsTotalPreorder | src/asset_pack/file_meta_data.rs:81-99 | `cmp` is a total preorder, consistent with `eq`, and both compare offsets only |
| FileMeta.EqIgnoresPath | src/asset_pack/file_meta_data.rs:83-87 | Two entries for different files at the same offset are `==` |
| FileMeta.NormalizePathSuffix | src/asset_pack/file_meta_data.rs:29-39 | The path `from_read` keeps is a suffix of the stored path |
| FileMeta.NotPacksPrefixed | src/asset_pack/file_meta_data.rs:34 | `id/key` does not start with `packs/` unless the id is `packs` |
| FileMeta.NormalizePackPath | src/asset_pack/file_meta_data.rs:29-39 | `res://packs/<id>/<key>` reads back as `<key>` |
| FileMeta.NormalizeRootJsonPath | src/asset_pack/file_meta_data.rs:29-39 | `res://packs/<id>.json` reads back as `<id>.json` |
| FileMeta.NormalizeExample | src/asset_pack/asset_pack.rs:274-295 | `res://X3DLFK/test/bla.txt` reads back as `test/bla.txt` |
| FileMeta.NormalizePacksId | src/asset_pack/file_meta_data.rs:33-39 | A pack whose id is `packs` loses one more segment: `<dir>/<name>` reads back as `<name>` |
| FileMeta.Encode | src/asset_pack/file_meta_data.rs:57-79 | `to_write` emits exactly `calculate_binary_size` bytes |
| FileMeta.Decode | src/asset_pack/file_meta_data.rs:30-55 | A successful read consumes the i32 prefix, the declared path length, offset, size and md5; a failure is end-of-stream or invalid UTF-8 |
| FileMeta.ReadBack | src/asset_pack/file_meta_data.rs:30-66 | What is read back after a write keeps offset and size and has a zero md5 |
| FileMeta.RoundTrip | src/asset_pack/file_meta_data.rs:30-66 | An entry with a path under 2^31 bytes, once written, reads back with its path normalised, offset, size and zero md5, consuming exactly its bytes |
| FileMeta.DecodeFields | src/asset_pack/file_meta_data.rs:30-55 | The read succeeds exactly when the i32 path length (cast `as usize`) fits, those bytes are UTF-8 and 32 more bytes follow; the entry is the normalised path, the little-endian i64 offset and size cast to u64 and the 16 md5 bytes as they are, and the rest starts right after them; a failure is invalid UTF-8 when the path bytes are present and end-of-stream otherwise |
| FileMeta.FromRead | src/asset_pack/file_meta_data.rs:30-55 | The reader method returns and consumes what `Decode` gives |
| FileMeta.ToWrite | src/asset_pack/file_meta_data.rs:57-66 | The writer method appends exactly `Encode` |
| Version.Encode | src/asset_pack/godot_version.rs:36-47 | `to_write` emits exactly `size_in_bytes` bytes |
| Version.Decode | src/asset_pack/godot_version.rs:27-34 | The read succeeds exactly when 16 bytes remain, fails with end-of-stream otherwise; the four numbers are the little-endian i32s at bytes 0, 4, 8 and 12, and the rest starts at byte 16 |
| Version.RoundTrip | src/asset_pack/godot_version.rs:27-43 | A written version reads back equal, whatever follows it |
| Version.DecodeThenEncode | src/asset_pack/godot_version.rs:27-43 | Any 16 bytes read as a version and written back are the same bytes |
| Version.FromRead | src/asset_pack/godot_version.rs:27-34 | The reader method returns and consumes what `Decode` gives |
| Version.ToWrite | src/asset_pack/godot_version.rs:36-43 | The writer method appends exactly `Encode` |
| Version.DigitChar | src/asset_pack/godot_version.rs:50-58 | A digit is the character whose code is '0' plus the digit |
| Version.NatToString | src/asset_pack/godot_version.rs:50-58 | The decimal numeral is non-empty and all digits |
| Version.ParseNatToString | src/asset_pack/godot_version.rs:50-58 | Reading a numeral gives back the number |
| Version.ParseIntToString | src/asset_pack/godot_version.rs:50-58 | Reading `{}` of an integer, with its sign, gives back the integer |
| Version.IntToStringInjective | src/asset_pack/godot_version.rs:50-58 | Distinct integers print differently |
| Version.NoDotInInt | src/asset_pack/godot_version.rs:50-58 | A printed integer contains no '.' |
| Version.DotJoinInjective | src/asset_pack/godot_version.rs:54 | Texts joined at a dot that the first lacks come apart again at that dot |
| Version.DisplayInjective | src/asset_pack/godot_version.rs:50-58 | Two versions that display the same are the same version |
| Version.DisplayExample | src/asset_pack/godot_version.rs:50-58 | Version 1,3,2,4 displays as `1.3.2.4` |
| AssetTags.New | src/asset_pack/tags.rs:12-17 | `Tags::new()` has no tags and no sets |
| AssetTags.RenderIgnoresSets | src/asset_pack/tags.rs:39-50 | The rendering does not depend on the tag sets: the "Tag sets:" section walks the tag map |
| AssetTags.RenderNoTags | src/asset_pack/tags.rs:20-54 | A document without tags renders as the headings alone, whatever its sets |
| AssetTags.Display | src/asset_pack/tags.rs:20-54 | The formatter builds exactly the rendering for the given iteration orders |
| AssetTags.WriteLines | src/asset_pack/tags.rs:29-37 | The loop over the tag map appends one line per tag, in iteration order |
| AssetTags.WriteLine | src/asset_pack/tags.rs:30-36 | One tag's line is its name, each member quoted or bare with a trailing comma, and the closing bracket |
| Sorting.AtOffset | src/asset_pack/asset_pack.rs:57 | The entries at one offset form a subsequence, never longer than the directory |
| Sorting.InsertPermutes | src/asset_pack/asset_pack.rs:57 | Inserting one entry adds exactly that entry |
| Sorting.InsertSorted | src/asset_pack/asset_pack.rs:57 | Inserting into a sorted directory keeps it sorted |
| Sorting.InsertStable | src/asset_pack/asset_pack.rs:57 | Insertion places an entry after the entries at its own offset |
| Sorting.SortFacts | src/asset_pack/asset_pack.rs:57 | `sort()` gives a sorted permutation that keeps the order of entries sharing an offset |
| Sorting.SortSorted | src/asset_pack/asset_pack.rs:57 | Sorting a directory already in offset order changes nothing |
| PackFormat.Zeros | src/asset_pack/asset_pack.rs:116 | The reserved space is that many zero bytes |
| PackFormat.Header | src/asset_pack/asset_pack.rs:114-116 | The header is magic, version and reserved space, 84 bytes |
| PackFormat.KeyedFiles | src/asset_pack/asset_pack.rs:144-148 | Each key, in iteration order, becomes `<prefix>/<key>` with its contents |
| PackFormat.PackFiles | src/asset_pack/asset_pack.rs:118-148 | `files` holds the two metadata copies, the tags document, then every object file and every other file |
| PackFormat.PackFilesAt | src/asset_pack/asset_pack.rs:118-148 | Position by position: root json, `pack.json`, tags file, object files, other files, each with its own path and contents |
| PackFormat.Unplaced | src/asset_pack/asset_pack.rs:123-147 | Before the offset loop, each entry is `FileMetaData::new` of its file's path and contents length |
| PackFormat.Layout | src/asset_pack/asset_pack.rs:152-157 | The offset loop gives one entry per file |
| PackFormat.LayoutAt | src/asset_pack/asset_pack.rs:152-157 | Entry i starts at the start offset plus the sizes of the files before it, with i's path and size |
| PackFormat.LayoutPaths | src/asset_pack/asset_pack.rs:152-157 | The offset loop leaves paths unchanged |
| PackFormat.PayloadSizeSnoc | src/asset_pack/asset_pack.rs:156 | The running offset grows by one file's size per step |
| PackFormat.LayoutMonotone | src/asset_pack/asset_pack.rs:152-157 | Offsets never decrease along the directory |
| PackFormat.PayloadPrefixMonotone | src/asset_pack/asset_pack.rs:152-157 | A longer run of files never has smaller total contents |
| PackFormat.Directory | src/asset_pack/asset_pack.rs:150-161 | The emitted directory has one entry per file, in file order, each with its file's path |
| PackFormat.DirectorySizeOfPaths | src/asset_pack/asset_pack.rs:170-182 | The directory's size depends only on the paths, so assigning offsets does not move the start of the contents |
| PackFormat.EncodeDirectoryLength | src/asset_pack/asset_pack.rs:159-161 | The written directory is exactly as long as the sum of `calculate_binary_size` |
| PackFormat.PayloadsAt | src/asset_pack/asset_pack.rs:163-165 | File i's contents sit in the contents block right after those of the files before it |
| PackFormat.PayloadsLength | src/asset_pack/asset_pack.rs:163-165 | The contents block is as long as the files' total size |
| PackFormat.DirectoryEndsAtStart | src/asset_pack/asset_pack.rs:150-182 | Header, count and directory end exactly at `calculate_files_block_starting_offset` |
| PackFormat.OffsetsLocateContents | src/asset_pack/asset_pack.rs:150-165 | In the written archive, each entry's offset and size delimit exactly its file's contents |
| PackRead.Classify | src/asset_pack/asset_pack.rs:74-98 | A file goes to the metadata iff root json; to the tags iff not that and a tags file; to the objects iff neither and an object file; to the others iff none of these and not a pack file |
| PackRead.ParseDocument | src/asset_pack/asset_pack.rs:75-93 | A document is accepted iff it is UTF-8 and the parser accepts the text; errors are invalid UTF-8 or a parse error |
| PackRead.ParseSerialised | src/asset_pack/asset_pack.rs:121-129 | A serialised document, stored as UTF-8, parses back to the value serialised |
| PackRead.Store | src/asset_pack/asset_pack.rs:64-99 | An object or other file is inserted under its path; a document leaves both file maps alone; a pack file changes nothing; only a document can fail |
| PackRead.DecodeHeader | src/asset_pack/asset_pack.rs:26-43 | The header reads iff four bytes remain at the cursor and the archive has at least 88 bytes, and fails with end-of-stream otherwise; the version is the one read at byte 4, the 64 reserved bytes are skipped unread, the count is the i32 at bytes 84-88 cast to u64, and the rest is the archive from byte 88 |
| PackRead.Finish | src/asset_pack/asset_pack.rs:101-110 | The pack is built iff a metadata document was seen, and carries the files read and the tags read, or empty tags when there were none |
| PackRead.ShortStream | src/asset_pack/asset_pack.rs:26-43 | An archive shorter than 88 bytes is refused with end-of-stream |
| PackRead.NoMetaDocument | src/asset_pack/asset_pack.rs:101-106 | A pack with no root json entry is refused, even when everything else reads |
| PackRead.NoMetaStaysNone | src/asset_pack/asset_pack.rs:64-99 | The file loop never sets the metadata without a root json entry |
| PackRead.RoutedStays | src/asset_pack/asset_pack.rs:64-99 | The file loop only puts a path into the object files when it classifies as an object file, and into the other files when it classifies as another file |
| PackRead.PackRouted | src/asset_pack/asset_pack.rs:59-110 | In a pack that was read, the object files and other files share no path; neither map holds a root json or the tags document; every object file starts with `textures/objects/`, and no other file does or is named `pack.json` |
| AssetPacks.Metas | src/asset_pack/asset_pack.rs:135-148 | The directory entries of `files`, in order |
| AssetPacks.CalculateFilesBlockStartingOffset | src/asset_pack/asset_pack.rs:170-182 | The loop returns header plus count plus every entry's binary size |
| AssetPacks.AssignOffsets | src/asset_pack/asset_pack.rs:152-157 | After the offset loop each entry sits where the contents before it end |
| AssetPacks.WriteDirectory | src/asset_pack/asset_pack.rs:159-161 | The directory loop appends every entry's encoding in order |
| AssetPacks.WritePayloads | src/asset_pack/asset_pack.rs:163-165 | The contents loop appends every file's contents in order |
| AssetPacks.PushKeyed | src/asset_pack/asset_pack.rs:144-148 | The loop appends one `FileMetaData::new` entry per key, in iteration order, keeping what was there |
| AssetPacks.ReadHeader | src/asset_pack/asset_pack.rs:27-43 | The header reads return and consume what `DecodeHeader` gives |
| AssetPacks.ReadEntries | src/asset_pack/asset_pack.rs:45-55 | The directory loop returns and consumes what `DecodeEntries` gives |
| AssetPacks.ReadFiles | src/asset_pack/asset_pack.rs:59-99 | The file loop returns and consumes what `DecodePayloads` gives |
| AssetPacks.ReadFile | src/asset_pack/asset_pack.rs:64-98 | One pass of the file loop returns and consumes what `DecodePayloads` gives for that entry |
| AssetPacks.PayloadStep | src/asset_pack/asset_pack.rs:64-99 | The file loop is its first pass followed by the loop over the rest |
| AssetPacks.AssetPack.constructor | src/asset_pack/asset_pack.rs:104-110 | The new pack holds exactly the five given fields |
| AssetPacks.AssetPack.Snapshot | src/asset_pack/asset_pack.rs:17-23 | The pack's fields, as one value |
| AssetPacks.AssetPack.FromRead | src/asset_pack/asset_pack.rs:26-111 | `from_read` fails exactly as `DecodePack` does; otherwise it returns a fresh pack whose fields are `DecodePack`'s, whose two file maps are disjoint and classified as `PackRouted` says, and leaves the cursor where it ends |
| AssetPacks.AssetPack.ToWrite | src/asset_pack/asset_pack.rs:113-168 | `to_write` appends exactly `EncodePack`, or, when a serialiser refuses, fails after the header |
| AssetPacks.AssetPack.CollectFiles | src/asset_pack/asset_pack.rs:118-148 | `files` holds `FileMetaData::new` of each pack file's path and size, with its contents |
| AssetPacks.AssetPack.FilesInTag | src/asset_pack/asset_pack.rs:257-259 | The files of a tag exactly when the tag exists |
| AssetPacks.AssetPack.CleanTags | src/asset_pack/asset_pack.rs:184-255 | The tags become `Clean` of the old tags: clean, with every tag's files existing object files and non-empty; the other fields are unchanged |
| AssetPacks.AssetPack.RemoveEmptyTags | src/asset_pack/asset_pack.rs:192-219 | Every tag keeps its existing files only, empty tags go, and the sets are untouched |
| AssetPacks.AssetPack.RemoveEmptySets | src/asset_pack/asset_pack.rs:221-248 | Every set keeps its surviving tags only, empty sets go, and the tags are untouched |
| AssetPacks.RemoveMissing | src/asset_pack/asset_pack.rs:194-214 | Every entry is cut down to its live members, and the entries left empty are listed once each |
| AssetPacks.KeepExisting | src/asset_pack/asset_pack.rs:195-209 | An entry's members after the removal loop are exactly its live members |
| AssetPacks.Missing | src/asset_pack/asset_pack.rs:195-201 | The listed members are exactly those not in `live` |
| AssetPacks.DropEmptied | src/asset_pack/asset_pack.rs:216-219 | Removing the emptied entries from the trimmed map gives exactly `Restrict` |
| TagCleaning.Restrict | src/asset_pack/asset_pack.rs:192-219 | Every entry keeps only live members and no entry is empty; every live member of every entry is kept |
| TagCleaning.CleanIsClean | src/asset_pack/asset_pack.rs:184-255 | After cleaning, tags name only object files, sets name only surviving tags, and nothing is empty |
| TagCleaning.CleanKeepsExactly | src/asset_pack/asset_pack.rs:184-255 | A file stays under a tag iff it was there and exists; a tag stays in a set iff it was there and survived |
| TagCleaning.RestrictUnchanged | src/asset_pack/asset_pack.rs:192-248 | A map already free of missing members and empty entries is left as it is |
| TagCleaning.CleanOfClean | src/asset_pack/asset_pack.rs:184-255 | Cleaning a clean document changes nothing |
| TagCleaning.CleanIdempotent | src/asset_pack/asset_pack.rs:184-255 | Cleaning twice is cleaning once |
| TagCleaning.RestrictToOne | src/asset_pack/asset_pack.rs:192-248 | When only one entry has live members, that entry alone remains, holding them |
| TagCleaning.CleanExample | src/asset_pack/asset_pack.rs:304-342 | The unit test's document cleans to tag `rocks` with the rock file and set `loses_one_tag` with `rocks` |
| RoundTrip.Normalized | src/asset_pack/file_meta_data.rs:30-55 | One read-back entry per written entry |
| RoundTrip.NormalizedAt | src/asset_pack/file_meta_data.rs:30-55 | Entry i read back is `ReadBack` of entry i written |
| RoundTrip.HeaderReadsBack | src/asset_pack/asset_pack.rs:26-43 | A written header and non-negative count read back as the version and count, with no magic warning |
| RoundTrip.DirectoryIsWriteMany | src/asset_pack/asset_pack.rs:159-161 | The directory is the entries written one after another |
| RoundTrip.EntriesReadBack | src/asset_pack/asset_pack.rs:45-55 | A written directory reads back entry by entry, normalised, stopping at its end |
| RoundTrip.DirectoryStaysInOrder | src/asset_pack/asset_pack.rs:57 | The written directory is already in offset order, so the sort changes nothing |
| RoundTrip.ContentsReadBack | src/asset_pack/asset_pack.rs:59-99 | Contents written in a row are read back by the file loop, each under its entry |
| RoundTrip.StoreAllAppend | src/asset_pack/asset_pack.rs:64-99 | The file loop over two runs of files is the loop over the first, then over the second |
| RoundTrip.StoreObjects | src/asset_pack/asset_pack.rs:94-95 | Object files all land in `object_files` under their paths, and nothing else changes |
| RoundTrip.StoreOthers | src/asset_pack/asset_pack.rs:96-97 | Other files all land in `other_files` under their paths, and nothing else changes |
| RoundTrip.MapOfEnumeration | src/asset_pack/asset_pack.rs:144 | Inserting every key of a map, in any iteration order, rebuilds the map |
| RoundTrip.StoreDocuments | src/asset_pack/asset_pack.rs:74-93 | The two metadata copies and the tags document set the metadata and the tags |
| RoundTrip.StoreMeta | src/asset_pack/asset_pack.rs:74-83 | A root json document sets the metadata |
| RoundTrip.StoreTags | src/asset_pack/asset_pack.rs:84-93 | A tags document sets the tags |
| RoundTrip.DocumentRoutes | src/asset_pack/asset_pack.rs:70-98 | `<id>.json` and `pack.json` route to the metadata and the tags path to the tags |
| RoundTrip.StoreKeyed | src/asset_pack/asset_pack.rs:94-97 | The object files and then the other files rebuild both maps |
| RoundTrip.StoreSections | src/asset_pack/asset_pack.rs:59-99 | The files `to_write` emits, read back, rebuild the whole state of the file loop |
| RoundTrip.NormalizedPaths | src/asset_pack/file_meta_data.rs:30-55 | Every entry read back carries its file's path normalised |
| RoundTrip.PackPaths | src/asset_pack/asset_pack.rs:118-148 | The normalised paths are `<id>.json`, `pack.json`, the tags path, then each key |
| RoundTrip.SectionsRouted | src/asset_pack/asset_pack.rs:74-98 | Read back under those paths, the documents and every key route to their places |
| RoundTrip.StoreFiles | src/asset_pack/asset_pack.rs:59-99 | Every file `to_write` stores is read back under its own key, as a document or in the right map |
| RoundTrip.FilesReadBack | src/asset_pack/asset_pack.rs:26-168 | An archive written for a file list reads back as the pack the file loop builds, consuming everything |
| RoundTrip.HeaderOfFiles | src/asset_pack/asset_pack.rs:114-150 | The written header reads back with the version and the file count |
| RoundTrip.EntriesOfFiles | src/asset_pack/asset_pack.rs:45-55 | The written directory reads back, normalised, up to the first file's contents |
| RoundTrip.PayloadsOfFiles | src/asset_pack/asset_pack.rs:57-99 | The contents, read in sorted directory order, run the file loop and end the stream |
| RoundTrip.DirectoryWritable | src/asset_pack/file_meta_data.rs:58 | No written path length wraps in the `as i32` cast |
| RoundTrip.EntrySizes | src/asset_pack/asset_pack.rs:65-66 | Each entry read back gives its file's contents their own length |
| RoundTrip.DecodeSteps | src/asset_pack/asset_pack.rs:26-111 | `from_read` is header, directory, sort, file loop and assembly in turn |
| RoundTrip.ReadAfterWrite | src/asset_pack/test_asset_pack_serialization.rs:58-78 | `from_read(to_write(p)) == p` for every pack meeting the hypotheses above, consuming the whole archive with no magic warning |

## Left out

- Logging (`warn!`, `info!`, `debug!`, `trace!`, `display_file_as_info`) has no effect on the results and is not modelled. `MagicWarning` only says when the magic-number warning would be logged.
- Write errors: the `Writer` never fails, because an in-memory `Vec<u8>` does not. `to_write` can then fail only when a serialiser refuses.
- Read errors other than end-of-stream, invalid UTF-8, a parse error and a missing metadata document do not arise from an in-memory cursor.
- The `json5` crate and serde's derived conversions are not modelled. They are a `JsonCodec` parameter: a partial serialiser and a partial parser. The round trip assumes the two undo each other (`Lawful`). The `f32` fields of `ColorOverrides` are kept as their bit patterns.
- `HashMap` and `HashSet` iteration orders are unspecified in Rust:
  - In `to_write` and in `Display` they are parameters: any enumeration of the keys (`Enumerates`, `Orders`).
  - In `clean_tags` the choice is nondeterministic (`:|`).
- `Vec::sort` is modelled by `SortByOffset`, a stable insertion sort. The sort is stable and compares offsets only, so this is the unique result. The sort is not performed in place.
- `FileMetaData::from_read` allocates `vec![0; size]` before reading. The model treats a huge size, and a negative length cast to a huge one, as an end-of-stream failure; it does not model the allocation abort.
- AssetPacks.AssetPack.FromRead: where the source panics on `maybe_meta.unwrap()`, the model returns the error `MissingPackMeta`.
- AssetPacks.AssetPack.ToWrite requires `CanWrite`: every offset and size fits in 64 bits. Beyond that, the source's `usize` arithmetic would overflow.
- AssetPacks.AssetPack.ToWrite calls `FileMetaData::new` for the three documents after both serialisations. The source calls it between them. `new` has no effect, so the order is not observable.
- RoundTrip.ReadAfterWrite assumes that the `as i32` casts of the file count and of every path length lose nothing (`Representable`). Without that, `to_write` writes a wrapped length that `from_read` cannot read back.
- RoundTrip.ReadAfterWrite assumes the pack id is non-empty, has no '/' and is not `packs`:
  - An empty id makes the root document `.json`, which has no extension and is not found.
  - An id with '/' loses its tail during normalisation.
  - For the id `packs`, `FileMeta.NormalizePacksId` shows that every key loses its first segment.
- RoundTrip.ReadAfterWrite assumes each object key routes to the object files and each other key to the other files. An "other" key such as `textures/objects/x.png` would come back as an object file.
- `Tags`' `Display` walks `self.tags` under "Tag sets:". It is modelled as written, and `AssetTags.RenderIgnoresSets` records that the sets never appear.
- `src/asset_pack.rs`, `src/main.rs`, `src/asset_pack/mod.rs` and the tests are not part of the model. Only the tests' examples and the read-write-read property are stated as lemmas.
