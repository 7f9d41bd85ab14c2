/**
 * The byte layout `AssetPack::to_write` produces (src/asset_pack/asset_pack.rs):
 * the 84-byte header (magic number, version record, reserved space), the
 * number of files, one directory entry per file, then the files' contents in
 * directory order. Each entry's offset is the position of its contents.
 */
module PackFormat {
  import opened Wrappers
  import opened Binary
  import Utf8
  import Utils
  import opened FileMeta
  import opened PathUtils
  import Version
  import opened Json
  import opened AssetTags

  /** The fields of an `AssetPack`, as one value. */
  datatype PackData = PackData(
    godotVersion: Version.GodotVersion,
    meta: PackMeta,
    tags: Tags,
    objectFiles: map<string, seq<byte>>,
    otherFiles: map<string, seq<byte>>)

  /** The JSON5 conversions of the two documents a pack carries. */
  datatype Codecs = Codecs(meta: JsonCodec<PackMeta>, tags: JsonCodec<Tags>)

  /** One element of `files` in `to_write`: the full resource path and the contents. */
  datatype File = File(path: string, payload: seq<byte>)

  function Zeros(n: nat): (r: seq<byte>)
    ensures |r| == n && forall i :: 0 <= i < n ==> r[i] == 0
  {
    seq(n, _ => 0)
  }

  /** Magic number, version record and reserved space. */
  function Header(v: Version.GodotVersion): (r: seq<byte>)
    ensures |r| == |Utils.ASSET_PACK_MAGIC_FILE_HEADER| + Version.SizeInBytes() + Utils.GODOT_METADATA_RESERVED_SPACE
  {
    Utils.ASSET_PACK_MAGIC_FILE_HEADER + Version.Encode(v) + Zeros(Utils.GODOT_METADATA_RESERVED_SPACE)
  }

  /** `res://packs/<id>` */
  function FilePathPrefix(id: string): string
  {
    RESOURCE_PATH_PREFIX + ASSET_PACK_PREFIX + id
  }

  /** The files stored under `<prefix>/<key>`, keys in the given iteration order. */
  function KeyedFiles(prefix: string, order: seq<string>, m: map<string, seq<byte>>): (r: seq<File>)
    requires forall k :: k in order ==> k in m
    ensures |r| == |order|
    ensures forall i :: 0 <= i < |order| ==> r[i] == File(prefix + "/" + order[i], m[order[i]])
  {
    if order == [] then [] else [File(prefix + "/" + order[0], m[order[0]])] + KeyedFiles(prefix, order[1..], m)
  }

  /**
   * The files `to_write` stores, in order: the metadata document twice (as
   * `<id>.json` and as `<id>/pack.json`), the tags document, then every object
   * file and every other file.
   */
  function PackFiles(p: PackData, metaJson: seq<byte>, tagsJson: seq<byte>, objectOrder: seq<string>, otherOrder: seq<string>): (r: seq<File>)
    requires forall k :: k in objectOrder ==> k in p.objectFiles
    requires forall k :: k in otherOrder ==> k in p.otherFiles
    ensures |r| == 3 + |objectOrder| + |otherOrder|
  {
    var prefix := FilePathPrefix(p.meta.id);
    [File(prefix + ".json", metaJson), File(prefix + "/" + PACK_FILE_NAME, metaJson), File(prefix + "/" + TAGS_FILE_NAME, tagsJson)]
      + KeyedFiles(prefix, objectOrder, p.objectFiles) + KeyedFiles(prefix, otherOrder, p.otherFiles)
  }

  /** Total size of the contents. */
  function PayloadSize(files: seq<File>): nat
  {
    if files == [] then 0 else |files[0].payload| + PayloadSize(files[1..])
  }

  /** Total size of the directory entries. */
  function DirectorySize(ms: seq<FileMetaData>): nat
  {
    if ms == [] then 0 else BinarySize(ms[0]) + DirectorySize(ms[1..])
  }

  /** Where the first file's contents begin, given the directory. */
  function StartOffset(ms: seq<FileMetaData>): nat
  {
    |Utils.ASSET_PACK_MAGIC_FILE_HEADER| + Version.SizeInBytes() + Utils.GODOT_METADATA_RESERVED_SPACE + Utils.I32 + DirectorySize(ms)
  }

  /** The entries `FileMetaData::new` makes, before offsets are assigned. */
  function Unplaced(files: seq<File>): (ms: seq<FileMetaData>)
    requires forall i :: 0 <= i < |files| ==> |files[i].payload| < TWO_64
    ensures |ms| == |files|
    ensures forall i :: 0 <= i < |files| ==> ms[i] == FileMeta.New(files[i].path, |files[i].payload|)
  {
    if files == [] then [] else [FileMeta.New(files[0].path, |files[0].payload|)] + Unplaced(files[1..])
  }

  /**
   * The offsets `to_write` computes are u64 values: every size, and the
   * position just past the last byte, fit in 64 bits.
   */
  predicate Placeable(files: seq<File>)
  {
    && (forall i :: 0 <= i < |files| ==> |files[i].payload| < TWO_64)
    && StartOffset(Unplaced(files)) + PayloadSize(files) < TWO_64
  }

  /**
   * The `as i32` casts of `to_write` lose nothing: the file count and every
   * path length fit an i32, so `from_read` sees the values that were meant.
   */
  predicate Representable(files: seq<File>)
  {
    && Placeable(files)
    && |files| < TWO_31
    && (forall i :: 0 <= i < |files| ==> |Utf8.Encode(files[i].path)| < TWO_31)
  }

  /** The directory after the offset loop: each file's contents start where the previous one's end. */
  function Layout(start: nat, files: seq<File>): (ms: seq<FileMetaData>)
    requires start + PayloadSize(files) < TWO_64
    ensures |ms| == |files|
    decreases files
  {
    if files == [] then []
    else [FileMetaData(files[0].path, start, |files[0].payload|, ZERO_MD5)] + Layout(start + |files[0].payload|, files[1..])
  }

  function EncodeDirectory(ms: seq<FileMetaData>): seq<byte>
  {
    if ms == [] then [] else FileMeta.Encode(ms[0]) + EncodeDirectory(ms[1..])
  }

  function Payloads(files: seq<File>): seq<byte>
  {
    if files == [] then [] else files[0].payload + Payloads(files[1..])
  }

  /** The files of `p` when the serialisers produced `metaJson` and `tagsJson`. */
  function FilesFor(p: PackData, metaJson: string, tagsJson: string, objectOrder: seq<string>, otherOrder: seq<string>): seq<File>
    requires forall k :: k in objectOrder ==> k in p.objectFiles
    requires forall k :: k in otherOrder ==> k in p.otherFiles
  {
    PackFiles(p, Utf8.Encode(metaJson), Utf8.Encode(tagsJson), objectOrder, otherOrder)
  }

  /** What the caller of `to_write` must guarantee: whatever the serialisers produce, the files are representable. */
  predicate CanWrite(p: PackData, codecs: Codecs, objectOrder: seq<string>, otherOrder: seq<string>)
  {
    && (forall k :: k in objectOrder ==> k in p.objectFiles)
    && (forall k :: k in otherOrder ==> k in p.otherFiles)
    && (codecs.meta.toJson(p.meta).Some? && codecs.tags.toJson(p.tags).Some? ==>
          Placeable(FilesFor(p, codecs.meta.toJson(p.meta).value, codecs.tags.toJson(p.tags).value, objectOrder, otherOrder)))
  }

  /** The directory `to_write` emits for `files`: offsets assigned from the end of the directory on. */
  function Directory(files: seq<File>): (ms: seq<FileMetaData>)
    requires Placeable(files)
    ensures |ms| == |files|
    ensures forall i :: 0 <= i < |files| ==> ms[i].path == files[i].path
  {
    LayoutPaths(StartOffset(Unplaced(files)), files);
    Layout(StartOffset(Unplaced(files)), files)
  }

  /** The bytes of a pack whose files are `files`. */
  function EncodeFiles(v: Version.GodotVersion, files: seq<File>): seq<byte>
    requires Placeable(files)
  {
    Header(v) + EncodeI32(UsizeAsI32(|files|)) + EncodeDirectory(Directory(files)) + Payloads(files)
  }

  /** The whole pack as `to_write` emits it, or the serialiser's refusal. */
  function EncodePack(p: PackData, codecs: Codecs, objectOrder: seq<string>, otherOrder: seq<string>): Result<seq<byte>>
    requires CanWrite(p, codecs, objectOrder, otherOrder)
  {
    match codecs.meta.toJson(p.meta)
    case None => Err(SerializeError)
    case Some(metaJson) =>
      match codecs.tags.toJson(p.tags)
      case None => Err(SerializeError)
      case Some(tagsJson) => Ok(EncodeFiles(p.godotVersion, FilesFor(p, metaJson, tagsJson, objectOrder, otherOrder)))
  }

  /** Where each file of `PackFiles` sits. */
  lemma PackFilesAt(p: PackData, metaJson: seq<byte>, tagsJson: seq<byte>, objectOrder: seq<string>, otherOrder: seq<string>)
    requires forall k :: k in objectOrder ==> k in p.objectFiles
    requires forall k :: k in otherOrder ==> k in p.otherFiles
    ensures FilesAt(PackFiles(p, metaJson, tagsJson, objectOrder, otherOrder), FilePathPrefix(p.meta.id), p, metaJson, tagsJson, objectOrder, otherOrder)
  {
  }

  /** The files of `PackFiles`, position by position. */
  ghost predicate FilesAt(files: seq<File>, prefix: string, p: PackData, metaJson: seq<byte>, tagsJson: seq<byte>,
                         objectOrder: seq<string>, otherOrder: seq<string>)
  {
    && |files| == 3 + |objectOrder| + |otherOrder|
    && files[0] == File(prefix + ".json", metaJson)
    && files[1] == File(prefix + "/" + PACK_FILE_NAME, metaJson)
    && files[2] == File(prefix + "/" + TAGS_FILE_NAME, tagsJson)
    && (forall j :: 0 <= j < |objectOrder| ==>
          objectOrder[j] in p.objectFiles && files[3 + j] == File(prefix + "/" + objectOrder[j], p.objectFiles[objectOrder[j]]))
    && (forall j :: 0 <= j < |otherOrder| ==>
          otherOrder[j] in p.otherFiles && files[3 + |objectOrder| + j] == File(prefix + "/" + otherOrder[j], p.otherFiles[otherOrder[j]]))
  }

  // ---- Facts about the layout ----

  lemma {:induction false} LayoutPaths(start: nat, files: seq<File>)
    requires start + PayloadSize(files) < TWO_64
    ensures forall i :: 0 <= i < |files| ==> Layout(start, files)[i].path == files[i].path
    decreases files
  {
    if files != [] {
      LayoutPaths(start + |files[0].payload|, files[1..]);
    }
  }

  /** Entry `i` of the layout: its path and size, and the offset just past the contents before it. */
  lemma {:induction false} LayoutAt(start: nat, files: seq<File>, i: nat)
    requires start + PayloadSize(files) < TWO_64 && i < |files|
    ensures PayloadSize(files[..i]) + |files[i].payload| <= PayloadSize(files)
    ensures Layout(start, files)[i] == FileMetaData(files[i].path, start + PayloadSize(files[..i]), |files[i].payload|, ZERO_MD5)
    decreases files
  {
    if i > 0 {
      LayoutAt(start + |files[0].payload|, files[1..], i - 1);
      assert files[..i][1..] == files[1..][..i - 1];
    }
  }

  /** The contents before file `k + 1` are those before file `k` and file `k`'s own. */
  lemma {:induction false} PayloadSizeSnoc(files: seq<File>, k: nat)
    requires k < |files|
    ensures PayloadSize(files[..k + 1]) == PayloadSize(files[..k]) + |files[k].payload|
  {
    if k == 0 {
      assert files[..1][1..] == [];
      assert files[..0] == [];
    } else {
      PayloadSizeSnoc(files[1..], k - 1);
      assert files[..k + 1][1..] == files[1..][..k];
      assert files[..k][1..] == files[1..][..k - 1];
    }
  }

  /** Offsets never decrease along the layout. */
  lemma LayoutMonotone(start: nat, files: seq<File>, i: nat, j: nat)
    requires start + PayloadSize(files) < TWO_64 && i <= j < |files|
    ensures Layout(start, files)[i].offset <= Layout(start, files)[j].offset
  {
    LayoutAt(start, files, i);
    LayoutAt(start, files, j);
    PayloadPrefixMonotone(files, i, j);
  }

  lemma {:induction false} PayloadPrefixMonotone(files: seq<File>, i: nat, j: nat)
    requires i <= j <= |files|
    ensures PayloadSize(files[..i]) <= PayloadSize(files[..j])
  {
    if i > 0 {
      PayloadPrefixMonotone(files[1..], i - 1, j - 1);
      assert files[..i][1..] == files[1..][..i - 1];
      assert files[..j][1..] == files[1..][..j - 1];
    }
  }

  /** The directory size depends only on the paths. */
  lemma {:induction false} DirectorySizeOfPaths(ms: seq<FileMetaData>, ns: seq<FileMetaData>)
    requires |ms| == |ns| && forall i :: 0 <= i < |ms| ==> ms[i].path == ns[i].path
    ensures DirectorySize(ms) == DirectorySize(ns)
  {
    if ms != [] {
      DirectorySizeOfPaths(ms[1..], ns[1..]);
    }
  }

  lemma {:induction false} EncodeDirectoryLength(ms: seq<FileMetaData>)
    ensures |EncodeDirectory(ms)| == DirectorySize(ms)
  {
    if ms != [] {
      EncodeDirectoryLength(ms[1..]);
    }
  }

  /** The contents of file `i` sit in `Payloads` right after the contents of the files before it. */
  lemma {:induction false} PayloadsAt(files: seq<File>, i: nat)
    requires i < |files|
    ensures |Payloads(files)| == PayloadSize(files)
    ensures PayloadSize(files[..i]) + |files[i].payload| <= |Payloads(files)|
    ensures Payloads(files)[PayloadSize(files[..i])..PayloadSize(files[..i]) + |files[i].payload|] == files[i].payload
  {
    PayloadsLength(files);
    if i == 0 {
      assert files[..0] == [];
    } else {
      PayloadsAt(files[1..], i - 1);
      assert files[..i][1..] == files[1..][..i - 1];
      var k := PayloadSize(files[1..][..i - 1]);
      assert Payloads(files)[|files[0].payload| + k..|files[0].payload| + k + |files[i].payload|]
          == Payloads(files[1..])[k..k + |files[i].payload|];
    }
  }

  lemma {:induction false} PayloadsLength(files: seq<File>)
    ensures |Payloads(files)| == PayloadSize(files)
  {
    if files != [] {
      PayloadsLength(files[1..]);
    }
  }

  lemma SliceAfter(a: seq<byte>, b: seq<byte>, k: nat, n: nat)
    requires k + n <= |b|
    ensures (a + b)[|a| + k..|a| + k + n] == b[k..k + n]
  {
  }

  /** The header, the count and the directory end exactly where the first file's contents begin. */
  lemma DirectoryEndsAtStart(v: Version.GodotVersion, files: seq<File>)
    requires Placeable(files)
    ensures |Header(v) + EncodeI32(UsizeAsI32(|files|)) + EncodeDirectory(Directory(files))| == StartOffset(Directory(files))
    ensures StartOffset(Directory(files)) == StartOffset(Unplaced(files))
  {
    var ms := Directory(files);
    EncodeDirectoryLength(ms);
    DirectorySizeOfPaths(ms, Unplaced(files));
  }

  /**
   * In the bytes `to_write` emits, each entry's offset and size select that
   * file's contents.
   */
  lemma OffsetsLocateContents(v: Version.GodotVersion, files: seq<File>, i: nat)
    requires Placeable(files) && i < |files|
    ensures Directory(files)[i].offset + Directory(files)[i].size <= |EncodeFiles(v, files)|
    ensures EncodeFiles(v, files)[Directory(files)[i].offset..Directory(files)[i].offset + Directory(files)[i].size] == files[i].payload
  {
    var start := StartOffset(Unplaced(files));
    var ms := Directory(files);
    DirectoryEndsAtStart(v, files);
    assert ms == Layout(start, files);
    var head := Header(v) + EncodeI32(UsizeAsI32(|files|)) + EncodeDirectory(ms);
    var tail := Payloads(files);
    var whole := EncodeFiles(v, files);
    assert whole == head + tail;
    LayoutAt(start, files, i);
    PayloadsAt(files, i);
    var k := PayloadSize(files[..i]);
    var n := |files[i].payload|;
    assert ms[i].offset == |head| + k && ms[i].size == n;
    SliceAt(whole, head, tail, ms[i].offset, ms[i].size, k, files[i].payload);
  }

  /** A slice of `head + tail` that starts `k` bytes into `tail` is that slice of `tail`. */
  lemma SliceAt(whole: seq<byte>, head: seq<byte>, tail: seq<byte>, off: nat, n: nat, k: nat, part: seq<byte>)
    requires whole == head + tail && off == |head| + k && k + n <= |tail| && tail[k..k + n] == part
    ensures off + n <= |whole| && whole[off..off + n] == part
  {
    SliceAfter(head, tail, k, n);
  }
}
