/**
 * `AssetPack` (src/asset_pack/asset_pack.rs): a pack held in memory, read from
 * and written to the Godot resource-pack byte format, and its tags document
 * cleaned in place. Each method is proved to do what the corresponding
 * function of `PackRead`, `PackFormat` or `TagCleaning` describes.
 */
module AssetPacks {
  import opened Wrappers
  import opened Binary
  import opened Stream
  import Utf8
  import Utils
  import opened FileMeta
  import opened PathUtils
  import Version
  import opened Json
  import opened AssetTags
  import opened Sorting
  import opened PackFormat
  import opened PackRead
  import opened TagCleaning

  /** One element of the `files` vector of `to_write`: an entry of the directory and the contents it describes. */
  type Entry = (FileMetaData, seq<byte>)

  /** The directory entries of `files`, in order. */
  function Metas(files: seq<Entry>): (ms: seq<FileMetaData>)
    ensures |ms| == |files| && forall i :: 0 <= i < |files| ==> ms[i] == files[i].0
  {
    seq(|files|, i requires 0 <= i < |files| => files[i].0)
  }

  /**
   * `calculate_files_block_starting_offset`: the size of the header, the file
   * count and every directory entry, which is where the first file's contents
   * are written.
   */
  method CalculateFilesBlockStartingOffset(files: seq<Entry>) returns (offset: nat)
    ensures offset == StartOffset(Metas(files))
  {
    ghost var ms := Metas(files);
    offset := |Utils.ASSET_PACK_MAGIC_FILE_HEADER| + Version.SizeInBytes() + Utils.GODOT_METADATA_RESERVED_SPACE + Utils.I32;
    var i := 0;
    while i < |files|
      invariant i <= |files|
      invariant offset + DirectorySize(ms[i..]) == StartOffset(ms)
    {
      assert ms[i..][1..] == ms[i + 1..];
      offset := offset + BinarySize(files[i].0);
      i := i + 1;
    }
  }

  /** `files` holds, position by position, the entry `ms[k]` and the contents of `fs[k]`. */
  ghost predicate Describes(files: seq<Entry>, fs: seq<File>, ms: seq<FileMetaData>)
  {
    |files| == |fs| == |ms| && forall k :: 0 <= k < |fs| ==> files[k] == (ms[k], fs[k].payload)
  }

  /** The offset loop of `to_write`: each entry gets the running offset, which then grows by the entry's size. */
  method AssignOffsets(files: seq<Entry>, start: nat, ghost fs: seq<File>) returns (placed: seq<Entry>)
    requires start + PayloadSize(fs) < TWO_64 && |files| == |fs|
    requires forall i :: 0 <= i < |fs| ==> files[i] == (FileMetaData(fs[i].path, 0, files[i].0.size, ZERO_MD5), fs[i].payload)
    requires forall i :: 0 <= i < |fs| ==> files[i].0.size == |fs[i].payload|
    ensures |placed| == |fs|
    ensures forall i :: 0 <= i < |fs| ==> placed[i] == (Layout(start, fs)[i], fs[i].payload)
  {
    placed := files;
    var fileOffset := start;
    for k := 0 to |placed|
      invariant |placed| == |fs|
      invariant fileOffset == start + PayloadSize(fs[..k])
      invariant forall i :: 0 <= i < k ==> placed[i] == (Layout(start, fs)[i], fs[i].payload)
      invariant forall i :: k <= i < |fs| ==> placed[i] == files[i]
    {
      LayoutAt(start, fs, k);
      PayloadSizeSnoc(fs, k);
      var (meta, data) := placed[k];
      placed := placed[k := (meta.(offset := fileOffset), data)];
      fileOffset := fileOffset + meta.size;
    }
  }

  /** The directory loop of `to_write`: every entry written in order. */
  method WriteDirectory(w: Writer, files: seq<Entry>)
    modifies w
    ensures w.out == old(w.out) + EncodeDirectory(Metas(files))
  {
    ghost var ms := Metas(files);
    for k := 0 to |files|
      invariant w.out + EncodeDirectory(ms[k..]) == old(w.out) + EncodeDirectory(ms)
    {
      assert ms[k..][1..] == ms[k + 1..];
      ghost var before := w.out;
      FileMeta.ToWrite(files[k].0, w);
      Assoc(before, FileMeta.Encode(ms[k]), EncodeDirectory(ms[k + 1..]));
    }
    assert ms[|files|..] == [];
  }

  /** The contents loop of `to_write`: every file's contents written in order. */
  method WritePayloads(w: Writer, files: seq<Entry>, ghost fs: seq<File>)
    requires |files| == |fs| && forall k :: 0 <= k < |fs| ==> files[k].1 == fs[k].payload
    modifies w
    ensures w.out == old(w.out) + Payloads(fs)
  {
    for k := 0 to |files|
      invariant w.out + Payloads(fs[k..]) == old(w.out) + Payloads(fs)
    {
      assert fs[k..][1..] == fs[k + 1..];
      ghost var before := w.out;
      w.WriteAll(files[k].1);
      Assoc(before, fs[k].payload, Payloads(fs[k + 1..]));
    }
    assert fs[|files|..] == [];
  }

  /** One pass over a hash map of `to_write`'s chained iteration: each file, in `order`, pushed under `<prefix>/`. */
  method PushKeyed(files: seq<Entry>, prefix: string, order: seq<string>, m: map<string, seq<byte>>) returns (r: seq<Entry>)
    requires forall j :: 0 <= j < |order| ==> order[j] in m && |m[order[j]]| < TWO_64
    ensures |r| == |files| + |order| && r[..|files|] == files
    ensures forall j :: 0 <= j < |order| ==>
              r[|files| + j] == (FileMeta.New(prefix + "/" + order[j], |m[order[j]]|), m[order[j]])
  {
    r := files;
    for i := 0 to |order|
      invariant |r| == |files| + i && r[..|files|] == files
      invariant forall j :: 0 <= j < i ==> r[|files| + j] == (FileMeta.New(prefix + "/" + order[j], |m[order[j]]|), m[order[j]])
    {
      var filePath := order[i];
      var data := m[filePath];
      r := r + [(FileMeta.New(prefix + "/" + filePath, |data|), data)];
    }
  }

  /** Entries made by `FileMetaData::new` for each of `fs`, in order, are its unplaced directory. */
  lemma UnplacedDescribes(files: seq<Entry>, fs: seq<File>)
    requires |files| == |fs| && forall k :: 0 <= k < |fs| ==> |fs[k].payload| < TWO_64
    requires forall k :: 0 <= k < |fs| ==> files[k] == (FileMeta.New(fs[k].path, |fs[k].payload|), fs[k].payload)
    ensures Describes(files, fs, Unplaced(fs))
  {
  }

  /** `((a + b) + c) + d` re-associated, for the chunks written one after the other. */
  lemma Assoc4(a: seq<byte>, b: seq<byte>, c: seq<byte>, d: seq<byte>, e: seq<byte>)
    ensures (((a + b) + c) + d) + e == a + (((b + c) + d) + e)
  {
  }

  /** The magic number at the cursor, then from byte 4 on the version record, the reserved space and the file count. */
  method ReadHeader(r: Reader) returns (res: Result<(Version.GodotVersion, u64)>)
    modifies r
    ensures Follows(res, r.Rest(), DecodeHeader(r.data, old(r.pos)))
  {
    var magic := r.ReadExact(|Utils.ASSET_PACK_MAGIC_FILE_HEADER|);
    if magic.Err? {
      return Err(magic.error);
    }
    // Four bytes other than "GDPC" are only reported; reading goes on.
    r.Seek(|Utils.ASSET_PACK_MAGIC_FILE_HEADER|);
    var godotVersion := Version.FromRead(r);
    if godotVersion.Err? {
      return Err(godotVersion.error);
    }
    var reserved := r.ReadExact(Utils.GODOT_METADATA_RESERVED_SPACE);
    if reserved.Err? {
      return Err(reserved.error);
    }
    var count := r.ReadI32();
    if count.Err? {
      return Err(count.error);
    }
    res := Ok((godotVersion.value, I32AsU64(count.value)));
  }

  /** The directory loop: `count` entries read one after the other. */
  method ReadEntries(r: Reader, count: u64) returns (res: Result<seq<FileMetaData>>)
    modifies r
    ensures Follows(res, r.Rest(), DecodeEntries(old(r.Rest()), count as nat, []))
  {
    ghost var s := r.Rest();
    var filesMeta: seq<FileMetaData> := [];
    var i: nat := 0;
    while i < count
      invariant i <= count
      invariant DecodeEntries(s, count as nat, []) == ReadMany(FileMeta.Decode, r.Rest(), count as nat - i, filesMeta)
      decreases count as nat - i
    {
      var fileMeta := FileMeta.FromRead(r);
      if fileMeta.Err? {
        return Err(fileMeta.error);
      }
      filesMeta := filesMeta + [fileMeta.value];
      i := i + 1;
    }
    res := Ok(filesMeta);
  }

  /**
   * The file loop: each entry's contents read in turn and routed by the
   * entry's path. Its four local variables (object files, other files, the
   * metadata and the tags read so far) are kept together as a `ReadState`.
   */
  method ReadFiles(r: Reader, filesMeta: seq<FileMetaData>, codecs: Codecs) returns (res: Result<ReadState>)
    modifies r
    ensures Follows(res, r.Rest(), DecodePayloads(old(r.Rest()), filesMeta, EMPTY_STATE, codecs))
  {
    ghost var s := r.Rest();
    var st := EMPTY_STATE;
    var j := 0;
    while j < |filesMeta|
      invariant j <= |filesMeta|
      invariant DecodePayloads(s, filesMeta, EMPTY_STATE, codecs) == DecodePayloads(r.Rest(), filesMeta[j..], st, codecs)
    {
      ghost var before := r.Rest();
      assert filesMeta[j..][0] == filesMeta[j];
      var next := ReadFile(r, filesMeta[j], st, codecs);
      PayloadStep(before, filesMeta[j..], st, codecs);
      if next.Err? {
        return Err(next.error);
      }
      assert filesMeta[j..][1..] == filesMeta[j + 1..];
      st := next.value;
      j := j + 1;
    }
    res := Ok(st);
  }

  /**
   * One pass of the file loop: the entry's `size` bytes are read; the
   * metadata and tags documents are decoded as UTF-8 and parsed, object files
   * and other files are kept by path, and a `pack.json` inside a directory is
   * skipped. A bare `pack.json` (the normalised path of the second metadata
   * copy) passes the root json test first and is parsed as the metadata again.
   */
  method ReadFile(r: Reader, meta: FileMetaData, st: ReadState, codecs: Codecs) returns (res: Result<ReadState>)
    modifies r
    ensures Follows(res, r.Rest(), DecodePayloads(old(r.Rest()), [meta], st, codecs))
  {
    var fileData := r.ReadExact(meta.size);
    if fileData.Err? {
      return Err(fileData.error);
    }
    assert [meta][1..] == [];
    if IsRootJsonFile(meta.path) {
      assert Classify(meta.path) == ToMeta;
      var text := Utf8.Decode(fileData.value);
      if text.None? {
        return Err(InvalidUtf8);
      }
      var parsed := codecs.meta.fromJson(text.value);
      if parsed.None? {
        return Err(SchemaError(text.value));
      }
      res := Ok(st.(maybeMeta := parsed));
    } else if IsTagsFile(meta.path) {
      assert Classify(meta.path) == ToTags;
      var text := Utf8.Decode(fileData.value);
      if text.None? {
        return Err(InvalidUtf8);
      }
      var parsed := codecs.tags.fromJson(text.value);
      if parsed.None? {
        return Err(SchemaError(text.value));
      }
      res := Ok(st.(maybeTags := parsed));
    } else if IsObjectsFile(meta.path) {
      assert Classify(meta.path) == ToObjects;
      res := Ok(st.(objectFiles := st.objectFiles[meta.path := fileData.value]));
    } else if !IsPackFile(meta.path) {
      assert Classify(meta.path) == ToOthers;
      res := Ok(st.(otherFiles := st.otherFiles[meta.path := fileData.value]));
    } else {
      assert Classify(meta.path) == Skipped;
      res := Ok(st);
    }
  }

  /** The file loop takes its first entry as a loop of that entry alone would, then goes on with the rest. */
  lemma PayloadStep(s: seq<byte>, ms: seq<FileMetaData>, st: ReadState, codecs: Codecs)
    requires ms != []
    ensures DecodePayloads(s, [ms[0]], st, codecs).Err? ==>
              DecodePayloads(s, ms, st, codecs) == Err(DecodePayloads(s, [ms[0]], st, codecs).error)
    ensures DecodePayloads(s, [ms[0]], st, codecs).Ok? ==>
              var p := DecodePayloads(s, [ms[0]], st, codecs).value;
              DecodePayloads(s, ms, st, codecs) == DecodePayloads(p.rest, ms[1..], p.value, codecs)
  {
    assert [ms[0]][1..] == [];
  }

  class AssetPack {
    var godotVersion: Version.GodotVersion
    var meta: PackMeta
    var tags: Tags
    var objectFiles: map<string, seq<byte>>
    var otherFiles: map<string, seq<byte>>

    constructor (godotVersion: Version.GodotVersion, meta: PackMeta, tags: Tags,
                 objectFiles: map<string, seq<byte>>, otherFiles: map<string, seq<byte>>)
      ensures Snapshot() == PackData(godotVersion, meta, tags, objectFiles, otherFiles)
    {
      this.godotVersion := godotVersion;
      this.meta := meta;
      this.tags := tags;
      this.objectFiles := objectFiles;
      this.otherFiles := otherFiles;
    }

    /** The fields, as one value. */
    function Snapshot(): (p: PackData)
      reads this
      ensures p.godotVersion == godotVersion && p.meta == meta && p.tags == tags
      ensures p.objectFiles == objectFiles && p.otherFiles == otherFiles
    {
      PackData(godotVersion, meta, tags, objectFiles, otherFiles)
    }

    /**
     * `from_read`: the pack the stream holds from the cursor on, or the first
     * error met; on success the cursor stands just after the last file read.
     */
    static method FromRead(r: Reader, codecs: Codecs) returns (res: Result<AssetPack>)
      modifies r
      ensures var spec := DecodePack(r.data, old(r.pos), codecs);
              spec.Err? ==> res == Err(spec.error)
      ensures var spec := DecodePack(r.data, old(r.pos), codecs);
              spec.Ok? ==> res.Ok? && fresh(res.value) && res.value.Snapshot() == spec.value.value && r.Rest() == spec.value.rest
      ensures res.Ok? ==>
                && res.value.objectFiles.Keys !! res.value.otherFiles.Keys
                && (forall k :: k in res.value.objectFiles ==> !IsRootJsonFile(k) && !IsTagsFile(k) && IsObjectsFile(k))
                && (forall k :: k in res.value.otherFiles ==> !IsRootJsonFile(k) && !IsTagsFile(k) && !IsObjectsFile(k) && !IsPackFile(k))
    {
      PackRouted(r.data, r.pos, codecs);
      var header := ReadHeader(r);
      if header.Err? {
        return Err(header.error);
      }
      var (godotVersion, count) := header.value;
      var filesMeta := ReadEntries(r, count);
      if filesMeta.Err? {
        return Err(filesMeta.error);
      }
      var sorted := SortByOffset(filesMeta.value);
      var files := ReadFiles(r, sorted, codecs);
      if files.Err? {
        return Err(files.error);
      }
      var st := files.value;
      // Packs without object files have no tags document.
      var tags := if st.maybeTags.Some? then st.maybeTags.value else AssetTags.New();
      if st.maybeMeta.None? {
        return Err(MissingPackMeta);
      }
      var pack := new AssetPack(godotVersion, st.maybeMeta.value, tags, st.objectFiles, st.otherFiles);
      res := Ok(pack);
    }

    /**
     * `to_write`: the header, then (when both documents serialise) the file
     * count, the directory and the contents, files in the order `PackFiles`
     * gives with the hash maps iterated in `objectOrder` and `otherOrder`.
     * When a document does not serialise, only the header has been written.
     */
    method ToWrite(w: Writer, codecs: Codecs, objectOrder: seq<string>, otherOrder: seq<string>) returns (res: Result<()>)
      requires Enumerates(objectOrder, objectFiles.Keys) && Enumerates(otherOrder, otherFiles.Keys)
      requires CanWrite(Snapshot(), codecs, objectOrder, otherOrder)
      modifies w
      ensures var spec := EncodePack(Snapshot(), codecs, objectOrder, otherOrder);
              spec.Ok? ==> res == Ok(()) && w.out == old(w.out) + spec.value
      ensures var spec := EncodePack(Snapshot(), codecs, objectOrder, otherOrder);
              spec.Err? ==> res == Err(SerializeError) && w.out == old(w.out) + Header(godotVersion)
    {
      w.WriteAll(Utils.ASSET_PACK_MAGIC_FILE_HEADER);
      Version.ToWrite(godotVersion, w);
      w.WriteAll(Zeros(Utils.GODOT_METADATA_RESERVED_SPACE));
      Assoc(old(w.out), Utils.ASSET_PACK_MAGIC_FILE_HEADER, Version.Encode(godotVersion));
      Assoc(old(w.out), Utils.ASSET_PACK_MAGIC_FILE_HEADER + Version.Encode(godotVersion), Zeros(Utils.GODOT_METADATA_RESERVED_SPACE));
      var filePathPrefix := RESOURCE_PATH_PREFIX + ASSET_PACK_PREFIX + meta.id;
      var metaJson := codecs.meta.toJson(meta);
      if metaJson.None? {
        return Err(SerializeError);
      }
      var packMetaFile := Utf8.Encode(metaJson.value);
      var tagsJson := codecs.tags.toJson(tags);
      if tagsJson.None? {
        return Err(SerializeError);
      }
      var tagsFile := Utf8.Encode(tagsJson.value);
      ghost var fs := PackFiles(Snapshot(), packMetaFile, tagsFile, objectOrder, otherOrder);
      PackFilesAt(Snapshot(), packMetaFile, tagsFile, objectOrder, otherOrder);
      var files := CollectFiles(filePathPrefix, packMetaFile, tagsFile, objectOrder, otherOrder, fs);
      UnplacedDescribes(files, fs);
      ghost var afterHeader := w.out;
      w.WriteI32(UsizeAsI32(|files|));
      var fileOffset := CalculateFilesBlockStartingOffset(files);
      assert Metas(files) == Unplaced(fs);
      files := AssignOffsets(files, fileOffset, fs);
      assert Metas(files) == Directory(fs);
      WriteDirectory(w, files);
      WritePayloads(w, files, fs);
      Assoc4(old(w.out), Header(godotVersion), EncodeI32(UsizeAsI32(|fs|)), EncodeDirectory(Directory(fs)), Payloads(fs));
      res := Ok(());
    }

    /**
     * The `files` vector of `to_write` before offsets are assigned: the
     * metadata document as `<prefix>.json` and `<prefix>/pack.json`, the tags
     * document, then every object file and every other file under
     * `<prefix>/`, each with a fresh directory entry.
     */
    method CollectFiles(prefix: string, packMetaFile: seq<byte>, tagsFile: seq<byte>,
                        objectOrder: seq<string>, otherOrder: seq<string>, ghost fs: seq<File>) returns (files: seq<Entry>)
      requires FilesAt(fs, prefix, Snapshot(), packMetaFile, tagsFile, objectOrder, otherOrder)
      requires forall k :: 0 <= k < |fs| ==> |fs[k].payload| < TWO_64
      ensures |files| == |fs|
      ensures forall k :: 0 <= k < |fs| ==> files[k] == (FileMeta.New(fs[k].path, |fs[k].payload|), fs[k].payload)
    {
      assert |fs[0].payload| < TWO_64 && |fs[2].payload| < TWO_64;
      var front := [(FileMeta.New(prefix + ".json", |packMetaFile|), packMetaFile),
                    (FileMeta.New(prefix + "/" + PACK_FILE_NAME, |packMetaFile|), packMetaFile),
                    (FileMeta.New(prefix + "/" + TAGS_FILE_NAME, |tagsFile|), tagsFile)];
      forall j | 0 <= j < |objectOrder| ensures |objectFiles[objectOrder[j]]| < TWO_64 {
        assert fs[3 + j].payload == objectFiles[objectOrder[j]];
      }
      var withObjects := PushKeyed(front, prefix, objectOrder, objectFiles);
      forall j | 0 <= j < |otherOrder| ensures |otherFiles[otherOrder[j]]| < TWO_64 {
        assert fs[3 + |objectOrder| + j].payload == otherFiles[otherOrder[j]];
      }
      files := PushKeyed(withObjects, prefix, otherOrder, otherFiles);
      forall k | 0 <= k < |fs| ensures files[k] == (FileMeta.New(fs[k].path, |fs[k].payload|), fs[k].payload) {
        if k < 3 {
          assert files[k] == withObjects[..3][k] == front[k];
        } else if k < 3 + |objectOrder| {
          var j := k - 3;
          assert files[k] == withObjects[3 + j];
          assert fs[k] == File(prefix + "/" + objectOrder[j], objectFiles[objectOrder[j]]);
        } else {
          var j := k - |withObjects|;
          assert files[k] == files[|withObjects| + j];
          assert fs[k] == File(prefix + "/" + otherOrder[j], otherFiles[otherOrder[j]]);
        }
      }
    }

    /** `get_files_in_tag`: the files carrying `tag`, or nothing for a tag the document does not have. */
    function FilesInTag(tag: string): (r: Option<set<string>>)
      reads this
      ensures r.Some? <==> tag in tags.tags
      ensures r.Some? ==> r.value == tags.tags[tag]
    {
      if tag in tags.tags then Some(tags.tags[tag]) else None
    }

    /**
     * `clean_tags`: drops from every tag the files that are not object files
     * of the pack, then the tags left empty, then from every set the tags that
     * no longer exist, then the sets left empty. Nothing else changes.
     */
    method CleanTags()
      modifies this
      ensures tags == Clean(old(tags), objectFiles.Keys)
      ensures IsClean(tags, objectFiles.Keys)
      ensures forall tag :: FilesInTag(tag).Some? ==> FilesInTag(tag).value <= objectFiles.Keys && FilesInTag(tag).value != {}
      ensures godotVersion == old(godotVersion) && meta == old(meta)
      ensures objectFiles == old(objectFiles) && otherFiles == old(otherFiles)
    {
      ghost var t := tags;
      RemoveEmptyTags();
      RemoveEmptySets();
      CleanIsClean(t, objectFiles.Keys);
    }

    /** The first half of `clean_tags`: files that are not object files leave every tag, and empty tags go. */
    method RemoveEmptyTags()
      modifies this`tags
      ensures tags == old(tags).(tags := Restrict(old(tags.tags), objectFiles.Keys))
    {
      var trimmed, emptyTags := RemoveMissing(tags.tags, objectFiles.Keys);
      ghost var t := tags;
      tags := tags.(tags := trimmed);
      for i := 0 to |emptyTags|
        invariant tags.sets == t.sets
        invariant forall k :: k in tags.tags <==> k in trimmed && k !in emptyTags[..i]
        invariant forall k :: k in tags.tags ==> tags.tags[k] == trimmed[k]
      {
        tags := tags.(tags := tags.tags - {emptyTags[i]});
      }
      assert emptyTags[..|emptyTags|] == emptyTags;
      DropEmptied(t.tags, objectFiles.Keys, trimmed, emptyTags, tags.tags);
    }

    /** The second half of `clean_tags`: tags that no longer exist leave every set, and empty sets go. */
    method RemoveEmptySets()
      modifies this`tags
      ensures tags == old(tags).(sets := Restrict(old(tags.sets), old(tags.tags).Keys))
    {
      var trimmed, emptySets := RemoveMissing(tags.sets, tags.tags.Keys);
      ghost var t := tags;
      tags := tags.(sets := trimmed);
      for i := 0 to |emptySets|
        invariant tags.tags == t.tags
        invariant forall k :: k in tags.sets <==> k in trimmed && k !in emptySets[..i]
        invariant forall k :: k in tags.sets ==> tags.sets[k] == trimmed[k]
      {
        tags := tags.(sets := tags.sets - {emptySets[i]});
      }
      assert emptySets[..|emptySets|] == emptySets;
      DropEmptied(t.sets, t.tags.Keys, trimmed, emptySets, tags.sets);
    }
  }

  /**
   * The first loop of each half of `clean_tags`: every entry of `m` loses the
   * members not in `live`, and the keys of the entries that end up empty are
   * listed, each once.
   */
  method RemoveMissing(m: map<string, set<string>>, live: set<string>) returns (r: map<string, set<string>>, emptied: seq<string>)
    ensures r.Keys == m.Keys && forall k :: k in m ==> r[k] == m[k] * live
    ensures forall k :: k in emptied <==> k in m && m[k] * live == {}
    ensures forall i, j :: 0 <= i < j < |emptied| ==> emptied[i] != emptied[j]
  {
    r := m;
    emptied := [];
    var todo := m.Keys;
    while todo != {}
      invariant todo <= m.Keys && r.Keys == m.Keys
      invariant forall k :: k in todo ==> r[k] == m[k]
      invariant forall k :: k in m && k !in todo ==> r[k] == m[k] * live
      invariant forall k :: k in emptied <==> k in m && k !in todo && m[k] * live == {}
      invariant forall i, j :: 0 <= i < j < |emptied| ==> emptied[i] != emptied[j]
      decreases |todo|
    {
      var key :| key in todo;
      var members := KeepExisting(r[key], live);
      r := r[key := members];
      if members == {} {
        emptied := emptied + [key];
      }
      todo := todo - {key};
    }
  }

  /** The members of one entry not found in `live` are listed, then removed one by one. */
  method KeepExisting(members: set<string>, live: set<string>) returns (kept: set<string>)
    ensures kept == members * live
  {
    kept := members;
    var notExisting := Missing(members, live);
    for i := 0 to |notExisting|
      invariant forall x :: x in kept <==> x in members && x !in notExisting[..i]
    {
      kept := kept - {notExisting[i]};
    }
    assert notExisting[..|notExisting|] == notExisting;
  }

  /** The members of `members` that are not in `live`, in some iteration order. */
  method Missing(members: set<string>, live: set<string>) returns (missing: seq<string>)
    ensures forall x :: x in missing <==> x in members && x !in live
  {
    missing := [];
    var pending := members;
    while pending != {}
      invariant pending <= members
      invariant forall x :: x in missing <==> x in members && x !in pending && x !in live
      decreases |pending|
    {
      var x :| x in pending;
      if x !in live {
        missing := missing + [x];
      }
      pending := pending - {x};
    }
  }

  /** Removing the listed empty entries from the trimmed map gives exactly `Restrict`. */
  lemma DropEmptied(m: map<string, set<string>>, live: set<string>, trimmed: map<string, set<string>>,
                    emptied: seq<string>, result: map<string, set<string>>)
    requires trimmed.Keys == m.Keys && forall k :: k in m ==> trimmed[k] == m[k] * live
    requires forall k :: k in emptied <==> k in m && m[k] * live == {}
    requires forall k :: k in result <==> k in trimmed && k !in emptied
    requires forall k :: k in result ==> result[k] == trimmed[k]
    ensures result == Restrict(m, live)
  {
    var r := Restrict(m, live);
    assert forall k :: k in r <==> k in result;
  }
}
