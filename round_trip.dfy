/**
 * Reading back what `AssetPack::to_write` wrote gives the pack that was
 * written: the same version record, metadata, tags, object files and other
 * files. This is the property the source's read-write-read test checks on one
 * pack, here for every pack whose pack id and file keys survive the path
 * normalisation of `FileMetaData::from_read`.
 */
module RoundTrip {
  import opened Wrappers
  import opened Binary
  import opened Stream
  import Utf8
  import Utils
  import opened Strings
  import opened FileMeta
  import opened PathUtils
  import Version
  import opened Json
  import opened AssetTags
  import opened Sorting
  import opened PackFormat
  import opened PackRead

  /** The file loop over entries `ms` whose contents are those of `files`, without the reading. */
  function StoreAll(st: ReadState, ms: seq<FileMetaData>, files: seq<File>, codecs: Codecs): Result<ReadState>
    requires |ms| == |files|
    decreases |ms|
  {
    if ms == [] then Ok(st)
    else
      match Store(st, ms[0].path, files[0].payload, codecs)
      case Err(e) => Err(e)
      case Ok(st') => StoreAll(st', ms[1..], files[1..], codecs)
  }

  function AndThen(r: Result<ReadState>, ms: seq<FileMetaData>, files: seq<File>, codecs: Codecs): Result<ReadState>
    requires |ms| == |files|
  {
    match r
    case Err(e) => Err(e)
    case Ok(st) => StoreAll(st, ms, files, codecs)
  }

  function Lift(r: Result<ReadState>, rest: seq<byte>): Result<Parsed<ReadState>>
  {
    match r
    case Err(e) => Err(e)
    case Ok(st) => Ok(Parsed(st, rest))
  }

  /** `map k | k in order :: m[k]` */
  function MapOf(order: seq<string>, m: map<string, seq<byte>>): map<string, seq<byte>>
    requires forall k :: k in order ==> k in m
  {
    map k | k in order :: m[k]
  }

  /** The directory as `FileMetaData::from_read` returns it. */
  function Normalized(ms: seq<FileMetaData>): (r: seq<FileMetaData>)
    ensures |r| == |ms|
  {
    if ms == [] then [] else [ReadBack(ms[0])] + Normalized(ms[1..])
  }

  lemma {:induction false} NormalizedAt(ms: seq<FileMetaData>, i: nat)
    requires i < |ms|
    ensures Normalized(ms)[i] == ReadBack(ms[i])
  {
    if i > 0 {
      NormalizedAt(ms[1..], i - 1);
    }
  }

  // ---- The header ----

  /** The header and count of any stream `to_write` starts read back as the version and the count. */
  lemma HeaderReadsBack(v: Version.GodotVersion, count: i32, rest: seq<byte>)
    requires 0 <= count
    ensures DecodeHeader(Header(v) + EncodeI32(count) + rest, 0) == Ok(Parsed((v, count as u64), rest))
    ensures !MagicWarning(Header(v) + EncodeI32(count) + rest, 0)
  {
    var bytes := Header(v) + EncodeI32(count) + rest;
    var e := Version.Encode(v);
    var tail := Zeros(64) + (EncodeI32(count) + rest);
    assert bytes == Utils.ASSET_PACK_MAGIC_FILE_HEADER + (e + tail);
    assert bytes[..4] == Utils.ASSET_PACK_MAGIC_FILE_HEADER;
    assert From(bytes, 4) == e + tail;
    Version.RoundTrip(v, tail);
    ReadWritten(Zeros(64), EncodeI32(count) + rest);
    ReadWrittenI32(count, rest);
  }

  // ---- The directory ----

  lemma {:induction false} DirectoryIsWriteMany(ms: seq<FileMetaData>)
    ensures EncodeDirectory(ms) == WriteMany(FileMeta.Encode, ms)
    decreases |ms|
  {
    if ms != [] {
      DirectoryIsWriteMany(ms[1..]);
    }
  }

  lemma NormalizedIsMap(ms: seq<FileMetaData>)
    ensures Normalized(ms) == MapEach(ReadBack, ms)
  {
    forall i | 0 <= i < |ms| ensures Normalized(ms)[i] == ReadBack(ms[i]) {
      NormalizedAt(ms, i);
    }
  }

  /** A directory that `to_write` emitted reads back entry by entry, in order, and nothing past it is consumed. */
  lemma EntriesReadBack(ms: seq<FileMetaData>, rest: seq<byte>, acc: seq<FileMetaData>)
    requires forall i :: 0 <= i < |ms| ==> FileMeta.Writable(ms[i])
    ensures DecodeEntries(EncodeDirectory(ms) + rest, |ms|, acc) == Ok(Parsed(acc + Normalized(ms), rest))
  {
    forall i, r | 0 <= i < |ms| ensures FileMeta.Decode(FileMeta.Encode(ms[i]) + r) == Ok(Parsed(ReadBack(ms[i]), r)) {
      FileMeta.RoundTrip(ms[i], r);
    }
    ReadManyWritten(FileMeta.Decode, FileMeta.Encode, ReadBack, ms, rest, acc);
    DirectoryIsWriteMany(ms);
    NormalizedIsMap(ms);
  }

  /** The directory `to_write` emits is already in offset order, so sorting it changes nothing. */
  lemma DirectoryStaysInOrder(files: seq<File>)
    requires Placeable(files)
    ensures SortByOffset(Normalized(Directory(files))) == Normalized(Directory(files))
  {
    var start := StartOffset(Unplaced(files));
    var n := Normalized(Directory(files));
    forall i, j | 0 <= i < j < |n| ensures n[i].offset <= n[j].offset {
      NormalizedAt(Directory(files), i);
      NormalizedAt(Directory(files), j);
      LayoutMonotone(start, files, i, j);
    }
    SortSorted(n);
  }

  // ---- The contents ----

  /** Contents written one after the other are read back by the file loop, each under its entry. */
  lemma {:induction false} ContentsReadBack(ms: seq<FileMetaData>, files: seq<File>, rest: seq<byte>, st: ReadState, codecs: Codecs)
    requires |ms| == |files| && forall i :: 0 <= i < |ms| ==> ms[i].size == |files[i].payload|
    ensures DecodePayloads(Payloads(files) + rest, ms, st, codecs) == Lift(StoreAll(st, ms, files, codecs), rest)
    decreases |ms|
  {
    if ms == [] {
      assert Payloads(files) + rest == rest;
    } else {
      var c0 := files[0].payload;
      var tail := Payloads(files[1..]) + rest;
      assert Payloads(files) + rest == c0 + tail;
      ReadWritten(c0, tail);
      match Store(st, ms[0].path, c0, codecs)
      case Err(_) =>
      case Ok(st') =>
        ContentsReadBack(ms[1..], files[1..], rest, st', codecs);
    }
  }

  // ---- Routing the files read back ----

  /** A sequence cut at `k` and put back together is the sequence. */
  lemma SplitJoins<T>(s: seq<T>, k: nat)
    requires k <= |s|
    ensures s[..k] + s[k..] == s
  {
  }

  lemma {:induction false} StoreAllAppend(st: ReadState, ms1: seq<FileMetaData>, ms2: seq<FileMetaData>, f1: seq<File>, f2: seq<File>, codecs: Codecs)
    requires |ms1| == |f1| && |ms2| == |f2|
    ensures StoreAll(st, ms1 + ms2, f1 + f2, codecs) == AndThen(StoreAll(st, ms1, f1, codecs), ms2, f2, codecs)
    decreases |ms1|
  {
    if ms1 != [] {
      assert (ms1 + ms2)[1..] == ms1[1..] + ms2 && (f1 + f2)[1..] == f1[1..] + f2;
      match Store(st, ms1[0].path, f1[0].payload, codecs)
      case Err(_) =>
      case Ok(st') => StoreAllAppend(st', ms1[1..], ms2, f1[1..], f2, codecs);
    } else {
      assert ms1 + ms2 == ms2 && f1 + f2 == f2;
    }
  }

  /** Files whose keys are object paths all land in `object_files`, keyed by path; nothing else changes. */
  lemma {:induction false} StoreObjects(st: ReadState, ms: seq<FileMetaData>, files: seq<File>, order: seq<string>, m: map<string, seq<byte>>, codecs: Codecs)
    requires |ms| == |files| == |order| && forall k :: k in order ==> k in m
    requires forall i :: 0 <= i < |ms| ==> ms[i].path == order[i] && files[i].payload == m[order[i]] && Classify(order[i]) == ToObjects
    ensures StoreAll(st, ms, files, codecs) == Ok(st.(objectFiles := st.objectFiles + MapOf(order, m)))
    decreases |ms|
  {
    if ms == [] {
      assert st.objectFiles + MapOf(order, m) == st.objectFiles;
    } else {
      var k := order[0];
      var st' := st.(objectFiles := st.objectFiles[k := m[k]]);
      assert Store(st, ms[0].path, files[0].payload, codecs) == Ok(st');
      StoreObjects(st', ms[1..], files[1..], order[1..], m, codecs);
      MapOfCons(st.objectFiles, order, m);
    }
  }

  /** Files whose keys are other paths all land in `other_files`, keyed by path; nothing else changes. */
  lemma {:induction false} StoreOthers(st: ReadState, ms: seq<FileMetaData>, files: seq<File>, order: seq<string>, m: map<string, seq<byte>>, codecs: Codecs)
    requires |ms| == |files| == |order| && forall k :: k in order ==> k in m
    requires forall i :: 0 <= i < |ms| ==> ms[i].path == order[i] && files[i].payload == m[order[i]] && Classify(order[i]) == ToOthers
    ensures StoreAll(st, ms, files, codecs) == Ok(st.(otherFiles := st.otherFiles + MapOf(order, m)))
    decreases |ms|
  {
    if ms == [] {
      assert st.otherFiles + MapOf(order, m) == st.otherFiles;
    } else {
      var k := order[0];
      var st' := st.(otherFiles := st.otherFiles[k := m[k]]);
      assert Store(st, ms[0].path, files[0].payload, codecs) == Ok(st');
      StoreOthers(st', ms[1..], files[1..], order[1..], m, codecs);
      MapOfCons(st.otherFiles, order, m);
    }
  }

  /** Storing the first key, then the others, stores them all. */
  lemma MapOfCons(base: map<string, seq<byte>>, order: seq<string>, m: map<string, seq<byte>>)
    requires order != [] && forall k :: k in order ==> k in m
    ensures base[order[0] := m[order[0]]] + MapOf(order[1..], m) == base + MapOf(order, m)
  {
    var a := base[order[0] := m[order[0]]] + MapOf(order[1..], m);
    var b := base + MapOf(order, m);
    forall k ensures k in a <==> k in b {
      assert k in order <==> k == order[0] || k in order[1..];
    }
  }

  lemma MapOfEnumeration(order: seq<string>, m: map<string, seq<byte>>)
    requires Enumerates(order, m.Keys)
    ensures map[] + MapOf(order, m) == m
  {
  }

  /** The three documents come first: the metadata twice, then the tags. */
  lemma StoreDocuments(ms: seq<FileMetaData>, files: seq<File>, codecs: Codecs, meta: PackMeta, tags: Tags)
    requires |ms| == |files| == 3
    requires Classify(ms[0].path) == ToMeta && Classify(ms[1].path) == ToMeta && Classify(ms[2].path) == ToTags
    requires ParseDocument(codecs.meta, files[0].payload) == Ok(meta) && ParseDocument(codecs.meta, files[1].payload) == Ok(meta)
    requires ParseDocument(codecs.tags, files[2].payload) == Ok(tags)
    ensures StoreAll(EMPTY_STATE, ms, files, codecs) == Ok(ReadState(map[], map[], Some(meta), Some(tags)))
  {
    var s1 := EMPTY_STATE.(maybeMeta := Some(meta));
    var s3 := s1.(maybeTags := Some(tags));
    StoreMeta(EMPTY_STATE, ms[0].path, files[0].payload, codecs, meta);
    StoreMeta(s1, ms[1].path, files[1].payload, codecs, meta);
    StoreTags(s1, ms[2].path, files[2].payload, codecs, tags);
    StoreStep(EMPTY_STATE, ms, files, codecs, s1);
    StoreStep(s1, ms[1..], files[1..], codecs, s1);
    StoreStep(s1, ms[2..], files[2..], codecs, s3);
    assert ms[1..][1..] == ms[2..] && files[1..][1..] == files[2..];
    assert ms[2..][1..] == [] && files[2..][1..] == [];
  }

  lemma StoreMeta(st: ReadState, path: string, bytes: seq<byte>, codecs: Codecs, meta: PackMeta)
    requires Classify(path) == ToMeta && ParseDocument(codecs.meta, bytes) == Ok(meta)
    ensures Store(st, path, bytes, codecs) == Ok(st.(maybeMeta := Some(meta)))
  {
  }

  lemma StoreTags(st: ReadState, path: string, bytes: seq<byte>, codecs: Codecs, tags: Tags)
    requires Classify(path) == ToTags && ParseDocument(codecs.tags, bytes) == Ok(tags)
    ensures Store(st, path, bytes, codecs) == Ok(st.(maybeTags := Some(tags)))
  {
  }

  /** One pass of the file loop that stores its file. */
  lemma StoreStep(st: ReadState, ms: seq<FileMetaData>, files: seq<File>, codecs: Codecs, st': ReadState)
    requires |ms| == |files| && ms != [] && Store(st, ms[0].path, files[0].payload, codecs) == Ok(st')
    ensures StoreAll(st, ms, files, codecs) == StoreAll(st', ms[1..], files[1..], codecs)
  {
  }

  /** The routes of the three documents' paths as they are read back. */
  lemma DocumentRoutes(id: string)
    requires id != [] && '/' !in id
    ensures Classify(id + ".json") == ToMeta && Classify(PACK_FILE_NAME) == ToMeta && Classify(TAGS_FILE_NAME) == ToTags
  {
    RootJsonName(id);
    BarePackFile();
    TagsFileName();
  }

  /** The file loop, run over a prefix of the entries and then over the rest. */
  lemma StoreAllSplit(st: ReadState, ms: seq<FileMetaData>, files: seq<File>, k: nat, codecs: Codecs)
    requires |ms| == |files| && k <= |ms|
    ensures StoreAll(st, ms, files, codecs) == AndThen(StoreAll(st, ms[..k], files[..k], codecs), ms[k..], files[k..], codecs)
  {
    StoreAllAppend(st, ms[..k], ms[k..], files[..k], files[k..], codecs);
    SplitJoins(ms, k);
    SplitJoins(files, k);
  }

  /** The object files, then the other files, each under its key. */
  lemma StoreKeyed(ms: seq<FileMetaData>, files: seq<File>, codecs: Codecs, p: PackData, objectOrder: seq<string>, otherOrder: seq<string>)
    requires |ms| == |files| == |objectOrder| + |otherOrder|
    requires Enumerates(objectOrder, p.objectFiles.Keys) && Enumerates(otherOrder, p.otherFiles.Keys)
    requires forall j :: 0 <= j < |objectOrder| ==>
      ms[j].path == objectOrder[j] && files[j].payload == p.objectFiles[objectOrder[j]] && Classify(objectOrder[j]) == ToObjects
    requires forall j :: 0 <= j < |otherOrder| ==>
      ms[|objectOrder| + j].path == otherOrder[j] && files[|objectOrder| + j].payload == p.otherFiles[otherOrder[j]]
      && Classify(otherOrder[j]) == ToOthers
    ensures StoreAll(ReadState(map[], map[], Some(p.meta), Some(p.tags)), ms, files, codecs)
         == Ok(ReadState(p.objectFiles, p.otherFiles, Some(p.meta), Some(p.tags)))
  {
    var a := |objectOrder|;
    var s3 := ReadState(map[], map[], Some(p.meta), Some(p.tags));
    StoreObjects(s3, ms[..a], files[..a], objectOrder, p.objectFiles, codecs);
    MapOfEnumeration(objectOrder, p.objectFiles);
    var s4 := s3.(objectFiles := p.objectFiles);
    StoreOthers(s4, ms[a..], files[a..], otherOrder, p.otherFiles, codecs);
    MapOfEnumeration(otherOrder, p.otherFiles);
    StoreAllSplit(s3, ms, files, a, codecs);
  }

  /**
   * Entries and contents laid out as `to_write` lays them out, with the paths
   * `from_read` sees: the three documents, the object files in `objectOrder`,
   * the other files in `otherOrder`.
   */
  ghost predicate Sections(ms: seq<FileMetaData>, files: seq<File>, p: PackData, objectOrder: seq<string>, otherOrder: seq<string>)
  {
    && |ms| == |files| == 3 + |objectOrder| + |otherOrder|
    && Enumerates(objectOrder, p.objectFiles.Keys) && Enumerates(otherOrder, p.otherFiles.Keys)
    && Classify(ms[0].path) == ToMeta && Classify(ms[1].path) == ToMeta && Classify(ms[2].path) == ToTags
    && (forall j :: 0 <= j < |objectOrder| ==>
          ms[3 + j].path == objectOrder[j] && files[3 + j].payload == p.objectFiles[objectOrder[j]] && Classify(objectOrder[j]) == ToObjects)
    && (forall j :: 0 <= j < |otherOrder| ==>
          ms[3 + |objectOrder| + j].path == otherOrder[j] && files[3 + |objectOrder| + j].payload == p.otherFiles[otherOrder[j]]
          && Classify(otherOrder[j]) == ToOthers)
  }

  /**
   * The file loop over a directory laid out as `to_write` lays it out: three
   * documents, the object files in `objectOrder`, the other files in
   * `otherOrder`.
   */
  lemma StoreSections(ms: seq<FileMetaData>, files: seq<File>, codecs: Codecs, p: PackData, objectOrder: seq<string>, otherOrder: seq<string>)
    requires Sections(ms, files, p, objectOrder, otherOrder)
    requires ParseDocument(codecs.meta, files[0].payload) == Ok(p.meta) && ParseDocument(codecs.meta, files[1].payload) == Ok(p.meta)
    requires ParseDocument(codecs.tags, files[2].payload) == Ok(p.tags)
    ensures StoreAll(EMPTY_STATE, ms, files, codecs) == Ok(ReadState(p.objectFiles, p.otherFiles, Some(p.meta), Some(p.tags)))
  {
    StoreDocuments(ms[..3], files[..3], codecs, p.meta, p.tags);
    StoreKeyed(ms[3..], files[3..], codecs, p, objectOrder, otherOrder);
    StoreAllSplit(EMPTY_STATE, ms, files, 3, codecs);
  }

  // ---- The whole pack ----

  /** The packs `to_write` can store so that `from_read` gives them back. */
  ghost predicate RoundTrippable(p: PackData, codecs: Codecs, objectOrder: seq<string>, otherOrder: seq<string>)
  {
    && Lawful(codecs.meta) && Lawful(codecs.tags)
    && Enumerates(objectOrder, p.objectFiles.Keys) && Enumerates(otherOrder, p.otherFiles.Keys)
    && p.meta.id != [] && '/' !in p.meta.id && p.meta.id != "packs"
    && (forall k :: k in p.objectFiles ==> Classify(k) == ToObjects)
    && (forall k :: k in p.otherFiles ==> Classify(k) == ToOthers)
    && CanWrite(p, codecs, objectOrder, otherOrder)
    && (codecs.meta.toJson(p.meta).Some? && codecs.tags.toJson(p.tags).Some? ==>
          Representable(FilesFor(p, codecs.meta.toJson(p.meta).value, codecs.tags.toJson(p.tags).value, objectOrder, otherOrder)))
  }

  /** Every entry, as `from_read` returns it, carries its file's path normalised. */
  lemma NormalizedPaths(files: seq<File>)
    requires Placeable(files)
    ensures ReadPaths(Normalized(Directory(files)), files)
  {
    forall i | 0 <= i < |files| ensures Normalized(Directory(files))[i].path == NormalizePath(files[i].path) {
      NormalizedAt(Directory(files), i);
    }
  }

  /** The entries `ms` are read back for `files`: same number, each path normalised. */
  ghost predicate ReadPaths(ms: seq<FileMetaData>, files: seq<File>)
  {
    |ms| == |files| && forall i :: 0 <= i < |ms| ==> ms[i].path == NormalizePath(files[i].path)
  }

  /** Where the entries `from_read` sees for the files `to_write` emits are read back from, and what they hold. */
  ghost predicate SectionPaths(ms: seq<FileMetaData>, files: seq<File>, p: PackData, objectOrder: seq<string>, otherOrder: seq<string>)
  {
    && |ms| == |files| == 3 + |objectOrder| + |otherOrder|
    && Enumerates(objectOrder, p.objectFiles.Keys) && Enumerates(otherOrder, p.otherFiles.Keys)
    && ms[0].path == p.meta.id + ".json" && ms[1].path == PACK_FILE_NAME && ms[2].path == TAGS_FILE_NAME
    && (forall j :: 0 <= j < |objectOrder| ==>
          ms[3 + j].path == objectOrder[j] && files[3 + j].payload == p.objectFiles[objectOrder[j]])
    && (forall j :: 0 <= j < |otherOrder| ==>
          ms[3 + |objectOrder| + j].path == otherOrder[j] && files[3 + |objectOrder| + j].payload == p.otherFiles[otherOrder[j]])
  }

  /**
   * Every entry of the directory `to_write` emits is read back under its key
   * and the documents under their names, for any normalisation `norm` that
   * strips `prefix + "/"` from every key and `prefix` from the root document.
   */
  lemma PackPaths(ms: seq<FileMetaData>, files: seq<File>, norm: string -> string, prefix: string, p: PackData,
                  metaJson: seq<byte>, tagsJson: seq<byte>, objectOrder: seq<string>, otherOrder: seq<string>)
    requires Enumerates(objectOrder, p.objectFiles.Keys) && Enumerates(otherOrder, p.otherFiles.Keys)
    requires |ms| == |files| && forall i :: 0 <= i < |ms| ==> ms[i].path == norm(files[i].path)
    requires forall key :: norm(prefix + "/" + key) == key
    requires norm(prefix + ".json") == p.meta.id + ".json"
    requires FilesAt(files, prefix, p, metaJson, tagsJson, objectOrder, otherOrder)
    ensures SectionPaths(ms, files, p, objectOrder, otherOrder)
  {
    var a := 3 + |objectOrder|;
    assert ms[1].path == norm(prefix + "/" + PACK_FILE_NAME);
    assert ms[2].path == norm(prefix + "/" + TAGS_FILE_NAME);
    forall j | 0 <= j < |objectOrder| ensures ms[3 + j].path == objectOrder[j] {
      assert ms[3 + j].path == norm(prefix + "/" + objectOrder[j]);
    }
    forall j | 0 <= j < |otherOrder| ensures ms[a + j].path == otherOrder[j] {
      assert ms[a + j].path == norm(prefix + "/" + otherOrder[j]);
    }
  }

  /** Read back under those keys, the documents route to the metadata and the tags and every key to its own map. */
  lemma SectionsRouted(ms: seq<FileMetaData>, files: seq<File>, p: PackData, objectOrder: seq<string>, otherOrder: seq<string>)
    requires SectionPaths(ms, files, p, objectOrder, otherOrder)
    requires p.meta.id != [] && '/' !in p.meta.id
    requires forall k :: k in p.objectFiles ==> Classify(k) == ToObjects
    requires forall k :: k in p.otherFiles ==> Classify(k) == ToOthers
    ensures Sections(ms, files, p, objectOrder, otherOrder)
  {
    DocumentRoutes(p.meta.id);
    forall j | 0 <= j < |objectOrder| ensures Classify(objectOrder[j]) == ToObjects {
      assert objectOrder[j] in p.objectFiles;
    }
    forall j | 0 <= j < |otherOrder| ensures Classify(otherOrder[j]) == ToOthers {
      assert otherOrder[j] in p.otherFiles;
    }
  }

  /** Every file `to_write` stores is read back under its own key, as a document or into the right map. */
  lemma StoreFiles(p: PackData, codecs: Codecs, objectOrder: seq<string>, otherOrder: seq<string>)
    requires RoundTrippable(p, codecs, objectOrder, otherOrder)
    requires codecs.meta.toJson(p.meta).Some? && codecs.tags.toJson(p.tags).Some?
    ensures var files := FilesFor(p, codecs.meta.toJson(p.meta).value, codecs.tags.toJson(p.tags).value, objectOrder, otherOrder);
            StoreAll(EMPTY_STATE, Normalized(Directory(files)), files, codecs)
              == Ok(ReadState(p.objectFiles, p.otherFiles, Some(p.meta), Some(p.tags)))
  {
    var metaJson := Utf8.Encode(codecs.meta.toJson(p.meta).value);
    var tagsJson := Utf8.Encode(codecs.tags.toJson(p.tags).value);
    var files := PackFiles(p, metaJson, tagsJson, objectOrder, otherOrder);
    PackFilesAt(p, metaJson, tagsJson, objectOrder, otherOrder);
    NormalizedPaths(files);
    var prefix := FilePathPrefix(p.meta.id);
    forall key ensures NormalizePath(prefix + "/" + key) == key {
      NormalizePackPath(p.meta.id, key);
    }
    NormalizeRootJsonPath(p.meta.id);
    PackPaths(Normalized(Directory(files)), files, NormalizePath, prefix, p, metaJson, tagsJson, objectOrder, otherOrder);
    SectionsRouted(Normalized(Directory(files)), files, p, objectOrder, otherOrder);
    ParseSerialised(codecs.meta, p.meta);
    ParseSerialised(codecs.tags, p.tags);
    StoreSections(Normalized(Directory(files)), files, codecs, p, objectOrder, otherOrder);
  }

  /**
   * Any representable file list, written as `to_write` writes it, is read
   * back by `from_read` through the file loop over its own entries, in
   * order, and the whole stream is consumed.
   */
  lemma FilesReadBack(v: Version.GodotVersion, files: seq<File>, codecs: Codecs, st: ReadState, pack: PackData)
    requires Representable(files)
    requires StoreAll(EMPTY_STATE, Normalized(Directory(files)), files, codecs) == Ok(st)
    requires Finish(v, st) == Ok(pack)
    ensures DecodePack(EncodeFiles(v, files), 0, codecs) == Ok(Parsed(pack, [])) && !MagicWarning(EncodeFiles(v, files), 0)
  {
    var body := EncodeDirectory(Directory(files)) + Payloads(files);
    HeaderOfFiles(v, files);
    EntriesOfFiles(files);
    PayloadsOfFiles(files, codecs, st);
    DecodeSteps(EncodeFiles(v, files), codecs, v, |files| as u64, body, Normalized(Directory(files)), Payloads(files), st, pack);
  }

  /** The header of a written file list reads back with its version and its file count. */
  lemma HeaderOfFiles(v: Version.GodotVersion, files: seq<File>)
    requires Representable(files)
    ensures DecodeHeader(EncodeFiles(v, files), 0) == Ok(Parsed((v, |files| as u64), EncodeDirectory(Directory(files)) + Payloads(files)))
    ensures !MagicWarning(EncodeFiles(v, files), 0)
  {
    var front := Header(v) + EncodeI32(|files|);
    assert UsizeAsI32(|files|) == |files|;
    Assoc(front, EncodeDirectory(Directory(files)), Payloads(files));
    HeaderReadsBack(v, |files|, EncodeDirectory(Directory(files)) + Payloads(files));
  }

  /** The directory of a written file list reads back, path by path normalised, up to the first file's contents. */
  lemma EntriesOfFiles(files: seq<File>)
    requires Representable(files)
    ensures DecodeEntries(EncodeDirectory(Directory(files)) + Payloads(files), |files|, [])
         == Ok(Parsed(Normalized(Directory(files)), Payloads(files)))
  {
    DirectoryWritable(files);
    EntriesReadBack(Directory(files), Payloads(files), []);
    assert [] + Normalized(Directory(files)) == Normalized(Directory(files));
  }

  /** The contents of a written file list, read in the directory's order, run the file loop and end the stream. */
  lemma PayloadsOfFiles(files: seq<File>, codecs: Codecs, st: ReadState)
    requires Placeable(files)
    requires StoreAll(EMPTY_STATE, Normalized(Directory(files)), files, codecs) == Ok(st)
    ensures DecodePayloads(Payloads(files), SortByOffset(Normalized(Directory(files))), EMPTY_STATE, codecs) == Ok(Parsed(st, []))
  {
    DirectoryStaysInOrder(files);
    EntrySizes(files);
    assert Payloads(files) + [] == Payloads(files);
    ContentsReadBack(Normalized(Directory(files)), files, [], EMPTY_STATE, codecs);
  }

  /** Every entry of a representable file list's directory can be written without its path length wrapping. */
  lemma DirectoryWritable(files: seq<File>)
    requires Representable(files)
    ensures forall i :: 0 <= i < |Directory(files)| ==> FileMeta.Writable(Directory(files)[i])
  {
    forall i | 0 <= i < |files| ensures FileMeta.Writable(Directory(files)[i]) {
      assert Directory(files)[i].path == files[i].path;
    }
  }

  /** The entries `from_read` sees give each file's contents their own length. */
  lemma EntrySizes(files: seq<File>)
    requires Placeable(files)
    ensures |Normalized(Directory(files))| == |files|
    ensures forall i :: 0 <= i < |files| ==> Normalized(Directory(files))[i].size == |files[i].payload|
  {
    forall i | 0 <= i < |files| ensures Normalized(Directory(files))[i].size == |files[i].payload| {
      NormalizedAt(Directory(files), i);
      LayoutAt(StartOffset(Unplaced(files)), files, i);
    }
  }

  /** `from_read` as its four stages: header, directory, file loop, assembly. */
  lemma DecodeSteps(data: seq<byte>, codecs: Codecs, v: Version.GodotVersion, count: u64, s1: seq<byte>,
                    ms: seq<FileMetaData>, s2: seq<byte>, st: ReadState, pack: PackData)
    requires DecodeHeader(data, 0) == Ok(Parsed((v, count), s1))
    requires DecodeEntries(s1, count as nat, []) == Ok(Parsed(ms, s2))
    requires DecodePayloads(s2, SortByOffset(ms), EMPTY_STATE, codecs) == Ok(Parsed(st, []))
    requires Finish(v, st) == Ok(pack)
    ensures DecodePack(data, 0, codecs) == Ok(Parsed(pack, []))
  {
  }

  /**
   * `from_read(to_write(p)) == p`: the written stream starts with the magic
   * number, and reading it from its first byte gives back every field of the
   * pack and consumes the whole stream.
   */
  lemma ReadAfterWrite(p: PackData, codecs: Codecs, objectOrder: seq<string>, otherOrder: seq<string>)
    requires RoundTrippable(p, codecs, objectOrder, otherOrder)
    requires EncodePack(p, codecs, objectOrder, otherOrder).Ok?
    ensures var bytes := EncodePack(p, codecs, objectOrder, otherOrder).value;
            DecodePack(bytes, 0, codecs) == Ok(Parsed(p, [])) && !MagicWarning(bytes, 0)
  {
    var files := FilesFor(p, codecs.meta.toJson(p.meta).value, codecs.tags.toJson(p.tags).value, objectOrder, otherOrder);
    var st := ReadState(p.objectFiles, p.otherFiles, Some(p.meta), Some(p.tags));
    StoreFiles(p, codecs, objectOrder, otherOrder);
    assert Finish(p.godotVersion, st) == Ok(p);
    FilesReadBack(p.godotVersion, files, codecs, st, p);
  }
}
