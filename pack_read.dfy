/**
 * What `AssetPack::from_read` computes (src/asset_pack/asset_pack.rs), as
 * functions of the stream's bytes: the header, the directory, the directory
 * sorted by offset, then each file's contents read one after the other and
 * routed by its path.
 */
module PackRead {
  import opened Wrappers
  import opened Binary
  import opened Stream
  import Utf8
  import Utils
  import opened FileMeta
  import opened PathUtils
  import Version
  import opened Json
  import opened AssetTags
  import opened Sorting
  import opened PackFormat

  /** Where `from_read` puts a file, decided by its normalised path, first matching test first. */
  datatype Route = ToMeta | ToTags | ToObjects | ToOthers | Skipped

  function Classify(path: string): (r: Route)
    ensures r == ToMeta <==> IsRootJsonFile(path)
    ensures r == ToTags <==> !IsRootJsonFile(path) && IsTagsFile(path)
    ensures r == ToObjects <==> !IsRootJsonFile(path) && !IsTagsFile(path) && IsObjectsFile(path)
    ensures r == ToOthers <==> !IsRootJsonFile(path) && !IsTagsFile(path) && !IsObjectsFile(path) && !IsPackFile(path)
  {
    if IsRootJsonFile(path) then ToMeta
    else if IsTagsFile(path) then ToTags
    else if IsObjectsFile(path) then ToObjects
    else if !IsPackFile(path) then ToOthers
    else Skipped
  }

  /** The local variables of the file loop. */
  datatype ReadState = ReadState(
    objectFiles: map<string, seq<byte>>,
    otherFiles: map<string, seq<byte>>,
    maybeMeta: Option<PackMeta>,
    maybeTags: Option<Tags>)

  const EMPTY_STATE: ReadState := ReadState(map[], map[], None, None)

  /** A JSON document's bytes: UTF-8 text that the parser accepts; on refusal the error carries the text. */
  function ParseDocument<T(!new)>(c: JsonCodec<T>, bytes: seq<byte>): (r: Result<T>)
    ensures r.Err? ==> r.error == InvalidUtf8 || r.error.SchemaError?
    ensures r.Ok? <==> Utf8.Decode(bytes).Some? && c.fromJson(Utf8.Decode(bytes).value).Some?
  {
    match Utf8.Decode(bytes)
    case None => Err(InvalidUtf8)
    case Some(text) =>
      match c.fromJson(text)
      case None => Err(SchemaError(text))
      case Some(x) => Ok(x)
  }

  /** The text a lawful serialiser produced, stored as UTF-8, parses back to the value serialised. */
  lemma ParseSerialised<T(!new)>(c: JsonCodec<T>, x: T)
    requires Lawful(c) && c.toJson(x).Some?
    ensures ParseDocument(c, Utf8.Encode(c.toJson(x).value)) == Ok(x)
  {
    Utf8.DecodeEncode(c.toJson(x).value);
  }

  /** One pass of the file loop: the file at `path` with contents `bytes`. A later document replaces an earlier one. */
  function Store(st: ReadState, path: string, bytes: seq<byte>, codecs: Codecs): (r: Result<ReadState>)
    ensures r.Ok? && Classify(path) == ToObjects ==> r.value == st.(objectFiles := st.objectFiles[path := bytes])
    ensures r.Ok? && Classify(path) == ToOthers ==> r.value == st.(otherFiles := st.otherFiles[path := bytes])
    ensures Classify(path) == Skipped ==> r == Ok(st)
    ensures r.Ok? && Classify(path) in {ToMeta, ToTags} ==> r.value.objectFiles == st.objectFiles && r.value.otherFiles == st.otherFiles
    ensures r.Err? ==> Classify(path) in {ToMeta, ToTags}
  {
    match Classify(path)
    case ToMeta =>
      (match ParseDocument(codecs.meta, bytes)
       case Err(e) => Err(e)
       case Ok(m) => Ok(st.(maybeMeta := Some(m))))
    case ToTags =>
      (match ParseDocument(codecs.tags, bytes)
       case Err(e) => Err(e)
       case Ok(t) => Ok(st.(maybeTags := Some(t))))
    case ToObjects => Ok(st.(objectFiles := st.objectFiles[path := bytes]))
    case ToOthers => Ok(st.(otherFiles := st.otherFiles[path := bytes]))
    case Skipped => Ok(st)
  }

  /** The file loop: each entry's `size` bytes are read in turn from the front of the stream and stored. */
  function DecodePayloads(s: seq<byte>, ms: seq<FileMetaData>, st: ReadState, codecs: Codecs): Result<Parsed<ReadState>>
    decreases |ms|
  {
    if ms == [] then Ok(Parsed(st, s))
    else
      match TakeBytes(s, ms[0].size)
      case Err(e) => Err(e)
      case Ok(Parsed(bytes, rest)) =>
        match Store(st, ms[0].path, bytes, codecs)
        case Err(e) => Err(e)
        case Ok(st') => DecodePayloads(rest, ms[1..], st', codecs)
  }

  /** The directory loop: `n` entries read one after the other, appended to `acc`. */
  function DecodeEntries(s: seq<byte>, n: nat, acc: seq<FileMetaData>): Result<Parsed<seq<FileMetaData>>>
  {
    ReadMany(FileMeta.Decode, s, n, acc)
  }

  /**
   * The magic number is read where the cursor `pos` stands; the version, the
   * reserved space and the file count are read after seeking to byte 4.
   */
  function DecodeHeader(data: seq<byte>, pos: nat): (r: Result<Parsed<(Version.GodotVersion, u64)>>)
    ensures r.Ok? <==> pos + 4 <= |data| && 88 <= |data|
    ensures r.Err? ==> r.error == UnexpectedEof
    ensures r.Ok? ==> |r.value.rest| == |data| - (|Utils.ASSET_PACK_MAGIC_FILE_HEADER| + Version.SizeInBytes() + Utils.GODOT_METADATA_RESERVED_SPACE + Utils.I32)
    ensures r.Ok? ==> r.value.rest == data[88..]
    ensures r.Ok? ==> r.value.value == (Version.Decode(data[4..]).value.value, I32AsU64(DecodeI32(data[84..88])))
  {
    match TakeBytes(From(data, pos), |Utils.ASSET_PACK_MAGIC_FILE_HEADER|)
    case Err(e) => Err(e)
    case Ok(_) =>
      match Version.Decode(From(data, |Utils.ASSET_PACK_MAGIC_FILE_HEADER|))
      case Err(e) => Err(e)
      case Ok(Parsed(v, s1)) =>
        match TakeBytes(s1, Utils.GODOT_METADATA_RESERVED_SPACE)
        case Err(e) => Err(e)
        case Ok(Parsed(_, s2)) =>
          match TakeI32(s2)
          case Err(e) => Err(e)
          case Ok(Parsed(count, s3)) =>
            assert From(data, |Utils.ASSET_PACK_MAGIC_FILE_HEADER|) == data[4..];
            assert s1 == data[20..] && s2 == data[84..] && s2[..4] == data[84..88];
            Ok(Parsed((v, I32AsU64(count)), s3))
  }

  /** `from_read` logs a warning, and carries on, when the four bytes at the cursor are not "GDPC". */
  predicate MagicWarning(data: seq<byte>, pos: nat)
  {
    pos + 4 <= |data| && data[pos..pos + 4] != Utils.ASSET_PACK_MAGIC_FILE_HEADER
  }

  /** The pack assembled after the file loop: no metadata document is an error, no tags document means no tags. */
  function Finish(v: Version.GodotVersion, st: ReadState): (r: Result<PackData>)
    ensures r.Ok? <==> st.maybeMeta.Some?
    ensures r.Err? ==> r.error == MissingPackMeta
    ensures r.Ok? ==> r.value.objectFiles == st.objectFiles && r.value.otherFiles == st.otherFiles
    ensures r.Ok? ==> r.value.tags == if st.maybeTags.Some? then st.maybeTags.value else AssetTags.New()
  {
    match st.maybeMeta
    case None => Err(MissingPackMeta)
    case Some(meta) =>
      var tags := match st.maybeTags case Some(t) => t case None => AssetTags.New();
      Ok(PackData(v, meta, tags, st.objectFiles, st.otherFiles))
  }

  /** Everything `from_read` does, with the cursor at `pos`; the result carries the bytes left unread. */
  function DecodePack(data: seq<byte>, pos: nat, codecs: Codecs): Result<Parsed<PackData>>
  {
    match DecodeHeader(data, pos)
    case Err(e) => Err(e)
    case Ok(Parsed((v, n), s1)) =>
      match DecodeEntries(s1, n, [])
      case Err(e) => Err(e)
      case Ok(Parsed(ms, s2)) =>
        match DecodePayloads(s2, SortByOffset(ms), EMPTY_STATE, codecs)
        case Err(e) => Err(e)
        case Ok(Parsed(st, s3)) =>
          match Finish(v, st)
          case Err(e) => Err(e)
          case Ok(pack) => Ok(Parsed(pack, s3))
  }

  /** A stream shorter than the 88-byte header and count is refused before any file is looked at. */
  lemma ShortStream(data: seq<byte>, codecs: Codecs)
    requires |data| < 88
    ensures DecodePack(data, 0, codecs) == Err(UnexpectedEof)
  {
  }

  /** A pack without a root metadata document is refused even when everything else reads. */
  lemma NoMetaDocument(data: seq<byte>, pos: nat, codecs: Codecs)
    requires DecodeHeader(data, pos).Ok?
    requires var h := DecodeHeader(data, pos).value;
             DecodeEntries(h.rest, h.value.1, []).Ok?
    requires var h := DecodeHeader(data, pos).value;
             var ms := DecodeEntries(h.rest, h.value.1, []).value.value;
             forall i :: 0 <= i < |ms| ==> Classify(ms[i].path) != ToMeta
    ensures DecodePack(data, pos, codecs).Err?
  {
    var h := DecodeHeader(data, pos).value;
    var e := DecodeEntries(h.rest, h.value.1, []).value;
    SortFacts(e.value);
    var sorted := SortByOffset(e.value);
    forall i | 0 <= i < |sorted| ensures Classify(sorted[i].path) != ToMeta {
      assert sorted[i] in multiset(e.value);
    }
    NoMetaStaysNone(e.rest, sorted, EMPTY_STATE, codecs);
  }

  lemma {:induction false} NoMetaStaysNone(s: seq<byte>, ms: seq<FileMetaData>, st: ReadState, codecs: Codecs)
    requires st.maybeMeta.None?
    requires forall i :: 0 <= i < |ms| ==> Classify(ms[i].path) != ToMeta
    ensures DecodePayloads(s, ms, st, codecs).Ok? ==> DecodePayloads(s, ms, st, codecs).value.value.maybeMeta.None?
    decreases |ms|
  {
    if ms != [] {
      match TakeBytes(s, ms[0].size)
      case Err(_) =>
      case Ok(Parsed(bytes, rest)) =>
        match Store(st, ms[0].path, bytes, codecs)
        case Err(_) =>
        case Ok(st') =>
          assert st'.maybeMeta.None?;
          NoMetaStaysNone(rest, ms[1..], st', codecs);
    }
  }

  /** Every kept object file was routed to the object files, and every other kept file to the other files. */
  predicate Routed(st: ReadState)
  {
    && (forall k :: k in st.objectFiles ==> Classify(k) == ToObjects)
    && (forall k :: k in st.otherFiles ==> Classify(k) == ToOthers)
  }

  /** The file loop only ever puts a path into the map its classification names. */
  lemma {:induction false} RoutedStays(s: seq<byte>, ms: seq<FileMetaData>, st: ReadState, codecs: Codecs)
    requires Routed(st)
    ensures DecodePayloads(s, ms, st, codecs).Ok? ==> Routed(DecodePayloads(s, ms, st, codecs).value.value)
    decreases |ms|
  {
    if ms != [] {
      match TakeBytes(s, ms[0].size)
      case Err(_) =>
      case Ok(Parsed(bytes, rest)) =>
        match Store(st, ms[0].path, bytes, codecs)
        case Err(_) =>
        case Ok(st') =>
          assert Routed(st');
          RoutedStays(rest, ms[1..], st', codecs);
    }
  }

  /**
   * The two file maps of a pack that was read are disjoint; neither holds the
   * metadata or the tags document; every object file starts with
   * `textures/objects/`, and no other file does or is named `pack.json`.
   */
  lemma PackRouted(data: seq<byte>, pos: nat, codecs: Codecs)
    ensures DecodePack(data, pos, codecs).Ok? ==>
              var p := DecodePack(data, pos, codecs).value.value;
              && p.objectFiles.Keys !! p.otherFiles.Keys
              && (forall k :: k in p.objectFiles ==> !IsRootJsonFile(k) && !IsTagsFile(k) && IsObjectsFile(k))
              && (forall k :: k in p.otherFiles ==> !IsRootJsonFile(k) && !IsTagsFile(k) && !IsObjectsFile(k) && !IsPackFile(k))
  {
    match DecodeHeader(data, pos)
    case Err(_) =>
    case Ok(Parsed((v, n), s1)) =>
      match DecodeEntries(s1, n, [])
      case Err(_) =>
      case Ok(Parsed(ms, s2)) =>
        RoutedStays(s2, SortByOffset(ms), EMPTY_STATE, codecs);
  }
}
