/**
 * One directory entry of a pack (src/asset_pack/file_meta_data.rs): a
 * length-prefixed UTF-8 path, the payload's offset and size, and an md5 slot
 * that is read raw and always written as zeros. Two entries compare by their
 * offsets alone.
 */
module FileMeta {
  import opened Wrappers
  import opened Binary
  import opened Stream
  import opened Strings
  import Utf8
  import Utils
  import opened PathUtils

  type Md5 = s: seq<byte> | |s| == 16 witness [0, 0, 0, 0, 0, 0, 0, 0, 0, 0, 0, 0, 0, 0, 0, 0]

  const ZERO_MD5: Md5 := [0, 0, 0, 0, 0, 0, 0, 0, 0, 0, 0, 0, 0, 0, 0, 0]

  datatype FileMetaData = FileMetaData(path: string, offset: u64, size: u64, md5: Md5)

  /** `FileMetaData::new(path, size)` */
  function New(path: string, size: u64): (m: FileMetaData)
    ensures m.path == path && m.size == size
    ensures m.offset == 0 && forall i :: 0 <= i < |m.md5| ==> m.md5[i] == 0
  {
    FileMetaData(path, 0, size, ZERO_MD5)
  }

  // ---- Ordering: `Eq`, `PartialOrd` and `Ord` look at the offset only. ----

  datatype Ordering = Less | Equal | Greater

  /** `a.cmp(&b)` */
  function Cmp(a: FileMetaData, b: FileMetaData): Ordering
  {
    if a.offset < b.offset then Less else if a.offset == b.offset then Equal else Greater
  }

  /** `a == b` */
  predicate Eq(a: FileMetaData, b: FileMetaData)
  {
    a.offset == b.offset
  }

  /** `cmp` is a total preorder that agrees with `eq`, and neither looks at path, size or md5. */
  lemma CmpIsTotalPreorder(a: FileMetaData, b: FileMetaData, c: FileMetaData)
    ensures Cmp(a, b) == Equal <==> Eq(a, b)
    ensures Cmp(a, b) == Less <==> Cmp(b, a) == Greater
    ensures Cmp(a, a) == Equal
    ensures Cmp(a, b) != Greater && Cmp(b, c) != Greater ==> Cmp(a, c) != Greater
    ensures Eq(a, b) <==> a.offset == b.offset
  {
  }

  /** Entries at the same offset are equal even when they name different files. */
  lemma EqIgnoresPath()
    ensures Eq(New("a.png", 1), New("b.png", 2)) && New("a.png", 1) != New("b.png", 2)
  {
  }

  // ---- Path normalisation on read ----

  /**
   * The path `from_read` keeps: every leading `res://` is trimmed, then every
   * leading `packs/`, then everything up to and including the first '/' (the
   * pack id); with no '/' left the whole remainder is kept.
   */
  function NormalizePath(raw: string): string
  {
    var trimmed := TrimStartMatches(TrimStartMatches(raw, RESOURCE_PATH_PREFIX), ASSET_PACK_PREFIX);
    match SplitOnce(trimmed, '/')
    case Some((_, rest)) => rest
    case None => trimmed
  }

  /** Normalisation only ever removes a prefix: the kept path is a suffix of the stored one. */
  lemma NormalizePathSuffix(raw: string)
    ensures EndsWith(raw, NormalizePath(raw))
  {
    var noRes := TrimStartMatches(raw, RESOURCE_PATH_PREFIX);
    var trimmed := TrimStartMatches(noRes, ASSET_PACK_PREFIX);
    TrimStartMatchesSuffix(raw, RESOURCE_PATH_PREFIX);
    TrimStartMatchesSuffix(noRes, ASSET_PACK_PREFIX);
    EndsWithTrans(raw, noRes, trimmed);
    SplitOnceParts(trimmed, '/');
    match SplitOnce(trimmed, '/')
    case Some((head, rest)) =>
      assert trimmed == head + ['/'] + rest;
      EndsWithTrans(raw, trimmed, rest);
    case None =>
  }

  /** `id + "/" + key` starts with `packs/` only for the id `packs` itself. */
  lemma NotPacksPrefixed(id: string, key: string)
    requires '/' !in id && id != "packs"
    ensures !StartsWith(id + "/" + key, ASSET_PACK_PREFIX)
  {
    var s := id + "/" + key;
    if |id| < 5 {
      assert s[|id|] == '/' && ASSET_PACK_PREFIX[|id|] != '/';
    } else if |id| > 5 {
      assert s[5] == id[5] != '/';
    } else {
      assert s[..5] == id != ASSET_PACK_PREFIX[..5];
    }
  }

  /** The path `to_write` gives a pack file, `res://packs/<id>/<key>`, reads back as `<key>`. */
  lemma NormalizePackPath(id: string, key: string)
    requires '/' !in id && id != "packs"
    ensures NormalizePath(RESOURCE_PATH_PREFIX + ASSET_PACK_PREFIX + id + "/" + key) == key
  {
    var inner := id + "/" + key;
    var afterRes := ASSET_PACK_PREFIX + inner;
    assert RESOURCE_PATH_PREFIX + ASSET_PACK_PREFIX + id + "/" + key == RESOURCE_PATH_PREFIX + afterRes;
    assert afterRes[0] != RESOURCE_PATH_PREFIX[0];
    TrimOnce(afterRes, RESOURCE_PATH_PREFIX);
    NotPacksPrefixed(id, key);
    TrimOnce(inner, ASSET_PACK_PREFIX);
    SplitOnceJoined(id, '/', key);
  }

  /** The root document's path, `res://packs/<id>.json`, reads back as `<id>.json`. */
  lemma NormalizeRootJsonPath(id: string)
    requires '/' !in id
    ensures NormalizePath(RESOURCE_PATH_PREFIX + ASSET_PACK_PREFIX + id + ".json") == id + ".json"
  {
    var name := id + ".json";
    assert '/' !in name by {
      assert forall i :: 0 <= i < |name| ==> name[i] == if i < |id| then id[i] else ".json"[i - |id|];
    }
    var afterRes := ASSET_PACK_PREFIX + name;
    assert RESOURCE_PATH_PREFIX + ASSET_PACK_PREFIX + id + ".json" == RESOURCE_PATH_PREFIX + afterRes;
    assert afterRes[0] != RESOURCE_PATH_PREFIX[0];
    TrimOnce(afterRes, RESOURCE_PATH_PREFIX);
    assert |name| < 6 || name[5] != ASSET_PACK_PREFIX[5];
    TrimOnce(name, ASSET_PACK_PREFIX);
    SplitOnceParts(name, '/');
  }

  /** The case of the source's unit test: a `res://` path without `packs/` still loses its first segment. */
  lemma NormalizeExample()
    ensures NormalizePath("res://X3DLFK/test/bla.txt") == "test/bla.txt"
  {
    var id, key := "X3DLFK", "test/bla.txt";
    var inner := id + "/" + key;
    assert "res://X3DLFK/test/bla.txt" == RESOURCE_PATH_PREFIX + inner;
    assert inner[0] != RESOURCE_PATH_PREFIX[0] && inner[0] != ASSET_PACK_PREFIX[0];
    TrimOnce(inner, RESOURCE_PATH_PREFIX);
    TrimNothing(inner, ASSET_PACK_PREFIX);
    SplitOnceJoined(id, '/', key);
  }

  /**
   * Because every repetition of `packs/` is trimmed, a pack whose id is `packs`
   * loses one more segment: its file `<dir>/<name>` reads back as `<name>`.
   */
  lemma NormalizePacksId(dir: string, name: string)
    requires '/' !in dir && dir != "packs"
    ensures NormalizePath(RESOURCE_PATH_PREFIX + ASSET_PACK_PREFIX + "packs" + "/" + (dir + "/" + name)) == name
  {
    var inner := dir + "/" + name;
    var twice := ASSET_PACK_PREFIX + inner;
    var afterRes := ASSET_PACK_PREFIX + twice;
    assert RESOURCE_PATH_PREFIX + ASSET_PACK_PREFIX + "packs" + "/" + inner == RESOURCE_PATH_PREFIX + afterRes;
    assert TrimStartMatches(RESOURCE_PATH_PREFIX + afterRes, RESOURCE_PATH_PREFIX) == afterRes by {
      assert afterRes[0] != RESOURCE_PATH_PREFIX[0];
      TrimOnce(afterRes, RESOURCE_PATH_PREFIX);
    }
    assert TrimStartMatches(afterRes, ASSET_PACK_PREFIX) == inner by {
      assert StartsWith(afterRes, ASSET_PACK_PREFIX) && afterRes[|ASSET_PACK_PREFIX|..] == twice;
      NotPacksPrefixed(dir, name);
      TrimOnce(inner, ASSET_PACK_PREFIX);
    }
    SplitOnceJoined(dir, '/', name);
  }

  // ---- Encoding ----

  /** The path's byte length fits the i32 length prefix, so `path.len() as i32` keeps it. */
  predicate Writable(m: FileMetaData)
  {
    |Utf8.Encode(m.path)| < TWO_31
  }

  /** `calculate_binary_size`: the length prefix, the path bytes, offset and size, and the md5 slot. */
  function BinarySize(m: FileMetaData): nat
  {
    Utils.I32 + |Utf8.Encode(m.path)| + Utils.I64 * 2 + Utils.MD5_BYTES
  }

  /**
   * The bytes `to_write` emits: the length prefix is `path.len() as i32`, which
   * wraps for paths of 2^31 bytes or more; the stored md5 is ignored and zeros
   * are written in its place.
   */
  function Encode(m: FileMetaData): (r: seq<byte>)
    ensures |r| == BinarySize(m)
  {
    EncodeI32(UsizeAsI32(|Utf8.Encode(m.path)|)) + Utf8.Encode(m.path) + EncodeU64(m.offset) + EncodeU64(m.size) + ZERO_MD5
  }

  /** The path length an entry starting with `s` declares: its i32 prefix, cast `as usize`. */
  function PathLength(s: seq<byte>): nat
    requires 4 <= |s|
  {
    I32AsU64(DecodeI32(s[..4]))
  }

  /**
   * What `from_read` reads from the front of the stream. The i32 length is cast
   * to usize as Rust does (a negative length becomes a huge one, which no
   * stream can satisfy); offset and size are i64 values cast to u64/usize.
   */
  function Decode(s: seq<byte>): (r: Result<Parsed<FileMetaData>>)
    ensures r.Ok? ==> 4 <= |s| && |r.value.rest| + Utils.I32 + PathLength(s) + Utils.I64 * 2 + Utils.MD5_BYTES == |s|
    ensures r.Err? ==> r.error in {UnexpectedEof, InvalidUtf8}
  {
    match TakeI32(s)
    case Err(e) => Err(e)
    case Ok(Parsed(length, s1)) =>
      match Utils.TakeString(s1, I32AsU64(length))
      case Err(e) => Err(e)
      case Ok(Parsed(raw, s2)) =>
        match TakeI64(s2)
        case Err(e) => Err(e)
        case Ok(Parsed(offset, s3)) =>
          match TakeI64(s3)
          case Err(e) => Err(e)
          case Ok(Parsed(size, s4)) =>
            match TakeBytes(s4, Utils.MD5_BYTES)
            case Err(e) => Err(e)
            case Ok(Parsed(md5, s5)) =>
              Ok(Parsed(FileMetaData(NormalizePath(raw), I64AsU64(offset), I64AsU64(size), md5), s5))
  }

  /**
   * What `from_read` does on any bytes, in terms of their positions: it
   * succeeds exactly when the declared path length fits, the path is UTF-8
   * and 32 bytes follow; the entry holds the normalised path, the i64 offset
   * and size cast to u64, and the md5 bytes as they are; a failure is invalid
   * UTF-8 when the path bytes are all there, and end-of-stream otherwise.
   */
  lemma DecodeFields(s: seq<byte>)
    ensures Decode(s).Ok? <==> 4 <= |s| && 36 + PathLength(s) <= |s| && Utf8.Decode(s[4..4 + PathLength(s)]).Some?
    ensures Decode(s).Ok? ==>
              var n := PathLength(s);
              && Decode(s).value.rest == s[36 + n..]
              && Decode(s).value.value == FileMetaData(NormalizePath(Utf8.Decode(s[4..4 + n]).value),
                                                       I64AsU64(DecodeI64(s[4 + n..12 + n])),
                                                       I64AsU64(DecodeI64(s[12 + n..20 + n])),
                                                       s[20 + n..36 + n])
    ensures Decode(s).Err? ==>
              Decode(s).error == if 4 <= |s| && 4 + PathLength(s) <= |s| && Utf8.Decode(s[4..4 + PathLength(s)]).None?
                                 then InvalidUtf8 else UnexpectedEof
  {
    if 4 <= |s| {
      var n := PathLength(s);
      var s1 := s[4..];
      assert TakeI32(s) == Ok(Parsed(DecodeI32(s[..4]), s1));
      if n <= |s1| {
        assert s1[..n] == s[4..4 + n];
        var s2 := s[4 + n..];
        assert s1[n..] == s2;
        if 32 <= |s2| {
          assert s2[..8] == s[4 + n..12 + n];
          assert s2[8..][..8] == s[12 + n..20 + n];
          assert s2[8..][8..][..16] == s[20 + n..36 + n];
          assert s2[8..][8..][16..] == s[36 + n..];
        }
      }
    }
  }

  /** The entry `from_read` returns for one that `to_write` wrote: normalised path, zero md5. */
  function ReadBack(m: FileMetaData): (r: FileMetaData)
    ensures r.offset == m.offset && r.size == m.size && r.md5 == ZERO_MD5
  {
    FileMetaData(NormalizePath(m.path), m.offset, m.size, ZERO_MD5)
  }

  /**
   * Decoding an encoded entry gives back its normalised path, its offset and
   * size, and a zero md5, and consumes exactly `calculate_binary_size` bytes.
   */
  lemma RoundTrip(m: FileMetaData, rest: seq<byte>)
    requires Writable(m)
    ensures Decode(Encode(m) + rest) == Ok(Parsed(ReadBack(m), rest))
  {
    var p := Utf8.Encode(m.path);
    var len := EncodeI32(|p|);
    var off, size := EncodeU64(m.offset), EncodeU64(m.size);
    assert Encode(m) + rest == len + (p + (off + (size + (ZERO_MD5 + rest))));
    ReadWrittenI32(|p|, p + (off + (size + (ZERO_MD5 + rest))));
    Utils.ReadStringWritten(m.path, off + (size + (ZERO_MD5 + rest)));
    ReadWrittenU64(m.offset, size + (ZERO_MD5 + rest));
    ReadWrittenU64(m.size, ZERO_MD5 + rest);
    ReadWritten(ZERO_MD5, rest);
  }

  method FromRead(r: Reader) returns (res: Result<FileMetaData>)
    modifies r
    ensures Follows(res, r.Rest(), Decode(old(r.Rest())))
  {
    var pathLength := r.ReadI32();
    if pathLength.Err? { return Err(pathLength.error); }
    var raw := Utils.ReadString(r, I32AsU64(pathLength.value));
    if raw.Err? { return Err(raw.error); }
    var path := NormalizePath(raw.value);
    var offset := r.ReadI64();
    if offset.Err? { return Err(offset.error); }
    var size := r.ReadI64();
    if size.Err? { return Err(size.error); }
    var md5 := r.ReadExact(Utils.MD5_BYTES);
    if md5.Err? { return Err(md5.error); }
    res := Ok(FileMetaData(path, I64AsU64(offset.value), I64AsU64(size.value), md5.value));
  }

  method ToWrite(m: FileMetaData, w: Writer)
    modifies w
    ensures w.out == old(w.out) + Encode(m)
  {
    var bytes := Utf8.Encode(m.path);
    w.WriteI32(UsizeAsI32(|bytes|));
    w.WriteAll(bytes);
    w.WriteU64AsI64(m.offset);
    w.WriteU64AsI64(m.size);
    w.WriteAll(ZERO_MD5);
  }
}
