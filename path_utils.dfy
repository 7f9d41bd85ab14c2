/**
 * Path constants and the predicates that route a normalised entry path
 * (src/asset_pack/path_utils.rs). `is_root_json_file` and `is_pack_file` go
 * through Rust's `std::path::Path`, whose Unix rules for components, file
 * names, parents and extensions are modelled below; `is_tags_file` and
 * `is_objects_file` are plain string tests.
 */
module PathUtils {
  import opened Wrappers
  import opened Strings

  const RESOURCE_PATH_PREFIX: string := "res://"
  const ASSET_PACK_PREFIX: string := "packs/"
  const PACK_FILE_NAME: string := "pack.json"
  const TAGS_FILE_NAME: string := "data/default.dungeondraft_tags"
  const OBJECT_FILES_PREFIX: string := "textures/objects/"

  /** `std::path::Component` on Unix (there are no prefixes). */
  datatype Component = RootDir | CurDir | ParentDir | Normal(name: string)

  /** The component a '/'-separated piece contributes: empty pieces and "." vanish. */
  function PieceComponents(pieces: seq<string>): seq<Component>
  {
    if pieces == [] then []
    else
      var head := if pieces[0] == "" || pieces[0] == "." then []
                  else if pieces[0] == ".." then [ParentDir]
                  else [Normal(pieces[0])];
      head + PieceComponents(pieces[1..])
  }

  /**
   * `Path::components()`: a leading '/' is the root; a leading "." piece of a
   * relative path is the current directory; any other "." and every empty piece
   * (from repeated or trailing slashes) is skipped.
   */
  function Components(p: string): seq<Component>
  {
    var pieces := Split(p, '/');
    if StartsWith(p, "/") then [RootDir] + PieceComponents(pieces[1..])
    else if pieces[0] == "." then [CurDir] + PieceComponents(pieces[1..])
    else PieceComponents(pieces)
  }

  /** `Path::file_name()`: the last component, when it is a normal one. */
  function FileName(p: string): Option<string>
  {
    var cs := Components(p);
    if cs != [] && cs[|cs| - 1].Normal? then Some(cs[|cs| - 1].name) else None
  }

  /** The components of `Path::parent()`, which is absent for the root and for the empty path. */
  function Parent(p: string): Option<seq<Component>>
  {
    var cs := Components(p);
    if cs == [] || cs[|cs| - 1] == RootDir then None else Some(cs[..|cs| - 1])
  }

  /** `Path::extension()`: the text after the last '.', unless that dot starts the name. */
  function Extension(p: string): Option<string>
  {
    match FileName(p)
    case None => None
    case Some(name) =>
      match LastIndexOf(name, '.')
      case None => None
      case Some(i) => if i == 0 then None else Some(name[i + 1..])
  }

  /** `is_root_json_file`: a `.json` extension and the empty path as parent. */
  predicate IsRootJsonFile(p: string)
  {
    Extension(p) == Some("json") && Parent(p) == Some([])
  }

  /** `is_pack_file`: the file name is `pack.json`, whatever the parent. */
  predicate IsPackFile(p: string)
  {
    FileName(p) == Some(PACK_FILE_NAME)
  }

  /** `is_tags_file` */
  predicate IsTagsFile(p: string)
  {
    EndsWith(p, TAGS_FILE_NAME)
  }

  /** `is_objects_file` */
  predicate IsObjectsFile(p: string)
  {
    StartsWith(p, OBJECT_FILES_PREFIX)
  }

  /** A name that makes exactly one normal component. */
  predicate PlainName(s: string)
  {
    s != "" && s != "." && s != ".." && '/' !in s
  }

  /** A single plain name is one normal component, with the empty path as parent. */
  lemma SingleName(name: string)
    requires PlainName(name)
    ensures Components(name) == [Normal(name)]
    ensures FileName(name) == Some(name) && Parent(name) == Some([])
  {
    SplitOnceParts(name, '/');
    assert Split(name, '/') == [name];
    assert PieceComponents([name]) == [Normal(name)] + PieceComponents([]);
  }

  /** `dir/name` for two plain names is two normal components. */
  lemma TwoNames(dir: string, name: string)
    requires PlainName(dir) && PlainName(name)
    ensures Components(dir + "/" + name) == [Normal(dir), Normal(name)]
    ensures FileName(dir + "/" + name) == Some(name) && Parent(dir + "/" + name) == Some([Normal(dir)])
  {
    var p := dir + "/" + name;
    SplitJoined(dir, '/', name);
    SplitOnceParts(name, '/');
    assert Split(name, '/') == [name];
    assert p[0] == dir[0];
    assert PieceComponents([name]) == [Normal(name)] + PieceComponents([]);
    assert PieceComponents([dir, name]) == [Normal(dir)] + PieceComponents([name]);
  }

  /** The extension of a plain name `stem.ext` with a non-empty stem and a dot-free `ext`. */
  lemma ExtensionOfName(stem: string, ext: string)
    requires stem != [] && '.' !in ext && PlainName(stem + "." + ext)
    ensures Extension(stem + "." + ext) == Some(ext)
  {
    var name := stem + "." + ext;
    SingleName(name);
    assert name[|stem|] == '.' && name[|stem| + 1..] == ext;
    LastIndexOfLast(name, '.');
    var i := LastIndexOf(name, '.').value;
    assert i == |stem|;
  }

  /** `<id>.json` is the root json document of pack `<id>`, for every non-empty id without '/'. */
  lemma RootJsonName(id: string)
    requires id != [] && '/' !in id
    ensures IsRootJsonFile(id + ".json")
  {
    var name := id + ".json";
    assert name == id + "." + "json";
    assert '/' !in name by {
      assert forall i :: 0 <= i < |name| ==> name[i] == if i < |id| then id[i] else ".json"[i - |id|];
    }
    assert name[|name| - 1] == 'n';
    ExtensionOfName(id, "json");
    SingleName(name);
  }

  /** A bare `pack.json` is a root json document as well as a pack file. */
  lemma BarePackFile()
    ensures IsRootJsonFile(PACK_FILE_NAME) && IsPackFile(PACK_FILE_NAME)
  {
    PackFileIsRootJson();
    PackFileIsPlain();
    SingleName(PACK_FILE_NAME);
  }

  lemma PackFileIsRootJson()
    ensures IsRootJsonFile(PACK_FILE_NAME)
  {
    assert PACK_FILE_NAME == "pack" + ".json";
    RootJsonName("pack");
  }

  lemma PackFileIsPlain()
    ensures PlainName(PACK_FILE_NAME)
  {
    assert forall i :: 0 <= i < |PACK_FILE_NAME| ==> PACK_FILE_NAME[i] != '/';
  }

  /** `pack.json` inside a directory is a pack file but not a root json document. */
  lemma NestedPackFile(dir: string)
    requires PlainName(dir)
    ensures IsPackFile(dir + "/" + PACK_FILE_NAME) && !IsRootJsonFile(dir + "/" + PACK_FILE_NAME)
  {
    TwoNames(dir, PACK_FILE_NAME);
  }

  /** The tags document's own path is a tags file and neither a root json document nor an object file. */
  lemma TagsFileName()
    ensures IsTagsFile(TAGS_FILE_NAME) && !IsRootJsonFile(TAGS_FILE_NAME) && !IsObjectsFile(TAGS_FILE_NAME)
  {
    TagsFileParts();
    TwoNames("data", "default.dungeondraft_tags");
    assert TAGS_FILE_NAME[0] != OBJECT_FILES_PREFIX[0];
  }

  lemma TagsFileParts()
    ensures TAGS_FILE_NAME == "data" + "/" + "default.dungeondraft_tags"
    ensures PlainName("data") && PlainName("default.dungeondraft_tags")
  {
    TagsFileSplit();
    TagsBaseNamePlain();
  }

  lemma TagsFileSplit()
    ensures TAGS_FILE_NAME == "data" + "/" + "default.dungeondraft_tags"
  {
  }

  lemma TagsBaseNamePlain()
    ensures PlainName("data") && PlainName("default.dungeondraft_tags")
  {
    var name := "default.dungeondraft_tags";
    assert forall i :: 0 <= i < |name| ==> name[i] != '/';
  }

  /** The cases of the source's unit test for `is_root_json_file`. */
  lemma RootJsonExample()
    ensures IsRootJsonFile("8UWKyQPf.json")
  {
    RootJsonName("8UWKyQPf");
    assert "8UWKyQPf" + ".json" == "8UWKyQPf.json";
  }

  lemma NestedJsonExample()
    ensures !IsRootJsonFile("bla/8UWKyQPf.json")
  {
    assert "bla/8UWKyQPf.json" == "bla" + "/" + "8UWKyQPf.json";
    TwoNames("bla", "8UWKyQPf.json");
  }

  lemma TxtExample()
    ensures !IsRootJsonFile("8UWKyQPf.txt")
  {
    assert "8UWKyQPf.txt" == "8UWKyQPf" + "." + "txt";
    ExtensionOfName("8UWKyQPf", "txt");
  }
}
