/**
 * The tags document of a pack (src/asset_pack/tags.rs): tag name to the object
 * files carrying it, and tag-set name to the tags it groups. Its `Display`
 * walks the hash maps in their iteration order, which the model receives as
 * parameters.
 */
module AssetTags {

  datatype Tags = Tags(tags: map<string, set<string>>, sets: map<string, set<string>>)

  /** `Tags::new()` */
  function New(): (t: Tags)
    ensures |t.tags| == 0 && |t.sets| == 0
  {
    Tags(map[], map[])
  }

  /** `order` lists every element of `s` exactly once: one iteration order of a hash set or of a map's keys. */
  predicate Enumerates(order: seq<string>, s: set<string>)
  {
    (forall x :: x in order ==> x in s) && (forall x :: x in s ==> x in order) &&
      forall i, j :: 0 <= i < j < |order| ==> order[i] != order[j]
  }

  /** Iteration orders for a tag map: one for its keys and, per tag, one for its files. */
  predicate Orders(tags: map<string, set<string>>, order: seq<string>, fileOrder: map<string, seq<string>>)
  {
    Enumerates(order, tags.Keys) && forall t :: t in tags ==> t in fileOrder && Enumerates(fileOrder[t], tags[t])
  }

  const INDENT: string := "    "

  /** One item of a listing: quoted in the "Tags:" section, bare in the "Tag sets:" section. */
  function Item(name: string, quoted: bool): string
  {
    if quoted then "'" + name + "', " else name + ", "
  }

  function Items(names: seq<string>, quoted: bool): string
  {
    if names == [] then "" else Items(names[..|names| - 1], quoted) + Item(names[|names| - 1], quoted)
  }

  function Line(name: string, members: seq<string>, quoted: bool): string
  {
    INDENT + INDENT + name + ": [ " + Items(members, quoted) + " ]\n"
  }

  function Lines(keys: seq<string>, fileOrder: map<string, seq<string>>, quoted: bool): string
    requires forall k :: k in keys ==> k in fileOrder
  {
    if keys == [] then ""
    else Lines(keys[..|keys| - 1], fileOrder, quoted) + Line(keys[|keys| - 1], fileOrder[keys[|keys| - 1]], quoted)
  }

  /**
   * The text `Display` produces. Both sections walk `tags`: the one headed
   * "Tag sets:" lists every tag with its files again, without quotes, and the
   * sets themselves are never shown.
   */
  function Render(t: Tags, order: seq<string>, fileOrder: map<string, seq<string>>): string
    requires Orders(t.tags, order, fileOrder)
  {
    "Tag and tag sets:\n" + "\n" + INDENT + "Tags:\n" + Lines(order, fileOrder, true)
      + "\n" + INDENT + "Tag sets:\n" + Lines(order, fileOrder, false)
  }

  /** The rendering does not depend on the tag sets at all. */
  lemma RenderIgnoresSets(t: Tags, sets: map<string, set<string>>, order: seq<string>, fileOrder: map<string, seq<string>>)
    requires Orders(t.tags, order, fileOrder)
    ensures Render(Tags(t.tags, sets), order, fileOrder) == Render(t, order, fileOrder)
  {
  }

  /** A document without tags renders as the two headings only, whatever its sets. */
  lemma RenderNoTags(sets: map<string, set<string>>)
    ensures Orders(map[], [], map[])
    ensures Render(Tags(map[], sets), [], map[]) == "Tag and tag sets:\n\n    Tags:\n\n    Tag sets:\n"
  {
  }

  /** `impl Display for Tags`, writing into a string. */
  method Display(t: Tags, order: seq<string>, fileOrder: map<string, seq<string>>) returns (f: string)
    requires Orders(t.tags, order, fileOrder)
    ensures f == Render(t, order, fileOrder)
  {
    f := "Tag and tag sets:\n" + "\n" + INDENT + "Tags:\n";
    f := WriteLines(f, order, fileOrder, true);
    f := f + "\n" + INDENT + "Tag sets:\n";
    f := WriteLines(f, order, fileOrder, false);
  }

  /** The loop over the tag map: one line per tag, in iteration order. */
  method WriteLines(f0: string, keys: seq<string>, fileOrder: map<string, seq<string>>, quoted: bool) returns (f: string)
    requires forall k :: k in keys ==> k in fileOrder
    ensures f == f0 + Lines(keys, fileOrder, quoted)
  {
    f := f0;
    var i := 0;
    while i < |keys|
      invariant 0 <= i <= |keys|
      invariant f == f0 + Lines(keys[..i], fileOrder, quoted)
    {
      ghost var before := Lines(keys[..i], fileOrder, quoted);
      f := WriteLine(f, keys[i], fileOrder[keys[i]], quoted);
      assert keys[..i + 1][..i] == keys[..i];
      AppendAssoc(f0, before, Line(keys[i], fileOrder[keys[i]], quoted));
      i := i + 1;
    }
    assert keys[..i] == keys;
  }

  /** One `write!` of a name, the loop over its members, and the closing `writeln!`. */
  method WriteLine(f0: string, name: string, members: seq<string>, quoted: bool) returns (f: string)
    ensures f == f0 + Line(name, members, quoted)
  {
    f := f0 + INDENT + INDENT + name + ": [ ";
    ghost var head := f;
    var j := 0;
    while j < |members|
      invariant 0 <= j <= |members|
      invariant f == head + Items(members[..j], quoted)
    {
      ghost var before := f;
      if quoted {
        f := f + "'" + members[j] + "', ";
        AppendAssoc(before, "'", members[j]);
        AppendAssoc(before, "'" + members[j], "', ");
      } else {
        f := f + members[j] + ", ";
        AppendAssoc(before, members[j], ", ");
      }
      assert members[..j + 1][..j] == members[..j];
      AppendAssoc(head, Items(members[..j], quoted), Item(members[j], quoted));
      j := j + 1;
    }
    assert members[..j] == members;
    f := f + " ]\n";
    LineAfter(f0, name, Items(members, quoted));
  }

  lemma AppendAssoc(a: string, b: string, c: string)
    ensures a + b + c == a + (b + c)
  {
  }

  /** What `f0` holds followed by a line is `f0` with the line's pieces appended one by one. */
  lemma LineAfter(f0: string, name: string, items: string)
    ensures f0 + INDENT + INDENT + name + ": [ " + items + " ]\n" == f0 + (INDENT + INDENT + name + ": [ " + items + " ]\n")
  {
    AppendAssoc(f0, INDENT, INDENT);
    AppendAssoc(f0, INDENT + INDENT, name);
    AppendAssoc(f0, INDENT + INDENT + name, ": [ ");
    AppendAssoc(f0, INDENT + INDENT + name + ": [ ", items);
    AppendAssoc(f0, INDENT + INDENT + name + ": [ " + items, " ]\n");
  }
}
