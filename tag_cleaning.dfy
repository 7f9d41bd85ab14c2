/**
 * What `AssetPack::clean_tags` (src/asset_pack/asset_pack.rs) does to the tags
 * document, as functions: files that are not object files of the pack leave
 * every tag, tags left without files go, then tags that no longer exist leave
 * every tag set, and sets left without tags go.
 */
module TagCleaning {
  import opened AssetTags

  /**
   * One pass of the cleaning: every entry of `m` keeps only the members found
   * in `live`, and entries left with no member are dropped. The result is
   * exactly that: nothing outside `live`, no empty entry, and every live
   * member of every entry kept.
   */
  function Restrict(m: map<string, set<string>>, live: set<string>): (r: map<string, set<string>>)
    ensures forall k :: k in r ==> k in m && r[k] <= m[k] && r[k] <= live && r[k] != {}
    ensures forall k, x :: k in m && x in m[k] && x in live ==> k in r && x in r[k]
  {
    assert forall k, x :: k in m && x in m[k] && x in live ==> x in m[k] * live;
    map k | k in m && m[k] * live != {} :: m[k] * live
  }

  /** The tags document after `clean_tags`, when the pack's object files have the paths `objects`. */
  function Clean(t: Tags, objects: set<string>): Tags
  {
    var tags := Restrict(t.tags, objects);
    Tags(tags, Restrict(t.sets, tags.Keys))
  }

  /** A tags document in which every tagged file exists, every grouped tag exists, and nothing is empty. */
  predicate IsClean(t: Tags, objects: set<string>)
  {
    && (forall tag :: tag in t.tags ==> t.tags[tag] <= objects && t.tags[tag] != {})
    && (forall s :: s in t.sets ==> t.sets[s] <= t.tags.Keys && t.sets[s] != {})
  }

  /** After cleaning, tags name only object files of the pack, sets name only tags that remain, and none is empty. */
  lemma CleanIsClean(t: Tags, objects: set<string>)
    ensures IsClean(Clean(t, objects), objects)
  {
    var c := Clean(t, objects);
    assert c.tags == Restrict(t.tags, objects);
    assert c.sets == Restrict(t.sets, c.tags.Keys);
  }

  /**
   * Cleaning only removes, and removes nothing that could stay: a file stays
   * under a tag exactly when it was there and exists; a tag stays in a set
   * exactly when it was there and the tag survived.
   */
  lemma CleanKeepsExactly(t: Tags, objects: set<string>, tag: string, file: string, s: string)
    ensures var c := Clean(t, objects);
            (tag in c.tags && file in c.tags[tag]) <==> (tag in t.tags && file in t.tags[tag] && file in objects)
    ensures var c := Clean(t, objects);
            (s in c.sets && tag in c.sets[s]) <==> (s in t.sets && tag in t.sets[s] && tag in c.tags)
  {
    var c := Clean(t, objects);
    assert c.tags == Restrict(t.tags, objects);
    assert c.sets == Restrict(t.sets, c.tags.Keys);
  }

  /** A map none of whose entries is empty or names anything outside `live` is left as it is. */
  lemma RestrictUnchanged(m: map<string, set<string>>, live: set<string>)
    requires forall k :: k in m ==> m[k] <= live && m[k] != {}
    ensures Restrict(m, live) == m
  {
    var r := Restrict(m, live);
    forall k | k in m ensures k in r && r[k] == m[k] {
      var x :| x in m[k];
      assert x in live;
    }
    assert r.Keys == m.Keys;
  }

  /** A document that is already clean does not change. */
  lemma {:induction false} CleanOfClean(t: Tags, objects: set<string>)
    requires IsClean(t, objects)
    ensures Clean(t, objects) == t
  {
    RestrictUnchanged(t.tags, objects);
    RestrictUnchanged(t.sets, t.tags.Keys);
  }

  /** Cleaning twice is cleaning once. */
  lemma CleanIdempotent(t: Tags, objects: set<string>)
    ensures Clean(Clean(t, objects), objects) == Clean(t, objects)
  {
    CleanIsClean(t, objects);
    CleanOfClean(Clean(t, objects), objects);
  }

  /** When only the entry `k` has live members, cleaning leaves that entry alone with them. */
  lemma RestrictToOne(m: map<string, set<string>>, live: set<string>, k: string)
    requires k in m && m[k] * live != {}
    requires forall j :: j in m && j != k ==> m[j] * live == {}
    ensures Restrict(m, live) == map[k := m[k] * live]
  {
    var r := Restrict(m, live);
    assert r.Keys == {k};
  }

  /**
   * The example of the source's unit test: a tag naming one existing and one
   * missing file keeps the existing one, an empty tag goes, a set of only
   * that empty tag goes, an empty set goes, and a set of both tags keeps the
   * surviving one.
   */
  lemma CleanExample()
    ensures var rock := "textures/objects/rock.png";
            var t := Tags(map["rocks" := {rock, "does_not_exist.jpg"}, "empty" := {}],
                          map["empty" := {}, "will_be_empty" := {"empty"}, "loses_one_tag" := {"rocks", "empty"}]);
            Clean(t, {rock}) == Tags(map["rocks" := {rock}], map["loses_one_tag" := {"rocks"}])
  {
    var rock := "textures/objects/rock.png";
    var tags := map["rocks" := {rock, "does_not_exist.jpg"}, "empty" := {}];
    var sets := map["empty" := {}, "will_be_empty" := {"empty"}, "loses_one_tag" := {"rocks", "empty"}];
    assert {rock, "does_not_exist.jpg"} * {rock} == {rock};
    RestrictToOne(tags, {rock}, "rocks");
    var live := map["rocks" := {rock}].Keys;
    assert live == {"rocks"};
    assert {"rocks", "empty"} * live == {"rocks"};
    RestrictToOne(sets, live, "loses_one_tag");
  }
}
