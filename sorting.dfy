/**
 * `files_meta.sort()` in `AssetPack::from_read`: `Vec::sort` is a stable sort,
 * and `FileMetaData`'s `Ord` compares offsets only, so entries are ordered by
 * offset and entries sharing an offset keep their order in the directory.
 */
module Sorting {
  import opened FileMeta

  predicate SortedByOffset(s: seq<FileMetaData>)
  {
    forall i, j :: 0 <= i < j < |s| ==> s[i].offset <= s[j].offset
  }

  /** The entries of `s` at offset `o`, in their order in `s`. */
  function AtOffset(s: seq<FileMetaData>, o: int): (r: seq<FileMetaData>)
    ensures |r| <= |s|
  {
    if s == [] then []
    else AtOffset(s[..|s| - 1], o) + (if s[|s| - 1].offset == o then [s[|s| - 1]] else [])
  }

  /** Places `m` after every entry of the sorted `s` whose offset is not greater than its own. */
  function Insert(s: seq<FileMetaData>, m: FileMetaData): seq<FileMetaData>
  {
    if s == [] || s[|s| - 1].offset <= m.offset then s + [m]
    else Insert(s[..|s| - 1], m) + [s[|s| - 1]]
  }

  /** Stable insertion sort by offset. */
  function SortByOffset(s: seq<FileMetaData>): seq<FileMetaData>
  {
    if s == [] then [] else Insert(SortByOffset(s[..|s| - 1]), s[|s| - 1])
  }

  /** Dropping the last entry keeps a sorted directory sorted. */
  lemma InitSorted(s: seq<FileMetaData>)
    requires s != [] && SortedByOffset(s)
    ensures SortedByOffset(s[..|s| - 1])
  {
    var init := s[..|s| - 1];
    forall i, j | 0 <= i < j < |init| ensures init[i].offset <= init[j].offset {
      assert init[i] == s[i] && init[j] == s[j];
    }
  }

  lemma {:induction false} InsertPermutes(s: seq<FileMetaData>, m: FileMetaData)
    ensures multiset(Insert(s, m)) == multiset(s) + multiset{m}
  {
    if !(s == [] || s[|s| - 1].offset <= m.offset) {
      var init, last := s[..|s| - 1], s[|s| - 1];
      InsertPermutes(init, m);
      assert s == init + [last];
    }
  }

  lemma {:induction false} InsertSorted(s: seq<FileMetaData>, m: FileMetaData)
    requires SortedByOffset(s)
    ensures SortedByOffset(Insert(s, m))
  {
    if !(s == [] || s[|s| - 1].offset <= m.offset) {
      var init, last := s[..|s| - 1], s[|s| - 1];
      InsertSorted(init, m);
      InsertPermutes(init, m);
      var r := Insert(init, m);
      forall i | 0 <= i < |r| ensures r[i].offset <= last.offset {
        assert r[i] in multiset(r);
        if r[i] != m {
          assert r[i] in multiset(init);
          var k :| 0 <= k < |init| && init[k] == r[i];
        }
      }
    }
  }

  lemma {:induction false} InsertStable(s: seq<FileMetaData>, m: FileMetaData, o: int)
    requires SortedByOffset(s)
    ensures AtOffset(Insert(s, m), o) == AtOffset(s, o) + (if m.offset == o then [m] else [])
  {
    if s == [] || s[|s| - 1].offset <= m.offset {
      assert (s + [m])[..|s|] == s;
    } else {
      var init, last := s[..|s| - 1], s[|s| - 1];
      InitSorted(s);
      InsertStable(init, m, o);
      var r := Insert(init, m);
      assert (r + [last])[..|r|] == r;
      assert AtOffset(r + [last], o) == AtOffset(r, o) + (if last.offset == o then [last] else []);
      assert AtOffset(s, o) == AtOffset(init, o) + (if last.offset == o then [last] else []);
      if m.offset == o {
        assert AtOffset(s, o) == AtOffset(init, o);
      } else {
        assert AtOffset(r, o) == AtOffset(init, o);
      }
    }
  }

  /** The result is sorted, is a permutation of the input, and keeps the order of entries sharing an offset. */
  lemma {:induction false} SortFacts(s: seq<FileMetaData>)
    ensures SortedByOffset(SortByOffset(s))
    ensures multiset(SortByOffset(s)) == multiset(s)
    ensures forall o :: AtOffset(SortByOffset(s), o) == AtOffset(s, o)
  {
    if s != [] {
      var init := s[..|s| - 1];
      SortFacts(init);
      var last := s[|s| - 1];
      InsertSorted(SortByOffset(init), last);
      InsertPermutes(SortByOffset(init), last);
      forall o ensures AtOffset(SortByOffset(s), o) == AtOffset(s, o) {
        InsertStable(SortByOffset(init), last, o);
      }
      assert s == init + [s[|s| - 1]];
    }
  }

  /** Sorting a directory that is already in offset order changes nothing. */
  lemma {:induction false} SortSorted(s: seq<FileMetaData>)
    requires SortedByOffset(s)
    ensures SortByOffset(s) == s
  {
    if s != [] {
      var init, last := s[..|s| - 1], s[|s| - 1];
      InitSorted(s);
      SortSorted(init);
      if init != [] {
        assert init[|init| - 1] == s[|s| - 2];
        assert s[|s| - 2].offset <= last.offset;
      }
      assert Insert(init, last) == init + [last];
      assert s == init + [last];
    }
  }
}
