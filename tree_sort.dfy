/** Sibling order of the folder tree (`sortNodes`,
    src/components/FolderTree/useTreeState.ts): folders first, then by name.

    The name order is the host's `localeCompare` with numeric collation and
    base sensitivity, which is not part of this model; it is a parameter
    `le`, where `le(a, b)` means `a.localeCompare(b, …) <= 0`. */
module TreeSort {
  import opened TreeTypes

  /** `cmp(a, b) <= 0` for the comparator passed to `Array.prototype.sort`. */
  predicate Precedes(a: TreeNode, b: TreeNode, le: (string, string) -> bool)
  {
    if a.kind != b.kind then a.kind == Folder else le(a.name, b.name)
  }

  /** No file stands before a folder. */
  predicate FoldersFirst(s: seq<TreeNode>)
  {
    forall i, j :: 0 <= i < j < |s| && s[j].kind == Folder ==> s[i].kind == Folder
  }

  /** `le` is a total preorder, as a collation is. */
  ghost predicate TotalPreorder(le: (string, string) -> bool)
  {
    && (forall a, b :: le(a, b) || le(b, a))
    && (forall a, b, c :: le(a, b) && le(b, c) ==> le(a, c))
  }

  /** Every element precedes every later one. */
  ghost predicate Sorted(s: seq<TreeNode>, le: (string, string) -> bool)
  {
    forall i, j :: 0 <= i < j < |s| ==> Precedes(s[i], s[j], le)
  }

  /** Place `x` before the first element it precedes. */
  function Insert(x: TreeNode, s: seq<TreeNode>, le: (string, string) -> bool): (r: seq<TreeNode>)
    ensures |r| == |s| + 1
    ensures multiset(r) == multiset(s) + multiset{x}
  {
    if s == [] then [x]
    else if Precedes(x, s[0], le) then [x] + s
    else
      assert s == [s[0]] + s[1..];
      [s[0]] + Insert(x, s[1..], le)
  }

  lemma {:induction false} InsertFoldersFirst(x: TreeNode, s: seq<TreeNode>, le: (string, string) -> bool)
    requires FoldersFirst(s)
    ensures FoldersFirst(Insert(x, s, le))
  {
    if s != [] && !Precedes(x, s[0], le) {
      var rest := Insert(x, s[1..], le);
      InsertFoldersFirst(x, s[1..], le);
      forall j | 0 <= j < |rest| && rest[j].kind == Folder ensures s[0].kind == Folder {
        assert rest[j] in multiset(rest);
        if rest[j] != x {
          assert rest[j] in multiset(s[1..]);
          var k :| 0 <= k < |s[1..]| && s[1..][k] == rest[j];
          assert s[k + 1].kind == Folder;
        }
      }
      var r := Insert(x, s, le);
      assert r == [s[0]] + rest;
      forall i, j | 0 <= i < j < |r| && r[j].kind == Folder ensures r[i].kind == Folder {
        assert r[j] == rest[j - 1];
        if i > 0 { assert r[i] == rest[i - 1]; }
      }
    }
  }

  /** `sortNodes(children)`: a sorted copy. The JavaScript sort is stable;
      this insertion sort is too, and for a total preorder a stable sort has
      exactly one possible result, so the two agree. */
  function SortNodes(s: seq<TreeNode>, le: (string, string) -> bool): (r: seq<TreeNode>)
    ensures |r| == |s|
    ensures multiset(r) == multiset(s)
    ensures FoldersFirst(r)
  {
    if s == [] then []
    else
      assert s == [s[0]] + s[1..];
      InsertFoldersFirst(s[0], SortNodes(s[1..], le), le);
      Insert(s[0], SortNodes(s[1..], le), le)
  }

  /** Two nodes always compare one way or the other, transitively. */
  lemma PrecedesTotalPreorder(le: (string, string) -> bool, a: TreeNode, b: TreeNode, c: TreeNode)
    requires TotalPreorder(le)
    ensures Precedes(a, b, le) || Precedes(b, a, le)
    ensures Precedes(a, b, le) && Precedes(b, c, le) ==> Precedes(a, c, le)
  {
  }

  lemma {:induction false} InsertSorted(x: TreeNode, s: seq<TreeNode>, le: (string, string) -> bool)
    requires TotalPreorder(le)
    requires Sorted(s, le)
    ensures Sorted(Insert(x, s, le), le)
  {
    if s != [] && !Precedes(x, s[0], le) {
      InsertSorted(x, s[1..], le);
      var r := Insert(x, s, le);
      var rest := Insert(x, s[1..], le);
      assert r == [s[0]] + rest;
      PrecedesTotalPreorder(le, s[0], x, x);
      assert multiset(rest) == multiset(s[1..]) + multiset{x};
      forall j | 0 < j < |r| ensures Precedes(s[0], r[j], le) {
        assert r[j] in multiset(rest);
        if r[j] != x {
          assert r[j] in multiset(s[1..]);
          var k :| 0 <= k < |s[1..]| && s[1..][k] == r[j];
          assert s[k + 1] == r[j];
        }
      }
    }
    else if s != [] {
      var r := Insert(x, s, le);
      forall j | 0 < j < |r| ensures Precedes(x, r[j], le) {
        PrecedesTotalPreorder(le, x, s[0], r[j]);
      }
    }
  }

  /** For a collation order, siblings come out sorted: folders first and,
      within a kind, by name. */
  lemma {:induction false} SortNodesSorted(s: seq<TreeNode>, le: (string, string) -> bool)
    requires TotalPreorder(le)
    ensures Sorted(SortNodes(s, le), le)
  {
    if s != [] {
      SortNodesSorted(s[1..], le);
      InsertSorted(s[0], SortNodes(s[1..], le), le);
    }
  }
}
