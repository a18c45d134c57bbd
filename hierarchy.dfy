/**
 * Ancestor chains in a flat parent-pointer list. The tree builders of the console recurse from
 * parent id 0 into the records whose `parentId` is the current record's `menuId`; such a recursion
 * only stops when no record repeats along a root-to-node chain. A chain is kept here as the list of
 * record positions from a root record down to the current one; with unique, non-zero ids every step
 * of the recursion extends it by a position not yet on it, which bounds the recursion.
 */
module Hierarchy {
  import opened Records

  /** `path` lists positions of `all`: a root record first, then each record's child, no repeats. */
  ghost predicate IsRootPath(all: seq<MenuItem>, path: seq<nat>)
  {
    && (forall i :: 0 <= i < |path| ==> path[i] < |all|)
    && (|path| > 0 ==> all[path[0]].parentId == 0)
    && (forall i :: 0 < i < |path| ==> all[path[i]].parentId == all[path[i - 1]].menuId)
    && (forall i, j :: 0 <= i < j < |path| ==> path[i] != path[j])
  }

  /** The parent id a recursion at the end of `path` filters on: 0 at the top. */
  ghost function PathEnd(all: seq<MenuItem>, path: seq<nat>): int
    requires IsRootPath(all, path)
  {
    if path == [] then 0 else all[path[|path| - 1]].menuId
  }

  /** The positions of `all` not yet on `path`: the measure of the recursion. */
  ghost function Unvisited(all: seq<MenuItem>, path: seq<nat>): set<nat>
  {
    set k: nat | k < |all| && k !in path
  }

  /** The record at position `k` is reached from a root record by a chain. */
  ghost predicate Rooted(all: seq<MenuItem>, k: nat)
  {
    exists path :: IsRootPath(all, path) && |path| > 0 && path[|path| - 1] == k
  }

  /**
   * A record whose parent is the end of a root chain is not on that chain, so appending it gives a
   * longer root chain and strictly fewer unvisited positions.
   */
  lemma ExtendPath(all: seq<MenuItem>, path: seq<nat>, k: nat)
    requires UniqueIds(all) && NonZeroIds(all)
    requires IsRootPath(all, path)
    requires k < |all| && all[k].parentId == PathEnd(all, path)
    ensures k !in path
    ensures IsRootPath(all, path + [k])
    ensures Unvisited(all, path + [k]) < Unvisited(all, path)
    ensures Rooted(all, k)
  {
    var last := |path| - 1;
    forall j | 0 <= j < |path| ensures path[j] != k {
      if j == 0 {
        assert all[path[last]].menuId != 0;
      } else {
        assert path[j - 1] != path[last];
        assert all[path[j - 1]].menuId != all[path[last]].menuId;
      }
    }
    var p' := path + [k];
    assert forall i :: 0 <= i < |path| ==> p'[i] == path[i];
    assert IsRootPath(all, p');
    assert k in Unvisited(all, path) && k !in Unvisited(all, p');
    assert p'[|p'| - 1] == k;
  }

  /** With unique, non-zero ids a record has at most one root chain. */
  lemma {:induction false} RootPathUnique(all: seq<MenuItem>, p: seq<nat>, q: seq<nat>)
    requires UniqueIds(all) && NonZeroIds(all)
    requires IsRootPath(all, p) && IsRootPath(all, q) && |p| > 0 && |q| > 0
    ensures p[|p| - 1] == q[|q| - 1] ==> p == q
  {
    var k := p[|p| - 1];
    if k == q[|q| - 1] {
      assert |p| > 1 ==> all[p[|p| - 2]].menuId != 0;
      assert |q| > 1 ==> all[q[|q| - 2]].menuId != 0;
      assert |p| == 1 <==> all[k].parentId == 0;
      assert |q| == 1 <==> all[k].parentId == 0;
      if |p| == 1 {
        assert p == [k] == q;
      } else {
        var p', q' := p[..|p| - 1], q[..|q| - 1];
        assert IsRootPath(all, p') && IsRootPath(all, q');
        assert all[p'[|p'| - 1]].menuId == all[q'[|q'| - 1]].menuId;
        RootPathUnique(all, p', q');
        assert p == p' + [k] && q == q' + [k];
      }
    }
  }

  /** Different root chains end at records with different ids. */
  lemma RootPathsDiffer(all: seq<MenuItem>, p: seq<nat>, q: seq<nat>)
    requires UniqueIds(all) && NonZeroIds(all)
    requires IsRootPath(all, p) && IsRootPath(all, q) && |p| > 0 && |q| > 0 && p != q
    ensures all[p[|p| - 1]].menuId != all[q[|q| - 1]].menuId
  {
    RootPathUnique(all, p, q);
  }
}
