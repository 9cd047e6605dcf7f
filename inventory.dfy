/** The runoff inventory: every `.nc` file below the runoff folder, as
    joined paths, in ascending string order. */
module RunoffInventory {
  import opened Text
  import opened StringOrder

  /** One file that `os.walk` reports: the directory it walked and the
      file's name in it. */
  datatype WalkFile = WalkFile(directory: string, name: string)

  function PathOf(f: WalkFile): string
  {
    JoinPath(f.directory, f.name)
  }

  predicate IsRunoffFile(f: WalkFile)
  {
    EndsWith(f.name, ".nc")
  }

  /** The paths of the runoff files, in the order the walk reports them. */
  function RunoffPaths(walk: seq<WalkFile>): seq<string>
  {
    if walk == [] then []
    else
      var last := walk[|walk| - 1];
      RunoffPaths(walk[..|walk| - 1]) + (if IsRunoffFile(last) then [PathOf(last)] else [])
  }

  /** The collection loop followed by `sorted`: the inventory is in
      ascending order and holds each runoff file of the walk once per
      time the walk reports it, nothing else. */
  method CollectRunoffFiles(walk: seq<WalkFile>) returns (inventory: seq<string>)
    ensures Sorted(inventory)
    ensures multiset(inventory) == multiset(RunoffPaths(walk))
  {
    var found: seq<string> := [];
    for i := 0 to |walk|
      invariant found == RunoffPaths(walk[..i])
    {
      assert walk[..i + 1][..i] == walk[..i];
      if EndsWith(walk[i].name, ".nc") {
        found := found + [JoinPath(walk[i].directory, walk[i].name)];
      }
    }
    assert walk[..|walk|] == walk;
    inventory := Sort(found);
  }

  /** A path is listed exactly when the walk reports a `.nc` file at it. */
  lemma {:induction false} RunoffPathsMembership(walk: seq<WalkFile>, p: string)
    ensures p in RunoffPaths(walk) <==> exists f :: f in walk && IsRunoffFile(f) && p == PathOf(f)
  {
    if walk != [] {
      var init := walk[..|walk| - 1];
      var last := walk[|walk| - 1];
      RunoffPathsMembership(init, p);
      assert walk == init + [last];
      assert RunoffPaths(walk) == RunoffPaths(init) + (if IsRunoffFile(last) then [PathOf(last)] else []);
      if exists f :: f in walk && IsRunoffFile(f) && p == PathOf(f) {
        var f :| f in walk && IsRunoffFile(f) && p == PathOf(f);
        assert f in init || f == last;
      }
    }
  }

  /** Every listed path ends in `.nc`, whatever directory it lies in. */
  lemma RunoffPathsEndInNc(walk: seq<WalkFile>, p: string)
    requires p in RunoffPaths(walk)
    ensures EndsWith(p, ".nc")
  {
    RunoffPathsMembership(walk, p);
    var f :| f in walk && IsRunoffFile(f) && p == PathOf(f);
    assert p[|p| - |f.name|..] == f.name;
    assert p[|p| - 3..] == f.name[|f.name| - 3..];
  }

  lemma {:induction false} RunoffPathsAppend(a: seq<WalkFile>, b: seq<WalkFile>)
    ensures RunoffPaths(a + b) == RunoffPaths(a) + RunoffPaths(b)
    decreases |b|
  {
    if b == [] {
      assert a + b == a;
    } else {
      var init := b[..|b| - 1];
      assert (a + b)[..|a + b| - 1] == a + init;
      RunoffPathsAppend(a, init);
    }
  }

  /** Taking one file out of the walk takes its runoff path, if any, out
      of the runoff paths. */
  lemma RunoffPathsRemove(w: seq<WalkFile>, k: nat)
    requires k < |w|
    ensures multiset(RunoffPaths(w))
         == multiset(RunoffPaths(w[..k] + w[k + 1..])) + multiset(RunoffPaths([w[k]]))
  {
    SplitAround(w, k);
    RunoffPathsRemoveBetween(w[..k], w[k], w[k + 1..]);
  }

  /** `RunoffPathsRemove` with the walk given in pieces. */
  lemma RunoffPathsRemoveBetween(before: seq<WalkFile>, x: WalkFile, after: seq<WalkFile>)
    ensures multiset(RunoffPaths(before + [x] + after))
         == multiset(RunoffPaths(before + after)) + multiset(RunoffPaths([x]))
  {
    RunoffPathsAppend(before + [x], after);
    RunoffPathsAppend(before, [x]);
    RunoffPathsAppend(before, after);
  }

  /** A walk is the files before position `k`, the file at `k`, and the
      files after it. */
  lemma SplitAround(w: seq<WalkFile>, k: nat)
    requires k < |w|
    ensures w == w[..k] + [w[k]] + w[k + 1..]
  {
  }

  /** Removing the same file from walks with the same files leaves walks
      with the same files. */
  lemma RemoveFromBoth(w1: seq<WalkFile>, w2: seq<WalkFile>, k: nat)
    requires multiset(w1) == multiset(w2) && w1 != []
    requires k < |w2| && w2[k] == w1[|w1| - 1]
    ensures multiset(w1[..|w1| - 1]) == multiset(w2[..k] + w2[k + 1..])
  {
    var x := w1[|w1| - 1];
    var init := w1[..|w1| - 1];
    var rest := w2[..k] + w2[k + 1..];
    assert w1 == init + [x];
    assert w2 == w2[..k] + [x] + w2[k + 1..];
    assert multiset(w2) == multiset(w2[..k]) + multiset{x} + multiset(w2[k + 1..]);
    assert multiset(rest) == multiset(w2[..k]) + multiset(w2[k + 1..]);
    assert multiset(w1) == multiset(init) + multiset{x};
    forall z ensures multiset(rest)[z] == multiset(init)[z] {
      assert multiset(w1)[z] == multiset(w2)[z];
    }
  }

  /** The runoff paths of a rearranged walk are a rearrangement of the
      runoff paths. */
  lemma {:induction false} RunoffPathsPermutation(w1: seq<WalkFile>, w2: seq<WalkFile>)
    requires multiset(w1) == multiset(w2)
    ensures multiset(RunoffPaths(w1)) == multiset(RunoffPaths(w2))
    decreases |w1|
  {
    if w1 == [] {
      assert |w2| == |multiset(w2)| == 0;
    } else {
      var x := w1[|w1| - 1];
      var init := w1[..|w1| - 1];
      assert w1 == init + [x];
      assert x in multiset(w2);
      var k :| 0 <= k < |w2| && w2[k] == x;
      RemoveFromBoth(w1, w2, k);
      RunoffPathsPermutation(init, w2[..k] + w2[k + 1..]);
      RunoffPathsAppend(init, [x]);
      RunoffPathsRemove(w2, k);
    }
  }

  /** The inventory depends only on which files the walk reports, not on the
      order in which it reports them: it is the one sorted arrangement of
      the runoff paths. */
  lemma InventoryIndependentOfWalkOrder(w1: seq<WalkFile>, w2: seq<WalkFile>, inv1: seq<string>, inv2: seq<string>)
    requires multiset(w1) == multiset(w2)
    requires Sorted(inv1) && multiset(inv1) == multiset(RunoffPaths(w1))
    requires Sorted(inv2) && multiset(inv2) == multiset(RunoffPaths(w2))
    ensures inv1 == inv2 == Sort(RunoffPaths(w1))
  {
    RunoffPathsPermutation(w1, w2);
    SortedPermutationUnique(inv1, inv2);
    SortedPermutationUnique(inv1, Sort(RunoffPaths(w1)));
  }
}
