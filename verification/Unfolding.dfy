/** src/block.rs, `merkle_root`: exactly which leaf lists of one height share a root, and that lists
    without a repeated leaf never do. */
module Unfolding {
  import opened Bytes
  import opened Merkle

  /** The leaves under a node from left to right, each as often as the odd levels above repeat it. */
  function Leaves(s: seq<Digest>, k: nat, i: nat): seq<Digest>
    requires i < Width(|s|, k)
  {
    if k == 0 then
      [s[i]]
    else
      Leaves(s, k - 1, 2 * i) + Leaves(s, k - 1, Min(2 * i + 1, Width(|s|, k - 1) - 1))
  }

  /** The full row of 2^Height leaves that a list stands for. */
  function Unfolded(s: seq<Digest>): seq<Digest>
    requires s != []
  {
    WidthAtHeight(|s|, Height(|s|));
    Leaves(s, Height(|s|), 0)
  }

  function Mate(n: nat, k: nat, i: nat): (j: nat)
    requires k > 0 && i < Width(n, k)
    ensures 2 * i < Width(n, k - 1) && j < Width(n, k - 1)
  {
    Min(2 * i + 1, Width(n, k - 1) - 1)
  }

  lemma LeavesUnfold(s: seq<Digest>, k: nat, i: nat)
    requires k > 0 && i < Width(|s|, k)
    ensures Leaves(s, k, i) == Leaves(s, k - 1, 2 * i) + Leaves(s, k - 1, Mate(|s|, k, i))
  {
  }

  lemma NodeUnfolds(h: Hasher, s: seq<Digest>, k: nat, i: nat)
    requires k > 0 && i < Width(|s|, k)
    ensures Tree(h, s, k, i) == h(Tree(h, s, k - 1, 2 * i) + Tree(h, s, k - 1, Mate(|s|, k, i)))
  {
    TreeUnfolds(h, s, k, i);
  }

  lemma {:induction false} LeavesCount(s: seq<Digest>, k: nat, i: nat)
    requires i < Width(|s|, k)
    ensures |Leaves(s, k, i)| == Pow2(k)
  {
    hide Leaves, Width;
    if k > 0 {
      LeavesUnfold(s, k, i);
      LeavesCount(s, k - 1, 2 * i);
      LeavesCount(s, k - 1, Mate(|s|, k, i));
    } else {
      OneLeaf(s, i);
    }
  }

  lemma OneLeaf(s: seq<Digest>, i: nat)
    requires i < Width(|s|, 0)
    ensures i < |s| && Leaves(s, 0, i) == [s[i]] && forall h: Hasher :: Tree(h, s, 0, i) == s[i]
  {
  }

  lemma SplitEqual<T>(a: seq<T>, b: seq<T>, c: seq<T>, d: seq<T>)
    requires |a| == |c| && a + b == c + d
    ensures a == c && b == d
  {
    assert a == (a + b)[..|a|] && c == (c + d)[..|a|];
    assert b == (a + b)[|a|..] && d == (c + d)[|a|..];
  }

  /** A node is a function of the leaves under it. */
  lemma {:induction false} SameLeavesSameNode(h: Hasher, a: seq<Digest>, i: nat, b: seq<Digest>, j: nat, k: nat)
    requires i < Width(|a|, k) && j < Width(|b|, k) && Leaves(a, k, i) == Leaves(b, k, j)
    ensures Tree(h, a, k, i) == Tree(h, b, k, j)
    decreases k
  {
    hide Leaves, Width, Tree, Mate;
    if k == 0 {
      OneLeaf(a, i);
      OneLeaf(b, j);
    } else {
      var m, n := Mate(|a|, k, i), Mate(|b|, k, j);
      LeavesUnfold(a, k, i);
      LeavesUnfold(b, k, j);
      LeavesCount(a, k - 1, 2 * i);
      LeavesCount(b, k - 1, 2 * j);
      SplitEqual(Leaves(a, k - 1, 2 * i), Leaves(a, k - 1, m), Leaves(b, k - 1, 2 * j), Leaves(b, k - 1, n));
      SameLeavesSameNode(h, a, 2 * i, b, 2 * j, k - 1);
      SameLeavesSameNode(h, a, m, b, n, k - 1);
      NodeUnfolds(h, a, k, i);
      NodeUnfolds(h, b, k, j);
    }
  }

  /** Every pair of siblings is among the strings hashed. */
  lemma {:induction false} SiblingsAreHashed(h: Hasher, s: seq<Digest>, k: nat, i: nat)
    requires 0 < k <= Height(|s|) && i < Width(|s|, k)
    ensures Tree(h, s, k - 1, 2 * i) + Tree(h, s, k - 1, Mate(|s|, k, i)) in Hashed(h, s)
    decreases k
  {
    hide Tree, NextLevel, Hashed, Mate, Width;
    TallerThanOne(|s|);
    if k == 1 {
      FirstSiblings(h, s, i);
    } else {
      var next := NextLevel(h, s);
      WidthFromBelow(|s|, k - 1);
      WidthFromBelow(|s|, k - 2);
      SiblingsAreHashed(h, next, k - 1, i);
      MateFromBelow(|s|, k, i);
      TreeFromBelow(h, s, k - 2, 2 * i);
      TreeFromBelow(h, s, k - 2, Mate(|s|, k, i));
      HashedFromBelow(h, s);
    }
  }

  lemma TallerThanOne(n: nat)
    ensures Height(n) > 0 ==> n > 1 && Height((n + 1) / 2) == Height(n) - 1
  {
  }

  lemma FirstSiblings(h: Hasher, s: seq<Digest>, i: nat)
    requires |s| > 1 && i < Width(|s|, 1)
    ensures Tree(h, s, 0, 2 * i) + Tree(h, s, 0, Mate(|s|, 1, i)) in Hashed(h, s)
  {
    hide Hashed;
    WidthOfLeaves(|s|);
    PairIsHashed(h, s, i);
  }

  lemma MateFromBelow(n: nat, k: nat, i: nat)
    requires k > 1 && i < Width(n, k)
    ensures i < Width((n + 1) / 2, k - 1) && Mate((n + 1) / 2, k - 1, i) == Mate(n, k, i)
  {
    hide Width;
    WidthFromBelow(n, k - 1);
    WidthFromBelow(n, k - 2);
  }

  lemma HashedFromBelow(h: Hasher, s: seq<Digest>)
    requires |s| > 1
    ensures Hashed(h, NextLevel(h, s)) <= Hashed(h, s)
  {
    hide NextLevel, Partner;
  }

  /** And the leaves are a function of the node, unless the hash collides on what was hashed. */
  lemma {:induction false} SameNodeSameLeaves(h: Hasher, a: seq<Digest>, i: nat, b: seq<Digest>, j: nat, k: nat)
    requires k <= Height(|a|) && k <= Height(|b|) && i < Width(|a|, k) && j < Width(|b|, k)
    requires Tree(h, a, k, i) == Tree(h, b, k, j) && InjectiveOn(h, Hashed(h, a) + Hashed(h, b))
    ensures Leaves(a, k, i) == Leaves(b, k, j)
    decreases k
  {
    hide Leaves, Width, Tree, Mate, Hashed, Height;
    if k == 0 {
      OneLeaf(a, i);
      OneLeaf(b, j);
    } else {
      var m, n := Mate(|a|, k, i), Mate(|b|, k, j);
      NodeUnfolds(h, a, k, i);
      NodeUnfolds(h, b, k, j);
      SiblingsAreHashed(h, a, k, i);
      SiblingsAreHashed(h, b, k, j);
      HalvesDetermined(Tree(h, a, k - 1, 2 * i), Tree(h, a, k - 1, m), Tree(h, b, k - 1, 2 * j), Tree(h, b, k - 1, n));
      SameNodeSameLeaves(h, a, 2 * i, b, 2 * j, k - 1);
      SameNodeSameLeaves(h, a, m, b, n, k - 1);
      LeavesUnfold(a, k, i);
      LeavesUnfold(b, k, j);
    }
  }

  /** Two lists of one height have one root exactly when they unfold to the same row of leaves. */
  lemma EqualRootsIff(h: Hasher, a: seq<Digest>, b: seq<Digest>)
    requires a != [] && b != [] && Height(|a|) == Height(|b|)
    requires InjectiveOn(h, Hashed(h, a) + Hashed(h, b))
    ensures Root(h, a) == Root(h, b) <==> Unfolded(a) == Unfolded(b)
  {
    hide Leaves, Width, Tree, Hashed, Height, Root, InjectiveOn;
    WidthAtHeight(|a|, Height(|a|));
    WidthAtHeight(|b|, Height(|b|));
    RootIsTree(h, a);
    RootIsTree(h, b);
    if Root(h, a) == Root(h, b) {
      SameNodeSameLeaves(h, a, 0, b, 0, Height(|a|));
    }
    if Unfolded(a) == Unfolded(b) {
      SameLeavesSameNode(h, a, 0, b, 0, Height(|a|));
    }
  }

  // ----- where the leaves of the list stand in its row

  lemma {:induction false} WidthCovers(n: nat, k: nat, i: nat)
    requires i * Pow2(k) < n
    ensures i < Width(n, k)
  {
    if k > 0 {
      assert 2 * i * Pow2(k - 1) == i * Pow2(k);
      WidthCovers(n, k - 1, 2 * i);
    }
  }

  lemma {:induction false} LeafStands(s: seq<Digest>, k: nat, i: nat, p: nat)
    requires p < Pow2(k) && i * Pow2(k) + p < |s| && i < Width(|s|, k)
    ensures p < |Leaves(s, k, i)| && Leaves(s, k, i)[p] == s[i * Pow2(k) + p]
    decreases k
  {
    LeavesCount(s, k, i);
    if k > 0 {
      var half := Pow2(k - 1);
      LeavesUnfold(s, k, i);
      LeavesCount(s, k - 1, 2 * i);
      Doubles(i, half);
      if p < half {
        LeafStands(s, k - 1, 2 * i, p);
      } else {
        WidthCovers(|s|, k - 1, 2 * i + 1);
        LeafStands(s, k - 1, 2 * i + 1, p - half);
      }
    }
  }

  lemma Doubles(i: nat, half: nat)
    ensures 2 * i * half == i * (2 * half) && (2 * i + 1) * half == i * (2 * half) + half
  {
  }

  lemma {:induction false} LeavesAreFromTheList(s: seq<Digest>, k: nat, i: nat, p: nat)
    requires i < Width(|s|, k) && p < |Leaves(s, k, i)|
    ensures Leaves(s, k, i)[p] in s
    decreases k
  {
    hide Width, Leaves, Mate;
    if k == 0 {
      OneLeaf(s, i);
    } else {
      LeavesUnfold(s, k, i);
      var left := Leaves(s, k - 1, 2 * i);
      if p < |left| {
        LeavesAreFromTheList(s, k - 1, 2 * i, p);
      } else {
        LeavesAreFromTheList(s, k - 1, Mate(|s|, k, i), p - |left|);
      }
    }
  }

  /** The row starts with the list itself, and holds nothing else. */
  lemma RowStartsWithTheList(s: seq<Digest>)
    requires s != []
    ensures s <= Unfolded(s) && |Unfolded(s)| == Pow2(Height(|s|)) && forall x :: x in Unfolded(s) ==> x in s
  {
    hide Leaves, Width, Height;
    var k := Height(|s|);
    WidthAtHeight(|s|, k);
    HeightIsLog(|s|);
    LeavesCount(s, k, 0);
    forall p | 0 <= p < |s| ensures Unfolded(s)[p] == s[p] {
      LeafStands(s, k, 0, p);
    }
    forall x | x in Unfolded(s) ensures x in s {
      var p :| 0 <= p < |Unfolded(s)| && Unfolded(s)[p] == x;
      LeavesAreFromTheList(s, k, 0, p);
    }
  }

  ghost predicate NoRepeats(s: seq<Digest>) {
    forall i, j :: 0 <= i < j < |s| ==> s[i] != s[j]
  }

  lemma RepeatedLater(a: seq<Digest>, b: seq<Digest>, row: seq<Digest>)
    requires |a| < |b| && a <= row && b <= row && forall x :: x in row ==> x in a
    ensures !NoRepeats(b)
  {
    var x := row[|a|];
    assert x in a;
    var j :| 0 <= j < |a| && a[j] == x;
    assert b[j] == row[j] == x && b[|a|] == x;
  }

  lemma NoLonger(a: seq<Digest>, b: seq<Digest>)
    requires a != [] && b != [] && Unfolded(a) == Unfolded(b) && NoRepeats(b)
    ensures |b| <= |a|
  {
    hide Unfolded, NoRepeats;
    RowStartsWithTheList(a);
    RowStartsWithTheList(b);
    if |a| < |b| {
      RepeatedLater(a, b, Unfolded(b));
      assert false;
    }
  }

  /** The remedy: among lists of one height in which no leaf is repeated, the root tells all apart,
      whatever their lengths. */
  lemma DistinctLeavesDistinctRoots(h: Hasher, a: seq<Digest>, b: seq<Digest>)
    requires a != [] && b != [] && Height(|a|) == Height(|b|) && NoRepeats(a) && NoRepeats(b)
    requires InjectiveOn(h, Hashed(h, a) + Hashed(h, b))
    ensures Root(h, a) == Root(h, b) <==> a == b
  {
    hide Unfolded, NoRepeats, InjectiveOn, Hashed, Height, Root;
    EqualRootsIff(h, a, b);
    if Root(h, a) == Root(h, b) {
      NoLonger(a, b);
      NoLonger(b, a);
      RowStartsWithTheList(a);
      RowStartsWithTheList(b);
      assert a == Unfolded(a)[..|a|] && b == Unfolded(b)[..|b|];
    }
  }
}
