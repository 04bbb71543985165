/** src/block.rs, `merkle_root`: a tree built level by level, an odd level's last node paired with itself. */
module Merkle {
  import opened Wrappers
  import opened Bytes

  function Join(h: Hasher, left: Digest, right: Digest): Digest {
    h(left + right)
  }

  /** The right-hand member of pair `i`; a lone node is its own partner. */
  function Partner(level: seq<Digest>, i: nat): Digest
    requires 2 * i < |level|
  {
    if 2 * i + 1 < |level| then level[2 * i + 1] else level[2 * i]
  }

  function NextLevel(h: Hasher, level: seq<Digest>): (next: seq<Digest>)
    ensures |next| == (|level| + 1) / 2
    ensures forall i :: 0 <= i < |next| ==> next[i] == Join(h, level[2 * i], Partner(level, i))
  {
    seq((|level| + 1) / 2, i requires 0 <= 2 * i < |level| => Join(h, level[2 * i], Partner(level, i)))
  }

  function Root(h: Hasher, level: seq<Digest>): Digest
    requires level != []
    decreases |level|
  {
    if |level| == 1 then level[0] else Root(h, NextLevel(h, level))
  }

  // ----- the tree, indexed by height and position

  function Width(n: nat, k: nat): nat {
    if k == 0 then n else (Width(n, k - 1) + 1) / 2
  }

  /** The height of a tree over `n` leaves: how often `n` halves, rounding up, before it is 1. */
  function Height(n: nat): nat {
    if n <= 1 then 0 else 1 + Height((n + 1) / 2)
  }

  function Min(a: nat, b: nat): nat {
    if a < b then a else b
  }

  function Tree(h: Hasher, leaves: seq<Digest>, k: nat, i: nat): Digest
    requires i < Width(|leaves|, k)
  {
    if k == 0 then
      leaves[i]
    else
      Join(h, Tree(h, leaves, k - 1, 2 * i), Tree(h, leaves, k - 1, Min(2 * i + 1, Width(|leaves|, k - 1) - 1)))
  }

  lemma {:induction false} WidthFromBelow(n: nat, k: nat)
    ensures Width((n + 1) / 2, k) == Width(n, k + 1)
  {
    if k > 0 {
      WidthFromBelow(n, k - 1);
    }
  }

  lemma TreeUnfolds(h: Hasher, s: seq<Digest>, k: nat, i: nat)
    requires i < Width(|s|, k)
    ensures k == 0 ==> i < |s| && Tree(h, s, k, i) == s[i]
    ensures k > 0 ==>
              var mate := Min(2 * i + 1, Width(|s|, k - 1) - 1);
              && 2 * i < Width(|s|, k - 1)
              && Tree(h, s, k, i) == Join(h, Tree(h, s, k - 1, 2 * i), Tree(h, s, k - 1, mate))
  {
  }

  lemma {:induction false} TreeFromBelow(h: Hasher, s: seq<Digest>, k: nat, i: nat)
    requires i < Width(|s|, k + 1)
    ensures i < Width(|NextLevel(h, s)|, k)
    ensures Tree(h, NextLevel(h, s), k, i) == Tree(h, s, k + 1, i)
  {
    hide Tree, Width, Join;
    var next := NextLevel(h, s);
    WidthFromBelow(|s|, k);
    TreeUnfolds(h, s, k + 1, i);
    TreeUnfolds(h, next, k, i);
    if k == 0 {
      WidthOfLeaves(|s|);
      TreeUnfolds(h, s, 0, 2 * i);
      TreeUnfolds(h, s, 0, Min(2 * i + 1, |s| - 1));
    } else {
      WidthFromBelow(|s|, k - 1);
      TreeFromBelow(h, s, k - 1, 2 * i);
      TreeFromBelow(h, s, k - 1, Min(2 * i + 1, Width(|s|, k) - 1));
    }
  }

  lemma WidthOfLeaves(n: nat)
    ensures Width(n, 0) == n
  {
  }

  lemma {:induction false} WidthAtHeight(n: nat, k: nat)
    requires n > 0 && k >= Height(n)
    ensures Width(n, k) == 1
  {
    if k > 0 {
      WidthFromBelow(n, k - 1);
      WidthAtHeight((n + 1) / 2, k - 1);
    }
  }

  function TreeRoot(h: Hasher, s: seq<Digest>): Digest
    requires s != []
  {
    WidthAtHeight(|s|, Height(|s|));
    Tree(h, s, Height(|s|), 0)
  }

  /** The level-by-level loop computes the indexed tree. */
  lemma {:induction false} RootIsTree(h: Hasher, s: seq<Digest>)
    requires s != []
    ensures Root(h, s) == TreeRoot(h, s)
    decreases |s|
  {
    hide Width, Join, NextLevel;
    if |s| > 1 {
      RootIsTree(h, NextLevel(h, s));
      TreeRootFromBelow(h, s);
    }
  }

  lemma TreeRootFromBelow(h: Hasher, s: seq<Digest>)
    requires |s| > 1
    ensures TreeRoot(h, NextLevel(h, s)) == TreeRoot(h, s)
  {
    hide Tree, Width, Join, NextLevel;
    WidthAtHeight(|s|, Height(|s|));
    TreeFromBelow(h, s, Height(|s|) - 1, 0);
  }

  method MerkleRoot(h: Hasher, leaves: seq<Digest>) returns (root: Option<Digest>)
    ensures root == if leaves == [] then None else Some(TreeRoot(h, leaves))
  {
    if leaves == [] {
      return None;
    }
    var level := leaves;
    while |level| > 1
      invariant level != [] && Root(h, level) == Root(h, leaves)
      decreases |level|
    {
      level := NextLevel(h, level);
    }
    RootIsTree(h, leaves);
    return Some(level[0]);
  }

  // ----- the same root, from the top down

  function Pow2(e: nat): (p: nat)
    ensures p > 0
  {
    if e == 0 then 1 else 2 * Pow2(e - 1)
  }

  lemma {:induction false} HeightIsLog(n: nat)
    requires n >= 1
    ensures n <= Pow2(Height(n))
    ensures n >= 2 ==> Pow2(Height(n) - 1) < n
  {
    if n >= 2 {
      HeightIsLog((n + 1) / 2);
    }
  }

  lemma {:induction false} HeightBelow(n: nat, e: nat)
    requires 1 <= n <= Pow2(e)
    ensures Height(n) <= e
  {
    if n > 1 {
      HeightBelow((n + 1) / 2, e - 1);
    }
  }

  /** The exponent of the largest power of two below `n`. */
  function Split(n: nat): (e: nat)
    requires n >= 2
    ensures Pow2(e) < n <= 2 * Pow2(e)
  {
    HeightIsLog(n);
    Height(n) - 1
  }

  function Lift(h: Hasher, x: Digest, times: nat): Digest {
    if times == 0 then x else var y := Lift(h, x, times - 1); Join(h, y, y)
  }

  /** Split at the largest power of two below the length; lift the right part to the left's height. */
  function TopDown(h: Hasher, s: seq<Digest>): Digest
    requires s != []
    decreases |s|
  {
    if |s| == 1 then
      s[0]
    else
      var e := Split(|s|);
      var left, right := s[..Pow2(e)], s[Pow2(e)..];
      HeightBelow(|right|, e);
      Join(h, TopDown(h, left), Lift(h, TopDown(h, right), e - Height(|right|)))
  }

  lemma {:induction false} SplitWidth(n: nat, e: nat, k: nat)
    requires n >= Pow2(e) && k <= e
    ensures Width(Pow2(e), k) == Pow2(e - k)
    ensures Width(n, k) == Pow2(e - k) + Width(n - Pow2(e), k)
  {
    if k > 0 {
      SplitWidth(n, e, k - 1);
    }
  }

  lemma {:induction false} LeftPart(h: Hasher, s: seq<Digest>, e: nat, k: nat, i: nat)
    requires |s| >= Pow2(e) && k <= e && i < Pow2(e - k)
    ensures i < Width(|s|, k) && i < Width(Pow2(e), k)
    ensures Tree(h, s, k, i) == Tree(h, s[..Pow2(e)], k, i)
  {
    hide Tree, Width, Join;
    SplitWidth(|s|, e, k);
    TreeUnfolds(h, s, k, i);
    TreeUnfolds(h, s[..Pow2(e)], k, i);
    if k > 0 {
      SplitWidth(|s|, e, k - 1);
      LeftPart(h, s, e, k - 1, 2 * i);
      LeftPart(h, s, e, k - 1, 2 * i + 1);
    }
  }

  lemma {:induction false} RightPart(h: Hasher, s: seq<Digest>, e: nat, k: nat, i: nat)
    requires |s| >= Pow2(e) && k <= e && i < Width(|s| - Pow2(e), k)
    ensures Pow2(e - k) + i < Width(|s|, k)
    ensures Tree(h, s, k, Pow2(e - k) + i) == Tree(h, s[Pow2(e)..], k, i)
  {
    hide Tree, Width, Join;
    SplitWidth(|s|, e, k);
    TreeUnfolds(h, s, k, Pow2(e - k) + i);
    TreeUnfolds(h, s[Pow2(e)..], k, i);
    if k > 0 {
      SplitWidth(|s|, e, k - 1);
      RightPart(h, s, e, k - 1, 2 * i);
      RightPart(h, s, e, k - 1, Min(2 * i + 1, Width(|s| - Pow2(e), k - 1) - 1));
    }
  }

  lemma {:induction false} LoneNodesLift(h: Hasher, s: seq<Digest>, k: nat)
    requires s != [] && k >= Height(|s|)
    ensures Width(|s|, k) == 1 && Tree(h, s, k, 0) == Lift(h, TreeRoot(h, s), k - Height(|s|))
  {
    hide Tree, Width, Join, Height;
    WidthAtHeight(|s|, k);
    if k > Height(|s|) {
      WidthAtHeight(|s|, k - 1);
      TreeUnfolds(h, s, k, 0);
      LoneNodesLift(h, s, k - 1);
    }
  }

  lemma TreeRootSplits(h: Hasher, s: seq<Digest>, e: nat)
    requires Pow2(e) < |s| <= 2 * Pow2(e)
    ensures Height(|s| - Pow2(e)) <= e
    ensures var left, right := TreeRoot(h, s[..Pow2(e)]), TreeRoot(h, s[Pow2(e)..]);
            TreeRoot(h, s) == Join(h, left, Lift(h, right, e - Height(|s| - Pow2(e))))
  {
    hide Tree, Width, Join, Lift, Height;
    var left, right := s[..Pow2(e)], s[Pow2(e)..];
    HeightBelow(|right|, e);
    HeightOfPow2(e);
    HeightIs(|s|, e);
    WidthAtHeight(|s|, e + 1);
    WidthAtHeight(|right|, e);
    SplitWidth(|s|, e, e);
    TreeUnfolds(h, s, e + 1, 0);
    LoneNodesLift(h, right, e);
    LeftPart(h, s, e, e, 0);
    RightPart(h, s, e, e, 0);
  }

  lemma {:induction false} TopDownIsTree(h: Hasher, s: seq<Digest>)
    requires s != []
    ensures TopDown(h, s) == TreeRoot(h, s)
    decreases |s|
  {
    hide Join, Lift;
    if |s| > 1 {
      var e := Split(|s|);
      TopDownIsTree(h, s[..Pow2(e)]);
      TopDownIsTree(h, s[Pow2(e)..]);
      TreeRootSplits(h, s, e);
    }
  }

  lemma {:induction false} HeightIs(n: nat, e: nat)
    requires Pow2(e) < n <= 2 * Pow2(e)
    ensures Height(n) == e + 1
  {
    if e > 0 {
      HeightIs((n + 1) / 2, e - 1);
    }
  }

  lemma {:induction false} HeightOfPow2(e: nat)
    ensures Height(Pow2(e)) == e
  {
    if e > 0 {
      HeightOfPow2(e - 1);
      assert (Pow2(e) + 1) / 2 == Pow2(e - 1);
    }
  }

  /** The three constructions agree for every leaf count. */
  lemma RootIsTopDown(h: Hasher, s: seq<Digest>)
    requires s != []
    ensures Root(h, s) == TopDown(h, s)
  {
    RootIsTree(h, s);
    TopDownIsTree(h, s);
  }

  // ----- what the root commits to

  /** Every string hashed on the way to the root. */
  function Hashed(h: Hasher, s: seq<Digest>): set<seq<byte>>
    decreases |s|
  {
    if |s| <= 1 then {}
    else (set i | 0 <= i < (|s| + 1) / 2 :: s[2 * i] + Partner(s, i)) + Hashed(h, NextLevel(h, s))
  }

  ghost predicate InjectiveOn(h: Hasher, inputs: set<seq<byte>>) {
    forall x, y :: x in inputs && y in inputs && h(x) == h(y) ==> x == y
  }

  lemma HalvesDetermined(a: Digest, b: Digest, c: Digest, d: Digest)
    requires a + b == c + d
    ensures a == c && b == d
  {
    assert a == (a + b)[..32] && b == (a + b)[32..];
    assert c == (c + d)[..32] && d == (c + d)[32..];
  }

  lemma PairIsHashed(h: Hasher, s: seq<Digest>, i: nat)
    requires |s| > 1 && 2 * i < |s|
    ensures s[2 * i] + Partner(s, i) in Hashed(h, s)
    ensures h(s[2 * i] + Partner(s, i)) == NextLevel(h, s)[i]
  {
  }

  lemma LevelDistinguishes(h: Hasher, a: seq<Digest>, b: seq<Digest>)
    requires |a| == |b| > 1 && NextLevel(h, a) == NextLevel(h, b)
    requires InjectiveOn(h, Hashed(h, a) + Hashed(h, b))
    ensures a == b
  {
    hide *;
    forall j | 0 <= j < |a| ensures a[j] == b[j] {
      PairDistinguished(h, a, b, j / 2);
    }
  }

  lemma PairDistinguished(h: Hasher, a: seq<Digest>, b: seq<Digest>, i: nat)
    requires |a| == |b| > 1 && NextLevel(h, a) == NextLevel(h, b) && 2 * i < |a|
    requires InjectiveOn(h, Hashed(h, a) + Hashed(h, b))
    ensures a[2 * i] == b[2 * i] && (2 * i + 1 < |a| ==> a[2 * i + 1] == b[2 * i + 1])
  {
    hide NextLevel, Hashed;
    PairIsHashed(h, a, i);
    PairIsHashed(h, b, i);
    HalvesDetermined(a[2 * i], Partner(a, i), b[2 * i], Partner(b, i));
  }

  /** Leaf lists of one length with one root are equal, unless the hash collides on what was hashed. */
  lemma {:induction false} EqualRootsEqualLeaves(h: Hasher, a: seq<Digest>, b: seq<Digest>)
    requires |a| == |b| > 0 && Root(h, a) == Root(h, b)
    requires InjectiveOn(h, Hashed(h, a) + Hashed(h, b))
    ensures a == b
    decreases |a|
  {
    if |a| > 1 {
      EqualRootsEqualLeaves(h, NextLevel(h, a), NextLevel(h, b));
      LevelDistinguishes(h, a, b);
    }
  }

  /** `s` with its last `count` leaves written twice. */
  function TailTwice(s: seq<Digest>, count: nat): seq<Digest>
    requires count <= |s|
  {
    s + s[|s| - count..]
  }

  lemma TailAt(s: seq<Digest>, count: nat, i: nat)
    requires count <= |s| && i < |s| + count
    ensures |TailTwice(s, count)| == |s| + count && TailTwice(s, count)[i] == if i < |s| then s[i] else s[i - count]
  {
  }

  lemma PairAt(h: Hasher, level: seq<Digest>, half: nat, i: nat)
    requires |level| == 2 * half && i < half
    ensures |NextLevel(h, level)| == half && NextLevel(h, level)[i] == Join(h, level[2 * i], level[2 * i + 1])
  {
    hide Join;
  }

  lemma EvenTailTwice(h: Hasher, s: seq<Digest>, half: nat)
    requires 0 < 2 * half <= |s| && |s| % 2 == 0
    ensures NextLevel(h, TailTwice(s, 2 * half)) == TailTwice(NextLevel(h, s), half)
  {
    hide Join, TailTwice, Partner;
    var t, next, n := TailTwice(s, 2 * half), NextLevel(h, s), |s| / 2;
    TailAt(s, 2 * half, 0);
    TailAt(next, half, 0);
    var lhs, rhs := NextLevel(h, t), TailTwice(next, half);
    assert |lhs| == n + half == |rhs|;
    forall i | 0 <= i < n + half ensures lhs[i] == rhs[i] {
      var from := if i < n then i else i - half;
      TailAt(s, 2 * half, 2 * i);
      TailAt(s, 2 * half, 2 * i + 1);
      TailAt(next, half, i);
      PairAt(h, t, n + half, i);
      PairAt(h, s, n, from);
    }
  }

  lemma OddTailTwice(h: Hasher, s: seq<Digest>)
    requires |s| % 2 == 1 && |s| > 1
    ensures Root(h, TailTwice(s, 1)) == Root(h, s)
  {
    hide Join;
    assert NextLevel(h, TailTwice(s, 1)) == NextLevel(h, s);
  }

  lemma OnlyLeafTwice(h: Hasher, x: Digest)
    ensures Root(h, TailTwice([x], 1)) == Join(h, x, x)
  {
    hide Join;
    assert TailTwice([x], 1) == [x, x];
    var next := NextLevel(h, [x, x]);
    assert |next| == 1 && next[0] == Join(h, x, x);
  }

  /** For n = m * 2^k leaves with m odd, repeating the last 2^k leaves goes unnoticed by the
      root exactly when m > 1 (or the root happens to hash with itself to itself). */
  lemma {:induction false} DuplicatedTail(h: Hasher, s: seq<Digest>, m: nat, k: nat)
    requires m % 2 == 1 && |s| == m * Pow2(k)
    ensures s != [] && Pow2(k) <= |s|
    ensures Root(h, TailTwice(s, Pow2(k))) == Root(h, s) <==> m >= 3 || Join(h, Root(h, s), Root(h, s)) == Root(h, s)
    decreases k
  {
    hide Join, NextLevel;
    Scale(m, Pow2(k));
    if k == 0 {
      if m == 1 {
        OnlyLeafTwice(h, s[0]);
        assert s == [s[0]];
      } else {
        OddTailTwice(h, s);
      }
    } else {
      var half := Pow2(k - 1);
      Halve(m, half);
      Scale(m, half);
      DuplicatedTail(h, NextLevel(h, s), m, k - 1);
      EvenTailTwice(h, s, half);
    }
  }

  lemma Halve(m: nat, half: nat)
    ensures m * (2 * half) == 2 * (m * half)
  {
  }

  lemma Scale(m: nat, p: nat)
    requires m >= 1
    ensures p <= m * p
  {
  }
}
