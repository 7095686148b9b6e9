/** The Merkle root of a block: the level-by-level loop, the tree it computes, and what a root pins down. */
module Merkle {
  import opened Types

  type Digest = string -> string

  /** The only thing used of SHA-256: its output has 64 characters. */
  ghost predicate Sha(sha: Digest) { forall s :: |sha(s)| == 64 }

  function Pow2(d: nat): (p: nat)
    ensures p >= 1
  {
    if d == 0 then 1 else 2 * Pow2(d - 1)
  }

  // ---------- the loop ----------

  /** One level: neighbours are hashed together, a last one without neighbour with itself. */
  function Level(sha: Digest, hashes: seq<string>): (up: seq<string>)
    ensures 2 * |up| == |hashes| + |hashes| % 2
  {
    if hashes == [] then []
    else if |hashes| == 1 then [sha(hashes[0] + hashes[0])]
    else [sha(hashes[0] + hashes[1])] + Level(sha, hashes[2..])
  }

  lemma {:induction false} LevelAt(sha: Digest, hashes: seq<string>, i: nat)
    requires 2 * i < |hashes|
    ensures Level(sha, hashes)[i] == sha(hashes[2 * i] + hashes[if 2 * i + 1 < |hashes| then 2 * i + 1 else 2 * i])
  {
    if i > 0 {
      LevelAt(sha, hashes[2..], i - 1);
    }
  }

  /** The body of the loop: pad to even length in place, then hash pairs into a new list. */
  method NextLevel(sha: Digest, level: seq<string>) returns (newHashes: seq<string>)
    requires level != []
    ensures newHashes == Level(sha, level)
  {
    var hashes := level;
    if |hashes| % 2 != 0 {
      hashes := hashes + [hashes[|hashes| - 1]];
    }
    newHashes := [];
    var i := 0;
    while i < |hashes|
      invariant 0 <= i <= |hashes| && i % 2 == 0 && |newHashes| == i / 2
      invariant forall j :: 0 <= j < |newHashes| ==> newHashes[j] == Level(sha, level)[j]
    {
      LevelAt(sha, level, i / 2);
      newHashes := newHashes + [sha(hashes[i] + hashes[i + 1])];
      i := i + 2;
    }
  }

  /** `Block::calculateMerkleRoot` on the hashes of the block's transactions: the root is the hash of the
      recursively defined tree over them. */
  method CalculateMerkleRoot(sha: Digest, leaves: seq<string>) returns (root: string)
    ensures root == Root(sha, leaves)
  {
    if leaves == [] {
      return sha("empty");
    }
    var hashes := leaves;
    while |hashes| > 1
      invariant 1 <= |hashes|
      invariant Root(sha, hashes) == Root(sha, leaves)
      decreases |hashes|
    {
      RootOfLevel(sha, hashes);
      hashes := NextLevel(sha, hashes);
    }
    return hashes[0];
  }

  // ---------- the tree, from the top down ----------

  datatype HashTree = Leaf(hash: string) | Node(left: HashTree, right: HashTree)

  function TreeHash(sha: Digest, t: HashTree): string {
    match t
    case Leaf(hash) => hash
    case Node(left, right) => sha(TreeHash(sha, left) + TreeHash(sha, right))
  }

  /** The number of levels above `n` leaves. */
  function Depth(n: nat): (d: nat)
    ensures n <= Pow2(d) && (d > 0 ==> Pow2(d - 1) < n)
  {
    if n <= 1 then 0 else
      var d := 1 + Depth((n + 1) / 2);
      assert Pow2(d) == 2 * Pow2(d - 1);
      assert d > 1 ==> Pow2(d - 1) == 2 * Pow2(d - 2);
      d
  }

  /** The perfect tree of height `d` the leaves are placed in from the left.  Cut at the middle: a right half
      without any leaves of its own repeats the left half. */
  function Build(leaves: seq<string>, d: nat): HashTree
    requires 1 <= |leaves| <= Pow2(d)
    decreases d
  {
    if d == 0 then Leaf(leaves[0])
    else if |leaves| > Pow2(d - 1) then
      Node(Build(leaves[..Pow2(d - 1)], d - 1), Build(leaves[Pow2(d - 1)..], d - 1))
    else
      Node(Build(leaves, d - 1), Build(leaves, d - 1))
  }

  function Root(sha: Digest, leaves: seq<string>): string {
    if leaves == [] then sha("empty") else TreeHash(sha, Build(leaves, Depth(|leaves|)))
  }

  lemma {:induction false} LevelSplits(sha: Digest, a: seq<string>, b: seq<string>)
    requires |a| % 2 == 0
    ensures Level(sha, a + b) == Level(sha, a) + Level(sha, b)
    decreases |a|
  {
    if a == [] {
      assert a + b == b;
    } else {
      assert (a + b)[2..] == a[2..] + b;
      LevelSplits(sha, a[2..], b);
    }
  }

  /** Cutting a list at the middle of its tree and taking a level commute. */
  lemma LevelCut(sha: Digest, l: seq<string>, r: seq<string>, d: nat)
    requires d > 1 && |l| == Pow2(d - 1) && 1 <= |r| <= Pow2(d - 1)
    ensures var up, cut := Level(sha, l + r), Pow2(d - 2);
      && Pow2(d - 1) == 2 * cut && cut < |up| <= 2 * cut
      && up[..cut] == Level(sha, l) && up[cut..] == Level(sha, r)
  {
    LevelSplits(sha, l, r);
    assert |Level(sha, l)| == Pow2(d - 2);
  }

  function BuiltHash(sha: Digest, leaves: seq<string>, d: nat): string
    requires 1 <= |leaves| <= Pow2(d)
  {
    TreeHash(sha, Build(leaves, d))
  }

  lemma BuiltHashStep(sha: Digest, leaves: seq<string>, d: nat)
    requires 1 <= |leaves| <= Pow2(d) && d > 0
    ensures var half := Pow2(d - 1);
      BuiltHash(sha, leaves, d)
      == if |leaves| > half then sha(BuiltHash(sha, leaves[..half], d - 1) + BuiltHash(sha, leaves[half..], d - 1))
         else sha(BuiltHash(sha, leaves, d - 1) + BuiltHash(sha, leaves, d - 1))
  {
  }

  lemma PairHash(sha: Digest, hashes: seq<string>)
    requires 1 <= |hashes| <= 2
    ensures |Level(sha, hashes)| == 1
    ensures BuiltHash(sha, hashes, 1) == BuiltHash(sha, Level(sha, hashes), 0)
  {
    BuiltHashStep(sha, hashes, 1);
  }

  lemma LevelFits(sha: Digest, hashes: seq<string>, d: nat)
    requires 1 <= |hashes| <= Pow2(d) && d > 0
    ensures 1 <= |Level(sha, hashes)| <= Pow2(d - 1)
  {
    assert Pow2(d) == 2 * Pow2(d - 1);
  }

  lemma JoinLevels(sha: Digest, l: seq<string>, r: seq<string>, d: nat)
    requires d > 1 && |l| == Pow2(d - 1) && 1 <= |r| <= Pow2(d - 1) && |l + r| <= Pow2(d)
    requires |Level(sha, l)| <= Pow2(d - 2) && BuiltHash(sha, l, d - 1) == BuiltHash(sha, Level(sha, l), d - 2)
    requires |Level(sha, r)| <= Pow2(d - 2) && BuiltHash(sha, r, d - 1) == BuiltHash(sha, Level(sha, r), d - 2)
    ensures |Level(sha, l + r)| <= Pow2(d - 1)
    ensures BuiltHash(sha, l + r, d) == BuiltHash(sha, Level(sha, l + r), d - 1)
  {
    LevelCut(sha, l, r, d);
    BuiltHashStep(sha, l + r, d);
    BuiltHashStep(sha, Level(sha, l + r), d - 1);
    assert (l + r)[..Pow2(d - 1)] == l && (l + r)[Pow2(d - 1)..] == r;
    hide BuiltHash, Level, Pow2;
  }

  lemma RepeatLevels(sha: Digest, hashes: seq<string>, d: nat)
    requires d > 1 && 1 <= |hashes| <= Pow2(d - 1) <= Pow2(d)
    requires |Level(sha, hashes)| <= Pow2(d - 2) && BuiltHash(sha, hashes, d - 1) == BuiltHash(sha, Level(sha, hashes), d - 2)
    ensures |Level(sha, hashes)| <= Pow2(d - 1)
    ensures BuiltHash(sha, hashes, d) == BuiltHash(sha, Level(sha, hashes), d - 1)
  {
    assert Pow2(d - 1) == 2 * Pow2(d - 2);
    BuiltHashStep(sha, hashes, d);
    BuiltHashStep(sha, Level(sha, hashes), d - 1);
    hide BuiltHash, Level, Pow2;
  }

  /** One level of the loop removes one level of the tree. */
  lemma {:induction false} TreeOfLevel(sha: Digest, hashes: seq<string>, d: nat)
    requires 1 <= |hashes| <= Pow2(d) && d > 0
    ensures 1 <= |Level(sha, hashes)| <= Pow2(d - 1)
    ensures BuiltHash(sha, hashes, d) == BuiltHash(sha, Level(sha, hashes), d - 1)
    decreases d
  {
    hide *;
    LevelFits(sha, hashes, d);
    Pow2Halves(d);
    if d == 1 {
      PairHash(sha, hashes);
    } else if |hashes| > Pow2(d - 1) {
      var l, r := hashes[..Pow2(d - 1)], hashes[Pow2(d - 1)..];
      assert hashes == l + r;
      TreeOfLevel(sha, l, d - 1);
      TreeOfLevel(sha, r, d - 1);
      JoinLevels(sha, l, r, d);
    } else {
      TreeOfLevel(sha, hashes, d - 1);
      RepeatLevels(sha, hashes, d);
    }
  }

  lemma Pow2Halves(d: nat)
    requires d > 0
    ensures Pow2(d) == 2 * Pow2(d - 1) && (d == 1 ==> Pow2(d) == 2)
  {
  }

  lemma RootOfLevel(sha: Digest, hashes: seq<string>)
    requires |hashes| > 1
    ensures Root(sha, Level(sha, hashes)) == Root(sha, hashes)
    ensures Depth(|hashes|) == 1 + Depth(|Level(sha, hashes)|)
  {
    assert |Level(sha, hashes)| == (|hashes| + 1) / 2;
    assert Depth(|hashes|) == 1 + Depth(|Level(sha, hashes)|);
    TreeOfLevel(sha, hashes, Depth(|hashes|));
    hide TreeHash, Build, Depth, Pow2, Level;
  }

  // ---------- what the root determines ----------

  ghost predicate AllHashes(leaves: seq<string>) {
    forall i :: 0 <= i < |leaves| ==> |leaves[i]| == 64
  }

  /** A perfect tree of height `d` over hashes. */
  ghost predicate Perfect(t: HashTree, d: nat) {
    match t
    case Leaf(hash) => d == 0 && |hash| == 64
    case Node(left, right) => d > 0 && Perfect(left, d - 1) && Perfect(right, d - 1)
  }

  lemma {:induction false} BuildPerfect(leaves: seq<string>, d: nat)
    requires AllHashes(leaves) && 1 <= |leaves| <= Pow2(d)
    ensures Perfect(Build(leaves, d), d)
    decreases d
  {
    var half := if d > 0 then Pow2(d - 1) else 1;
    if d > 0 && |leaves| > half {
      BuildPerfect(leaves[..half], d - 1);
      BuildPerfect(leaves[half..], d - 1);
    } else if d > 0 {
      BuildPerfect(leaves, d - 1);
    }
  }

  /** Lists of one length are told apart by their trees. */
  lemma {:induction false} BuildInjective(xs: seq<string>, ys: seq<string>, d: nat)
    requires 1 <= |xs| == |ys| <= Pow2(d) && Build(xs, d) == Build(ys, d)
    ensures xs == ys
    decreases d
  {
    var half := if d > 0 then Pow2(d - 1) else 1;
    if d > 0 && |xs| > half {
      BuildInjective(xs[..half], ys[..half], d - 1);
      BuildInjective(xs[half..], ys[half..], d - 1);
      assert xs == xs[..half] + xs[half..] && ys == ys[..half] + ys[half..];
    } else if d > 0 {
      BuildInjective(xs, ys, d - 1);
    }
  }

  lemma SplitAt(a: string, b: string, c: string, d: string)
    requires |a| == |c| && a + b == c + d
    ensures a == c && b == d
  {
    assert (a + b)[..|a|] == a && (a + b)[|a|..] == b;
    assert (c + d)[..|a|] == c && (c + d)[|a|..] == d;
  }

  /** From two different perfect trees with one root hash, two strings with one digest. */
  lemma {:induction false} Collision(sha: Digest, a: HashTree, b: HashTree, d: nat) returns (s: string, t: string)
    requires Sha(sha) && Perfect(a, d) && Perfect(b, d)
    requires a != b && TreeHash(sha, a) == TreeHash(sha, b)
    ensures s != t && sha(s) == sha(t)
    decreases d
  {
    match (a, b) {
      case (Node(al, ar), Node(bl, br)) =>
        s := TreeHash(sha, al) + TreeHash(sha, ar);
        t := TreeHash(sha, bl) + TreeHash(sha, br);
        if s == t {
          SplitAt(TreeHash(sha, al), TreeHash(sha, ar), TreeHash(sha, bl), TreeHash(sha, br));
          if al != bl {
            s, t := Collision(sha, al, bl, d - 1);
          } else {
            s, t := Collision(sha, ar, br, d - 1);
          }
        }
      case _ =>
    }
  }

  /** Binding: for lists of hashes of one length, different lists have different roots unless a digest collision
      can be written down. */
  lemma RootBinds(sha: Digest, xs: seq<string>, ys: seq<string>) returns (s: string, t: string)
    requires Sha(sha) && AllHashes(xs) && AllHashes(ys)
    requires |xs| == |ys| && xs != ys && Root(sha, xs) == Root(sha, ys)
    ensures s != t && sha(s) == sha(t)
  {
    var d := Depth(|xs|);
    BuildPerfect(xs, d);
    BuildPerfect(ys, d);
    if Build(xs, d) == Build(ys, d) {
      BuildInjective(xs, ys, d);
    }
    s, t := Collision(sha, Build(xs, d), Build(ys, d), d);
  }

  /** Two lists placed in one and the same perfect tree of height `d`. */
  ghost predicate SameTree(xs: seq<string>, ys: seq<string>, d: nat) {
    1 <= |xs| <= Pow2(d) && 1 <= |ys| <= Pow2(d) && Build(xs, d) == Build(ys, d)
  }

  lemma SameDepthRoots(sha: Digest, xs: seq<string>, ys: seq<string>) returns (s: string, t: string)
    requires Sha(sha) && AllHashes(xs) && AllHashes(ys) && xs != [] && ys != []
    requires Depth(|xs|) == Depth(|ys|)
    ensures SameTree(xs, ys, Depth(|xs|)) ==> Root(sha, xs) == Root(sha, ys)
    ensures Root(sha, xs) == Root(sha, ys) ==> SameTree(xs, ys, Depth(|xs|)) || (s != t && sha(s) == sha(t))
  {
    var d := Depth(|xs|);
    BuildPerfect(xs, d);
    BuildPerfect(ys, d);
    s, t := "", "";
    hide Perfect, TreeHash, Build, Depth;
    if Build(xs, d) != Build(ys, d) && Root(sha, xs) == Root(sha, ys) {
      s, t := Collision(sha, Build(xs, d), Build(ys, d), d);
    }
  }

  /** The list on which the loop arrives after `n` passes; an empty list stands for its reserved digest. */
  function Passes(sha: Digest, leaves: seq<string>, n: nat): (up: seq<string>)
    ensures up != []
    decreases n
  {
    if leaves == [] then [sha("empty")]
    else if n == 0 then leaves
    else Passes(sha, Level(sha, leaves), n - 1)
  }

  lemma PassesStep(sha: Digest, leaves: seq<string>, n: nat)
    ensures Passes(sha, leaves, n) == if leaves == [] then [sha("empty")] else if n == 0 then leaves
      else Passes(sha, Level(sha, leaves), n - 1)
    ensures 0 < n <= Depth(|leaves|) ==> |leaves| > 1
  {
  }

  lemma {:induction false} PassesKeepRoot(sha: Digest, leaves: seq<string>, n: nat)
    requires Sha(sha) && AllHashes(leaves) && n <= Depth(|leaves|)
    ensures var up := Passes(sha, leaves, n);
      Root(sha, up) == Root(sha, leaves) && AllHashes(up) && Depth(|up|) == Depth(|leaves|) - n
    decreases n
  {
    hide *;
    PassesStep(sha, leaves, n);
    if leaves == [] {
      EmptyRoot(sha);
    } else if n > 0 {
      RootOfLevel(sha, leaves);
      LevelHashes(sha, leaves);
      PassesKeepRoot(sha, Level(sha, leaves), n - 1);
    }
  }

  lemma EmptyRoot(sha: Digest)
    requires Sha(sha)
    ensures Root(sha, []) == Root(sha, [sha("empty")]) && AllHashes([sha("empty")])
    ensures Depth(0) == Depth(1) == 0
  {
    assert Depth(1) == 0;
  }

  lemma LevelHashes(sha: Digest, leaves: seq<string>)
    requires Sha(sha)
    ensures AllHashes(Level(sha, leaves))
  {
    forall i | 0 <= i < |Level(sha, leaves)|
      ensures |Level(sha, leaves)[i]| == 64
    {
      LevelAt(sha, leaves, i);
    }
  }

  /** What a root determines, for lists of hashes of any lengths: let the loop work on the deeper list until both have
      the same number of levels left.  Then equal trees over the two lists give equal roots, and equal roots
      come from equal trees or from a digest collision that can be written down. */
  lemma RootDeterminesTree(sha: Digest, xs: seq<string>, ys: seq<string>) returns (s: string, t: string)
    requires Sha(sha) && AllHashes(xs) && AllHashes(ys)
    ensures var d := if Depth(|xs|) <= Depth(|ys|) then Depth(|xs|) else Depth(|ys|);
      var a, b := Passes(sha, xs, Depth(|xs|) - d), Passes(sha, ys, Depth(|ys|) - d);
      && (SameTree(a, b, d) ==> Root(sha, xs) == Root(sha, ys))
      && (Root(sha, xs) == Root(sha, ys) ==> SameTree(a, b, d) || (s != t && sha(s) == sha(t)))
  {
    hide *;
    var d := if Depth(|xs|) <= Depth(|ys|) then Depth(|xs|) else Depth(|ys|);
    PassesKeepRoot(sha, xs, Depth(|xs|) - d);
    PassesKeepRoot(sha, ys, Depth(|ys|) - d);
    var a, b := Passes(sha, xs, Depth(|xs|) - d), Passes(sha, ys, Depth(|ys|) - d);
    s, t := SameDepthRoots(sha, a, b);
  }

  /** So depths differ without harm to the root: two hashes and the one hash above them share theirs. */
  lemma ParentSameRoot(sha: Digest, a: string, b: string)
    ensures Root(sha, [a, b]) == Root(sha, [sha(a + b)])
  {
    RootOfLevel(sha, [a, b]);
    assert Level(sha, [a, b]) == [sha(a + b)];
  }

  /** Across lengths the root does not bind: an odd list of at least three hashes and the same list with
      its last hash repeated have the same root, whatever the digest. */
  lemma RepeatedLastSameRoot(sha: Digest, xs: seq<string>)
    requires |xs| >= 3 && |xs| % 2 == 1
    ensures Root(sha, xs + [xs[|xs| - 1]]) == Root(sha, xs)
  {
    hide Root;
    var ys := xs + [xs[|xs| - 1]];
    forall i | 0 <= i < |Level(sha, xs)|
      ensures Level(sha, xs)[i] == Level(sha, ys)[i]
    {
      LevelAt(sha, xs, i);
      LevelAt(sha, ys, i);
    }
    assert Level(sha, xs) == Level(sha, ys);
    RootOfLevel(sha, xs);
    RootOfLevel(sha, ys);
  }
}
