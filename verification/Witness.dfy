/** Certificate commits: the Merkle root, committing a batch to the ledger, and
    what a ledger head then says about the certificates. */
module Witness {
  import opened Common
  import opened Framing
  import opened Ledger

  type Sha = Bytes -> Bytes

  function LeafMessage(h: Bytes): Bytes {
    [0] + h
  }

  function NodeMessage(left: Bytes, right: Bytes): Bytes {
    [1] + left + right
  }

  /** The next level: neighbours are paired and an odd last node is paired with itself. */
  function NextLevel(sha: Sha, hs: seq<Bytes>): (r: seq<Bytes>)
    ensures |r| == (|hs| + 1) / 2
  {
    if hs == [] then []
    else if |hs| == 1 then [sha(NodeMessage(hs[0], hs[0]))]
    else [sha(NodeMessage(hs[0], hs[1]))] + NextLevel(sha, hs[2..])
  }

  function MerkleRoot(sha: Sha, hs: seq<Bytes>): Bytes
    decreases |hs|
  {
    if hs == [] then []
    else if |hs| == 1 then sha(LeafMessage(hs[0]))
    else MerkleRoot(sha, NextLevel(sha, hs))
  }

  lemma {:induction false} NextLevelAppend(sha: Sha, a: seq<Bytes>, b: seq<Bytes>)
    requires |a| % 2 == 0
    ensures NextLevel(sha, a + b) == NextLevel(sha, a) + NextLevel(sha, b)
  {
    if a == [] {
      assert a + b == b;
    } else {
      assert (a + b)[2..] == a[2..] + b;
      NextLevelAppend(sha, a[2..], b);
    }
  }

  lemma LevelStep(sha: Sha, hs: seq<Bytes>, i: nat)
    requires i < |hs| && i % 2 == 0
    ensures var end := if i + 1 < |hs| then i + 2 else |hs|;
            NextLevel(sha, hs[..end])
            == NextLevel(sha, hs[..i]) + [sha(NodeMessage(hs[i], if i + 1 < |hs| then hs[i + 1] else hs[i]))]
  {
    var end := if i + 1 < |hs| then i + 2 else |hs|;
    var pair := hs[i..end];
    NextLevelAppend(sha, hs[..i], pair);
    assert hs[..i] + pair == hs[..end];
    if i + 1 < |hs| {
      assert pair[2..] == [];
    }
  }

  /** The level loop: steps of two, appending one combined hash each. */
  method BuildLevel(sha: Sha, hs: seq<Bytes>) returns (level: seq<Bytes>)
    ensures level == NextLevel(sha, hs)
  {
    level := [];
    var i := 0;
    while i < |hs|
      invariant 0 <= i && (i <= |hs| ==> i % 2 == 0)
      invariant level == NextLevel(sha, hs[..if i <= |hs| then i else |hs|])
    {
      LevelStep(sha, hs, i);
      hide NextLevel, NodeMessage;
      var left := hs[i];
      var right := if i + 1 < |hs| then hs[i + 1] else left;
      level := level + [sha(NodeMessage(left, right))];
      i := i + 2;
    }
    assert hs[..|hs|] == hs;
  }

  method ComputeMerkleRoot(sha: Sha, hs: seq<Bytes>) returns (root: Bytes)
    ensures root == MerkleRoot(sha, hs)
    decreases |hs|
  {
    if hs == [] {
      return [];
    }
    if |hs| == 1 {
      return sha(LeafMessage(hs[0]));
    }
    var level := BuildLevel(sha, hs);
    root := ComputeMerkleRoot(sha, level);
  }

  // ----- the tree, byte by byte

  /** What one level hashes: neighbours behind a one byte, an odd last node twice. */
  ghost predicate IsLevel(sha: Sha, hs: seq<Bytes>, level: seq<Bytes>) {
    && |level| == (|hs| + 1) / 2
    && forall i :: 0 <= i < |level| ==>
         level[i] == sha([1] + hs[2 * i] + (if 2 * i + 1 < |hs| then hs[2 * i + 1] else hs[2 * i]))
  }

  lemma {:induction false} NextLevelIs(sha: Sha, hs: seq<Bytes>)
    ensures IsLevel(sha, hs, NextLevel(sha, hs))
    decreases |hs|
  {
    if |hs| > 1 {
      NextLevelIs(sha, hs[2..]);
      var level, rest := NextLevel(sha, hs), NextLevel(sha, hs[2..]);
      forall i | 0 <= i < |level|
        ensures level[i] == sha([1] + hs[2 * i] + (if 2 * i + 1 < |hs| then hs[2 * i + 1] else hs[2 * i]))
      {
        if i > 0 {
          var k := i - 1;
          assert level[i] == rest[k];
          assert hs[2..][2 * k] == hs[2 * i];
        }
      }
    }
  }

  /** No hash has the empty root, one hash is hashed behind a zero byte, more are
      combined level by level. */
  lemma RootIs(sha: Sha, hs: seq<Bytes>, level: seq<Bytes>)
    ensures |hs| == 0 ==> MerkleRoot(sha, hs) == []
    ensures |hs| == 1 ==> MerkleRoot(sha, hs) == sha([0] + hs[0])
    ensures |hs| > 1 && IsLevel(sha, hs, level) ==> MerkleRoot(sha, hs) == MerkleRoot(sha, level)
  {
    if |hs| > 1 && IsLevel(sha, hs, level) {
      NextLevelIs(sha, hs);
      assert level == NextLevel(sha, hs);
      RootOfLevel(sha, hs);
      hide MerkleRoot, NextLevel;
    }
  }

  // ----- what the root determines

  /** Messages hashed to form the next level. */
  function LevelMessages(hs: seq<Bytes>): seq<Bytes> {
    if hs == [] then []
    else if |hs| == 1 then [NodeMessage(hs[0], hs[0])]
    else [NodeMessage(hs[0], hs[1])] + LevelMessages(hs[2..])
  }

  /** Messages hashed on the way to the root. */
  function TreeMessages(sha: Sha, hs: seq<Bytes>): seq<Bytes>
    decreases |hs|
  {
    if hs == [] then []
    else if |hs| == 1 then [LeafMessage(hs[0])]
    else LevelMessages(hs) + TreeMessages(sha, NextLevel(sha, hs))
  }

  ghost predicate NoClash(sha: Sha, ms: seq<Bytes>, ms': seq<Bytes>) {
    forall m, m' :: m in ms && m' in ms' && sha(m) == sha(m') ==> m == m'
  }

  ghost predicate Uniform(hs: seq<Bytes>, length: nat) {
    forall i :: 0 <= i < |hs| ==> |hs[i]| == length
  }

  lemma NodeMessageInjective(a: Bytes, b: Bytes, c: Bytes, d: Bytes)
    requires |a| == |c| && NodeMessage(a, b) == NodeMessage(c, d)
    ensures a == c && b == d
  {
    var m, n := NodeMessage(a, b), NodeMessage(c, d);
    assert m[1..|a| + 1] == a && n[1..|c| + 1] == c;
    assert m[|a| + 1..] == b && n[|c| + 1..] == d;
  }

  /** With hashes of one length, a level determines the level below it. */
  lemma {:induction false} LevelDetermines(sha: Sha, hs: seq<Bytes>, hs': seq<Bytes>, length: nat)
    requires |hs| == |hs'| && Uniform(hs, length) && Uniform(hs', length)
    requires NoClash(sha, LevelMessages(hs), LevelMessages(hs'))
    requires NextLevel(sha, hs) == NextLevel(sha, hs')
    ensures hs == hs'
    decreases |hs|
  {
    if |hs| == 1 {
      var m, m' := NodeMessage(hs[0], hs[0]), NodeMessage(hs'[0], hs'[0]);
      assert LevelMessages(hs)[0] == m && LevelMessages(hs')[0] == m';
      assert NextLevel(sha, hs)[0] == NextLevel(sha, hs')[0];
      NodeMessageInjective(hs[0], hs[0], hs'[0], hs'[0]);
    } else if |hs| > 1 {
      var m, m' := NodeMessage(hs[0], hs[1]), NodeMessage(hs'[0], hs'[1]);
      assert LevelMessages(hs)[0] == m && LevelMessages(hs')[0] == m';
      assert NextLevel(sha, hs)[0] == NextLevel(sha, hs')[0];
      NodeMessageInjective(hs[0], hs[1], hs'[0], hs'[1]);
      assert NextLevel(sha, hs)[1..] == NextLevel(sha, hs[2..]);
      assert NextLevel(sha, hs')[1..] == NextLevel(sha, hs'[2..]);
      assert LevelMessages(hs)[1..] == LevelMessages(hs[2..]);
      assert LevelMessages(hs')[1..] == LevelMessages(hs'[2..]);
      LevelDetermines(sha, hs[2..], hs'[2..], length);
      assert hs == [hs[0], hs[1]] + hs[2..] && hs' == [hs'[0], hs'[1]] + hs'[2..];
    }
  }

  /** All digests have the same length. */
  ghost predicate Digests(sha: Sha, size: nat) {
    forall m :: |sha(m)| == size
  }

  lemma {:induction false} NextLevelUniform(sha: Sha, hs: seq<Bytes>, size: nat)
    requires Digests(sha, size)
    ensures Uniform(NextLevel(sha, hs), size)
    decreases |hs|
  {
    if |hs| > 1 {
      NextLevelUniform(sha, hs[2..], size);
    }
  }

  /** Root and count together determine a list of equally long hashes. */
  lemma {:induction false} RootAndCountDetermine(sha: Sha, hs: seq<Bytes>, hs': seq<Bytes>, size: nat, length: nat)
    requires Digests(sha, size)
    requires |hs| == |hs'| && Uniform(hs, length) && Uniform(hs', length)
    requires NoClash(sha, TreeMessages(sha, hs), TreeMessages(sha, hs'))
    requires MerkleRoot(sha, hs) == MerkleRoot(sha, hs')
    ensures hs == hs'
    decreases |hs|
  {
    if |hs| == 1 {
      var m, m' := LeafMessage(hs[0]), LeafMessage(hs'[0]);
      assert TreeMessages(sha, hs)[0] == m && TreeMessages(sha, hs')[0] == m';
      assert m[1..] == hs[0] && m'[1..] == hs'[0];
    } else if |hs| > 1 {
      var up, up' := NextLevel(sha, hs), NextLevel(sha, hs');
      NextLevelUniform(sha, hs, size);
      NextLevelUniform(sha, hs', size);
      assert TreeMessages(sha, hs) == LevelMessages(hs) + TreeMessages(sha, up);
      assert TreeMessages(sha, hs') == LevelMessages(hs') + TreeMessages(sha, up');
      RootAndCountDetermine(sha, up, up', size, size);
      LevelDetermines(sha, hs, hs', length);
    }
  }

  // ----- what the root alone does not determine

  lemma RootOfLevel(sha: Sha, hs: seq<Bytes>)
    requires |hs| > 1
    ensures MerkleRoot(sha, hs) == MerkleRoot(sha, NextLevel(sha, hs))
  {
  }

  lemma OddLastSameLevel(sha: Sha, front: seq<Bytes>, last: Bytes)
    requires |front| % 2 == 0
    ensures NextLevel(sha, front + [last, last]) == NextLevel(sha, front + [last])
  {
    NextLevelAppend(sha, front, [last]);
    NextLevelAppend(sha, front, [last, last]);
    var pair := [last, last];
    assert pair[2..] == [];
    assert NextLevel(sha, pair) == [sha(NodeMessage(last, last))];
  }

  /** Repeating the last hash of any longer odd list leaves the root unchanged. */
  lemma OddLastSameRoot(sha: Sha, hs: seq<Bytes>)
    requires |hs| % 2 == 1 && |hs| > 1
    ensures MerkleRoot(sha, hs + [hs[|hs| - 1]]) == MerkleRoot(sha, hs)
  {
    hide NextLevel, MerkleRoot;
    var front, last := hs[..|hs| - 1], hs[|hs| - 1];
    OddLastSameLevel(sha, front, last);
    assert hs == front + [last];
    assert hs + [last] == front + [last, last];
    RootOfLevel(sha, hs);
    RootOfLevel(sha, hs + [last]);
  }

  function Copies(n: nat, x: Bytes): (r: seq<Bytes>)
    ensures |r| == n
  {
    seq(n, i => x)
  }

  /** Levels between n hashes and the root's single one. */
  function Height(n: nat): (h: nat)
    requires n > 0
    ensures h < n
  {
    if n == 1 then 0 else 1 + Height((n + 1) / 2)
  }

  /** A hash paired with itself k times over. */
  function Doubled(sha: Sha, x: Bytes, k: nat): Bytes
    decreases k
  {
    if k == 0 then x else Doubled(sha, sha(NodeMessage(x, x)), k - 1)
  }

  /** The message that pairs the k-th doubling with itself. */
  function DoublingNode(sha: Sha, x: Bytes, k: nat): Bytes {
    NodeMessage(Doubled(sha, x, k), Doubled(sha, x, k))
  }

  /** A message hashed on the path of doublings from x to its h-th. */
  ghost predicate OnDoublings(sha: Sha, m: Bytes, x: Bytes, h: nat) {
    m == LeafMessage(Doubled(sha, x, h)) || exists k: nat :: k < h && m == DoublingNode(sha, x, k)
  }

  lemma {:induction false} CopiesLevel(sha: Sha, n: nat, x: Bytes)
    ensures NextLevel(sha, Copies(n, x)) == Copies((n + 1) / 2, sha(NodeMessage(x, x)))
    ensures forall m :: m in LevelMessages(Copies(n, x)) ==> m == NodeMessage(x, x)
  {
    if n > 1 {
      CopiesLevel(sha, n - 2, x);
      assert Copies(n, x)[2..] == Copies(n - 2, x);
    }
  }

  lemma DoublingsShift(sha: Sha, m: Bytes, x: Bytes, h: nat)
    requires m == NodeMessage(x, x) || OnDoublings(sha, m, sha(NodeMessage(x, x)), h)
    ensures OnDoublings(sha, m, x, h + 1)
  {
    var up := sha(NodeMessage(x, x));
    if m == NodeMessage(x, x) {
      assert m == DoublingNode(sha, x, 0);
    } else if k: nat :| k < h && m == DoublingNode(sha, up, k) {
      assert m == DoublingNode(sha, x, k + 1);
    }
  }

  /** The tree over copies is a single path of doublings. */
  lemma {:induction false} CopiesTree(sha: Sha, n: nat, x: Bytes)
    requires n > 0
    ensures MerkleRoot(sha, Copies(n, x)) == sha(LeafMessage(Doubled(sha, x, Height(n))))
    ensures forall m :: m in TreeMessages(sha, Copies(n, x)) ==> OnDoublings(sha, m, x, Height(n))
  {
    if n > 1 {
      CopiesLevel(sha, n, x);
      CopiesTree(sha, (n + 1) / 2, sha(NodeMessage(x, x)));
      forall m | m in TreeMessages(sha, Copies(n, x))
        ensures OnDoublings(sha, m, x, Height(n))
      {
        DoublingsShift(sha, m, x, Height((n + 1) / 2));
      }
    }
  }

  /** Whatever the hash, any two positive counts admit digest-long lists of one root. */
  lemma CountsShareRoot(sha: Sha, n: nat, m: nat, size: nat) returns (hs: seq<Bytes>, hs': seq<Bytes>)
    requires 0 < n && 0 < m && Digests(sha, size)
    ensures |hs| == n && |hs'| == m && Uniform(hs, size) && Uniform(hs', size)
    ensures MerkleRoot(sha, hs) == MerkleRoot(sha, hs')
  {
    hide MerkleRoot, TreeMessages, OnDoublings, Doubled;
    var x := sha([]);
    var low := if Height(n) < Height(m) then Height(n) else Height(m);
    DoubledSize(sha, x, Height(m) - low, size);
    DoubledSize(sha, x, Height(n) - low, size);
    hs := Copies(n, Doubled(sha, x, Height(m) - low));
    hs' := Copies(m, Doubled(sha, x, Height(n) - low));
    CopiesTree(sha, n, Doubled(sha, x, Height(m) - low));
    CopiesTree(sha, m, Doubled(sha, x, Height(n) - low));
    DoubledAdd(sha, x, Height(m) - low, Height(n));
    DoubledAdd(sha, x, Height(n) - low, Height(m));
  }

  lemma {:induction false} DoubledAdd(sha: Sha, x: Bytes, i: nat, k: nat)
    ensures Doubled(sha, Doubled(sha, x, i), k) == Doubled(sha, x, i + k)
    decreases i
  {
    if i > 0 {
      DoubledAdd(sha, sha(NodeMessage(x, x)), i - 1, k);
    }
  }

  lemma {:induction false} DoubledSize(sha: Sha, x: Bytes, k: nat, size: nat)
    requires Digests(sha, size) && |x| == size
    ensures |Doubled(sha, x, k)| == size
    decreases k
  {
    if k > 0 {
      DoubledSize(sha, sha(NodeMessage(x, x)), k - 1, size);
    }
  }

  /** Two different lists of equally long hashes with one root, and no hash collision
      to blame for it. */
  ghost predicate Confused(sha: Sha, size: nat, hs: seq<Bytes>, hs': seq<Bytes>) {
    && size > 0 && Digests(sha, size)
    && (exists length: nat :: Uniform(hs, length) && Uniform(hs', length))
    && NoClash(sha, TreeMessages(sha, hs), TreeMessages(sha, hs'))
    && MerkleRoot(sha, hs) == MerkleRoot(sha, hs') && hs != hs'
  }

  /** The root fails to determine lists of n and m hashes. */
  ghost predicate RootConfuses(n: nat, m: nat) {
    exists sha, size, hs, hs' :: |hs| == n && |hs'| == m && Confused(sha, size, hs, hs')
  }

  /** Over lists of n and m hashes, and all hash functions, the root determines the
      list, short of a hash collision, if and only if n == m or one list is empty. */
  lemma RootDeterminesIff(n: nat, m: nat)
    ensures !RootConfuses(n, m) <==> n == m || n == 0 || m == 0
  {
    if n == m || n == 0 || m == 0 {
      forall sha, size, hs, hs' | |hs| == n && |hs'| == m && Confused(sha, size, hs, hs')
        ensures false
      {
        NeverConfused(sha, size, hs, hs');
      }
    } else if Height(n) <= Height(m) {
      var sha, size, hs, hs' := CountsConfuse(n, m);
    } else {
      var sha, size, hs, hs' := CountsConfuse(m, n);
      assert Confused(sha, size, hs', hs);
    }
  }

  lemma NeverConfused(sha: Sha, size: nat, hs: seq<Bytes>, hs': seq<Bytes>)
    requires |hs| == |hs'| || |hs| == 0 || |hs'| == 0
    ensures !Confused(sha, size, hs, hs')
  {
    if Confused(sha, size, hs, hs') {
      if |hs| == |hs'| {
        var length: nat :| Uniform(hs, length) && Uniform(hs', length);
        RootAndCountDetermine(sha, hs, hs', size, length);
      } else {
        RootSize(sha, hs, size);
        RootSize(sha, hs', size);
      }
      assert false;
    }
  }

  lemma {:induction false} RootSize(sha: Sha, hs: seq<Bytes>, size: nat)
    requires Digests(sha, size)
    ensures |MerkleRoot(sha, hs)| == if hs == [] then 0 else size
    decreases |hs|
  {
    if |hs| > 1 {
      RootSize(sha, NextLevel(sha, hs), size);
    }
  }

  // ----- a hash function that confuses counts without colliding

  /** k ones and then zeros, of the given size. */
  function Unary(k: nat, size: nat): (r: Bytes)
    ensures |r| == size
  {
    seq(size, i => if i < k then 1 else 0)
  }

  /** Counts up on node messages; all leaf messages share one other digest. */
  function Counting(size: nat): Sha
    requires size > 0
  {
    m => if |m| > size && m[0] == 1 then [1] + m[1..size] else seq(size, i => 2)
  }

  /** The message that pairs the k-th digest with itself. */
  function PathNode(k: nat, size: nat): Bytes {
    NodeMessage(Unary(k, size), Unary(k, size))
  }

  lemma CountingNode(k: nat, size: nat)
    requires k < size
    ensures Counting(size)(PathNode(k, size)) == Unary(k + 1, size)
  {
    var m := PathNode(k, size);
    assert m[1..size] == Unary(k, size)[..size - 1];
  }

  lemma CountingLeaf(h: Bytes, size: nat)
    requires size > 0
    ensures Counting(size)(LeafMessage(h))[0] == 2
  {
    assert LeafMessage(h)[0] == 0;
  }

  lemma {:induction false} CountingDoubled(k: nat, steps: nat, size: nat)
    requires k + steps <= size && size > 0
    ensures Doubled(Counting(size), Unary(k, size), steps) == Unary(k + steps, size)
    decreases steps
  {
    if steps > 0 {
      CountingNode(k, size);
      CountingDoubled(k + 1, steps - 1, size);
    }
  }

  lemma UnaryInjective(k: nat, l: nat, size: nat)
    requires k < l <= size
    ensures Unary(k, size) != Unary(l, size) && Unary(l, size)[0] == 1
  {
    assert Unary(k, size)[k] == 0 && Unary(l, size)[k] == 1;
  }

  /** A message the counting hash meets on a path of doublings ending at `top`. */
  ghost predicate OnPath(m: Bytes, top: nat, size: nat) {
    m == LeafMessage(Unary(top, size)) || exists k: nat :: k < top && m == PathNode(k, size)
  }

  lemma PathInjective(m: Bytes, m': Bytes, top: nat, size: nat)
    requires top < size && OnPath(m, top, size) && OnPath(m', top, size)
    requires Counting(size)(m) == Counting(size)(m')
    ensures m == m'
  {
    CountingLeaf(Unary(top, size), size);
    if k: nat :| k < top && m == PathNode(k, size) {
      CountingNode(k, size);
      UnaryInjective(0, k + 1, size);
      if l: nat :| l < top && m' == PathNode(l, size) {
        CountingNode(l, size);
        if k != l {
          UnaryInjective(if k < l then k + 1 else l + 1, if k < l then l + 1 else k + 1, size);
        }
      }
    } else if l: nat :| l < top && m' == PathNode(l, size) {
      CountingNode(l, size);
      UnaryInjective(0, l + 1, size);
    }
  }

  lemma CopiesOnPath(n: nat, k: nat, size: nat)
    requires n > 0 && k + Height(n) < size
    ensures forall m :: m in TreeMessages(Counting(size), Copies(n, Unary(k, size))) ==> OnPath(m, k + Height(n), size)
    ensures MerkleRoot(Counting(size), Copies(n, Unary(k, size)))
         == Counting(size)(LeafMessage(Unary(k + Height(n), size)))
  {
    hide TreeMessages, MerkleRoot, Counting, Doubled, Unary, Height;
    var sha := Counting(size);
    CopiesTree(sha, n, Unary(k, size));
    CountingDoubled(k, Height(n), size);
    forall m | m in TreeMessages(sha, Copies(n, Unary(k, size)))
      ensures OnPath(m, k + Height(n), size)
    {
      if i: nat :| i < Height(n) && m == DoublingNode(sha, Unary(k, size), i) {
        CountingDoubled(k, i, size);
        assert m == PathNode(k + i, size);
      }
    }
  }

  lemma PathsDoNotClash(ms: seq<Bytes>, ms': seq<Bytes>, top: nat, size: nat)
    requires top < size
    requires forall m :: m in ms ==> OnPath(m, top, size)
    requires forall m :: m in ms' ==> OnPath(m, top, size)
    ensures NoClash(Counting(size), ms, ms')
  {
    forall m, m' | m in ms && m' in ms' && Counting(size)(m) == Counting(size)(m')
      ensures m == m'
    {
      PathInjective(m, m', top, size);
    }
  }

  lemma CountsConfuse(n: nat, m: nat) returns (sha: Sha, size: nat, hs: seq<Bytes>, hs': seq<Bytes>)
    requires 0 < n && 0 < m && n != m && Height(n) <= Height(m)
    ensures |hs| == n && |hs'| == m && Confused(sha, size, hs, hs') && Confused(sha, size, hs', hs)
  {
    hide OnPath, TreeMessages, NoClash, MerkleRoot, Counting, Digests, Unary;
    size := m + 1;
    sha := Counting(size);
    var k := Height(m) - Height(n);
    hs, hs' := Copies(n, Unary(k, size)), Copies(m, Unary(0, size));
    CopiesOnPath(n, k, size);
    CopiesOnPath(m, 0, size);
    PathsDoNotClash(TreeMessages(sha, hs), TreeMessages(sha, hs'), Height(m), size);
    PathsDoNotClash(TreeMessages(sha, hs'), TreeMessages(sha, hs), Height(m), size);
    assert Uniform(hs, size) && Uniform(hs', size);
    CountingDigests(size);
  }

  lemma CountingDigests(size: nat)
    requires size > 0
    ensures Digests(Counting(size), size)
  {
  }

  // ----- committing

  datatype Certificate = Certificate(hash: Bytes, isValid: bool)

  /** Hashes of the valid certificates, in order. */
  function ValidHashes(certs: seq<Certificate>): seq<Bytes> {
    if certs == [] then []
    else (if certs[0].isValid then [certs[0].hash] else []) + ValidHashes(certs[1..])
  }

  /** hs are the hashes of exactly the valid certificates, f their positions in order. */
  ghost predicate Selects(certs: seq<Certificate>, hs: seq<Bytes>, f: seq<nat>) {
    && |f| == |hs|
    && (forall i, j :: 0 <= i < j < |f| ==> f[i] < f[j])
    && (forall i :: 0 <= i < |f| ==> f[i] < |certs| && certs[f[i]].isValid && hs[i] == certs[f[i]].hash)
    && (forall j :: 0 <= j < |certs| && certs[j].isValid ==> j in f)
  }

  lemma {:induction false} ValidHashesConcat(a: seq<Certificate>, b: seq<Certificate>)
    ensures ValidHashes(a + b) == ValidHashes(a) + ValidHashes(b)
  {
    if a == [] {
      assert a + b == b;
    } else {
      assert (a + b)[1..] == a[1..] + b;
      ValidHashesConcat(a[1..], b);
    }
  }

  lemma {:induction false} ValidHashesSelects(certs: seq<Certificate>) returns (f: seq<nat>)
    ensures Selects(certs, ValidHashes(certs), f)
  {
    if certs == [] {
      f := [];
    } else {
      var n := |certs| - 1;
      var g := ValidHashesSelects(certs[..n]);
      f := g + (if certs[n].isValid then [n] else []);
      assert certs == certs[..n] + [certs[n]];
      ValidHashesConcat(certs[..n], [certs[n]]);
      assert ValidHashes([certs[n]]) == if certs[n].isValid then [certs[n].hash] else [];
      hide ValidHashes;
      SelectsOneMore(certs[..n], ValidHashes(certs[..n]), g, certs[n]);
    }
  }

  lemma SelectsOneMore(certs: seq<Certificate>, hs: seq<Bytes>, f: seq<nat>, c: Certificate)
    requires Selects(certs, hs, f)
    ensures Selects(certs + [c], hs + (if c.isValid then [c.hash] else []),
                    f + (if c.isValid then [|certs|] else []))
  {
    var f' := f + (if c.isValid then [|certs|] else []);
    forall j | 0 <= j < |certs + [c]| && (certs + [c])[j].isValid
      ensures j in f'
    {
      if j == |certs| {
        assert f'[|f|] == j;
      } else {
        assert certs[j].isValid;
      }
    }
  }

  function SetOf(f: seq<nat>): set<nat> {
    set j | j in f
  }

  lemma {:induction false} IncreasingSize(f: seq<nat>)
    requires forall i, j :: 0 <= i < j < |f| ==> f[i] < f[j]
    ensures |SetOf(f)| == |f|
  {
    if f != [] {
      var n := |f| - 1;
      IncreasingSize(f[..n]);
      assert f == f[..n] + [f[n]];
      assert SetOf(f) == SetOf(f[..n]) + {f[n]};
      assert forall i :: 0 <= i < n ==> f[..n][i] < f[n];
      assert f[n] !in SetOf(f[..n]);
    }
  }

  /** As many hashes as there are valid certificates. */
  lemma ValidCount(certs: seq<Certificate>, hs: seq<Bytes>, f: seq<nat>)
    requires Selects(certs, hs, f)
    ensures |hs| == |set j | 0 <= j < |certs| && certs[j].isValid|
  {
    IncreasingSize(f);
    assert (set j | 0 <= j < |certs| && certs[j].isValid) == SetOf(f);
  }

  /** An invalid certificate anywhere in the batch changes neither root nor count. */
  lemma InvalidIrrelevant(sha: Sha, a: seq<Certificate>, h: Bytes, b: seq<Certificate>)
    ensures var with, without := ValidHashes(a + [Certificate(h, false)] + b), ValidHashes(a + b);
            |with| == |without| && MerkleRoot(sha, with) == MerkleRoot(sha, without)
  {
    ValidHashesConcat(a + [Certificate(h, false)], b);
    ValidHashesConcat(a, [Certificate(h, false)]);
    ValidHashesConcat(a, b);
    assert ValidHashes([Certificate(h, false)]) == [];
    assert ValidHashes(a + [Certificate(h, false)] + b) == ValidHashes(a + b);
    hide ValidHashes, MerkleRoot;
  }

  function CommitMessage(root: Bytes, policy: Bytes, canary: bool): Bytes {
    root + Ascii(":") + policy + Ascii(":") + Ascii(if canary then "True" else "False")
  }

  /** Hex digests, and the empty root, contain no colon. */
  ghost predicate NoColon(b: Bytes) {
    forall i :: 0 <= i < |b| ==> b[i] != Ascii(":")[0]
  }

  lemma CommitRoots(root: Bytes, policy: Bytes, canary: bool, root': Bytes, policy': Bytes, canary': bool)
    requires NoColon(root) && NoColon(root')
    requires CommitMessage(root, policy, canary) == CommitMessage(root', policy', canary')
    ensures root == root'
  {
    var m, m' := CommitMessage(root, policy, canary), CommitMessage(root', policy', canary');
    assert m[|root|] == Ascii(":")[0] && m'[|root'|] == Ascii(":")[0];
    assert forall i :: 0 <= i < |root| ==> m[i] == root[i];
    assert forall i :: 0 <= i < |root'| ==> m'[i] == root'[i];
    assert |root| == |root'|;
    assert m[..|root|] == root && m'[..|root|] == root';
  }

  /** The commit message binds root, policy snapshot and canary result, an empty
      batch's root included. */
  lemma CommitMessageInjective(root: Bytes, policy: Bytes, canary: bool, root': Bytes, policy': Bytes, canary': bool)
    requires NoColon(root) && NoColon(root')
    requires CommitMessage(root, policy, canary) == CommitMessage(root', policy', canary')
    ensures root == root' && policy == policy' && canary == canary'
  {
    CommitRoots(root, policy, canary, root', policy', canary');
    var m, m' := CommitMessage(root, policy, canary), CommitMessage(root', policy', canary');
    var flag := Ascii(if canary then "True" else "False");
    assert m[|m| - 5] == if canary then Ascii(":")[0] else Ascii("False")[0];
    assert m'[|m'| - 5] == if canary' then Ascii(":")[0] else Ascii("False")[0];
    assert canary == canary';
    assert m[|root| + 1..|m| - |flag| - 1] == policy && m'[|root| + 1..|m| - |flag| - 1] == policy';
  }

  /** The payload that commits a batch: root and count of its valid certificates, and
      the hash that binds root, policy snapshot and canary result. */
  ghost predicate Commits(sha: Sha, certs: seq<Certificate>, policy: Bytes, canary: bool, timestamp: Bytes,
                          p: Payload)
  {
    && p.Commit? && p.timestamp == timestamp && p.policySnapshot == policy && p.canaryPassed == canary
    && p.commitHash == sha(p.merkleRoot + Ascii(":") + policy + Ascii(":") + Ascii(if canary then "True" else "False"))
    && exists hs, f ::
         && Selects(certs, hs, f) && p.merkleRoot == MerkleRoot(sha, hs)
         && p.certificateCount == |hs| == |set j | 0 <= j < |certs| && certs[j].isValid|
  }

  lemma MakesCommit(sha: Sha, certs: seq<Certificate>, policy: Bytes, canary: bool, timestamp: Bytes, p: Payload)
    requires var hs := ValidHashes(certs);
             p == Commit(timestamp, sha(CommitMessage(MerkleRoot(sha, hs), policy, canary)), MerkleRoot(sha, hs),
                         |hs|, policy, canary)
    ensures Commits(sha, certs, policy, canary, timestamp, p)
  {
    var f := ValidHashesSelects(certs);
    ValidCount(certs, ValidHashes(certs), f);
    hide ValidHashes, MerkleRoot, Selects;
  }

  /** Two batches with one commit hash, and no collision to blame: the same root, policy
      snapshot and canary result. */
  lemma CommitHashBinds(sha: Sha, certs: seq<Certificate>, policy: Bytes, canary: bool, timestamp: Bytes, p: Payload,
                        certs': seq<Certificate>, policy': Bytes, canary': bool, timestamp': Bytes, p': Payload)
    requires Commits(sha, certs, policy, canary, timestamp, p)
    requires Commits(sha, certs', policy', canary', timestamp', p')
    requires NoColon(p.merkleRoot) && NoColon(p'.merkleRoot) && p.commitHash == p'.commitHash
    requires var m, m' := CommitMessage(p.merkleRoot, policy, canary), CommitMessage(p'.merkleRoot, policy', canary');
             sha(m) == sha(m') ==> m == m'
    ensures p.merkleRoot == p'.merkleRoot && policy == policy' && canary == canary'
  {
    hide Selects, MerkleRoot, Ascii;
    CommitMessageInjective(p.merkleRoot, policy, canary, p'.merkleRoot, policy', canary');
  }

  /** Commits a batch: one more row, whose payload carries the batch's root and count. */
  method CommitCertificates(store: TransparencyStore, certs: seq<Certificate>, policy: Bytes, canary: bool,
                            timestamp: Bytes)
      returns (commitHash: Bytes, entryHash: Option<Bytes>)
    requires store.Valid()
    modifies store
    ensures store.Valid()
    ensures entryHash == None ==> store.table == old(store.table)
    ensures entryHash.Some? ==>
              && |store.table| == |old(store.table)| + 1 && old(store.table) <= store.table
              && var row := store.table[|old(store.table)|];
                 && Commits(store.crypto.sha, certs, policy, canary, timestamp, row.payload)
                 && row.payload.commitHash == commitHash && row.entryHash == entryHash.value
  {
    var hashes := ValidHashes(certs);
    var root := ComputeMerkleRoot(store.crypto.sha, hashes);
    commitHash := store.crypto.sha(CommitMessage(root, policy, canary));
    var entry := Commit(timestamp, commitHash, root, |hashes|, policy, canary);
    MakesCommit(store.crypto.sha, certs, policy, canary, timestamp, entry);
    hide MerkleRoot, CommitMessage, ValidHashes, Commits, Refused;
    entryHash := store.Append(entry, timestamp);
  }

  /** The payload's `commit_hash` entry, if it has one. */
  function CommitKey(p: Payload): Option<Bytes> {
    match p
    case Commit(_, commitHash, _, _, _, _) => Some(commitHash)
    case Other(_, key) => key
  }

  predicate Records(r: Row, commitHash: Bytes) {
    CommitKey(r.payload) == Some(commitHash)
  }

  lemma RecordsIs(r: Row, commitHash: Bytes)
    ensures Records(r, commitHash) <==>
            if r.payload.Commit? then r.payload.commitHash == commitHash else r.payload.commitKey == Some(commitHash)
  {
  }

  /** Position of the first row that records the commit hash. */
  function FindCommit(t: Table, commitHash: Bytes): (r: Option<nat>)
    ensures r == None <==> forall i :: 0 <= i < |t| ==> !Records(t[i], commitHash)
    ensures r.Some? ==>
              && r.value < |t| && Records(t[r.value], commitHash)
              && forall i :: 0 <= i < r.value ==> !Records(t[i], commitHash)
  {
    if t == [] then None
    else
      match FindCommit(t[..|t| - 1], commitHash)
      case Some(i) => Some(i)
      case None => if Records(t[|t| - 1], commitHash) then Some(|t| - 1) else None
  }

  /** The scan for a commit hash followed by the backward walk from its row. */
  method VerifyCertificateCommit(c: Crypto, t: Table, commitHash: Bytes) returns (r: Option<Outcome>)
    ensures r == match FindCommit(t, commitHash)
                 case None => None
                 case Some(s) => Some(Walk(c, t, t[s].entryHash, |t| + 1))
  {
    hide Walk;
    for i := 0 to |t|
      invariant forall k :: 0 <= k < i ==> !Records(t[k], commitHash)
    {
      if Records(t[i], commitHash) {
        var o := VerifyChain(c, t, t[i].entryHash);
        return Some(o);
      }
    }
    return None;
  }

  /** On an accepted table every recorded commit hash is found and verifies: the walk
      from the first row that records it visits every earlier row down to genesis. */
  lemma CommitVerifies(c: Crypto, t: Table, i: nat, commitHash: Bytes)
    requires Stored(t) && Chained(c, t) && i < |t| && Records(t[i], commitHash)
    ensures var found := FindCommit(t, commitHash);
            && found.Some? && found.value <= i
            && Walk(c, t, t[found.value].entryHash, |t| + 1) == Verified(Down(t, found.value))
  {
    hide Walk, Chained, Stored;
    ChainedWalks(c, t, FindCommit(t, commitHash).value, |t| + 1);
  }

  /** What has just been committed is found and verifies, down to genesis; and if no
      earlier row carries the same commit hash, from the new row on. */
  method CommitThenVerify(store: TransparencyStore, certs: seq<Certificate>, policy: Bytes, canary: bool,
                          timestamp: Bytes)
      returns (commitHash: Bytes, committed: bool, outcome: Option<Outcome>)
    requires store.Valid()
    modifies store
    ensures committed ==>
              && |store.table| == |old(store.table)| + 1
              && Records(store.table[|old(store.table)|], commitHash)
              && exists s: nat ::
                   && s < |store.table| && outcome == Some(Verified(Down(store.table, s)))
                   && Records(store.table[s], commitHash)
                   && forall i :: 0 <= i < s ==> !Records(store.table[i], commitHash)
  {
    var entryHash;
    commitHash, entryHash := CommitCertificates(store, certs, policy, canary, timestamp);
    committed := entryHash.Some?;
    outcome := VerifyCertificateCommit(store.crypto, store.table, commitHash);
    if committed {
      RecordsIs(store.table[|old(store.table)|], commitHash);
      CommitVerifies(store.crypto, store.table, |old(store.table)|, commitHash);
    }
  }

  // ----- the head determines the certificates

  /** Each commit row of the table commits the list at its position; other rows are
      unconstrained. */
  ghost predicate Witnessed(c: Crypto, t: Table, lists: seq<seq<Bytes>>) {
    && |lists| == |t|
    && forall i :: 0 <= i < |t| && t[i].payload.Commit? ==>
         && t[i].payload.merkleRoot == MerkleRoot(c.sha, lists[i])
         && t[i].payload.certificateCount == |lists[i]|
  }

  /** Corresponding batches have hashes of one length and trees without a hash
      collision between them. */
  ghost predicate Clear(c: Crypto, hs: seq<Bytes>, hs': seq<Bytes>, length: nat) {
    && Uniform(hs, length) && Uniform(hs', length)
    && NoClash(c.sha, TreeMessages(c.sha, hs), TreeMessages(c.sha, hs'))
  }

  /** Two accepted ledgers with the same head committed the same certificates, commit
      row by commit row. */
  lemma SameHeadSameCertificates(c: Crypto, t: Table, t': Table, lists: seq<seq<Bytes>>, lists': seq<seq<Bytes>>,
                                 length: nat)
    requires Faithful(c) && CollisionFree(c, t, t')
    requires Chained(c, t) && Chained(c, t') && HeadAt(t, |t|) == HeadAt(t', |t'|)
    requires Witnessed(c, t, lists) && Witnessed(c, t', lists')
    requires forall i :: 0 <= i < |t| && i < |t'| && t[i].payload.Commit? ==> Clear(c, lists[i], lists'[i], length)
    ensures |t| == |t'|
    ensures forall i :: 0 <= i < |t| && t[i].payload.Commit? ==> t'[i].payload.Commit? && lists[i] == lists'[i]
  {
    SameHeadSameTable(c, t, t');
    DigestLength(c);
    hide CollisionFree, Chained, HeadAt, MerkleRoot, TreeMessages, Faithful, Digests, NoClash, Uniform;
    forall i | 0 <= i < |t| && t[i].payload.Commit?
      ensures t'[i].payload.Commit? && lists[i] == lists'[i]
    {
      assert SameContent(t[i], t'[i]);
      RootAndCountDetermine(c.sha, lists[i], lists'[i], 64, length);
    }
  }

  lemma DigestLength(c: Crypto)
    requires Faithful(c)
    ensures Digests(c.sha, 64)
  {
  }
}
