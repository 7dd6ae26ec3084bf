/** The full, zero-padded Merkle tree over a list of leaves, defined by plain recursion:
    the meaning that the indexed history of `HistoricalTree` is measured against. */
module MerkleSpec {
  import opened Bytes
  import opened Hashing

  /** A `[32]byte` that `b` was copied into equals the zero array: the copy stops after 32
      bytes, and bytes that `b` does not reach stay zero. */
  predicate CopiesToZero(b: Bytes)
  {
    forall i :: 0 <= i < |b| && i < 32 ==> b[i] == 0
  }

  /** A 32-byte array after copying `b` into it. */
  function Copied(b: Bytes): Bytes32
  {
    seq(32, i requires 0 <= i < 32 => if i < |b| then b[i] else 0)
  }

  lemma CopiesToZeroIff(b: Bytes)
    ensures CopiesToZero(b) <==> Copied(b) == ZERO32
  {
    if CopiesToZero(b) {
      assert forall i :: 0 <= i < 32 ==> Copied(b)[i] == ZERO32[i];
    } else {
      var i :| 0 <= i < |b| && i < 32 && b[i] != 0;
      assert Copied(b)[i] != ZERO32[i];
    }
  }

  function GetParent(k: Hash, left: Bytes, right: Bytes): Bytes
  {
    if CopiesToZero(left) && CopiesToZero(right) then left else Keccak(k, left + right)
  }

  /** Two zero children have a zero parent without hashing. */
  lemma ParentIs(k: Hash, left: Bytes, right: Bytes)
    ensures GetParent(k, left, right)
         == if Copied(left) == ZERO32 && Copied(right) == ZERO32 then left else Keccak(k, left + right)
  {
    CopiesToZeroIff(left);
    CopiesToZeroIff(right);
  }

  function Leaf(leaves: seq<Bytes>, i: nat): Bytes
  {
    if i < |leaves| then leaves[i] else ZERO32
  }

  /** The element `x` on level `h` of the tree over `leaves`. */
  function Node(k: Hash, leaves: seq<Bytes>, h: nat, x: nat): Bytes
    decreases h
  {
    if h == 0 then Leaf(leaves, x)
    else GetParent(k, Node(k, leaves, h - 1, 2 * x), Node(k, leaves, h - 1, 2 * x + 1))
  }

  function Sibling(x: nat): nat
  {
    if x % 2 == 0 then x + 1 else x - 1
  }

  /** The siblings met on the way up from element `x` of level `h`, through level `top - 1`. */
  function Siblings(k: Hash, leaves: seq<Bytes>, h: nat, x: nat, top: nat): (s: seq<Bytes>)
    requires h <= top
    ensures |s| == top - h
    decreases top - h
  {
    if h == top then []
    else [Node(k, leaves, h, Sibling(x))] + Siblings(k, leaves, h + 1, x / 2, top)
  }

  /** Hash `node` at coordinate `x` with the sibling `s`. */
  function Up(k: Hash, node: Bytes, x: nat, s: Bytes): Bytes
  {
    if x % 2 == 0 then GetParent(k, node, s) else GetParent(k, s, node)
  }

  function Fold(k: Hash, node: Bytes, x: nat, proof: seq<Bytes>): Bytes
    decreases |proof|
  {
    if proof == [] then node
    else Fold(k, Up(k, node, x, proof[0]), x / 2, proof[1..])
  }

  // ----- which leaves an element depends on -----

  predicate LeavesDiffer(a: seq<Bytes>, b: seq<Bytes>, from: nat, to: nat)
  {
    exists i | from <= i < to :: Leaf(a, i) != Leaf(b, i)
  }

  /** An element depends on the leaves below it and on nothing else. */
  lemma {:induction false} NodeDependsOnRange(k: Hash, a: seq<Bytes>, b: seq<Bytes>, h: nat, x: nat)
    requires !LeavesDiffer(a, b, Shl(x, h), Shl(x + 1, h))
    ensures Node(k, a, h, x) == Node(k, b, h, x)
    decreases h
  {
    if h == 0 {
      assert Leaf(a, x) == Leaf(b, x);
    } else {
      ShlMonotone(2 * x, 2 * x + 1, h - 1);
      ShlMonotone(2 * x + 1, 2 * x + 2, h - 1);
      NodeDependsOnRange(k, a, b, h - 1, 2 * x);
      NodeDependsOnRange(k, a, b, h - 1, 2 * x + 1);
    }
  }

  lemma {:induction false} EmptyNode(k: Hash, h: nat, x: nat)
    ensures Node(k, [], h, x) == ZERO32
    decreases h
  {
    if h == 0 {
    } else {
      EmptyNode(k, h - 1, 2 * x);
      EmptyNode(k, h - 1, 2 * x + 1);
    }
  }

  /** Stage A: no leaf below the element has been inserted. */
  lemma StageA(k: Hash, leaves: seq<Bytes>, h: nat, x: nat)
    requires |leaves| <= Shl(x, h)
    ensures Node(k, leaves, h, x) == ZERO32
  {
    NodeDependsOnRange(k, leaves, [], h, x);
    EmptyNode(k, h, x);
  }

  /** Stage C: all leaves below the element were inserted earlier. */
  lemma StageC(k: Hash, leaves: seq<Bytes>, h: nat, x: nat)
    requires Shl(x + 1, h) <= |leaves|
    ensures Node(k, leaves, h, x) == Node(k, leaves[..Shl(x + 1, h)], h, x)
  {
    NodeDependsOnRange(k, leaves, leaves[..Shl(x + 1, h)], h, x);
  }

  // ----- completeness -----

  /** An element and its sibling hash to the element above them. */
  lemma UpNode(k: Hash, leaves: seq<Bytes>, h: nat, x: nat)
    ensures Up(k, Node(k, leaves, h, x), x, Node(k, leaves, h, Sibling(x)))
         == Node(k, leaves, h + 1, x / 2)
  {
    assert 2 * (x / 2) == if x % 2 == 0 then x else Sibling(x);
  }

  lemma FoldStep(k: Hash, node: Bytes, x: nat, s: Bytes, rest: seq<Bytes>)
    ensures Fold(k, node, x, [s] + rest) == Fold(k, Up(k, node, x, s), x / 2, rest)
  {
    assert ([s] + rest)[1..] == rest;
  }

  /** The fold looks at as many bits of the coordinate as the proof is long. */
  lemma {:induction false} FoldLow(k: Hash, node: Bytes, x: nat, proof: seq<Bytes>)
    ensures Fold(k, node, x, proof) == Fold(k, node, Low(x, |proof|), proof)
    decreases |proof|
  {
    if proof == [] {
    } else {
      var up := Up(k, node, x, proof[0]);
      FoldLow(k, up, x / 2, proof[1..]);
    }
  }

  /** The siblings of an element prove it, from any level to any higher one. */
  lemma {:induction false} ProofComplete(k: Hash, leaves: seq<Bytes>, h: nat, x: nat, top: nat)
    requires h <= top
    ensures Fold(k, Node(k, leaves, h, x), x, Siblings(k, leaves, h, x, top))
         == Node(k, leaves, top, Shr(x, top - h))
    decreases top - h
  {
    if h == top {
    } else {
      UpNode(k, leaves, h, x);
      FoldStep(k, Node(k, leaves, h, x), x, Node(k, leaves, h, Sibling(x)),
               Siblings(k, leaves, h + 1, x / 2, top));
      ProofComplete(k, leaves, h + 1, x / 2, top);
    }
  }

  // ----- soundness, by reduction to a break of the hash -----

  predicate All32(s: seq<Bytes>)
  {
    forall i :: 0 <= i < |s| ==> |s[i]| == 32
  }

  /** The break behind two different pairs of children with one parent. */
  function ParentBreak(a: Bytes, b: Bytes, c: Bytes, d: Bytes): Break
  {
    if a == ZERO32 && b == ZERO32 then ZeroPreimage(c + d)
    else if c == ZERO32 && d == ZERO32 then ZeroPreimage(a + b)
    else Collision(a + b, c + d)
  }

  function UpBreak(x: nat, node: Bytes, s: Bytes, node': Bytes, s': Bytes): Break
  {
    if x % 2 == 0 then ParentBreak(node, s, node', s') else ParentBreak(s, node, s', node')
  }

  lemma ParentBinding(k: Hash, a: Bytes, b: Bytes, c: Bytes, d: Bytes)
    requires |a| == |b| == |c| == |d| == 32
    requires GetParent(k, a, b) == GetParent(k, c, d)
    requires a != c || b != d
    ensures Breaks(k, ParentBreak(a, b, c, d))
  {
    if a + b == c + d {
      SplitConcat(a, b, c, d);
    }
  }

  lemma Parent32(k: Hash, a: Bytes, b: Bytes)
    requires |a| == 32
    ensures |GetParent(k, a, b)| == 32
  {
  }

  lemma {:induction false} Node32(k: Hash, leaves: seq<Bytes>, h: nat, x: nat)
    requires All32(leaves)
    ensures |Node(k, leaves, h, x)| == 32
    decreases h
  {
    if h == 0 {
    } else {
      Node32(k, leaves, h - 1, 2 * x);
    }
  }

  lemma {:induction false} Siblings32(k: Hash, leaves: seq<Bytes>, h: nat, x: nat, top: nat)
    requires h <= top && All32(leaves)
    ensures All32(Siblings(k, leaves, h, x, top))
    decreases top - h
  {
    if h == top {
    } else {
      Node32(k, leaves, h, Sibling(x));
      Siblings32(k, leaves, h + 1, x / 2, top);
    }
  }

  /** The tree's own element with the tree's own proof. */
  predicate GenuineProof(k: Hash, leaves: seq<Bytes>, h: nat, node: Bytes, x: nat, proof: seq<Bytes>)
  {
    node == Node(k, leaves, h, x) && proof == Siblings(k, leaves, h, x, h + |proof|)
  }

  /** Follow a false proof up to the first element that agrees with the tree again. */
  function ProofBreak(k: Hash, leaves: seq<Bytes>, h: nat, node: Bytes, x: nat, proof: seq<Bytes>): Break
    decreases |proof|
  {
    if proof == [] then Collision([], [])
    else if GenuineProof(k, leaves, h + 1, Up(k, node, x, proof[0]), x / 2, proof[1..]) then
      UpBreak(x, node, proof[0], Node(k, leaves, h, x), Node(k, leaves, h, Sibling(x)))
    else ProofBreak(k, leaves, h + 1, Up(k, node, x, proof[0]), x / 2, proof[1..])
  }

  /** One level: a pair with the same parent as the tree's own pair is that pair, or breaks. */
  lemma UpBinding(k: Hash, x: nat, node: Bytes, s: Bytes, node': Bytes, s': Bytes)
    requires |node| == |s| == |node'| == |s'| == 32
    requires Up(k, node, x, s) == Up(k, node', x, s')
    requires node != node' || s != s'
    ensures Breaks(k, UpBreak(x, node, s, node', s'))
  {
    if x % 2 == 0 {
      ParentBinding(k, node, s, node', s');
    } else {
      ParentBinding(k, s, node, s', node');
    }
  }

  lemma StepSound(
      k: Hash, leaves: seq<Bytes>, h: nat, node: Bytes, x: nat, s: Bytes, rest: seq<Bytes>)
    requires All32(leaves) && |node| == |s| == 32
    requires GenuineProof(k, leaves, h + 1, Up(k, node, x, s), x / 2, rest)
    ensures || GenuineProof(k, leaves, h, node, x, [s] + rest)
            || Breaks(k, UpBreak(x, node, s, Node(k, leaves, h, x), Node(k, leaves, h, Sibling(x))))
  {
    var n, n' := Node(k, leaves, h, x), Node(k, leaves, h, Sibling(x));
    UpNode(k, leaves, h, x);
    Node32(k, leaves, h, x);
    Node32(k, leaves, h, Sibling(x));
    if node != n || s != n' {
      UpBinding(k, x, node, s, n, n');
    }
  }

  /** A proof that folds to the tree's own element is the tree's own proof of the tree's own
      element, or `ProofBreak` computes a break of the hash from it. */
  lemma {:induction false} ProofSound(
      k: Hash, leaves: seq<Bytes>, h: nat, node: Bytes, x: nat, proof: seq<Bytes>)
    requires All32(leaves) && All32(proof) && |node| == 32
    requires Fold(k, node, x, proof) == Node(k, leaves, h + |proof|, Shr(x, |proof|))
    ensures || GenuineProof(k, leaves, h, node, x, proof)
            || Breaks(k, ProofBreak(k, leaves, h, node, x, proof))
    decreases |proof|
  {
    if proof == [] {
    } else {
      var up, rest := Up(k, node, x, proof[0]), proof[1..];
      if GenuineProof(k, leaves, h + 1, up, x / 2, rest) {
        assert proof == [proof[0]] + rest;
        StepSound(k, leaves, h, node, x, proof[0], rest);
      } else {
        Parent32(k, node, proof[0]);
        Parent32(k, proof[0], node);
        ProofSound(k, leaves, h + 1, up, x / 2, rest);
      }
    }
  }

  // ----- the root commits to the leaves -----

  /** Descend into a subtree whose two versions differ until the difference disappears. */
  function RootBreak(k: Hash, a: seq<Bytes>, b: seq<Bytes>, h: nat, x: nat): Break
    decreases h
  {
    if h == 0 then Collision([], [])
    else if !SameChildren(k, a, b, h - 1, x) then
      ParentBreak(Node(k, a, h - 1, 2 * x), Node(k, a, h - 1, 2 * x + 1),
                  Node(k, b, h - 1, 2 * x), Node(k, b, h - 1, 2 * x + 1))
    else if LeavesDiffer(a, b, Shl(2 * x, h - 1), Shl(2 * x + 1, h - 1)) then
      RootBreak(k, a, b, h - 1, 2 * x)
    else RootBreak(k, a, b, h - 1, 2 * x + 1)
  }

  predicate SameChildren(k: Hash, a: seq<Bytes>, b: seq<Bytes>, h: nat, x: nat)
  {
    && Node(k, a, h, 2 * x) == Node(k, b, h, 2 * x)
    && Node(k, a, h, 2 * x + 1) == Node(k, b, h, 2 * x + 1)
  }

  lemma ChildrenBinding(k: Hash, a: seq<Bytes>, b: seq<Bytes>, h: nat, x: nat)
    requires All32(a) && All32(b)
    requires Node(k, a, h + 1, x) == Node(k, b, h + 1, x) && !SameChildren(k, a, b, h, x)
    ensures Breaks(k, RootBreak(k, a, b, h + 1, x))
  {
    Node32(k, a, h, 2 * x);
    Node32(k, a, h, 2 * x + 1);
    Node32(k, b, h, 2 * x);
    Node32(k, b, h, 2 * x + 1);
    ParentBinding(k, Node(k, a, h, 2 * x), Node(k, a, h, 2 * x + 1),
                  Node(k, b, h, 2 * x), Node(k, b, h, 2 * x + 1));
  }

  /** A difference below an element is below one of its children. */
  lemma DifferBelow(a: seq<Bytes>, b: seq<Bytes>, h: nat, x: nat)
    requires LeavesDiffer(a, b, Shl(x, h + 1), Shl(x + 1, h + 1))
    ensures || LeavesDiffer(a, b, Shl(2 * x, h), Shl(2 * x + 1, h))
            || LeavesDiffer(a, b, Shl(2 * x + 1, h), Shl(2 * x + 2, h))
  {
    var i :| Shl(x, h + 1) <= i < Shl(x + 1, h + 1) && Leaf(a, i) != Leaf(b, i);
    if i < Shl(2 * x + 1, h) {
      assert Shl(2 * x, h) <= i;
    } else {
      assert i < Shl(2 * x + 2, h);
    }
  }

  /** Two trees with one root hold the same leaves, or `RootBreak` finds a break. */
  lemma {:induction false} RootBinding(k: Hash, a: seq<Bytes>, b: seq<Bytes>, h: nat, x: nat)
    requires All32(a) && All32(b)
    requires Node(k, a, h, x) == Node(k, b, h, x)
    requires LeavesDiffer(a, b, Shl(x, h), Shl(x + 1, h))
    ensures Breaks(k, RootBreak(k, a, b, h, x))
    decreases h
  {
    if h == 0 {
    } else {
      DifferBelow(a, b, h - 1, x);
      if !SameChildren(k, a, b, h - 1, x) {
        ChildrenBinding(k, a, b, h - 1, x);
      } else if LeavesDiffer(a, b, Shl(2 * x, h - 1), Shl(2 * x + 1, h - 1)) {
        RootBinding(k, a, b, h - 1, 2 * x);
      } else {
        RootBinding(k, a, b, h - 1, 2 * x + 1);
      }
    }
  }
}
