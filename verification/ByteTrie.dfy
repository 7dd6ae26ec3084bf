/** The trie on the heap that stands in for a map keyed by byte strings.

    All nodes of one trie share a ghost registry that knows every node by its path from the root.
    Put may start at any node, so what a Put does is stated for the whole trie. */
module ByteTrie {
  import opened Bytes

  // ----- what the trie means: a map on paths -----

  /** Walk down `s` from `base`, creating what is missing with the zero value, and set the end. */
  function PutAt<V>(c: map<Bytes, V>, base: Bytes, s: Bytes, v: V, zero: V): map<Bytes, V>
    decreases |s|
  {
    if s == [] then c[base := v]
    else PutAt(Step(c, base + [s[0]], zero), base + [s[0]], s[1..], v, zero)
  }

  function Step<V>(c: map<Bytes, V>, path: Bytes, zero: V): map<Bytes, V>
  {
    if path in c then c else c[path := zero]
  }

  // ----- the trie -----

  class Registry<V> {
    ghost var nodes: map<Bytes, ByteSliceMap<V>>
    ghost var all: set<ByteSliceMap<V>>

    ghost const zero: V

    ghost constructor (zero: V)
      ensures this.zero == zero && nodes == map[] && all == {}
    {
      this.zero, nodes, all := zero, map[], {};
    }

    /** Every node is registered under its path, and has exactly the registered children. */
    ghost predicate Valid()
      reads this, all
    {
      && [] in nodes
      && (forall p :: p in nodes ==> nodes[p] in all && nodes[p].path == p && nodes[p].registry == this)
      && (forall n :: n in all ==> n.path in nodes && nodes[n.path] == n && n.zero == zero)
      && (forall n, r :: n in all ==> (r in n.children <==> n.path + [r] in nodes))
      && (forall n, r :: n in all && r in n.children ==> n.children[r] == nodes[n.path + [r]])
      && (forall p: Bytes, r: byte :: p + [r] in nodes ==> p in nodes)
    }

    ghost function Contents(): map<Bytes, V>
      requires Valid()
      reads this, all
    {
      map p | p in nodes :: nodes[p].value
    }
  }

  class ByteSliceMap<V> {
    var value: V
    var children: map<byte, ByteSliceMap<V>>
    /** Go's zero value of V. */
    const zero: V
    ghost const path: Bytes
    ghost const registry: Registry<V>

    ghost predicate Valid()
      reads this, registry, registry.all
    {
      registry.Valid() && this in registry.all
    }

    constructor Child(ghost path: Bytes, ghost registry: Registry<V>, zero: V)
      ensures this.path == path && this.registry == registry && this.zero == zero
      ensures value == zero && children == map[]
    {
      this.path, this.registry, this.zero := path, registry, zero;
      value, children := zero, map[];
    }

    /** An empty trie. */
    static method New(zero: V) returns (root: ByteSliceMap<V>)
      ensures fresh(root) && fresh(root.registry) && fresh(root.registry.all)
      ensures root.Valid() && root.path == [] && root.zero == zero
      ensures root.registry.Contents() == map[[] := zero]
    {
      ghost var registry := new Registry<V>(zero);
      root := new ByteSliceMap.Child([], registry, zero);
      registry.nodes, registry.all := map[[] := root], {root};
    }

    method PutByte(r: byte) returns (child: ByteSliceMap<V>)
      requires Valid()
      modifies this`children, registry
      ensures child.registry == registry && child.Valid() && child.path == path + [r]
      ensures old(registry.all) <= registry.all && fresh(registry.all - old(registry.all))
      ensures registry.Contents() == Step(old(registry.Contents()), path + [r], zero)
    {
      if r in children {
        return children[r];
      }
      child := AddChild(r);
      ContentsGrow(old(registry.Contents()), registry.Contents(), path + [r], zero);
    }

    /** Makes the missing child. */
    method AddChild(r: byte) returns (child: ByteSliceMap<V>)
      requires Valid() && r !in children
      modifies this`children, registry
      ensures fresh(child) && child.path == path + [r] && child.value == zero
      ensures registry.nodes == old(registry.nodes)[path + [r] := child]
      ensures registry.all == old(registry.all) + {child}
      ensures child.registry == registry && registry.Valid() && path + [r] !in old(registry.nodes)
    {
      child := new ByteSliceMap.Child(path + [r], registry, zero);
      LinkChild(r, child);
    }

    method LinkChild(r: byte, child: ByteSliceMap<V>)
      requires Valid() && r !in children
      requires child !in registry.all && child.registry == registry && child.path == path + [r]
      requires child.zero == zero && child.children == map[]
      modifies this`children, registry
      ensures registry.nodes == old(registry.nodes)[path + [r] := child]
      ensures registry.all == old(registry.all) + {child}
      ensures registry.Valid() && path + [r] !in old(registry.nodes)
    {
      SnocInjective(path, r);
      children := children[r := child];
      registry.nodes := registry.nodes[path + [r] := child];
      registry.all := registry.all + {child};
    }

    method SetValue(v: V)
      requires Valid()
      modifies this`value
      ensures Valid() && registry.Contents() == old(registry.Contents())[path := v]
    {
      value := v;
    }

    lemma ContentsGrow(c: map<Bytes, V>, c': map<Bytes, V>, p: Bytes, v: V)
      requires c'.Keys == c.Keys + {p} && p !in c && c'[p] == v
      requires forall q :: q in c ==> c'[q] == c[q]
      ensures c' == Step(c, p, v)
    {
    }

    lemma SnocInjective(p: Bytes, r: byte)
      ensures forall q: Bytes, t: byte :: q + [t] == p + [r] ==> q == p && t == r
    {
      forall q: Bytes, t: byte | q + [t] == p + [r]
        ensures q == p && t == r
      {
        assert q == (q + [t])[..|q|] && p == (p + [r])[..|p|];
        assert (q + [t])[|q|] == t && (p + [r])[|p|] == r;
      }
    }

    /** Put below this node: the trie changes as the map does at this node's path, and the node
        returned is the one at the end. */
    method Put(s: Bytes, v: V) returns (n: ByteSliceMap<V>)
      requires Valid()
      modifies registry, registry.all
      ensures n.registry == registry && n.Valid() && n.path == path + s
      ensures old(registry.all) <= registry.all && fresh(registry.all - old(registry.all))
      ensures registry.Contents() == PutAt(old(registry.Contents()), path, s, v, zero)
    {
      n := this;
      for i := 0 to |s|
        invariant n.registry == registry && n.Valid() && n.path == path + s[..i]
        invariant old(registry.all) <= registry.all && fresh(registry.all - old(registry.all))
        invariant PutAt(registry.Contents(), n.path, s[i..], v, zero)
               == PutAt(old(registry.Contents()), path, s, v, zero)
      {
        assert s[i..][1..] == s[i + 1..];
        assert path + s[..i + 1] == path + s[..i] + [s[i]];
        n := n.PutByte(s[i]);
      }
      n.SetValue(v);
      assert path + s[..|s|] == path + s;
    }

    method Get(s: Bytes) returns (v: V, found: bool)
      requires Valid()
      ensures found <==> path + s in registry.Contents()
      ensures v == if found then registry.Contents()[path + s] else zero
    {
      var n := this;
      for i := 0 to |s|
        invariant n.registry == registry && n.Valid() && n.path == path + s[..i]
      {
        assert path + s[..i + 1] == path + s[..i] + [s[i]];
        if s[i] !in n.children {
          AbsentBelow(path + s[..i + 1], path + s);
          return zero, false;
        }
        n := n.children[s[i]];
      }
      assert path + s[..|s|] == path + s;
      v, found := n.value, true;
    }

    /** No path goes on below one that does not exist. */
    lemma {:induction false} AbsentBelow(p: Bytes, q: Bytes)
      requires Valid() && p <= q && p !in registry.nodes && p != []
      ensures q !in registry.nodes
      decreases |q|
    {
      if p == q {
      } else {
        AbsentBelow(p, q[..|q| - 1]);
        assert q == q[..|q| - 1] + [q[|q| - 1]];
      }
    }
  }

  // ----- what sequences of puts leave behind -----

  /** One put adds the prefixes of its key and changes the value at its key alone. */
  lemma {:induction false} PutAtLookup<V>(c: map<Bytes, V>, base: Bytes, s: Bytes, v: V, zero: V, p: Bytes)
    requires base in c
    ensures var c' := PutAt(c, base, s, v, zero);
      && (p in c' <==> p in c || (base <= p && p <= base + s))
      && (p in c' ==> c'[p] == if p == base + s then v else if p in c then c[p] else zero)
    decreases |s|
  {
    if s == [] {
      assert base + s == base;
      assert base <= p && p <= base ==> p == p[..|base|] == base;
    } else {
      var next := base + [s[0]];
      assert next + s[1..] == base + s;
      PutAtLookup(Step(c, next, zero), next, s[1..], v, zero, p);
      Between(base, s, p);
    }
  }

  /** A path from `base` towards `base + s` is `base` or goes through its first step. */
  lemma Between(base: Bytes, s: Bytes, p: Bytes)
    requires s != []
    ensures base <= p && p <= base + s
       <==> p == base || (base + [s[0]] <= p && p <= base + [s[0]] + s[1..])
  {
    var next := base + [s[0]];
    assert next + s[1..] == base + s;
    if base < p && p <= base + s {
      assert p[|base|] == (base + s)[|base|] == s[0];
      assert next <= p;
    }
    if next <= p {
      assert base == next[..|base|] == p[..|base|];
    }
  }

  /** Putting `b` from the node that Put(a) returned is putting `a + b` where `a` was put. */
  lemma {:induction false} PutThroughNode<V>(
      c: map<Bytes, V>, base: Bytes, a: Bytes, b: Bytes, v: V, zero: V)
    requires forall i :: 0 <= i <= |a| ==> base + a[..i] in c
    ensures PutAt(c, base + a, b, v, zero) == PutAt(c, base, a + b, v, zero)
    decreases |a|
  {
    if a == [] {
      assert base + a == base && a + b == b;
    } else {
      var next := base + [a[0]];
      assert next == base + a[..1];
      forall i | 0 <= i <= |a| - 1
        ensures next + a[1..][..i] in c
      {
        assert next + a[1..][..i] == base + a[..i + 1];
      }
      assert next + a[1..] == base + a && (a + b)[1..] == a[1..] + b;
      PutThroughNode(c, next, a[1..], b, v, zero);
    }
  }

  lemma PutTwice<V>(c: map<Bytes, V>, base: Bytes, a: Bytes, w: V, b: Bytes, v: V, zero: V)
    requires base in c
    ensures PutAt(PutAt(c, base, a, w, zero), base + a, b, v, zero)
         == PutAt(PutAt(c, base, a, w, zero), base, a + b, v, zero)
  {
    var c' := PutAt(c, base, a, w, zero);
    forall i | 0 <= i <= |a|
      ensures base + a[..i] in c'
    {
      PutAtLookup(c, base, a, w, zero, base + a[..i]);
    }
    PutThroughNode(c', base, a, b, v, zero);
  }

  /** The trie after a history of puts at the root. */
  function PutAll<V>(puts: seq<(Bytes, V)>, zero: V): map<Bytes, V>
  {
    if puts == [] then map[[] := zero]
    else PutAt(PutAll(puts[..|puts| - 1], zero), [], puts[|puts| - 1].0, puts[|puts| - 1].1, zero)
  }

  /** The last value that was put at exactly `p`. */
  function LastPut<V>(puts: seq<(Bytes, V)>, p: Bytes, zero: V): V
  {
    if puts == [] then zero
    else if puts[|puts| - 1].0 == p then puts[|puts| - 1].1
    else LastPut(puts[..|puts| - 1], p, zero)
  }

  /** A key is found exactly when it is empty or a prefix of one that was put, and its value is
      the last one put at exactly that key, or the zero value. */
  lemma {:induction false} PutAllLookup<V>(puts: seq<(Bytes, V)>, p: Bytes, zero: V)
    ensures p in PutAll(puts, zero) <==> p == [] || exists i :: 0 <= i < |puts| && p <= puts[i].0
    ensures p in PutAll(puts, zero) ==> PutAll(puts, zero)[p] == LastPut(puts, p, zero)
  {
    if puts == [] {
    } else {
      var front := puts[..|puts| - 1];
      var (key, v) := puts[|puts| - 1];
      PutAllLookup(front, [], zero);
      PutAllLookup(front, p, zero);
      PutAtLookup(PutAll(front, zero), [], key, v, zero, p);
      assert [] + key == key;
      if i :| 0 <= i < |puts| && p <= puts[i].0 {
        assert i < |front| ==> puts[i] == front[i];
      }
      if p !in PutAll(front, zero) {
        NeverPut(front, p, zero);
      }
    }
  }

  lemma {:induction false} NeverPut<V>(puts: seq<(Bytes, V)>, p: Bytes, zero: V)
    requires forall i :: 0 <= i < |puts| ==> !(p <= puts[i].0)
    ensures LastPut(puts, p, zero) == zero
  {
    if puts == [] {
    } else {
      NeverPut(puts[..|puts| - 1], p, zero);
    }
  }
}
