/** The 16-way trie that sorts vendor ids by their low-order nibbles. */
module VendorTrie {
  import opened Arith
  import opened CTypes

  datatype IdMatch = IdMatch(vendor: nat, device: nat, subvendor: nat, subdevice: nat)

  datatype DeviceLeaf = DeviceLeaf(id: IdMatch, deviceName: string)

  class PciIdLeaf {
    const vendor: nat
    var vendorName: Option<string>
    var devices: seq<DeviceLeaf>

    constructor (vendor: nat)
      ensures this.vendor == vendor && vendorName == None && devices == []
    {
      this.vendor, vendorName, devices := vendor, None, [];
    }
  }

  /** A child pointer: in the last level the same pointer type stands for leaves. */
  datatype Child = Null | Inner(node: PciIdNode) | Leaf(leaf: PciIdLeaf)

  class PciIdNode {
    const bits: nat
    const children: array<Child>

    constructor ()
      ensures bits == 4 && fresh(children) && children.Length == 16
      ensures forall i :: 0 <= i < 16 ==> children[i] == Null
    {
      bits := 4;
      children := new Child[16](_ => Null);
    }
  }

  /** A path from the root: the low-order nibbles taken so far. */
  type Path = seq<nat>

  /** The four nibbles of an id, lowest first. */
  function Nibbles(v: nat): (p: Path)
    ensures |p| == 4 && forall i :: 0 <= i < 4 ==> p[i] < 16
  {
    [v % 16, v / 0x10 % 16, v / 0x100 % 16, v / 0x1000 % 16]
  }

  /** Different 16-bit ids have different nibbles. */
  lemma NibblesDiffer(v: nat, w: nat)
    requires v < 0x1_0000 && w < 0x1_0000 && Nibbles(v) == Nibbles(w)
    ensures v == w
  {
    FromNibbles(v);
    FromNibbles(w);
    assert Nibbles(v)[0] == Nibbles(w)[0] && Nibbles(v)[1] == Nibbles(w)[1];
    assert Nibbles(v)[2] == Nibbles(w)[2] && Nibbles(v)[3] == Nibbles(w)[3];
  }

  lemma FromNibbles(v: nat)
    requires v < 0x1_0000
    ensures v == Nibbles(v)[0] + 0x10 * Nibbles(v)[1] + 0x100 * Nibbles(v)[2] + 0x1000 * Nibbles(v)[3]
  {
    var a, b, c := v / 0x10, v / 0x100, v / 0x1000;
    assert v == 16 * a + v % 16;
    assert b == a / 16 && a == 16 * b + a % 16;
    assert c == b / 16 && b == 16 * c + b % 16;
  }

  /** (vendor & (mask << bits)) >> bits, for the mask of usedBits ones. */
  function Slice(vendor: nat, bits: nat, usedBits: nat): nat
  {
    vendor / Pow2(bits) % Pow2(usedBits)
  }

  lemma SliceIsNibble(v: nat, l: nat)
    requires l < 4
    ensures Slice(v, 4 * l, 4) == Nibbles(v)[l]
  {
    assert Pow2(0) == 1 && Pow2(4) == 16;
    assert Pow2(8) == 256;
    assert Pow2(12) == 4096;
  }

  /** What is stored under each path, and the child pointers of each inner node. */
  type Nodes = map<Path, PciIdNode>
  type Leaves = map<Path, PciIdLeaf>
  type Links = map<Path, seq<Child>>

  /** The child pointer that leads to path q. */
  ghost function Expected(nodes: Nodes, leaves: Leaves, q: Path): Child {
    if |q| < 4 then if q in nodes then Inner(nodes[q]) else Null
    else if q in leaves then Leaf(leaves[q]) else Null
  }

  ghost predicate NodeLinked(links: seq<Child>, nodes: Nodes, leaves: Leaves, p: Path) {
    |links| == 16 && forall i: nat :: i < 16 ==> links[i] == Expected(nodes, leaves, p + [i])
  }

  ghost predicate Linked(links: Links, nodes: Nodes, leaves: Leaves) {
    forall p :: p in links ==> NodeLinked(links[p], nodes, leaves, p)
  }

  ghost predicate NodeOk(nodes: Nodes, p: Path)
    requires p in nodes
  {
    && |p| < 4 && nodes[p].bits == 4 && nodes[p].children.Length == 16
    && (p != [] ==> p[..|p| - 1] in nodes && p[|p| - 1] < 16)
  }

  /** Paths are at most four nibbles long, every prefix of a path is a node, leaves are filed under their own id. */
  ghost predicate Shaped(nodes: Nodes, leaves: Leaves) {
    (forall p :: p in nodes ==> NodeOk(nodes, p)) && (forall p :: p in leaves ==> LeafOk(nodes, leaves, p))
  }

  ghost predicate LeafOk(nodes: Nodes, leaves: Leaves, p: Path)
    requires p in leaves
  {
    |p| == 4 && leaves[p].vendor < 0x1_0000 && p == Nibbles(leaves[p].vendor) && p[..3] in nodes
  }

  ghost predicate Apart(nodes: Nodes) {
    forall p, q :: p in nodes && q in nodes && p != q ==>
      nodes[p] != nodes[q] && nodes[p].children != nodes[q].children
  }

  /** The links stay in order when one child pointer is set to what now lies under its path. */
  lemma StillLinked(links: seq<Child>, nodes: Nodes, leaves: Leaves, nodes': Nodes, leaves': Leaves, r: Path,
                    p: Path, i: nat)
    requires NodeLinked(links, nodes, leaves, r) && i < 16
    requires forall x :: x != p + [i] ==> Expected(nodes', leaves', x) == Expected(nodes, leaves, x)
    ensures r == p ==> NodeLinked(links[i := Expected(nodes', leaves', p + [i])], nodes', leaves', r)
    ensures r != p ==> NodeLinked(links, nodes', leaves', r)
  {
    hide Expected;
    forall k: nat | k < 16 && (k != i || r != p)
      ensures links[k] == Expected(nodes', leaves', r + [k])
    {
      assert (r + [k])[..|r|] == r && (r + [k])[|r|] == k;
      assert (p + [i])[..|p|] == p && (p + [i])[|p|] == i;
      assert r + [k] != p + [i];
    }
  }

  lemma AllStillLinked(links: Links, nodes: Nodes, leaves: Leaves, nodes': Nodes, leaves': Leaves, p: Path, i: nat)
    requires Linked(links, nodes, leaves) && i < 16 && p in links && |links[p]| == 16
    requires forall x :: x != p + [i] ==> Expected(nodes', leaves', x) == Expected(nodes, leaves, x)
    ensures Linked(links[p := links[p][i := Expected(nodes', leaves', p + [i])]], nodes', leaves')
  {
    hide Expected, NodeLinked;
    forall r | r in links
      ensures r == p ==> NodeLinked(links[p][i := Expected(nodes', leaves', p + [i])], nodes', leaves', r)
      ensures r != p ==> NodeLinked(links[r], nodes', leaves', r)
    {
      StillLinked(links[r], nodes, leaves, nodes', leaves', r, p, i);
    }
  }

  lemma LinkedMore(links: Links, nodes: Nodes, leaves: Leaves, q: Path, kids: seq<Child>)
    requires Linked(links, nodes, leaves) && NodeLinked(kids, nodes, leaves, q)
    ensures Linked(links[q := kids], nodes, leaves)
  {
    hide NodeLinked;
  }

  /** Nothing lies below a path that is not in the trie. */
  lemma NothingBelow(nodes: Nodes, leaves: Leaves, nodes': Nodes, q: Path, links: seq<Child>)
    requires Shaped(nodes, leaves) && q !in nodes && |q| < 4
    requires forall x :: x != q ==> (x in nodes' <==> x in nodes)
    requires |links| == 16 && forall i :: 0 <= i < 16 ==> links[i] == Null
    ensures NodeLinked(links, nodes', leaves, q)
  {
    hide Nibbles;
    forall i: nat | i < 16 ensures Expected(nodes', leaves, q + [i]) == Null {
      assert (q + [i])[..|q|] == q;
    }
  }

  lemma InnerShaped(nodes: Nodes, leaves: Leaves, p: Path, i: nat, child: PciIdNode)
    requires Shaped(nodes, leaves) && p in nodes && |p| < 3 && i < 16 && p + [i] !in nodes
    requires child.bits == 4 && child.children.Length == 16
    ensures Shaped(nodes[p + [i] := child], leaves)
  {
    var nodes' := nodes[p + [i] := child];
    forall r | r in nodes' ensures NodeOk(nodes', r) {
      if r == p + [i] {
        assert r[..|r| - 1] == p;
      } else {
        assert NodeOk(nodes, r);
      }
    }
    forall r | r in leaves ensures LeafOk(nodes', leaves, r) {
      assert LeafOk(nodes, leaves, r);
    }
  }

  lemma LeafShaped(nodes: Nodes, leaves: Leaves, p: Path, i: nat, leaf: PciIdLeaf)
    requires Shaped(nodes, leaves) && p in nodes && leaf.vendor < 0x1_0000 && p + [i] == Nibbles(leaf.vendor)
    ensures Shaped(nodes, leaves[p + [i] := leaf])
  {
    hide NodeOk, Nibbles;
    var leaves' := leaves[p + [i] := leaf];
    forall r | r in leaves' ensures LeafOk(nodes, leaves', r) {
      if r == p + [i] {
        assert r[..3] == p;
      } else {
        assert LeafOk(nodes, leaves, r);
      }
    }
  }

  class Trie {
    var tree: PciIdNode?
    ghost var nodes: Nodes
    ghost var leaves: Leaves

    ghost function Repr(): set<object>
      reads this`nodes
    {
      (set p | p in nodes :: nodes[p]) + (set p | p in nodes :: nodes[p].children)
    }

    ghost function LinksNow(): Links
      reads this`nodes, Repr()
    {
      map p | p in nodes :: nodes[p].children[..]
    }

    ghost predicate Rooted()
      reads this
    {
      if tree == null then nodes == map[] && leaves == map[] else [] in nodes && nodes[[]] == tree
    }

    ghost predicate Valid()
      reads this, Repr()
    {
      Rooted() && Shaped(nodes, leaves) && Apart(nodes) && Linked(LinksNow(), nodes, leaves)
    }

    constructor ()
      ensures Valid() && leaves == map[] && Repr() == {}
    {
      tree, nodes, leaves := null, map[], map[];
    }

    /** The child pointers of a node lead to what is stored under the longer paths. */
    lemma ChildIs(p: Path, i: nat)
      requires Valid() && p in nodes && i < 16
      ensures nodes[p].bits == 4 && nodes[p].children.Length == 16
      ensures p in LinksNow() && |LinksNow()[p]| == 16
      ensures nodes[p].children[i] == Expected(nodes, leaves, p + [i])
    {
      hide Expected, LeafOk, Apart;
      assert NodeOk(nodes, p);
      assert NodeLinked(LinksNow()[p], nodes, leaves, p);
      assert LinksNow()[p][i] == nodes[p].children[i];
    }

    lemma LeafIs(p: Path)
      requires Valid() && p in leaves
      ensures leaves[p].vendor < 0x1_0000 && p == Nibbles(leaves[p].vendor)
    {
      assert LeafOk(nodes, leaves, p);
    }

    /** Leaves are no part of the trie's own footprint. */
    lemma LeavesOutside()
      ensures forall q :: q in leaves ==> leaves[q] !in Repr()
    {}

    /** Different ids have different leaves. */
    lemma LeavesDiffer(v: nat, w: nat)
      requires Valid() && v < 0x1_0000 && w < 0x1_0000 && v != w
      requires Nibbles(v) in leaves && Nibbles(w) in leaves
      ensures leaves[Nibbles(v)] != leaves[Nibbles(w)]
      ensures leaves[Nibbles(v)].vendor == v
    {
      LeafIs(Nibbles(v));
      LeafIs(Nibbles(w));
      NibblesDiffer(leaves[Nibbles(v)].vendor, v);
      NibblesDiffer(leaves[Nibbles(w)].vendor, w);
    }

    /** What lies above a path that holds something is a node. */
    lemma FrontIsNode(p: Path)
      requires Valid() && p != []
      ensures p in nodes || p in leaves ==> p[..|p| - 1] in nodes
      ensures p in nodes ==> |p| < 4
      ensures p in leaves ==> |p| == 4
    {
      hide Expected, Apart, Linked, LinksNow, Nibbles;
      if p in nodes { assert NodeOk(nodes, p); }
      if p in leaves { assert LeafOk(nodes, leaves, p); }
    }

    /** Following the nibbles of p from the root. */
    ghost function Descend(p: Path): (c: Child)
      requires Valid() && |p| <= 4 && forall i :: 0 <= i < |p| ==> p[i] < 16
      reads this, Repr()
      ensures p != [] || tree != null ==> c == Expected(nodes, leaves, p)
      decreases |p|
    {
      if p == [] then if tree == null then Null else Inner(tree)
      else
        var front, last := p[..|p| - 1], p[|p| - 1];
        assert front + [last] == p;
        FrontIsNode(p);
        var above := Descend(front);
        ghost var _ := if front in nodes then (ChildIs(front, last); 0) else 0;
        if above.Inner? then above.node.children[last] else Null
    }

    /** The root of an empty tree. */
    method AddRoot()
      requires Valid() && tree == null
      modifies this
      ensures Valid() && tree != null && leaves == old(leaves)
      ensures fresh(Repr())
    {
      hide Nibbles, Expected;
      ghost var none := nodes;
      var root := new PciIdNode();
      tree, nodes := root, map[[] := root];
      NothingBelow(none, leaves, nodes, [], root.children[..]);
      assert LinksNow() == map[[] := root.children[..]];
    }

    /** One child pointer is set; the pointers of the other nodes keep their values. */
    method SetChild(n: PciIdNode, ghost p: Path, i: nat, c: Child)
      requires p in nodes && nodes[p] == n && Apart(nodes) && i < n.children.Length
      modifies n.children
      ensures i < |old(LinksNow())[p]| && LinksNow() == old(LinksNow())[p := old(LinksNow())[p][i := c]]
    {
      n.children[i] := c;
    }

    /** A node just allocated joins the trie under path q. */
    ghost method Register(q: Path, child: PciIdNode)
      requires Apart(nodes) && q !in nodes
      requires forall r :: r in nodes ==> nodes[r] != child && nodes[r].children != child.children
      modifies this`nodes
      ensures nodes == old(nodes)[q := child] && Apart(nodes)
      ensures LinksNow() == old(LinksNow())[q := child.children[..]]
    {
      nodes := nodes[q := child];
    }

    /** A leaf just allocated joins the trie under path q. */
    ghost method FileLeaf(q: Path, leaf: PciIdLeaf)
      modifies this`leaves
      ensures leaves == old(leaves)[q := leaf] && LinksNow() == old(LinksNow())
    {
      leaves := leaves[q := leaf];
    }

    twostate lemma LinksKept()
      requires nodes == old(nodes)
      requires forall p :: p in nodes ==> nodes[p].children[..] == old(nodes[p].children[..])
      ensures LinksNow() == old(LinksNow())
    {}

    /** A new inner node, linked below the one at p. */
    method AddInner(n: PciIdNode, ghost p: Path, i: nat)
      requires Valid() && p in nodes && nodes[p] == n && |p| < 3 && i < 16 && p + [i] !in nodes
      modifies this`nodes, n.children
      ensures Valid() && leaves == old(leaves) && tree == old(tree)
      ensures p + [i] in nodes && nodes == old(nodes)[p + [i] := nodes[p + [i]]]
      ensures fresh(nodes[p + [i]]) && fresh(nodes[p + [i]].children)
    {
      hide NodeLinked, LeafOk, NodeOk, Shaped, Linked, LinksNow, Apart;
      ghost var q, links := p + [i], LinksNow();
      ChildIs(p, i);
      var child := new PciIdNode();
      LinksKept();
      SetChild(n, p, i, Inner(child));
      Register(q, child);
      InnerShaped(old(nodes), leaves, p, i, child);
      AllStillLinked(links, old(nodes), leaves, nodes, leaves, p, i);
      NothingBelow(old(nodes), leaves, nodes, q, child.children[..]);
      LinkedMore(links[p := links[p][i := Inner(child)]], nodes, leaves, q, child.children[..]);
    }

    /** A new leaf, linked below the node at p. */
    method AddLeaf(n: PciIdNode, ghost p: Path, i: nat, vendor: nat)
      requires Valid() && p in nodes && nodes[p] == n && vendor < 0x1_0000 && i < 16
      requires p + [i] == Nibbles(vendor) && p + [i] !in leaves
      modifies this`leaves, n.children
      ensures Valid() && nodes == old(nodes) && tree == old(tree)
      ensures p + [i] in leaves && leaves == old(leaves)[p + [i] := leaves[p + [i]]]
      ensures fresh(leaves[p + [i]]) && leaves[p + [i]].vendor == vendor
      ensures leaves[p + [i]].vendorName == None && leaves[p + [i]].devices == []
    {
      hide Nibbles, NodeLinked, NodeOk, LeafOk, Shaped, Linked, LinksNow;
      ghost var q, links := p + [i], LinksNow();
      ChildIs(p, i);
      var leaf := new PciIdLeaf(vendor);
      LinksKept();
      SetChild(n, p, i, Leaf(leaf));
      FileLeaf(q, leaf);
      LeafShaped(nodes, old(leaves), p, i, leaf);
      AllStillLinked(links, nodes, old(leaves), nodes, leaves, p, i);
    }

    /** The leaf lies where its id belongs, and is the one of before, or empty if there was none. */
    ghost predicate Filed(before: Leaves, vendor: nat, leaf: PciIdLeaf)
      reads this`leaves, leaf
    {
      var q := Nibbles(vendor);
      && q in leaves && leaves[q] == leaf
      && (q in before ==> leaves == before)
      && (q !in before ==> leaves == before[q := leaf] && leaf.vendorName == None && leaf.devices == [])
    }

    lemma IsFiled(before: Leaves, vendor: nat, leaf: PciIdLeaf)
      requires Filed(before, vendor, leaf)
      ensures Nibbles(vendor) in leaves && leaves[Nibbles(vendor)] == leaf
    {}

    /** One turn of the loop: the child of a node, created when its pointer is null. */
    method Child(node: PciIdNode, ghost p: Path, idx: nat, bits: nat, vendor: nat) returns (n: Child)
      requires Valid() && vendor < 0x1_0000 && p in nodes && nodes[p] == node && |p| < 4 && idx < 16
      requires p + [idx] == Nibbles(vendor)[..|p| + 1] && bits == 4 * (|p| + 1)
      requires node.children.Length == 16
      modifies this, Repr()
      ensures Valid() && tree == old(tree)
      ensures n == Expected(nodes, leaves, p + [idx]) != Null
      ensures bits < 16 ==> leaves == old(leaves)
      ensures bits >= 16 ==> n.Leaf? && Filed(old(leaves), vendor, n.leaf)
      ensures bits >= 16 && Nibbles(vendor) !in old(leaves) ==> fresh(n.leaf)
      ensures forall o :: o in Repr() && o !in old(Repr()) ==> fresh(o)
    {
      hide Nibbles, Shaped, Apart, Linked, LinksNow;
      ChildIs(p, idx);
      assert |p| == 3 ==> p + [idx] == Nibbles(vendor);
      if node.children[idx] == Null {
        if bits < 16 {
          AddInner(node, p, idx);
        } else {
          AddLeaf(node, p, idx, vendor);
        }
        ChildIs(p, idx);
      }
      n := node.children[idx];
    }

    /** The leaf for a vendor id, added when the trie has none yet. */
    method Insert(vendor: nat) returns (leaf: PciIdLeaf)
      requires Valid() && vendor < 0x1_0000
      modifies this, Repr()
      ensures Valid() && leaf.vendor == vendor && Descend(Nibbles(vendor)) == Leaf(leaf)
      ensures forall q :: q in old(leaves) ==> unchanged(old(leaves[q]))
      ensures Filed(old(leaves), vendor, leaf) && (Nibbles(vendor) !in old(leaves) ==> fresh(leaf))
      ensures forall o :: o in Repr() && o !in old(Repr()) ==> fresh(o)
    {
      hide Nibbles, Shaped, Apart, Linked, LinksNow, Filed, Repr, NodeOk, LeafOk;
      LeavesOutside();
      if tree == null {
        AddRoot();
      }
      ghost var full, l := Nibbles(vendor), 0;
      var n, bits := Inner(tree), 0;
      assert full[..0] == [];
      while n != Null && bits < 16
        invariant Valid() && l <= 4 && bits == 4 * l
        invariant n == Expected(nodes, leaves, full[..l]) != Null
        invariant l < 4 ==> leaves == old(leaves)
        invariant l == 4 ==> n.Leaf? && Filed(old(leaves), vendor, n.leaf)
        invariant l == 4 && full !in old(leaves) ==> fresh(n.leaf)
        invariant forall o :: o in Repr() && o !in old(Repr()) ==> fresh(o)
        decreases 16 - bits
      {
        var node := n.node;
        ghost var p := full[..l];
        ChildIs(p, 0);
        var usedBits := node.bits;
        SliceIsNibble(vendor, l);
        var idx := Slice(vendor, bits, usedBits);
        assert p + [idx] == full[..l + 1];
        bits := bits + usedBits;
        ghost var known := Repr();
        n := Child(node, p, idx, bits, vendor);
        l := l + 1;
        assert Repr() - old(Repr()) <= (Repr() - known) + (known - old(Repr()));
      }
      leaf := n.leaf;
      assert full[..4] == full;
      IsFiled(old(leaves), vendor, leaf);
      LeafIs(full);
      NibblesDiffer(leaf.vendor, vendor);
    }
  }
}
