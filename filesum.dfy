// The Dir records of filesum.go and the two passes over them: Collect,
// which walks a directory and fills in sizes and retained children, and
// Display, which sorts every node's children in place and prints the tree.
module FileSum {
  import opened FileSystem
  import opened Tree
  import opened Units
  import opened Report

  /** One directory of the report (type Dir in filesum.go). */
  class Dir {
    var path: string
    var base: string
    var size: int
    var depth: int
    var parent: Dir?
    var children: seq<Dir>

    /** Every node below this one. */
    ghost var Repr: set<Dir>
    /** The values of the children's subtrees, in order (fixed by the fields through Valid). */
    ghost var Subtrees: seq<Node>

    /** The subtree rooted here, as a value. */
    ghost function Model(): Node
      reads this`path, this`base, this`size, this`depth, this`Subtrees
    {
      Node(path, base, size, depth, Subtrees)
    }

    /**
     * The tree invariant: the children are owned by this node (see Owns) and
     * each is modelled by the corresponding entry of Subtrees. It does not
     * depend on the node's own name, path or size.
     */
    ghost predicate Valid()
      reads this`children, this`Repr, this`Subtrees, Repr
      decreases Repr, 1
    {
      this !in Repr && Owns(children) && |Subtrees| == |children| &&
      forall i :: 0 <= i < |children| ==> children[i].Model() == Subtrees[i]
    }

    /**
     * Each node of `cs` lies in this node's footprint together with its own
     * footprint, points back here and is valid, and no two of them share a
     * node.
     */
    ghost predicate Owns(cs: seq<Dir>)
      reads this`Repr, Repr
      decreases Repr, 0
    {
      (forall i :: 0 <= i < |cs| ==>
         cs[i] in Repr && cs[i].Repr <= Repr && cs[i] !in cs[i].Repr && cs[i].parent == this && cs[i].Valid()) &&
      (forall i, j :: 0 <= i < j < |cs| ==> ({cs[i]} + cs[i].Repr) !! ({cs[j]} + cs[j].Repr))
    }

    /** new(Dir) followed by the field assignments Collect and main make. */
    constructor (path: string, base: string, depth: int, parent: Dir?)
      ensures Valid() && Repr == {}
      ensures this.path == path && this.base == base && this.depth == depth && this.parent == parent
      ensures size == 0 && children == []
      ensures Model() == Node(path, base, 0, depth, [])
    {
      this.path := path;
      this.base := base;
      this.depth := depth;
      this.parent := parent;
      size := 0;
      children := [];
      Repr := {};
      Subtrees := [];
    }

    /**
     * Collect (filesum.go:96-131): `listing` is what opening and reading the
     * directory at `path` gives. Symlinks are skipped, files add their size
     * and subdirectories are handled by CollectChild.
     */
    method Collect(listing: Listing, limit: int) returns (total: int)
      requires Valid() && Repr == {} && size == 0 && children == []
      modifies this
      decreases listing, 0
      ensures Valid() && fresh(Repr)
      ensures path == old(path) && base == old(base) && depth == old(depth) && parent == old(parent)
      ensures Model() == Collected(path, base, depth, listing, limit)
      ensures total == size == ListingSize(listing)
    {
      match listing
      case OpenFailed =>
        total := 0;
      case ReaddirFailed =>
        total := 0;
      case Listed(fis) =>
        var i := 0;
        while i < |fis|
          invariant 0 <= i <= |fis|
          invariant Valid() && fresh(Repr)
          invariant path == old(path) && base == old(base) && depth == old(depth) && parent == old(parent)
          invariant size == EntriesSize(fis[..i])
          invariant Subtrees == Retained(path, depth, fis[..i], limit)
        {
          var fi := fis[i];
          CollectEntry(fi, limit);
          assert fis[..i + 1] == fis[..i] + [fi];
          assert Retained(path, depth, [fi], limit) == Kept(path, depth, fi, limit) by {
            assert [fi][1..] == [];
          }
          EntriesSizeAppend(fis[..i], [fi]);
          RetainedAppend(path, depth, fis[..i], [fi], limit);
          i := i + 1;
        }
        assert fis[..i] == fis;
        total := size;
        CollectedSize(path, base, depth, listing, limit);
    }

    /**
     * One turn of Collect's loop (filesum.go:111-128): a symbolic link is
     * skipped, a directory is handled by CollectChild, and any other entry
     * adds its size.
     */
    method CollectEntry(fi: Entry, limit: int)
      requires Valid()
      modifies this
      decreases fi
      ensures Valid() && fresh(Repr - old(Repr))
      ensures path == old(path) && base == old(base) && depth == old(depth) && parent == old(parent)
      ensures size == old(size) + EntrySize(fi)
      ensures Subtrees == old(Subtrees) + Kept(path, depth, fi, limit)
    {
      match fi {
        case Symlink(_) =>
        case SubDir(name, sub) =>
          var _ := CollectChild(name, sub, limit);
        case File(_, n) =>
          size := size + n;
      }
    }

    /**
     * The directory branch of Collect's loop (filesum.go:114-124): a new
     * node one level deeper, at the joined path, pointing back here, is
     * collected; its size is added to this one and the node is appended
     * to the children only when that size exceeds `limit`.
     */
    method CollectChild(name: string, sub: Listing, limit: int) returns (s: int)
      requires Valid()
      modifies this
      decreases sub, 1
      ensures Valid() && fresh(Repr - old(Repr))
      ensures path == old(path) && base == old(base) && depth == old(depth) && parent == old(parent)
      ensures s == ListingSize(sub) && size == old(size) + s
      ensures Subtrees == old(Subtrees) + Kept(path, depth, SubDir(name, sub), limit)
    {
      var c := new Dir(Join(path, name), name, depth + 1, this);
      s := c.Collect(sub, limit);
      assert Valid();
      CollectedSize(c.path, name, c.depth, sub, limit);
      size := size + s;
      if s > limit {
        Append(c);
      }
    }

    /** d.children = append(d.children, c) for a child built by CollectChild. */
    method Append(c: Dir)
      requires Valid() && c.Valid() && c.parent == this
      requires c != this && c !in Repr && this !in c.Repr && Repr !! c.Repr
      modifies this`children, this`Repr, this`Subtrees
      ensures Valid() && children == old(children) + [c] && Repr == old(Repr) + {c} + c.Repr
      ensures Subtrees == old(Subtrees) + [c.Model()]
    {
      children := children + [c];
      Repr := Repr + {c} + c.Repr;
      Subtrees := Subtrees + [c.Model()];
    }
    /** The footprint is the same, and every node in it has the same children as before, possibly reordered. */
    twostate predicate ReorderedBelow()
      reads this`Repr, Repr
    {
      Repr == old(Repr) &&
      forall o :: o in Repr ==> multiset(o.children) == multiset(old(o.children))
    }

    /** The models of a sequence of nodes, in order. */
    static ghost function SubtreesOf(cs: seq<Dir>): (r: seq<Node>)
      reads cs
      ensures |r| == |cs|
      ensures forall k :: 0 <= k < |cs| ==> r[k] == cs[k].Model()
    {
      if cs == [] then [] else [cs[0].Model()] + SubtreesOf(cs[1..])
    }

    /** SubDir.Less (filesum.go:32-34): the larger size sorts first. */
    function Less(i: nat, j: nat): (b: bool)
      reads this`children, children
      requires i < |children| && j < |children|
      ensures b ==> i != j && children[i] != children[j]
    {
      children[i].size > children[j].size
    }

    /**
     * Less is a strict weak order, as sort.Sort requires: irreflexive,
     * asymmetric, transitive, and "neither is less" is transitive too.
     */
    lemma LessIsStrictWeakOrder(i: nat, j: nat, k: nat)
      requires i < |children| && j < |children| && k < |children|
      ensures !Less(i, i)
      ensures Less(i, j) ==> !Less(j, i)
      ensures Less(i, j) && Less(j, k) ==> Less(i, k)
      ensures !Less(i, j) && !Less(j, i) && !Less(j, k) && !Less(k, j) ==> !Less(i, k) && !Less(k, i)
    {
    }

    /** SubDir.Swap (filesum.go:28-30): exchanges two children, keeping the same children. */
    method Swap(i: nat, j: nat)
      requires i < |children| && j < |children|
      modifies this`children
      ensures children == old(children)[i := old(children[j])][j := old(children[i])]
      ensures multiset(children) == multiset(old(children))
    {
      var t := children[i];
      children := children[i := children[j]][j := t];
    }

    /**
     * sort.Sort(d.children) (filesum.go:82), through Less and Swap: an
     * insertion sort, after which the children are the same ones, in
     * non-increasing order of size.
     */
    method SortBySize()
      modifies this`children
      ensures multiset(children) == multiset(old(children))
      ensures forall a, b :: 0 <= a < b < |children| ==> children[a].size >= children[b].size
    {
      var i := 0;
      while i < |children|
        invariant 0 <= i <= |children| == |old(children)|
        invariant multiset(children) == multiset(old(children))
        invariant forall a, b :: 0 <= a < b < i ==> children[a].size >= children[b].size
      {
        var j := i;
        while j > 0 && Less(j, j - 1)
          invariant 0 <= j <= i < |children| == |old(children)|
          invariant multiset(children) == multiset(old(children))
          invariant forall a, b :: 0 <= a < b <= i && a != j && b != j ==> children[a].size >= children[b].size
          invariant forall b :: j < b <= i ==> children[j].size > children[b].size
        {
          Swap(j, j - 1);
          j := j - 1;
        }
        i := i + 1;
      }
    }

    /** The sort of Display, with Subtrees reordered along with the children. */
    method SortChildren()
      requires Valid()
      modifies this`children, this`Subtrees
      ensures Valid()
      ensures multiset(children) == multiset(old(children))
      ensures forall a, b :: 0 <= a < b < |children| ==> children[a].size >= children[b].size
    {
      ghost var p := children;
      assert Owns(p);
      SortBySize();
      OwnsPermuted(p, children);
      Subtrees := SubtreesOf(children);
    }

    /** Reordering owned children gives owned children. */
    lemma OwnsPermuted(p: seq<Dir>, r: seq<Dir>)
      requires multiset(r) == multiset(p) && Owns(p)
      ensures Owns(r)
    {
      assert forall a, b :: 0 <= a < b < |p| ==> p[a] != p[b] by {
        forall a, b | 0 <= a < b < |p| ensures p[a] != p[b] {
          assert p[a] in {p[a]} + p[a].Repr;
        }
      }
      PermutedDistinct(p, r);
      forall i | 0 <= i < |r|
        ensures r[i] in Repr && r[i].Repr <= Repr && r[i] !in r[i].Repr
        ensures r[i].parent == this && r[i].Valid()
      {
        assert r[i] in multiset(p);
        var a :| 0 <= a < |p| && p[a] == r[i];
      }
      forall i, j | 0 <= i < j < |r|
        ensures ({r[i]} + r[i].Repr) !! ({r[j]} + r[j].Repr)
      {
        assert r[i] in multiset(p) && r[j] in multiset(p);
        var a :| 0 <= a < |p| && p[a] == r[i];
        var b :| 0 <= b < |p| && p[b] == r[j];
      }
    }

    /**
     * Display (filesum.go:73-93): prints this node's line, extends the
     * indent, sorts the children by size and displays each, the last one
     * as last and followed by a spacer line when it has no children.
     * Afterwards every node's children are the same ones, reordered, and
     * the printed lines are the report of the sorted tree.
     */
    method Display(indent: string, isLast: bool) returns (lines: seq<string>)
      requires Valid()
      modifies this`children, this`Subtrees, Repr`children, Repr`Subtrees
      decreases Repr, 2
      ensures Valid()
      ensures multiset(children) == multiset(old(children))
      ensures ReorderedBelow()
      ensures SortedBySize(Model())
      ensures lines == Render(Model(), indent, isLast)
    {
      var formatted := FormatByUnit(size);
      var head, ind: string;
      if isLast {
        head := indent + LastGlyph + base + " .. " + formatted;
        ind := indent + "  ";
      } else {
        head := indent + MiddleGlyph + base + " .. " + formatted;
        ind := indent + "│";
      }
      SortChildren();
      var rest := DisplayChildren(ind);
      lines := [head] + rest;
      assert forall k :: 0 <= k < |children| ==> Subtrees[k].size == children[k].size;
      assert head == Line(Model(), indent, isLast) && ind == Extend(indent, isLast);
    }

    /** Display's loop over the sorted children (filesum.go:83-92). */
    method DisplayChildren(indent: string) returns (lines: seq<string>)
      requires Valid()
      modifies this`Subtrees, Repr`children, Repr`Subtrees
      decreases Repr, 1
      ensures Valid()
      ensures ReorderedBelow()
      ensures forall k :: 0 <= k < |Subtrees| ==> SortedBySize(Subtrees[k])
      ensures lines == RenderChildren(Subtrees, |Subtrees|, indent)
    {
      lines := [];
      var i := 0;
      while i < |children|
        invariant 0 <= i <= |children|
        invariant Valid()
        invariant ReorderedBelow()
        invariant forall k :: 0 <= k < i ==> SortedBySize(Subtrees[k])
        invariant lines == RenderChildren(Subtrees, i, indent)
      {
        ghost var before := Subtrees;
        var sub := DisplayChild(i, indent);
        RenderChildrenStep(before, Subtrees, i, indent);
        lines := lines + sub;
        i := i + 1;
      }
    }

    /**
     * One turn of Display's loop (filesum.go:83-91): child i is displayed,
     * as the last sibling when it is the last child, and then followed by
     * the bare indent when it has no children of its own.
     */
    method DisplayChild(i: nat, indent: string) returns (lines: seq<string>)
      requires Valid() && i < |children|
      modifies this`Subtrees, {children[i]}`children, {children[i]}`Subtrees
      modifies children[i].Repr`children, children[i].Repr`Subtrees
      decreases Repr, 0
      ensures Valid()
      ensures |Subtrees| == |old(Subtrees)|
      ensures forall k :: 0 <= k < |Subtrees| && k != i ==> Subtrees[k] == old(Subtrees[k])
      ensures Subtrees[..i] == old(Subtrees[..i])
      ensures Subtrees[i].size == old(Subtrees[i].size) && SortedBySize(Subtrees[i])
      ensures ReorderedBelow()
      ensures lines == RenderChild(Subtrees, i, indent)
    {
      var c := children[i];
      if i == |children| - 1 {
        lines := c.Display(indent, true);
        if c.children == [] {
          lines := lines + [indent];
        }
      } else {
        lines := c.Display(indent, false);
      }
      Subtrees := Subtrees[i := c.Model()];
      SiblingsKept(i);
    }

    /**
     * When only child i's subtree has changed, and child i is still valid and
     * Subtrees follows it, the tree invariant holds again.
     */
    twostate lemma SiblingsKept(i: nat)
      requires old(Valid()) && i < |children| && children == old(children) && Repr == old(Repr)
      requires forall o :: o in old(Repr) && o != old(children[i]) && o !in old(children[i].Repr) ==> unchanged(o)
      requires forall o :: o in old(Repr) ==> o.Repr == old(o.Repr) && o.parent == old(o.parent)
      requires children[i].Valid() && |Subtrees| == |children| && Subtrees[i] == children[i].Model()
      requires forall k :: 0 <= k < |children| && k != i ==> Subtrees[k] == old(Subtrees[k])
      ensures Valid()
    {
      forall k | 0 <= k < |children| && k != i
        ensures children[k].Valid() && children[k].Model() == old(children[k].Model())
      {
        assert old(({children[k]} + children[k].Repr) !! ({children[i]} + children[i].Repr)) by {
          if k < i {
            assert old(Owns(children));
          }
        }
      }
    }
  }

  /**
   * main's sequence (filesum.go:50-55) on one input: a root at depth 0 whose
   * directory holds a single 20,000,000-byte file, with the default limit.
   */
  method SingleLargeFileRun() returns (lines: seq<string>)
    ensures lines == ["└data .. 19 MB"]
  {
    var root := new Dir("/data", "data", 0, null);
    var _ := root.Collect(Listed([File("big.bin", 20000000)]), 10000000);
    SingleLargeFileReport();
    lines := root.Display("", true);
  }

  /** Each value occurs at most once in a sequence without repetitions. */
  lemma {:induction false} DistinctCount<T>(p: seq<T>, x: T)
    requires forall a, b :: 0 <= a < b < |p| ==> p[a] != p[b]
    ensures multiset(p)[x] <= 1
  {
    if p != [] {
      assert p == [p[0]] + p[1..];
      assert forall a, b :: 0 <= a < b < |p[1..]| ==> p[1..][a] != p[1..][b] by {
        forall a, b | 0 <= a < b < |p[1..]| ensures p[1..][a] != p[1..][b] {
          assert p[1..][a] == p[a + 1] && p[1..][b] == p[b + 1];
        }
      }
      DistinctCount(p[1..], x);
      if x == p[0] {
        assert x !in p[1..];
      }
    }
  }

  /** A value at two positions occurs at least twice. */
  lemma TwiceCounted<T>(r: seq<T>, a: nat, b: nat)
    requires a < b < |r|
    ensures r[a] == r[b] ==> multiset(r)[r[a]] >= 2
  {
    assert r == r[..b] + r[b..];
    assert r[a] == r[..b][a];
    assert r[b] == r[b..][0];
  }

  /** Reordering a sequence without repetitions gives one without repetitions. */
  lemma PermutedDistinct<T>(p: seq<T>, r: seq<T>)
    requires multiset(p) == multiset(r)
    requires forall a, b :: 0 <= a < b < |p| ==> p[a] != p[b]
    ensures forall a, b :: 0 <= a < b < |r| ==> r[a] != r[b]
  {
    forall a, b | 0 <= a < b < |r| ensures r[a] != r[b] {
      DistinctCount(p, r[a]);
      TwiceCounted(r, a, b);
    }
  }
}
