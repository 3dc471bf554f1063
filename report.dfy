// The text Display prints for a collected tree (filesum.go, Display), as a
// function of a tree whose children are already in display order.
module Report {
  import opened Units
  import opened Tree

  const LastGlyph := "└"
  const MiddleGlyph := "├"

  /** The line printed for one node: indent, connector, name, " .. ", formatted size. */
  function Line(n: Node, indent: string, isLast: bool): string {
    indent + (if isLast then LastGlyph else MiddleGlyph) + n.base + " .. " + Label(n.size)
  }

  /** The indent handed to a node's children: two spaces below a last sibling, a bar otherwise. */
  function Extend(indent: string, isLast: bool): string {
    indent + (if isLast then "  " else "│")
  }

  /** All lines Display(indent, isLast) prints for `n`, pre-order. */
  function Render(n: Node, indent: string, isLast: bool): seq<string>
    decreases n
  {
    [Line(n, indent, isLast)] + RenderChildren(n.children, |n.children|, Extend(indent, isLast))
  }

  /** The lines printed for the first k children of a node (whose children are cs). */
  function RenderChildren(cs: seq<Node>, k: nat, indent: string): seq<string>
    requires k <= |cs|
    decreases cs, k
  {
    if k == 0 then [] else RenderChildren(cs, k - 1, indent) + RenderChild(cs, k - 1, indent)
  }

  /**
   * The lines printed for child i: only the last child gets the last-sibling
   * connector, and it alone is followed by a spacer (the bare indent) when it
   * has no children of its own.
   */
  function RenderChild(cs: seq<Node>, i: nat, indent: string): seq<string>
    requires i < |cs|
    decreases cs, i
  {
    if i == |cs| - 1 then
      Render(cs[i], indent, true) + (if cs[i].children == [] then [indent] else [])
    else
      Render(cs[i], indent, false)
  }

  /** Every node's children are in non-increasing order of size. */
  predicate SortedBySize(n: Node) {
    (forall i, j :: 0 <= i < j < |n.children| ==> n.children[i].size >= n.children[j].size) &&
    forall k :: 0 <= k < |n.children| ==> SortedBySize(n.children[k])
  }

  /** Number of nodes of the tree. */
  function NodeCount(n: Node): nat
    decreases n
  {
    1 + NodesCount(n.children, |n.children|)
  }

  function NodesCount(cs: seq<Node>, k: nat): nat
    requires k <= |cs|
    decreases cs, k
  {
    if k == 0 then 0 else NodesCount(cs, k - 1) + NodeCount(cs[k - 1])
  }

  /** Number of nodes that are a last child without children of their own. */
  function LeafLastCount(n: Node): nat
    decreases n
  {
    (if n.children != [] && n.children[|n.children| - 1].children == [] then 1 else 0)
    + LeafLastsCount(n.children, |n.children|)
  }

  function LeafLastsCount(cs: seq<Node>, k: nat): nat
    requires k <= |cs|
    decreases cs, k
  {
    if k == 0 then 0 else LeafLastsCount(cs, k - 1) + LeafLastCount(cs[k - 1])
  }

  /** One line per node, plus one spacer per last child that has no children. */
  lemma {:induction false} RenderLength(n: Node, indent: string, isLast: bool)
    ensures |Render(n, indent, isLast)| == NodeCount(n) + LeafLastCount(n)
    decreases n, 0
  {
    var cs, ind := n.children, Extend(indent, isLast);
    RenderChildrenLength(cs, |cs|, ind);
  }

  lemma {:induction false} RenderChildrenLength(cs: seq<Node>, k: nat, indent: string)
    requires k <= |cs|
    ensures |RenderChildren(cs, k, indent)|
         == NodesCount(cs, k) + LeafLastsCount(cs, k)
          + (if k == |cs| && cs != [] && cs[|cs| - 1].children == [] then 1 else 0)
    decreases cs, k
  {
    if k > 0 {
      RenderChildrenLength(cs, k - 1, indent);
      RenderLength(cs[k - 1], indent, k - 1 == |cs| - 1);
    }
  }

  /** Every line printed for a subtree starts with the indent the subtree was given. */
  lemma {:induction false} RenderIndented(n: Node, indent: string, isLast: bool)
    ensures forall i :: 0 <= i < |Render(n, indent, isLast)| ==> indent <= Render(n, indent, isLast)[i]
    decreases n, 0
  {
    var ind := Extend(indent, isLast);
    RenderChildrenIndented(n.children, |n.children|, ind);
    var r := Render(n, indent, isLast);
    var rest := RenderChildren(n.children, |n.children|, ind);
    forall i | 0 <= i < |r| ensures indent <= r[i] {
      if i > 0 {
        assert r[i] == rest[i - 1];
        assert indent <= ind;
      }
    }
  }

  lemma {:induction false} RenderChildrenIndented(cs: seq<Node>, k: nat, indent: string)
    requires k <= |cs|
    ensures forall i :: 0 <= i < |RenderChildren(cs, k, indent)| ==> indent <= RenderChildren(cs, k, indent)[i]
    decreases cs, k
  {
    if k > 0 {
      RenderChildrenIndented(cs, k - 1, indent);
      RenderIndented(cs[k - 1], indent, k - 1 == |cs| - 1);
      var a, b := RenderChildren(cs, k - 1, indent), Render(cs[k - 1], indent, k - 1 == |cs| - 1);
      assert RenderChild(cs, k - 1, indent) == b + (if k - 1 == |cs| - 1 && cs[k - 1].children == [] then [indent] else []);
    }
  }

  /** The lines for the first k children depend only on those children and how many there are. */
  lemma {:induction false} RenderChildrenPrefix(cs: seq<Node>, ds: seq<Node>, k: nat, indent: string)
    requires k <= |cs| == |ds| && cs[..k] == ds[..k]
    ensures RenderChildren(cs, k, indent) == RenderChildren(ds, k, indent)
    decreases k
  {
    if k > 0 {
      assert cs[k - 1] == cs[..k][k - 1] == ds[..k][k - 1] == ds[k - 1];
      assert cs[..k - 1] == cs[..k][..k - 1];
      assert ds[..k - 1] == ds[..k][..k - 1];
      RenderChildrenPrefix(cs, ds, k - 1, indent);
    }
  }

  /** Appending the lines of child i to those of the children before it, after child i alone changed. */
  lemma RenderChildrenStep(before: seq<Node>, after: seq<Node>, i: nat, indent: string)
    requires i < |after| == |before| && before[..i] == after[..i]
    ensures RenderChildren(after, i + 1, indent) == RenderChildren(before, i, indent) + RenderChild(after, i, indent)
  {
    RenderChildrenPrefix(before, after, i, indent);
  }

  /** The scenario of a root holding one 20,000,000-byte file, with the default limit. */
  lemma SingleLargeFileReport()
    ensures var t := Collected("/data", "data", 0, FileSystem.Listed([FileSystem.File("big.bin", 20000000)]), 10000000);
      t == Node("/data", "data", 20000000, 0, []) &&
      Render(t, "", true) == ["└data .. 19 MB"]
  {
    SingleLargeFileTree();
    SingleLargeFileLines();
  }

  lemma SingleLargeFileTree()
    ensures Collected("/data", "data", 0, FileSystem.Listed([FileSystem.File("big.bin", 20000000)]), 10000000)
         == Node("/data", "data", 20000000, 0, [])
  {
    var es := [FileSystem.File("big.bin", 20000000)];
    assert es[1..] == [];
    assert FileSystem.EntriesSize(es) == 20000000;
    assert Retained("/data", 0, es, 10000000) == [];
  }

  lemma SingleLargeFileLines()
    ensures Render(Node("/data", "data", 20000000, 0, []), "", true) == ["└data .. 19 MB"]
  {
    LabelExamplesScaled();
    var t := Node("/data", "data", 20000000, 0, []);
    assert Line(t, "", true) == "└data .. 19 MB";
    assert RenderChildren(t.children, 0, Extend("", true)) == [];
  }
}
