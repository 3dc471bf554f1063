// The size-annotated tree Collect builds (the Dir records of filesum.go),
// as a value, and the function that says which tree Collect must build.
module Tree {
  import opened FileSystem

  /** One Dir record as Collect leaves it; the parent back-pointer is kept by the class only. */
  datatype Node = Node(path: string, base: string, size: int, depth: int, children: seq<Node>)

  /**
   * The tree Collect builds for a directory at `path` whose listing is `l`:
   * its size is the listing's total, and its children are the subdirectories
   * whose own total exceeds `limit`, in listing order.
   */
  function Collected(path: string, base: string, depth: int, l: Listing, limit: int): Node
    decreases l
  {
    match l
    case Listed(es) => Node(path, base, EntriesSize(es), depth, Retained(path, depth, es, limit))
    case _ => Node(path, base, 0, depth, [])
  }

  /** The children appended while the loop runs over `es`. */
  function Retained(path: string, depth: int, es: seq<Entry>, limit: int): seq<Node>
    decreases es
  {
    if es == [] then [] else Kept(path, depth, es[0], limit) + Retained(path, depth, es[1..], limit)
  }

  /** The child one entry appends: only a subdirectory, and only above the limit. */
  function Kept(path: string, depth: int, e: Entry, limit: int): seq<Node>
    decreases e
  {
    match e
    case SubDir(name, l) =>
      var c := Collected(Join(path, name), name, depth + 1, l, limit);
      if c.size > limit then [c] else []
    case _ => []
  }

  /** The node Collect creates for a subdirectory entry of the directory at `path`. */
  function ChildOf(path: string, depth: int, e: Entry, limit: int): Node
    requires e.SubDir?
  {
    Collected(Join(path, e.name), e.name, depth + 1, e.listing, limit)
  }

  function SizeSum(ns: seq<Node>): int {
    if ns == [] then 0 else ns[0].size + SizeSum(ns[1..])
  }

  lemma {:induction false} RetainedAppend(path: string, depth: int, a: seq<Entry>, b: seq<Entry>, limit: int)
    ensures Retained(path, depth, a + b, limit) == Retained(path, depth, a, limit) + Retained(path, depth, b, limit)
  {
    if a == [] {
      assert a + b == b;
    } else {
      assert (a + b)[1..] == a[1..] + b;
      RetainedAppend(path, depth, a[1..], b, limit);
    }
  }

  /** The tree's size is what the directory's listing adds up to. */
  lemma CollectedSize(path: string, base: string, depth: int, l: Listing, limit: int)
    ensures Collected(path, base, depth, l, limit).size == ListingSize(l)
    ensures Collected(path, base, depth, l, limit).path == path
    ensures Collected(path, base, depth, l, limit).base == base
    ensures Collected(path, base, depth, l, limit).depth == depth
  {
  }

  /** A directory that cannot be opened or listed has size 0 and no children. */
  lemma UnreadableIsEmpty(path: string, base: string, depth: int, l: Listing, limit: int)
    requires !l.Listed?
    ensures Collected(path, base, depth, l, limit).size == 0
    ensures Collected(path, base, depth, l, limit).children == []
  {
  }

  /**
   * Every retained child comes from a subdirectory entry: it is that entry's
   * node (one level deeper, named by the entry, at the joined path), and its
   * size is strictly above the limit.
   */
  lemma {:induction false} RetainedFromEntries(path: string, depth: int, es: seq<Entry>, limit: int)
    ensures forall c :: c in Retained(path, depth, es, limit) ==>
      c.size > limit && c.depth == depth + 1 &&
      exists i :: 0 <= i < |es| && es[i].SubDir? && c == ChildOf(path, depth, es[i], limit)
  {
    if es != [] {
      RetainedFromEntries(path, depth, es[1..], limit);
      forall c | c in Retained(path, depth, es, limit)
        ensures c.size > limit && c.depth == depth + 1
        ensures exists i :: 0 <= i < |es| && es[i].SubDir? && c == ChildOf(path, depth, es[i], limit)
      {
        if c in Kept(path, depth, es[0], limit) {
          assert es[0].SubDir? && c == ChildOf(path, depth, es[0], limit);
        } else {
          var i :| 0 <= i < |es[1..]| && es[1..][i].SubDir? && c == ChildOf(path, depth, es[1..][i], limit);
          assert es[i + 1] == es[1..][i];
        }
      }
    }
  }

  /**
   * A subdirectory entry's node is among the children if and only if its
   * total is strictly greater than the limit (one of exactly the limit is dropped).
   */
  lemma {:induction false} RetainedIff(path: string, depth: int, es: seq<Entry>, i: nat, limit: int)
    requires i < |es| && es[i].SubDir?
    ensures ChildOf(path, depth, es[i], limit) in Retained(path, depth, es, limit)
        <==> ListingSize(es[i].listing) > limit
  {
    var c := ChildOf(path, depth, es[i], limit);
    if ListingSize(es[i].listing) > limit {
      assert es == es[..i] + [es[i]] + es[i + 1..];
      RetainedAppend(path, depth, es[..i] + [es[i]], es[i + 1..], limit);
      RetainedAppend(path, depth, es[..i], [es[i]], limit);
      assert Retained(path, depth, [es[i]], limit) == [c];
    } else if c in Retained(path, depth, es, limit) {
      RetainedFromEntries(path, depth, es, limit);
    }
  }

  /** Whatever the filter keeps, the parent's size still counts every subdirectory. */
  lemma {:induction false} SubDirAlwaysCounted(es: seq<Entry>, i: nat)
    requires i < |es| && es[i].SubDir?
    ensures EntriesSize(es) == EntriesSize(es[..i]) + ListingSize(es[i].listing) + EntriesSize(es[i + 1..])
  {
    assert es == es[..i] + [es[i]] + es[i + 1..];
    EntriesSizeAppend(es[..i] + [es[i]], es[i + 1..]);
    EntriesSizeAppend(es[..i], [es[i]]);
  }

  lemma {:induction false} SizeSumAppend(a: seq<Node>, b: seq<Node>)
    ensures SizeSum(a + b) == SizeSum(a) + SizeSum(b)
  {
    if a == [] {
      assert a + b == b;
    } else {
      assert (a + b)[1..] == a[1..] + b;
      SizeSumAppend(a[1..], b);
    }
  }

  /**
   * With no negative file sizes, a directory's size is at least the sum of
   * its retained children's sizes (dropped children and files only add).
   */
  lemma {:induction false} SizeCoversChildren(path: string, base: string, depth: int, l: Listing, limit: int)
    requires NonNegative(l)
    ensures SizeSum(Collected(path, base, depth, l, limit).children) <= Collected(path, base, depth, l, limit).size
  {
    match l
    case Listed(es) => RetainedSizeBound(path, depth, es, limit);
    case _ =>
  }

  lemma {:induction false} RetainedSizeBound(path: string, depth: int, es: seq<Entry>, limit: int)
    requires NonNegative(Listed(es))
    ensures SizeSum(Retained(path, depth, es, limit)) <= EntriesSize(es)
  {
    if es != [] {
      var head, rest := EntryFileSizes(es[0]), EntriesFileSizes(es[1..]);
      assert FileSizes(Listed(es)) == head + rest;
      assert forall k :: 0 <= k < |rest| ==> rest[k] == (head + rest)[|head| + k];
      assert forall k :: 0 <= k < |head| ==> head[k] == (head + rest)[k];
      assert NonNegative(Listed(es[1..]));
      RetainedSizeBound(path, depth, es[1..], limit);
      SizeSumAppend(Kept(path, depth, es[0], limit), Retained(path, depth, es[1..], limit));
      match es[0]
      case File(_, n) =>
        assert head == [n] && FileSizes(Listed(es))[0] == n;
      case Symlink(_) =>
      case SubDir(name, sub) =>
        assert NonNegative(sub);
        ListingSizeNonNegative(sub);
        var c := Collected(Join(path, name), name, depth + 1, sub, limit);
        CollectedSize(Join(path, name), name, depth + 1, sub, limit);
        assert SizeSum([c]) == c.size;
    }
  }

  /** A symbolic link changes neither the size nor the children of the tree. */
  lemma SymlinkIgnored(path: string, base: string, depth: int, a: seq<Entry>, name: string, b: seq<Entry>, limit: int)
    ensures Collected(path, base, depth, Listed(a + [Symlink(name)] + b), limit)
         == Collected(path, base, depth, Listed(a + b), limit)
  {
    SymlinkAddsNothing(a, name, b);
    RetainedAppend(path, depth, a + [Symlink(name)], b, limit);
    RetainedAppend(path, depth, a, [Symlink(name)], limit);
    RetainedAppend(path, depth, a, b, limit);
  }
}
