# filesum, modelled in Dafny

`filesum` walks a directory tree, adds up the sizes of the files below every
directory and prints an indented tree of the subdirectories whose total is
above a size limit. Within each directory the subdirectories are listed from
the largest to the smallest, and each size is shown in byte, KB, MB or GB.
This project models the program's core, `filesum.go`:

- the `Dir` record and its `SubDir` children with `Len`, `Swap` and `Less`;
- `formatByUnit`;
- `Dir.Collect`, which builds the tree;
- `Dir.Display`, which sorts and prints it.

The model has five modules:

- `Units` (units.dfy) holds `formatByUnit` as the method `FormatByUnit`. It keeps the Go loop over KB, MB and GB. The method is proved equal to `Label`, a closed form whose unit thresholds are the powers of 1024.
- `FileSystem` (filesystem.dfy) describes what `os.Open` and `Readdir(-1)` return, as a finite tree of values:
  - an `Entry` is a file with its size, a symbolic link, or a subdirectory together with its own `Listing`;
  - a `Listing` is an open failure, a read failure, or the list of entries.

  `ListingSize` is the total that `Collect` adds up. It is proved equal to an independent definition: the sum of all file sizes reachable without passing through a symbolic link.
- `Tree` (tree.dfy) gives the tree `Collect` builds as a value (`Node`). `Collected` is the function that says which tree that must be, and the module proves what the size filter keeps and drops.
- `Report` (report.dfy) gives the lines `Display` prints for a tree whose children are already sorted (`Render`). It also proves the line count and the indentation.
- `FileSum` (filesum.dfy) holds the class `Dir`, with the fields of the Go struct.
  - `Collect`, `Display` and their helpers are methods that update the node in place.
  - The sort is an in-place sort of the `children` sequence, written with `Less` and `Swap`.
  - `Valid()` is the ownership invariant: every child belongs to exactly one parent and points back to it. The ghost field `Subtrees` keeps the value of every child's subtree.
  - `Collect` is proved to build exactly `Collected(...)`.
  - `Display` is proved to leave every node's children sorted by size and to keep the same children at every node. The lines it returns are proved equal to `Render` of the reordered tree.

`Display` prints to standard output. Here it returns the printed lines as a
sequence of strings instead, one string per `Printf`/`Println`, without the
trailing newline. The global `limit` becomes a parameter of `Collect`. The
filesystem becomes the `Listing` parameter.

Two places where the program's prose description and its code differ; the
model follows the code:

- Units: the description lists TB and PB as well. The code's unit list stops at GB, so sizes of 1024 GB and more are printed as a GB count of 1024 or above (`LabelExamplesGB`).
- Tie order: the description asks for equal-sized siblings to keep their listing order. The code calls `sort.Sort`, which is not stable. The model therefore promises only the descending order and the permutation (see "Left out").

## Model

| member | source | states |
|---|---|---|
| Units.UnitIndex | filesum.go:59-70 | The unit chosen for a size is the largest of byte, KB, MB, GB whose power of 1024 the size reaches. Below GB, the size is under the next power. |
| Units.NextUnitStep | filesum.go:63-67 | One pass of the loop: the running value is at least 1024 exactly when the size reaches the next unit. Dividing it once more equals dividing the size by the next power of 1024, because the truncating divisions compose. |
| Units.FormatByUnit | filesum.go:59-70 | The loop returns `Label(size)`: the size divided (truncating) by 1024 raised to the unit index, in decimal, then a space and the unit name. |
| Units.FormattedRange | filesum.go:63-68 | A size below 1024, negative ones included, is printed unchanged in bytes. For a non-negative size the printed value is non-negative, and it is below 1024 unless the unit is GB. |
| Units.DecimalSign | filesum.go:69 | `%d` writes at least one character: a leading minus sign exactly for negative values, and only decimal digits after the first character. |
| Units.DigitsWellFormed | filesum.go:69 | The digits written for a non-negative value are all decimal digits, with no leading zero except for 0 itself. |
| Units.DecimalRoundTrip | filesum.go:69 | Reading the decimal text of any integer back gives that integer, so the printed number is the computed value. |
| Units.LabelExamplesBytes | filesum.go:59-70 | 0 is printed as "0 byte" and 1023 as "1023 byte". |
| Units.LabelExamplesScaled | filesum.go:59-70 | 1024 is "1 KB", 1048576 is "1 MB", 1500000 is "1 MB" and 20000000 is "19 MB": every step truncates. |
| Units.LabelExamplesGB | filesum.go:59-70 | 10000000000 is "9 GB", and 5000000000000 is "4656 GB", because GB is the last unit. |
| FileSystem.Join | filesum.go:117 | The child's path is the parent's path, then one separator, then the entry's name. |
| FileSystem.EntriesSizeAppend | filesum.go:111-128 | The running total over a listing split in two is the sum of the totals of the two parts. |
| FileSystem.ListingSizeIsFileTotal | filesum.go:96-131 | The size Collect returns is the sum of the sizes of all files reachable through readable directories and never through a symbolic link. An unreadable directory contributes 0. |
| FileSystem.EntriesSizeIsFileTotal | filesum.go:111-128 | The loop's running total over any list of entries is the sum of the file sizes reachable from those entries. |
| FileSystem.ListingSizeNonNegative | filesum.go:96-131 | When no file reports a negative size, no directory total is negative. |
| FileSystem.SymlinkAddsNothing | filesum.go:112-113 | Putting a symbolic link anywhere into a listing leaves the total unchanged. |
| FileSystem.UnreadableSubDirUndercounts | filesum.go:97-101 | A subdirectory that cannot be opened adds 0. The parent's total falls by exactly what that subdirectory would have added if it were readable. |
| Tree.RetainedAppend | filesum.go:111-128 | The children kept from a listing split in two are those kept from the first part, followed by those kept from the second. |
| Tree.CollectedSize | filesum.go:96-131 | The collected node's size is the listing's total, and its path, base name and depth are the ones it was given. |
| Tree.UnreadableIsEmpty | filesum.go:97-109 | A directory that cannot be opened or read has size 0 and no children. |
| Tree.RetainedFromEntries | filesum.go:114-124 | Every child kept comes from a subdirectory entry of the listing. It is that entry's node: named by the entry, at the joined path, one level deeper. Its size is strictly above the limit. |
| Tree.RetainedIff | filesum.go:120-124 | A subdirectory's node is kept if and only if its total is strictly greater than the limit, so one of exactly the limit is dropped. |
| Tree.SubDirAlwaysCounted | filesum.go:120-121 | The parent's size counts every subdirectory's total, whether or not the filter keeps it. |
| Tree.SizeCoversChildren | filesum.go:114-127 | When no file size is negative, a directory's size is at least the sum of its kept children's sizes. |
| Tree.SizeSumAppend | filesum.go:121-123 | The summed size of two runs of children is the sum of their summed sizes. |
| Tree.SymlinkIgnored | filesum.go:112-113 | Putting a symbolic link anywhere into a listing changes neither the tree's size nor its children. |
| Report.RenderLength | filesum.go:73-93 | Display prints one line per node, plus one spacer line for every last child that has no children. |
| Report.RenderChildrenLength | filesum.go:83-92 | The lines printed for the first k children are those children's subtree lines plus their spacers. A spacer for the last child is added only when all children are printed. |
| Report.RenderIndented | filesum.go:74-80 | Every line printed for a subtree starts with the indent that subtree was given. |
| Report.RenderChildrenIndented | filesum.go:83-92 | Every line printed for a node's children starts with the indent handed to them. |
| Report.RenderChildrenPrefix | filesum.go:83-92 | The lines printed for the first k children depend only on those k children and on how many children there are. |
| Report.RenderChildrenStep | filesum.go:83-91 | After child i alone has been displayed, the lines so far are the earlier children's lines followed by child i's. |
| Report.SingleLargeFileReport | filesum.go:73-131 | The tree collected for a root holding a single 20,000,000-byte file, with limit 10,000,000, is a root with size 20000000 and no children. It prints as the single line "└data .. 19 MB". |
| Report.SingleLargeFileTree | filesum.go:96-131 | Collecting a root holding a single 20,000,000-byte file gives a size of 20000000 and no children. |
| Report.SingleLargeFileLines | filesum.go:73-93 | A root of 20000000 bytes with no children prints as the single line "└data .. 19 MB". |
| FileSum.Dir.constructor | filesum.go:115-119 | A new node has the given path, base name, depth and parent, size 0 and no children. It owns no other node. |
| FileSum.Dir.Collect | filesum.go:96-131 | Starting on a fresh node, Collect leaves the tree valid and all new nodes fresh. Path, base, depth and parent stay unchanged. The node's subtree is exactly `Collected(path, base, depth, listing, limit)`. The returned value equals the stored size and the listing's total. |
| FileSum.Dir.CollectEntry | filesum.go:111-128 | One entry adds its `EntrySize` to the node's size. The children it appends are exactly `Kept(...)` for that entry, and no other field changes. |
| FileSum.Dir.CollectChild | filesum.go:114-124 | A subdirectory gets a new node, one level deeper at the joined path, pointing back to its parent. That node is collected. Its total is added to the parent's size, and the node is appended exactly when the total exceeds the limit. |
| FileSum.Dir.Append | filesum.go:122-123 | Appending a valid node that owns nothing of the parent's footprint keeps the parent valid. The subtree values gain that node's subtree at the end. |
| FileSum.Dir.Swap | filesum.go:28-30 | The children at i and j are exchanged, all others stay in place, and the multiset of children is unchanged. |
| FileSum.Dir.Less | filesum.go:32-34 | Child i sorts before child j only when its size is strictly larger, so a child never sorts before itself. |
| FileSum.Dir.LessIsStrictWeakOrder | filesum.go:32-34 | Less is irreflexive, asymmetric and transitive, and "neither sorts first" is transitive too: the strict weak order `sort.Sort` needs. |
| FileSum.Dir.SortBySize | filesum.go:24-34 | Sorting with Less and Swap leaves the children in non-increasing order of size, and they are a permutation of the children before. |
| FileSum.Dir.OwnsPermuted | filesum.go:82 | Proof helper (no counterpart in the Go code): reordering the children of a valid node keeps every child owned by it, with disjoint footprints. |
| FileSum.Dir.SortChildren | filesum.go:82 | `sort.Sort(d.children)` keeps the tree valid, permutes the children and orders them by non-increasing size. The subtree values follow the new order. |
| FileSum.Dir.SubtreesOf | filesum.go:82 | Proof helper (no counterpart in the Go code): the subtree values of a sequence of nodes correspond one to one, in order, to those nodes. |
| FileSum.Dir.Display | filesum.go:73-93 | Display keeps the tree valid. Every node below keeps the same children as a multiset, and after the call every node's children are sorted by size. The lines printed are exactly `Render` of the reordered tree: the node's line with its connector and formatted size, then its children's lines with the extended indent. |
| FileSum.Dir.DisplayChildren | filesum.go:83-92 | The loop displays the children in their sorted order. It keeps the tree valid and leaves every child's subtree sorted. The printed lines are `RenderChildren` of the children's new subtrees. |
| FileSum.Dir.DisplayChild | filesum.go:84-91 | Only the last child gets the last-sibling connector. It alone is followed by a spacer line, the bare indent, when it has no children. Its siblings' subtrees and the earlier output are unchanged, and so is its size. |
| FileSum.Dir.SiblingsKept | filesum.go:83-91 | Proof helper (no counterpart in the Go code): after displaying child i touches only that child and the nodes below it, the parent is valid again once its subtree value for i is updated. |
| FileSum.SingleLargeFileRun | filesum.go:50-55 | `main`'s sequence on one input: a new root at depth 0 whose directory holds one 20,000,000-byte file is collected with limit 10,000,000 and displayed with `Display("", true)`. The output is the single line "└data .. 19 MB". |
| FileSum.PermutedDistinct | filesum.go:82 | Proof helper (no counterpart in the Go code): a permutation of a sequence without repeated elements has no repeated elements either. |

## Left out

- `main`: flag parsing, `filepath.Abs` and its broken error message are not modelled. `main`'s sequence (a fresh root at depth 0, `Dir.Collect`, then `Dir.Display("", true)`) is run on one input by `FileSum.SingleLargeFileRun`. That input is the one for which `Report.SingleLargeFileReport` computes `Collected` and `Render`, which the two methods are proved equal to.
- The operating system: `os.Open`, `Readdir(-1)` and `FileInfo` are replaced by the `Listing` value the directory would give. The order of the entries is the order of that list. Open file handles, which the Go code never closes, are not modelled.
- Output: the two diagnostic lines Collect prints after a failed `Readdir` (filesum.go:106-107) are not produced. Display's `Printf`/`Println` output is returned as a sequence of lines.
- `fmt`'s `%d` is modelled by `DecimalString`. `filepath.Join` is plain concatenation with "/", without cleaning the path. `filepath.Base` appears only in `main`.
- FileSum.Dir.SortBySize: promises the descending order and the permutation, not the order of equal-sized children. `sort.Sort` is not stable and its tie order is an implementation detail. The model sorts by insertion, and `Display`'s output is stated for whatever order the sort leaves.
- FileSum.Dir.Collect: requires a fresh node (size 0, no children, owning nothing). Every Go caller creates one with `new(Dir)` just before the call, and on a used node the Go code would add to its old size.
- Integer width: sizes are unbounded integers, while Go uses `int64`. Wrap-around above 2^63 - 1 bytes in total is not modelled.
- `parent` is set as in the Go code and preserved, but nothing reads it.
- `Len` is the length of the `children` sequence. `Less` is the function `Dir.Less`, which `SortBySize` calls.
- `c.children == nil` is modelled as "has no children". A node's children start as nil and only grow by `append`, so the two coincide.
- FileSum.Dir.Display: states the reordering on the heap, node by node. Every node below keeps its fields and the same children as a multiset. It is not stated as a value-level relation ("a permutation at every level") between the tree before and after.
