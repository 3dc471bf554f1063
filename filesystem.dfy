// The directory contents Collect reads through os.Open and Readdir, as a
// finite tree of values, and the size Collect adds up over it.
module FileSystem {

  /**
   * One entry of a directory listing, as Readdir's FileInfo reports it.
   * File stands for every entry that is neither a directory nor a symbolic
   * link (regular files, devices, pipes, ...); its size is FileInfo.Size().
   * A directory entry carries what opening and listing it would give.
   */
  datatype Entry =
    | File(name: string, size: int)
    | Symlink(name: string)
    | SubDir(name: string, listing: Listing)

  /** The outcome of os.Open followed by Readdir(-1) on one directory path. */
  datatype Listing =
    | OpenFailed
    | ReaddirFailed
    | Listed(entries: seq<Entry>)

  /** filepath.Join, taken as plain concatenation with a separator. */
  function Join(dir: string, name: string): (p: string)
    ensures |p| == |dir| + 1 + |name|
    ensures p[..|dir|] == dir && p[|dir|] == '/' && p[|dir| + 1..] == name
  {
    dir + "/" + name
  }

  /** What Collect returns for a directory with this listing: 0 when it cannot be read. */
  function ListingSize(l: Listing): int
    decreases l
  {
    match l
    case Listed(es) => EntriesSize(es)
    case _ => 0
  }

  /** The running total of the loop over the entries. */
  function EntriesSize(es: seq<Entry>): int
    decreases es
  {
    if es == [] then 0 else EntrySize(es[0]) + EntriesSize(es[1..])
  }

  /** What one entry adds: a file its size, a symlink nothing, a directory its own total. */
  function EntrySize(e: Entry): int
    decreases e
  {
    match e
    case File(_, n) => n
    case Symlink(_) => 0
    case SubDir(_, l) => ListingSize(l)
  }

  // An independent description of the total: the sizes of all files reachable
  // from the directory through readable directories, never through a symlink.

  function FileSizes(l: Listing): seq<int>
    decreases l
  {
    match l
    case Listed(es) => EntriesFileSizes(es)
    case _ => []
  }

  function EntriesFileSizes(es: seq<Entry>): seq<int>
    decreases es
  {
    if es == [] then [] else EntryFileSizes(es[0]) + EntriesFileSizes(es[1..])
  }

  function EntryFileSizes(e: Entry): seq<int>
    decreases e
  {
    match e
    case File(_, n) => [n]
    case Symlink(_) => []
    case SubDir(_, l) => FileSizes(l)
  }

  function Sum(xs: seq<int>): int {
    if xs == [] then 0 else xs[0] + Sum(xs[1..])
  }

  /** No file anywhere in the tree reports a negative size. */
  predicate NonNegative(l: Listing) {
    forall i :: 0 <= i < |FileSizes(l)| ==> FileSizes(l)[i] >= 0
  }

  lemma {:induction false} SumAppend(xs: seq<int>, ys: seq<int>)
    ensures Sum(xs + ys) == Sum(xs) + Sum(ys)
  {
    if xs == [] {
      assert xs + ys == ys;
    } else {
      assert (xs + ys)[1..] == xs[1..] + ys;
      SumAppend(xs[1..], ys);
    }
  }

  lemma {:induction false} SumNonNegative(xs: seq<int>)
    requires forall i :: 0 <= i < |xs| ==> xs[i] >= 0
    ensures Sum(xs) >= 0
  {
    if xs != [] {
      SumNonNegative(xs[1..]);
    }
  }

  lemma {:induction false} EntriesSizeAppend(a: seq<Entry>, b: seq<Entry>)
    ensures EntriesSize(a + b) == EntriesSize(a) + EntriesSize(b)
  {
    if a == [] {
      assert a + b == b;
    } else {
      assert (a + b)[1..] == a[1..] + b;
      EntriesSizeAppend(a[1..], b);
    }
  }

  /** The total Collect computes is the sum of every file reachable without a symlink. */
  lemma {:induction false} ListingSizeIsFileTotal(l: Listing)
    ensures ListingSize(l) == Sum(FileSizes(l))
    decreases l, 0
  {
    match l
    case Listed(es) => EntriesSizeIsFileTotal(es);
    case _ =>
  }

  lemma {:induction false} EntriesSizeIsFileTotal(es: seq<Entry>)
    ensures EntriesSize(es) == Sum(EntriesFileSizes(es))
    decreases es
  {
    if es != [] {
      if es[0].SubDir? {
        ListingSizeIsFileTotal(es[0].listing);
      }
      EntriesSizeIsFileTotal(es[1..]);
      SumAppend(EntryFileSizes(es[0]), EntriesFileSizes(es[1..]));
    }
  }

  /** With no negative file size, no directory total is negative. */
  lemma ListingSizeNonNegative(l: Listing)
    requires NonNegative(l)
    ensures ListingSize(l) >= 0
  {
    ListingSizeIsFileTotal(l);
    SumNonNegative(FileSizes(l));
  }

  /** A symbolic link adds nothing wherever it stands in a listing. */
  lemma SymlinkAddsNothing(a: seq<Entry>, name: string, b: seq<Entry>)
    ensures EntriesSize(a + [Symlink(name)] + b) == EntriesSize(a + b)
  {
    EntriesSizeAppend(a + [Symlink(name)], b);
    EntriesSizeAppend(a, [Symlink(name)]);
    EntriesSizeAppend(a, b);
  }

  /**
   * A subdirectory that cannot be opened is counted as 0: the parent's total
   * drops by exactly what the readable subdirectory would have contributed.
   */
  lemma UnreadableSubDirUndercounts(a: seq<Entry>, name: string, l: Listing, b: seq<Entry>)
    ensures EntriesSize(a + [SubDir(name, OpenFailed)] + b)
         == EntriesSize(a + [SubDir(name, l)] + b) - ListingSize(l)
  {
    var closed, open := SubDir(name, OpenFailed), SubDir(name, l);
    EntriesSizeAppend(a + [closed], b);
    EntriesSizeAppend(a, [closed]);
    EntriesSizeAppend(a + [open], b);
    EntriesSizeAppend(a, [open]);
    assert EntriesSize([closed]) == 0 by {
      assert [closed][1..] == [];
      assert EntrySize(closed) == ListingSize(OpenFailed) == 0;
    }
    assert EntriesSize([open]) == ListingSize(l) by {
      assert [open][1..] == [];
      assert EntrySize(open) == ListingSize(l);
    }
  }
}
