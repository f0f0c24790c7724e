/** The in-memory result of a directory scan (class directoryEntries):
    two insertion-ordered lists, one of folders and one of files, each entry
    a creation time and a name, plus read-only cursors over either list. */
module Entries {

  /** One discovered file or folder (directoryEntries::entry). The source
      keeps the time as a qint64; nothing here does arithmetic on it. */
  datatype Entry = Entry(dateCreated: int, path: string)

  /** The two lists of a store as one value. */
  datatype Listing = Listing(folders: seq<Entry>, files: seq<Entry>)

  /** The name filter applied before an entry is added or recursed into: the
      source compares against exactly "." and "..". */
  predicate ValidName(name: string)
    ensures !ValidName(name) <==>
      1 <= |name| <= 2 && name[0] == '.' && name[|name| - 1] == '.'
  {
    name != "." && name != ".."
  }

  /** `after` holds the lists of `before`, each sorted newest first. */
  predicate SortedFrom(after: Listing, before: Listing) {
    SortedDesc(after.folders) && multiset(after.folders) == multiset(before.folders) &&
    SortedDesc(after.files) && multiset(after.files) == multiset(before.files)
  }

  /** Non-increasing by creation time: the order `sort` establishes. */
  predicate SortedDesc(s: seq<Entry>) {
    forall i, j :: 0 <= i < j < |s| ==> s[j].dateCreated <= s[i].dateCreated
  }

  /** A list's creation times, in list order. */
  function Dates(s: seq<Entry>): (r: seq<int>)
    ensures |r| == |s| && forall i :: 0 <= i < |s| ==> r[i] == s[i].dateCreated
  {
    if s == [] then [] else [s[0].dateCreated] + Dates(s[1..])
  }

  lemma {:induction false} DatesAppend(x: seq<Entry>, y: seq<Entry>)
    ensures Dates(x + y) == Dates(x) + Dates(y)
  {
    if x == [] {
      assert x + y == y;
    } else {
      assert (x + y)[1..] == x[1..] + y;
      DatesAppend(x[1..], y);
    }
  }

  predicate NonIncreasing(x: seq<int>) {
    forall i, j :: 0 <= i < j < |x| ==> x[j] <= x[i]
  }

  /** Prepending an entry not older than a sorted list's head keeps it sorted. */
  lemma PrependSorted(x: Entry, s: seq<Entry>)
    requires SortedDesc(s)
    requires s != [] ==> s[0].dateCreated <= x.dateCreated
    ensures SortedDesc([x] + s)
  {
    var r := [x] + s;
    forall i, j | 0 <= i < j < |r| ensures r[j].dateCreated <= r[i].dateCreated {
      if i == 0 {
        assert r[j] == s[j - 1];
        assert s[j - 1].dateCreated <= s[0].dateCreated;
      } else {
        assert r[i] == s[i - 1] && r[j] == s[j - 1];
      }
    }
  }

  /** Places `e` into a sorted list, before the first entry that is not newer. */
  function Insert(e: Entry, s: seq<Entry>): (r: seq<Entry>)
    requires SortedDesc(s)
    ensures SortedDesc(r)
    ensures multiset(r) == multiset(s) + multiset{e}
    ensures r != [] && r[0] == if s == [] || s[0].dateCreated <= e.dateCreated then e else s[0]
  {
    if s == [] || s[0].dateCreated <= e.dateCreated then
      PrependSorted(e, s);
      [e] + s
    else
      assert SortedDesc(s[1..]) by {
        forall i, j | 0 <= i < j < |s[1..]| ensures s[1..][j].dateCreated <= s[1..][i].dateCreated {
          assert s[1..][i] == s[i + 1] && s[1..][j] == s[j + 1];
        }
      }
      var rest := Insert(e, s[1..]);
      assert s == [s[0]] + s[1..];
      assert |s| > 1 ==> s[1].dateCreated <= s[0].dateCreated;
      PrependSorted(s[0], rest);
      [s[0]] + rest
  }

  /** A sort by non-increasing creation time; one of the orders std::sort
      may produce, which the store's `Sort` does not promise beyond
      sortedness and permutation. */
  function SortByDate(s: seq<Entry>): (r: seq<Entry>)
    ensures SortedDesc(r)
    ensures multiset(r) == multiset(s)
  {
    if s == [] then []
    else
      assert s == [s[0]] + s[1..];
      Insert(s[0], SortByDate(s[1..]))
  }

  /** Taking out the entry at index `k`. */
  function RemoveAt(b: seq<Entry>, k: nat): (r: seq<Entry>)
    requires k < |b|
    ensures multiset(r) == multiset(b) - multiset{b[k]}
    ensures multiset(Dates(r)) == multiset(Dates(b)) - multiset{b[k].dateCreated}
  {
    var r := b[..k] + b[k + 1..];
    assert b == b[..k] + [b[k]] + b[k + 1..];
    DatesAppend(b[..k] + [b[k]], b[k + 1..]);
    DatesAppend(b[..k], [b[k]]);
    DatesAppend(b[..k], b[k + 1..]);
    r
  }

  /** Multiset bookkeeping for one step of `DatesOfPermutation`. */
  lemma ConsPermutation(y: seq<int>, rest: seq<int>, d: int)
    requires multiset(rest) == multiset(y) - multiset{d}
    requires d in multiset(y)
    ensures multiset([d] + rest) == multiset(y)
  {
  }

  /** Two lists holding the same entries have the same creation times as
      multisets. */
  lemma {:induction false} DatesOfPermutation(a: seq<Entry>, b: seq<Entry>)
    requires multiset(a) == multiset(b)
    ensures multiset(Dates(a)) == multiset(Dates(b))
  {
    if a == [] {
      assert |b| == |multiset(b)| == 0;
    } else {
      var e := a[0];
      MultisetTail(a);
      var k :| 0 <= k < |b| && b[k] == e;
      var rest := RemoveAt(b, k);
      DatesOfPermutation(a[1..], rest);
      assert Dates(b)[k] == e.dateCreated;
      assert Dates(a) == [e.dateCreated] + Dates(a[1..]);
      ConsPermutation(Dates(b), Dates(a[1..]), e.dateCreated);
    }
  }

  /** Splitting off the head of a list, as a multiset. */
  lemma MultisetTail<T>(x: seq<T>)
    requires x != []
    ensures multiset(x[1..]) == multiset(x) - multiset{x[0]}
    ensures x[0] in multiset(x)
  {
    assert x == [x[0]] + x[1..];
  }

  /** The head of a non-increasing list is its largest element. */
  lemma HeadIsMax(x: seq<int>, v: int)
    requires NonIncreasing(x) && v in multiset(x)
    ensures v <= x[0]
  {
    var j :| 0 <= j < |x| && x[j] == v;
  }

  lemma NonIncreasingTail(x: seq<int>)
    requires NonIncreasing(x) && x != []
    ensures NonIncreasing(x[1..])
  {
    forall i, j | 0 <= i < j < |x[1..]| ensures x[1..][j] <= x[1..][i] {
      assert x[1..][i] == x[i + 1] && x[1..][j] == x[j + 1];
    }
  }

  /** Two non-increasing lists with the same elements start with the same
      element, and what follows it has the same elements too. */
  lemma HeadsAgree(x: seq<int>, y: seq<int>)
    requires NonIncreasing(x) && NonIncreasing(y) && x != []
    requires multiset(x) == multiset(y)
    ensures y != [] && x[0] == y[0] && multiset(x[1..]) == multiset(y[1..])
  {
    MultisetTail(x);
    assert y != [] by {
      assert x[0] in multiset(y);
    }
    MultisetTail(y);
    HeadIsMax(y, x[0]);
    HeadIsMax(x, y[0]);
  }

  /** Two non-increasing integer lists with the same elements are equal. */
  lemma {:induction false} NonIncreasingUnique(x: seq<int>, y: seq<int>)
    requires NonIncreasing(x) && NonIncreasing(y)
    requires multiset(x) == multiset(y)
    ensures x == y
  {
    if x == [] {
      assert |y| == |multiset(y)| == 0;
    } else {
      HeadsAgree(x, y);
      NonIncreasingTail(x);
      NonIncreasingTail(y);
      NonIncreasingUnique(x[1..], y[1..]);
      assert x == [x[0]] + x[1..] == [y[0]] + y[1..] == y;
    }
  }

  /** Sorting is idempotent up to the order of ties: any two sorted
      permutations of the same entries agree on their sequence of creation
      times, so only entries with equal times may trade places. */
  lemma SortedPermutationsAgreeOnDates(a: seq<Entry>, b: seq<Entry>)
    requires SortedDesc(a) && SortedDesc(b)
    requires multiset(a) == multiset(b)
    ensures Dates(a) == Dates(b)
  {
    DatesOfPermutation(a, b);
    NonIncreasingUnique(Dates(a), Dates(b));
  }

  /** Which of the two lists a cursor walks. */
  datatype ListKind = Folders | Files

  /** The store (class directoryEntries). The two vectors are `seq` fields
      that the methods reassign. */
  class DirectoryEntries {
    var folders: seq<Entry>
    var files: seq<Entry>

    /** Both lists as one value. */
    function View(): Listing
      reads this
    {
      Listing(folders, files)
    }

    constructor ()
      ensures folders == [] && files == []
    {
      folders, files := [], [];
    }

    method Clear()
      modifies this
      ensures folders == [] && files == []
    {
      folders, files := [], [];
    }

    /** Sorts each list independently, newest first. The contract leaves the
        order of equal times open, as std::sort does. */
    method Sort()
      modifies this
      ensures SortedFrom(View(), old(View()))
    {
      folders := SortByDate(folders);
      files := SortByDate(files);
    }

    method AddFile(dateCreated: int, path: string)
      modifies this
      ensures files == old(files) + [Entry(dateCreated, path)]
      ensures folders == old(folders)
    {
      files := files + [Entry(dateCreated, path)];
    }

    method AddFolder(dateCreated: int, path: string)
      modifies this
      ensures folders == old(folders) + [Entry(dateCreated, path)]
      ensures files == old(files)
    {
      folders := folders + [Entry(dateCreated, path)];
    }

    method DirectoryIter() returns (it: Iter)
      ensures fresh(it) && it.store == this && it.list == Folders && it.position == 0
    {
      it := new Iter(this, Folders);
    }

    method FileIter() returns (it: Iter)
      ensures fresh(it) && it.store == this && it.list == Files && it.position == 0
    {
      it := new Iter(this, Files);
    }
  }

  /** A cursor (directoryEntries::iter): a position and a reference to one of
      a store's lists, read through that reference, so it sees later changes
      to the store. */
  class Iter {
    var position: nat
    const store: DirectoryEntries
    const list: ListKind

    constructor (store: DirectoryEntries, list: ListKind)
      ensures this.store == store && this.list == list && position == 0
    {
      this.store, this.list, position := store, list, 0;
    }

    /** The list this cursor refers to. */
    function Entries(): seq<Entry>
      reads store
    {
      if list == Folders then store.folders else store.files
    }

    /** The names still ahead of the cursor, in order. */
    function Remaining(): (r: seq<string>)
      reads this, store
      ensures |r| == if position < |Entries()| then |Entries()| - position else 0
    {
      var es, pos := Entries(), position;
      if pos < |es| then seq(|es| - pos, k requires 0 <= k < |es| - pos => es[pos + k].path)
      else []
    }

    function HasNext(): (b: bool)
      reads this, store
      ensures b <==> Remaining() != []
    {
      position < |Entries()|
    }

    /** The name under the cursor; reading past the end is undefined in the
        source. */
    function Value(): (p: string)
      requires HasNext()
      reads this, store
      ensures p == Remaining()[0]
    {
      Entries()[position].path
    }

    /** Reads the name under the cursor and steps past it. */
    method ValueWithNext() returns (p: string)
      requires HasNext()
      modifies this
      ensures position == old(position) + 1
      ensures [p] + Remaining() == old(Remaining())
    {
      ghost var r0 := Remaining();
      p := Entries()[position].path;
      position := position + 1;
      assert Remaining() == r0[1..];
      assert r0 == [r0[0]] + r0[1..];
    }

    /** A copy advanced by one; this cursor is left where it was. */
    method Next() returns (it: Iter)
      ensures fresh(it) && it.store == store && it.list == list
      ensures it.position == position + 1
      ensures HasNext() ==> it.Remaining() == Remaining()[1..]
    {
      it := new Iter(store, list);
      it.position := position + 1;
    }
  }

  /** A cursor over an empty list reports no next element at once. */
  lemma EmptyStoreHasNoNext(it: Iter)
    requires it.list == Folders ==> it.store.folders == []
    requires it.list == Files ==> it.store.files == []
    ensures !it.HasNext() && it.Remaining() == []
  {
  }
}
