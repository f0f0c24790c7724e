/** What the directory managers read from the operating system, and how a
    scan sorts what it reads into a store. A directory is seen as the
    sequence of entries its stream yields (readdir, FindFirstFileW and
    FindNextFileW, or the list QDir::entryList returns), each with what a
    metadata query reports about it. */
module Walk {
  import opened Wrappers
  import opened Entries

  /** The type a metadata query reports. */
  datatype Kind = Regular | Directory | Other

  /** One entry of a directory stream: its name, its type and timestamp as
      the metadata query reports them, whether that query succeeded, and,
      for a directory, whether opening it succeeds and what its own stream
      yields. */
  datatype Node = Node(name: string, kind: Kind, time: int, metaOk: bool,
                       opens: bool, children: seq<Node>)

  /** The three variants of directoryManager. */
  datatype Platform = Posix | Windows | Portable

  /** Where one entry of a stream goes. */
  datatype Placement = ToFiles(entry: Entry) | ToFolders(entry: Entry) | Skipped

  /** The classification one read step applies (the POSIX and portable
      `read`, the Windows `add`): "." and ".." are skipped; on POSIX and in
      the portable variant an entry whose metadata query failed, or whose
      type is neither regular file nor directory, is skipped; on Windows the
      directory attribute alone decides, so everything else is a file. */
  function Classify(p: Platform, n: Node): (r: Placement)
    ensures !r.Skipped? ==> ValidName(n.name) && r.entry == Entry(n.time, n.name)
    ensures r.ToFolders? <==> ValidName(n.name) && n.kind == Directory && (p == Windows || n.metaOk)
    ensures r.ToFiles? <==>
              ValidName(n.name) && if p == Windows then n.kind != Directory else n.metaOk && n.kind == Regular
  {
    if !ValidName(n.name) then Skipped
    else if p == Windows then
      if n.kind == Directory then ToFolders(Entry(n.time, n.name)) else ToFiles(Entry(n.time, n.name))
    else if !n.metaOk then Skipped
    else if n.kind == Regular then ToFiles(Entry(n.time, n.name))
    else if n.kind == Directory then ToFolders(Entry(n.time, n.name))
    else Skipped
  }

  /** One read step's effect on the store: addFile, addFolder or nothing. */
  function Step(p: Platform, l: Listing, n: Node): (r: Listing)
    ensures |l.folders| <= |r.folders| && |l.files| <= |r.files|
    ensures |r.folders| + |r.files| <= |l.folders| + |l.files| + 1
  {
    match Classify(p, n)
    case ToFiles(e) => Listing(l.folders, l.files + [e])
    case ToFolders(e) => Listing(l.folders + [e], l.files)
    case Skipped => l
  }

  /** The store after reading `ns` in order into `l`. */
  function Scan(p: Platform, l: Listing, ns: seq<Node>): (r: Listing)
    ensures |l.folders| <= |r.folders| && |l.files| <= |r.files|
  {
    if ns == [] then l else Step(p, Scan(p, l, ns[..|ns| - 1]), ns[|ns| - 1])
  }

  const Empty: Listing := Listing([], [])

  predicate DistinctNames(ns: seq<Node>) {
    forall i, j :: 0 <= i < j < |ns| ==> ns[i].name != ns[j].name
  }

  /** Scanning a list one entry longer adds at most that entry's placement. */
  lemma ScanSnoc(p: Platform, l: Listing, ns: seq<Node>, n: Node)
    ensures Scan(p, l, ns + [n]) == Step(p, Scan(p, l, ns), n)
  {
    assert (ns + [n])[..|ns|] == ns;
  }

  /** Reading one more entry of a stream extends the scan by one step. */
  lemma ScanExtend(p: Platform, l: Listing, ns: seq<Node>, i: nat)
    requires i < |ns|
    ensures Scan(p, l, ns[..i + 1]) == Step(p, Scan(p, l, ns[..i]), ns[i])
  {
    assert ns[..i + 1] == ns[..i] + [ns[i]];
    ScanSnoc(p, l, ns[..i], ns[i]);
  }

  /** An entry is in the scanned file list exactly when it was there before
      or some stream entry was classified as that file, and likewise for
      folders: nothing is added that the stream did not yield, and every
      regular file and directory it yields is added to its own list. */
  lemma ScanMembers(p: Platform, l: Listing, ns: seq<Node>)
    ensures forall e :: e in Scan(p, l, ns).files <==>
              e in l.files || exists i :: 0 <= i < |ns| && Classify(p, ns[i]) == ToFiles(e)
    ensures forall e :: e in Scan(p, l, ns).folders <==>
              e in l.folders || exists i :: 0 <= i < |ns| && Classify(p, ns[i]) == ToFolders(e)
  {
    ScanFileMembers(p, l, ns);
    ScanFolderMembers(p, l, ns);
  }

  lemma {:induction false} ScanFileMembers(p: Platform, l: Listing, ns: seq<Node>)
    ensures forall e :: e in Scan(p, l, ns).files <==>
              e in l.files || exists i :: 0 <= i < |ns| && Classify(p, ns[i]) == ToFiles(e)
  {
    if ns != [] {
      var init, last := ns[..|ns| - 1], ns[|ns| - 1];
      ScanFileMembers(p, l, init);
      assert Scan(p, l, ns) == Step(p, Scan(p, l, init), last);
      forall e | exists i :: 0 <= i < |ns| && Classify(p, ns[i]) == ToFiles(e)
        ensures (exists i :: 0 <= i < |init| && Classify(p, init[i]) == ToFiles(e)) ||
                Classify(p, last) == ToFiles(e)
      {
        var i :| 0 <= i < |ns| && Classify(p, ns[i]) == ToFiles(e);
        if i < |init| {
          assert init[i] == ns[i];
        }
      }
      forall e | exists i :: 0 <= i < |init| && Classify(p, init[i]) == ToFiles(e)
        ensures exists i :: 0 <= i < |ns| && Classify(p, ns[i]) == ToFiles(e)
      {
        var i :| 0 <= i < |init| && Classify(p, init[i]) == ToFiles(e);
        assert ns[i] == init[i];
      }
    }
  }

  lemma {:induction false} ScanFolderMembers(p: Platform, l: Listing, ns: seq<Node>)
    ensures forall e :: e in Scan(p, l, ns).folders <==>
              e in l.folders || exists i :: 0 <= i < |ns| && Classify(p, ns[i]) == ToFolders(e)
  {
    if ns != [] {
      var init, last := ns[..|ns| - 1], ns[|ns| - 1];
      ScanFolderMembers(p, l, init);
      assert Scan(p, l, ns) == Step(p, Scan(p, l, init), last);
      forall e | exists i :: 0 <= i < |ns| && Classify(p, ns[i]) == ToFolders(e)
        ensures (exists i :: 0 <= i < |init| && Classify(p, init[i]) == ToFolders(e)) ||
                Classify(p, last) == ToFolders(e)
      {
        var i :| 0 <= i < |ns| && Classify(p, ns[i]) == ToFolders(e);
        if i < |init| {
          assert init[i] == ns[i];
        }
      }
      forall e | exists i :: 0 <= i < |init| && Classify(p, init[i]) == ToFolders(e)
        ensures exists i :: 0 <= i < |ns| && Classify(p, ns[i]) == ToFolders(e)
      {
        var i :| 0 <= i < |init| && Classify(p, init[i]) == ToFolders(e);
        assert ns[i] == init[i];
      }
    }
  }

  /** Every scanned entry carries the name and timestamp of a stream entry
      that passed the name filter, so "." and ".." never enter a store. */
  lemma ScanAddsOnlyValidNames(p: Platform, ns: seq<Node>)
    ensures forall e :: e in Scan(p, Empty, ns).files ==>
              ValidName(e.path) && exists i :: 0 <= i < |ns| && e == Entry(ns[i].time, ns[i].name)
    ensures forall e :: e in Scan(p, Empty, ns).folders ==>
              ValidName(e.path) && exists i :: 0 <= i < |ns| && e == Entry(ns[i].time, ns[i].name)
  {
    ScanMembers(p, Empty, ns);
  }

  /** A scan adds at most one entry per stream entry. */
  lemma {:induction false} ScanSize(p: Platform, l: Listing, ns: seq<Node>)
    ensures |Scan(p, l, ns).files| + |Scan(p, l, ns).folders| <= |l.files| + |l.folders| + |ns|
  {
    if ns != [] {
      ScanSize(p, l, ns[..|ns| - 1]);
    }
  }

  /** Every path in a scanned list is the name of a stream entry. */
  lemma {:induction false} ScanPathsFromStream(p: Platform, ns: seq<Node>)
    ensures forall e :: e in Scan(p, Empty, ns).files + Scan(p, Empty, ns).folders ==>
              exists i :: 0 <= i < |ns| && ns[i].name == e.path
  {
    ScanMembers(p, Empty, ns);
    forall e | e in Scan(p, Empty, ns).files + Scan(p, Empty, ns).folders
      ensures exists i :: 0 <= i < |ns| && ns[i].name == e.path
    {
      var i :| 0 <= i < |ns| && (Classify(p, ns[i]) == ToFiles(e) || Classify(p, ns[i]) == ToFolders(e));
      assert ns[i].name == e.path;
    }
  }

  predicate PathsDistinct(es: seq<Entry>) {
    forall i, j :: 0 <= i < j < |es| ==> es[i].path != es[j].path
  }

  /** Inserting an entry whose path is new keeps a list's paths distinct. */
  lemma InsertKeepsPathsDistinct(f: seq<Entry>, g: seq<Entry>, e: Entry)
    requires PathsDistinct(f + g)
    requires forall x :: x in f + g ==> x.path != e.path
    ensures PathsDistinct(f + [e] + g)
  {
    var all0, all := f + g, f + [e] + g;
    forall i, j | 0 <= i < j < |all| ensures all[i].path != all[j].path {
      var k := |f|;
      if i == k {
        assert all[j] == all0[j - 1] && all0[j - 1] in all0;
      } else if j == k {
        assert all[i] == all0[i] && all0[i] in all0;
      } else {
        var i0 := if i < k then i else i - 1;
        var j0 := if j < k then j else j - 1;
        assert all[i] == all0[i0] && all[j] == all0[j0];
      }
    }
  }

  /** When the stream's names are distinct (as in a real directory), no
      path is listed twice and no path is both a file and a folder. */
  lemma {:induction false} ScanKeepsPathsApart(p: Platform, ns: seq<Node>)
    requires DistinctNames(ns)
    ensures PathsDistinct(Scan(p, Empty, ns).files + Scan(p, Empty, ns).folders)
  {
    if ns != [] {
      var init, n := ns[..|ns| - 1], ns[|ns| - 1];
      assert DistinctNames(init) by {
        forall i, j | 0 <= i < j < |init| ensures init[i].name != init[j].name {
          assert init[i] == ns[i] && init[j] == ns[j];
        }
      }
      ScanKeepsPathsApart(p, init);
      ScanPathsFromStream(p, init);
      var r0 := Scan(p, Empty, init);
      assert forall x :: x in r0.files + r0.folders ==> x.path != n.name by {
        forall x | x in r0.files + r0.folders ensures x.path != n.name {
          var i :| 0 <= i < |init| && init[i].name == x.path;
          assert init[i] == ns[i];
        }
      }
      assert Scan(p, Empty, ns) == Step(p, r0, n);
      match Classify(p, n)
      case Skipped =>
      case ToFiles(e) =>
        InsertKeepsPathsDistinct(r0.files, r0.folders, e);
      case ToFolders(e) =>
        InsertKeepsPathsDistinct(r0.files + r0.folders, [], e);
        assert r0.files + r0.folders + [e] + [] == r0.files + (r0.folders + [e]);
    }
  }

  /** How many of `available` stream entries a `while (flag && read())`
      loop consumes when its first poll has index `polls`: all of them with
      no flag, otherwise only as many as are read before the flag reads
      false. */
  function Consumed(stop: Option<nat>, polls: nat, available: nat): (k: nat)
    ensures k <= available
    ensures stop.None? ==> k == available
    ensures stop.Some? && polls >= stop.value ==> k == 0
  {
    match stop
    case None => available
    case Some(stopAt) => if polls >= stopAt then 0 else Min(available, stopAt - polls)
  }

  function Min(a: nat, b: nat): nat { if a <= b then a else b }

  /** A directory stream (DIR*, a find handle, or a list with a counter): the
      entries it yields, in order, and how many it has yielded. */
  class Stream {
    const entries: seq<Node>
    var pos: nat

    constructor (entries: seq<Node>)
      ensures this.entries == entries && pos == 0
    {
      this.entries, pos := entries, 0;
    }

    /** readdir / FindNextFileW: the next entry, or None at the end. */
    method Next() returns (r: Option<Node>)
      requires pos <= |entries|
      modifies this
      ensures pos <= |entries|
      ensures old(pos) < |entries| ==> r == Some(entries[old(pos)]) && pos == old(pos) + 1
      ensures old(pos) == |entries| ==> r == None && pos == old(pos)
    {
      if pos < |entries| {
        r := Some(entries[pos]);
        pos := pos + 1;
      } else {
        r := None;
      }
    }
  }
}
