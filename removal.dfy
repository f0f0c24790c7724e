/** The recursive removal walk of the POSIX and Windows directory managers
    (removeDirectory / removePath), as the sequence of removal calls it
    makes on the operating system. Paths are lists of names below the
    managed directory, which is the empty path. */
module Removal {
  import opened Wrappers
  import opened Entries
  import opened Walk

  /** unlink / DeleteFileW, rmdir / RemoveDirectoryW, and, in the portable
      variant, QDir::removeRecursively. */
  datatype Call = RemoveFile(path: seq<string>) | RemoveDir(path: seq<string>) | RemoveTree(path: seq<string>)

  /** The action run once a directory's stream is done: the empty lambda of
      removeDirectoryContents, or removal of the directory itself. */
  datatype Finish = Keep | RemoveSelf

  /** The calls made, and the number of flag polls made so far. */
  datatype Outcome = Outcome(calls: seq<Call>, polls: nat)

  /** What removePath does with one stream entry. */
  datatype Disposal = Unlink | Recurse | Ignore

  /** "." and ".." are ignored; on POSIX an entry whose stat failed, or that
      is neither a regular file nor a directory, is ignored; on Windows the
      directory attribute alone decides, and everything else is deleted. */
  function Dispose(p: Platform, n: Node): (r: Disposal)
    ensures r != Ignore ==> ValidName(n.name)
    ensures p != Portable ==> (r == Unlink <==> Classify(p, n).ToFiles?)
    ensures p != Portable ==> (r == Recurse <==> Classify(p, n).ToFolders?)
  {
    if !ValidName(n.name) then Ignore
    else if p == Windows then (if n.kind == Directory then Recurse else Unlink)
    else if !n.metaOk then Ignore
    else if n.kind == Regular then Unlink
    else if n.kind == Directory then Recurse
    else Ignore
  }

  /** Whether the walk gets a handle on a directory: opendir succeeds, or
      FindFirstFileW finds a first entry. */
  predicate Opened(p: Platform, d: Node)
    ensures Opened(p, d) ==> d.opens
    ensures p == Windows && Opened(p, d) ==> |d.children| >= 1
  {
    d.opens && (p == Windows ==> d.children != [])
  }

  /** The calls of the finishing lambda: none for removeDirectoryContents'
      empty one, one rmdir of the directory itself otherwise. */
  function FinishCalls(finish: Finish, path: seq<string>): (r: seq<Call>)
    ensures |r| <= 1 && (r == [] <==> finish.Keep?)
    ensures forall c :: c in r ==> c == RemoveDir(path)
  {
    if finish == RemoveSelf then [RemoveDir(path)] else []
  }

  /** removeDirectory(path, finish) on directory `d`: nothing when it cannot
      be opened; otherwise its stream is walked, then the finishing action
      runs, even if the walk was cut short by the flag. */
  function RemoveDirectorySpec(p: Platform, stop: Option<nat>, path: seq<string>, d: Node,
                               finish: Finish, polls: nat): (r: Outcome)
    ensures polls <= r.polls && (stop.None? ==> r.polls == polls)
    ensures !Opened(p, d) ==> r == Outcome([], polls)
    decreases d, |d.children| + 3
  {
    if !Opened(p, d) then Outcome([], polls)
    else
      var body := DirBody(p, stop, path, d, polls);
      Outcome(body.calls + FinishCalls(finish, path), body.polls)
  }

  /** The walk over an opened directory's stream. On Windows the first entry
      comes with the handle and is handled before the flag is first polled. */
  function DirBody(p: Platform, stop: Option<nat>, path: seq<string>, d: Node, polls: nat): (r: Outcome)
    requires Opened(p, d)
    ensures polls <= r.polls && (stop.None? ==> r.polls == polls)
    ensures p != Windows && stop.Some? ==> polls < r.polls
    decreases d, |d.children| + 2
  {
    if p == Windows then
      var first := RemovePathSpec(p, stop, path, d.children[0], polls);
      var rest := LoopSpec(p, stop, path, d, 1, first.polls);
      Outcome(first.calls + rest.calls, rest.polls)
    else LoopSpec(p, stop, path, d, 0, polls)
  }

  /** The `while` loop from stream position `i`: with a flag, it is polled
      before each read and a false reading ends the loop; the end of the
      stream ends it too. */
  function LoopSpec(p: Platform, stop: Option<nat>, path: seq<string>, d: Node, i: nat, polls: nat): (r: Outcome)
    requires i <= |d.children|
    ensures polls <= r.polls && (stop.None? ==> r.polls == polls)
    ensures stop.Some? ==> polls < r.polls
    decreases d, |d.children| - i + 1
  {
    if stop.Some? && polls >= stop.value then Outcome([], polls + 1)
    else
      var polls1 := if stop.Some? then polls + 1 else polls;
      if i == |d.children| then Outcome([], polls1)
      else
        var here := RemovePathSpec(p, stop, path, d.children[i], polls1);
        var rest := LoopSpec(p, stop, path, d, i + 1, here.polls);
        Outcome(here.calls + rest.calls, rest.polls)
  }

  /** removePath: unlink a file, recurse into a directory (removing it
      afterwards), or do nothing. */
  function RemovePathSpec(p: Platform, stop: Option<nat>, path: seq<string>, n: Node, polls: nat): (r: Outcome)
    ensures polls <= r.polls && (stop.None? ==> r.polls == polls)
    ensures Dispose(p, n) != Recurse ==> r.polls == polls
    decreases n, |n.children| + 4
  {
    match Dispose(p, n)
    case Ignore => Outcome([], polls)
    case Unlink => Outcome([RemoveFile(path + [n.name])], polls)
    case Recurse => RemoveDirectorySpec(p, stop, path + [n.name], n, RemoveSelf, polls)
  }

  /** The removal calls made on the file system so far, in order. */
  class OsLog {
    var calls: seq<Call>

    constructor ()
      ensures calls == []
    {
      calls := [];
    }

    /** unlink / DeleteFileW / QFile::remove. */
    method Unlink(path: seq<string>)
      modifies this
      ensures calls == old(calls) + [RemoveFile(path)]
    {
      calls := calls + [RemoveFile(path)];
    }

    /** rmdir / RemoveDirectoryW. */
    method Rmdir(path: seq<string>)
      modifies this
      ensures calls == old(calls) + [RemoveDir(path)]
    {
      calls := calls + [RemoveDir(path)];
    }

    /** QDir::removeRecursively. */
    method RemoveRecursively(path: seq<string>)
      modifies this
      ensures calls == old(calls) + [RemoveTree(path)]
    {
      calls := calls + [RemoveTree(path)];
    }
  }

  // ---------------------------------------------------------------------
  // Where the calls land: strictly below the directory, through names that
  // pass the filter, so "." and ".." are never followed.

  /** `c` names something strictly inside `path`, reached only through names
      other than "." and "..". */
  predicate Below(c: Call, path: seq<string>) {
    |c.path| > |path| && c.path[..|path|] == path &&
    forall k :: |path| <= k < |c.path| ==> ValidName(c.path[k])
  }

  /** The names of a directory's stream entries from position `i` on. */
  function NamesFrom(d: Node, i: nat): set<string> {
    set j | i <= j < |d.children| :: d.children[j].name
  }

  /** Every call is strictly below `path`, in one of the entries `names`. */
  predicate AllUnder(calls: seq<Call>, path: seq<string>, names: set<string>) {
    forall c :: c in calls ==> Below(c, path) && c.path[|path|] in names
  }

  lemma {:induction false} RemovePathStaysBelow(p: Platform, stop: Option<nat>, path: seq<string>, n: Node, polls: nat)
    ensures AllUnder(RemovePathSpec(p, stop, path, n, polls).calls, path, {n.name})
    decreases n, |n.children| + 4
  {
    var o := RemovePathSpec(p, stop, path, n, polls);
    if Dispose(p, n) == Recurse {
      var sub := path + [n.name];
      DirStaysBelow(p, stop, sub, n, RemoveSelf, polls);
      forall c | c in o.calls ensures Below(c, path) && c.path[|path|] in {n.name} {
        assert c.path[..|sub|] == sub;
        assert c.path[..|path|] == sub[..|path|];
      }
    } else if Dispose(p, n) == Unlink {
      forall c | c in o.calls ensures Below(c, path) && c.path[|path|] in {n.name} {
        assert c.path == path + [n.name];
        assert c.path[..|path|] == path;
      }
    }
  }

  /** removeDirectory(path, …): every call but the last is strictly inside
      `path` through valid names; the last is the removal of `path` itself
      exactly when the finishing action is removal and the directory opened.
      So removeDirectoryContents never removes the managed directory, and
      removeDirectory removes it last. */
  lemma {:induction false} DirStaysBelow(p: Platform, stop: Option<nat>, path: seq<string>, d: Node,
                                         finish: Finish, polls: nat)
    ensures var calls := RemoveDirectorySpec(p, stop, path, d, finish, polls).calls;
      (forall k :: 0 <= k < |calls| ==>
         Below(calls[k], path) || (k == |calls| - 1 && finish == RemoveSelf && calls[k] == RemoveDir(path))) &&
      (finish == RemoveSelf && Opened(p, d) <==> calls != [] && calls[|calls| - 1] == RemoveDir(path))
    decreases d, |d.children| + 3
  {
    if Opened(p, d) {
      var body := DirBody(p, stop, path, d, polls);
      DirBodyStaysBelow(p, stop, path, d, polls);
      var calls := body.calls + FinishCalls(finish, path);
      forall k | 0 <= k < |body.calls| ensures Below(calls[k], path) {
        assert calls[k] == body.calls[k] && body.calls[k] in body.calls;
      }
      if body.calls != [] {
        var last := body.calls[|body.calls| - 1];
        assert last in body.calls && Below(last, path);
      }
    }
  }

  lemma {:induction false} DirBodyStaysBelow(p: Platform, stop: Option<nat>, path: seq<string>, d: Node, polls: nat)
    requires Opened(p, d)
    ensures AllUnder(DirBody(p, stop, path, d, polls).calls, path, NamesFrom(d, 0))
    decreases d, |d.children| + 2
  {
    if p == Windows {
      var first := RemovePathSpec(p, stop, path, d.children[0], polls);
      RemovePathStaysBelow(p, stop, path, d.children[0], polls);
      LoopStaysBelow(p, stop, path, d, 1, first.polls);
      assert d.children[0].name in NamesFrom(d, 0);
      assert NamesFrom(d, 1) <= NamesFrom(d, 0);
    } else {
      LoopStaysBelow(p, stop, path, d, 0, polls);
    }
  }

  lemma {:induction false} LoopStaysBelow(p: Platform, stop: Option<nat>, path: seq<string>, d: Node, i: nat, polls: nat)
    requires i <= |d.children|
    ensures AllUnder(LoopSpec(p, stop, path, d, i, polls).calls, path, NamesFrom(d, i))
    decreases d, |d.children| - i + 1
  {
    if !(stop.Some? && polls >= stop.value) && i < |d.children| {
      var polls1 := if stop.Some? then polls + 1 else polls;
      var here := RemovePathSpec(p, stop, path, d.children[i], polls1);
      RemovePathStaysBelow(p, stop, path, d.children[i], polls1);
      LoopStaysBelow(p, stop, path, d, i + 1, here.polls);
      assert d.children[i].name in NamesFrom(d, i);
      assert NamesFrom(d, i + 1) <= NamesFrom(d, i);
    }
  }

  // ---------------------------------------------------------------------
  // Post-order: once a directory has been removed, nothing inside it is
  // touched again, i.e. everything inside is handled before it.

  /** Directory streams never yield two entries of the same name. */
  predicate WellFormed(n: Node)
    decreases n
  {
    DistinctNames(n.children) && forall i :: 0 <= i < |n.children| ==> WellFormed(n.children[i])
  }

  predicate StrictPrefix(a: seq<string>, b: seq<string>) {
    |a| < |b| && b[..|a|] == a
  }

  predicate PostOrdered(calls: seq<Call>) {
    forall i, j :: 0 <= i < j < |calls| && calls[i].RemoveDir? ==> !StrictPrefix(calls[i].path, calls[j].path)
  }

  lemma PostOrderedConcat(a: seq<Call>, b: seq<Call>)
    requires PostOrdered(a) && PostOrdered(b)
    requires forall x, y :: x in a && y in b && x.RemoveDir? ==> !StrictPrefix(x.path, y.path)
    ensures PostOrdered(a + b)
  {
    var ab := a + b;
    forall i, j | 0 <= i < j < |ab| && ab[i].RemoveDir? ensures !StrictPrefix(ab[i].path, ab[j].path) {
      if j < |a| {
        assert ab[i] == a[i] && ab[j] == a[j];
      } else if i >= |a| {
        assert ab[i] == b[i - |a|] && ab[j] == b[j - |a|];
      } else {
        assert ab[i] == a[i] && ab[j] == b[j - |a|];
        assert a[i] in a && b[j - |a|] in b;
      }
    }
  }

  /** Calls under two different entries of one directory never nest. */
  lemma SiblingsDoNotNest(a: seq<Call>, b: seq<Call>, path: seq<string>, x: string, names: set<string>)
    requires AllUnder(a, path, {x}) && AllUnder(b, path, names) && x !in names
    ensures forall u, v :: u in a && v in b && u.RemoveDir? ==> !StrictPrefix(u.path, v.path)
  {
    forall u, v | u in a && v in b && u.RemoveDir? ensures !StrictPrefix(u.path, v.path) {
      assert Below(u, path) && Below(v, path);
      assert u.path[|path|] != v.path[|path|];
      if |u.path| < |v.path| {
        assert v.path[..|u.path|][|path|] == v.path[|path|];
      }
    }
  }

  /** Removal is post-order: no call ever touches a path inside a directory
      that an earlier call removed. */
  lemma {:induction false} RemoveDirectoryIsPostOrder(p: Platform, stop: Option<nat>, path: seq<string>, d: Node,
                                                      finish: Finish, polls: nat)
    requires WellFormed(d)
    ensures PostOrdered(RemoveDirectorySpec(p, stop, path, d, finish, polls).calls)
    decreases d, |d.children| + 3
  {
    if Opened(p, d) {
      var body := DirBody(p, stop, path, d, polls);
      DirBodyIsPostOrder(p, stop, path, d, polls);
      DirBodyStaysBelow(p, stop, path, d, polls);
      var fin := FinishCalls(finish, path);
      forall x, y | x in body.calls && y in fin && x.RemoveDir? ensures !StrictPrefix(x.path, y.path) {
        assert Below(x, path);
      }
      PostOrderedConcat(body.calls, fin);
    }
  }

  lemma {:induction false} DirBodyIsPostOrder(p: Platform, stop: Option<nat>, path: seq<string>, d: Node, polls: nat)
    requires WellFormed(d) && Opened(p, d)
    ensures PostOrdered(DirBody(p, stop, path, d, polls).calls)
    decreases d, |d.children| + 2
  {
    if p == Windows {
      var first := RemovePathSpec(p, stop, path, d.children[0], polls);
      var rest := LoopSpec(p, stop, path, d, 1, first.polls);
      RemovePathIsPostOrder(p, stop, path, d.children[0], polls);
      LoopIsPostOrder(p, stop, path, d, 1, first.polls);
      RemovePathStaysBelow(p, stop, path, d.children[0], polls);
      LoopStaysBelow(p, stop, path, d, 1, first.polls);
      assert d.children[0].name !in NamesFrom(d, 1);
      SiblingsDoNotNest(first.calls, rest.calls, path, d.children[0].name, NamesFrom(d, 1));
      PostOrderedConcat(first.calls, rest.calls);
    } else {
      LoopIsPostOrder(p, stop, path, d, 0, polls);
    }
  }

  lemma {:induction false} LoopIsPostOrder(p: Platform, stop: Option<nat>, path: seq<string>, d: Node, i: nat, polls: nat)
    requires WellFormed(d) && i <= |d.children|
    ensures PostOrdered(LoopSpec(p, stop, path, d, i, polls).calls)
    decreases d, |d.children| - i + 1
  {
    if !(stop.Some? && polls >= stop.value) && i < |d.children| {
      var polls1 := if stop.Some? then polls + 1 else polls;
      var here := RemovePathSpec(p, stop, path, d.children[i], polls1);
      var rest := LoopSpec(p, stop, path, d, i + 1, here.polls);
      RemovePathIsPostOrder(p, stop, path, d.children[i], polls1);
      LoopIsPostOrder(p, stop, path, d, i + 1, here.polls);
      RemovePathStaysBelow(p, stop, path, d.children[i], polls1);
      LoopStaysBelow(p, stop, path, d, i + 1, here.polls);
      assert d.children[i].name !in NamesFrom(d, i + 1);
      SiblingsDoNotNest(here.calls, rest.calls, path, d.children[i].name, NamesFrom(d, i + 1));
      PostOrderedConcat(here.calls, rest.calls);
    }
  }

  lemma {:induction false} RemovePathIsPostOrder(p: Platform, stop: Option<nat>, path: seq<string>, n: Node, polls: nat)
    requires WellFormed(n)
    ensures PostOrdered(RemovePathSpec(p, stop, path, n, polls).calls)
    decreases n, |n.children| + 4
  {
    if Dispose(p, n) == Recurse {
      RemoveDirectoryIsPostOrder(p, stop, path + [n.name], n, RemoveSelf, polls);
    }
  }

  // ---------------------------------------------------------------------
  // Cancellation on POSIX: a walk unlinks no more files than it makes
  // polls that read "continue". This bounds the number of unlinks; it does
  // not order them against the polls. The case where the flag already reads
  // false is CancelledWalkOnlyFinishes.

  /** Polls with index in [a, b) that read true when the first false one
      has index `stopAt`. */
  function TrueReads(stopAt: nat, a: nat, b: nat): nat {
    if b <= a || stopAt <= a then 0 else Min(stopAt, b) - a
  }

  function FileRemovals(calls: seq<Call>): nat {
    if calls == [] then 0 else (if calls[0].RemoveFile? then 1 else 0) + FileRemovals(calls[1..])
  }

  lemma {:induction false} FileRemovalsConcat(a: seq<Call>, b: seq<Call>)
    ensures FileRemovals(a + b) == FileRemovals(a) + FileRemovals(b)
  {
    if a == [] {
      assert a + b == b;
    } else {
      assert (a + b)[1..] == a[1..] + b;
      FileRemovalsConcat(a[1..], b);
    }
  }

  lemma {:induction false} RemovePathPaysForRemovals(stopAt: nat, path: seq<string>, n: Node, polls: nat)
    ensures var o := RemovePathSpec(Posix, Some(stopAt), path, n, polls);
      polls <= o.polls &&
      (Dispose(Posix, n) != Recurse ==> o.polls == polls) &&
      FileRemovals(o.calls) <= (if Dispose(Posix, n) == Unlink then 1 else TrueReads(stopAt, polls, o.polls))
    decreases n, |n.children| + 4
  {
    if Dispose(Posix, n) == Recurse {
      RemoveDirectoryPaysForRemovals(stopAt, path + [n.name], n, RemoveSelf, polls);
    } else if Dispose(Posix, n) == Unlink {
      assert FileRemovals([RemoveFile(path + [n.name])]) == 1;
    }
  }

  /** On POSIX, the number of files a removal walk unlinks is at most the
      number of its polls that read "continue"; in particular a walk that
      starts with the flag already false unlinks nothing. */
  lemma {:induction false} RemoveDirectoryPaysForRemovals(stopAt: nat, path: seq<string>, d: Node,
                                                          finish: Finish, polls: nat)
    ensures var o := RemoveDirectorySpec(Posix, Some(stopAt), path, d, finish, polls);
      polls <= o.polls && FileRemovals(o.calls) <= TrueReads(stopAt, polls, o.polls)
    decreases d, |d.children| + 3
  {
    if Opened(Posix, d) {
      var body := LoopSpec(Posix, Some(stopAt), path, d, 0, polls);
      LoopPaysForRemovals(stopAt, path, d, 0, polls);
      FileRemovalsConcat(body.calls, FinishCalls(finish, path));
      assert FileRemovals(FinishCalls(finish, path)) == 0;
    }
  }

  lemma {:induction false} LoopPaysForRemovals(stopAt: nat, path: seq<string>, d: Node, i: nat, polls: nat)
    requires i <= |d.children|
    ensures var o := LoopSpec(Posix, Some(stopAt), path, d, i, polls);
      polls < o.polls && FileRemovals(o.calls) <= TrueReads(stopAt, polls, o.polls)
    decreases d, |d.children| - i + 1
  {
    if polls < stopAt && i < |d.children| {
      var here := RemovePathSpec(Posix, Some(stopAt), path, d.children[i], polls + 1);
      var rest := LoopSpec(Posix, Some(stopAt), path, d, i + 1, here.polls);
      RemovePathPaysForRemovals(stopAt, path, d.children[i], polls + 1);
      LoopPaysForRemovals(stopAt, path, d, i + 1, here.polls);
      FileRemovalsConcat(here.calls, rest.calls);
      assert TrueReads(stopAt, polls, rest.polls)
          == TrueReads(stopAt, polls, polls + 1) + TrueReads(stopAt, polls + 1, here.polls)
             + TrueReads(stopAt, here.polls, rest.polls);
    }
  }

  /** A POSIX walk that finds the flag already false removes nothing inside
      the directory, yet still runs its finishing action: removeDirectory
      then calls rmdir on a directory that may not be empty. */
  lemma CancelledWalkOnlyFinishes(stopAt: nat, path: seq<string>, d: Node, finish: Finish, polls: nat)
    requires stopAt <= polls
    ensures RemoveDirectorySpec(Posix, Some(stopAt), path, d, finish, polls).calls
            == if d.opens then FinishCalls(finish, path) else []
  {
    if d.opens {
      assert DirBody(Posix, Some(stopAt), path, d, polls).calls == [];
    }
  }

  /** On Windows the record that comes with the handle is removed even when
      the flag is already false. */
  lemma WindowsCancelledWalkRemovesFirstRecord(stopAt: nat, path: seq<string>, d: Node, finish: Finish, polls: nat)
    requires stopAt <= polls && Opened(Windows, d)
    requires Dispose(Windows, d.children[0]) == Unlink
    ensures RemoveDirectorySpec(Windows, Some(stopAt), path, d, finish, polls).calls
            == [RemoveFile(path + [d.children[0].name])] + FinishCalls(finish, path)
  {
    var first := RemovePathSpec(Windows, Some(stopAt), path, d.children[0], polls);
    assert first == Outcome([RemoveFile(path + [d.children[0].name])], polls);
    assert LoopSpec(Windows, Some(stopAt), path, d, 1, polls).calls == [];
  }

  /** removeDirectoryContents never touches the managed directory itself. */
  lemma ContentsSparesRoot(p: Platform, stop: Option<nat>, d: Node, polls: nat)
    ensures forall c :: c in RemoveDirectorySpec(p, stop, [], d, Keep, polls).calls ==> c.path != []
  {
    DirStaysBelow(p, stop, [], d, Keep, polls);
    var calls := RemoveDirectorySpec(p, stop, [], d, Keep, polls).calls;
    forall c | c in calls ensures c.path != [] {
      var k :| 0 <= k < |calls| && calls[k] == c;
    }
  }

  // ---------------------------------------------------------------------
  // Without a flag the loops run to the end of every stream.

  /** With no flag, the loop of removeDirectory on POSIX or Windows unlinks
      every file of the directory's stream from position i on and removes
      every subdirectory it can open, before its own finishing action. */
  lemma {:induction false} NoFlagHandlesEveryEntry(p: Platform, path: seq<string>, d: Node, i: nat)
    requires p != Portable && i <= |d.children|
    ensures var calls := LoopSpec(p, None, path, d, i, 0).calls;
      forall j :: i <= j < |d.children| ==>
        (Dispose(p, d.children[j]) == Unlink ==> RemoveFile(path + [d.children[j].name]) in calls) &&
        (Dispose(p, d.children[j]) == Recurse && Opened(p, d.children[j]) ==>
           RemoveDir(path + [d.children[j].name]) in calls)
    decreases |d.children| - i
  {
    if i < |d.children| {
      var here := RemovePathSpec(p, None, path, d.children[i], 0);
      var rest := LoopSpec(p, None, path, d, i + 1, here.polls);
      NoFlagHandlesEveryEntry(p, path, d, i + 1);
      var calls := here.calls + rest.calls;
      var n := d.children[i];
      if Dispose(p, n) == Recurse && Opened(p, n) {
        DirStaysBelow(p, None, path + [n.name], n, RemoveSelf, 0);
        assert here.calls[|here.calls| - 1] in calls;
      }
      if Dispose(p, n) == Unlink {
        assert here.calls[0] in calls;
      }
    }
  }

  /** With no flag, the body of removeDirectory handles every record of the
      stream: on Windows the record from FindFirstFileW as well as those the
      loop reads after it. */
  lemma NoFlagBodyHandlesEveryEntry(p: Platform, path: seq<string>, d: Node)
    requires p != Portable && Opened(p, d)
    ensures var calls := DirBody(p, None, path, d, 0).calls;
      forall j :: 0 <= j < |d.children| ==>
        (Dispose(p, d.children[j]) == Unlink ==> RemoveFile(path + [d.children[j].name]) in calls) &&
        (Dispose(p, d.children[j]) == Recurse && Opened(p, d.children[j]) ==>
           RemoveDir(path + [d.children[j].name]) in calls)
  {
    NoFlagHandlesEveryEntry(p, path, d, 0);
    assert DirBody(p, None, path, d, 0).calls == LoopSpec(p, None, path, d, 0, 0).calls;
  }

  /** root/{a.txt, sub/{b.txt}} emptied without a flag on POSIX: sub/b.txt
      goes before sub, and the root stays. */
  lemma ExampleTreeContents()
    ensures var sub := Node("sub", Directory, 0, true, true, [Node("b.txt", Regular, 0, true, false, [])]);
      var root := Node("root", Directory, 0, true, true, [Node("a.txt", Regular, 0, true, false, []), sub]);
      RemoveDirectorySpec(Posix, None, [], root, Keep, 0).calls
      == [RemoveFile(["a.txt"]), RemoveFile(["sub", "b.txt"]), RemoveDir(["sub"])]
  {
    var b := Node("b.txt", Regular, 0, true, false, []);
    var a := Node("a.txt", Regular, 0, true, false, []);
    var sub := Node("sub", Directory, 0, true, true, [b]);
    var root := Node("root", Directory, 0, true, true, [a, sub]);
    assert Dispose(Posix, a) == Unlink && Dispose(Posix, b) == Unlink && Dispose(Posix, sub) == Recurse;
    assert [] + ["sub"] == ["sub"] && ["sub"] + ["b.txt"] == ["sub", "b.txt"] && [] + ["a.txt"] == ["a.txt"];
    assert LoopSpec(Posix, None, ["sub"], sub, 1, 0) == Outcome([], 0);
    assert LoopSpec(Posix, None, ["sub"], sub, 0, 0) == Outcome([RemoveFile(["sub", "b.txt"])], 0);
    assert Opened(Posix, sub) && DirBody(Posix, None, ["sub"], sub, 0) == Outcome([RemoveFile(["sub", "b.txt"])], 0);
    assert RemoveDirectorySpec(Posix, None, ["sub"], sub, RemoveSelf, 0)
        == Outcome([RemoveFile(["sub", "b.txt"]), RemoveDir(["sub"])], 0);
    assert RemovePathSpec(Posix, None, [], sub, 0)
        == Outcome([RemoveFile(["sub", "b.txt"]), RemoveDir(["sub"])], 0);
    assert LoopSpec(Posix, None, [], root, 2, 0) == Outcome([], 0);
    assert LoopSpec(Posix, None, [], root, 1, 0)
        == Outcome([RemoveFile(["sub", "b.txt"]), RemoveDir(["sub"])], 0);
    assert LoopSpec(Posix, None, [], root, 0, 0)
        == Outcome([RemoveFile(["a.txt"]), RemoveFile(["sub", "b.txt"]), RemoveDir(["sub"])], 0);
  }
}
