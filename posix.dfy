/** The Linux directoryManager: scanning with opendir/readdir/stat into a
    store, and recursive removal with unlink/rmdir, both optionally
    cancellable through the shared continue-flag. */
module PosixManager {
  import opened Wrappers
  import opened Utf
  import opened Entries
  import opened Paths
  import opened Cancel
  import opened Walk
  import opened Removal

  /** readdir returns C strings, which hold no NUL. */
  predicate CNames(ns: seq<Node>) {
    forall i :: 0 <= i < |ns| ==> '\0' !in ns[i].name
  }

  /** The empty path: `readAll` finds nothing, because opendir("") fails,
      but the removal walk's buffer holds "/", so a manager built on "" walks
      the file system root; here it unlinks the root's file "x". */
  lemma EmptyPathWalksSlash(m: DirectoryManager)
    requires m.RootsAgree() && m.path == ""
    requires m.walkRoot == Node("/", Directory, 0, true, true, [Node("x", Regular, 0, true, false, [])])
    ensures !m.root.opens
    ensures BasePrefix(m.path) == [SLASH]
    ensures RemoveDirectorySpec(Posix, None, [], m.walkRoot, Keep, 0).calls == [RemoveFile(["x"])]
  {
    var x := Node("x", Regular, 0, true, false, []);
    assert Dispose(Posix, x) == Unlink && [] + ["x"] == ["x"];
    assert LoopSpec(Posix, None, [], m.walkRoot, 1, 0) == Outcome([], 0);
  }

  class DirectoryManager {
    /** m_path. */
    const path: string
    /** m_continue, null when the manager was built without a flag. */
    const flag: CancelFlag?
    /** The directory `path` names, as the file system holds it: what
        `readAll`'s opendir(m_path) sees. */
    const root: Node
    /** What the removal walk's opendir(pm.path()) sees: the directory named
        by the base followed by '/'. It is `root` for every non-empty path;
        for the empty path it is "/", while opendir("") fails. */
    const walkRoot: Node
    /** Where unlink and rmdir calls go. */
    const os: OsLog

    constructor (path: string, flag: CancelFlag?, root: Node, walkRoot: Node, os: OsLog)
      requires path != "" ==> walkRoot == root
      requires path == "" ==> !root.opens
      ensures this.path == path && this.flag == flag && this.os == os
      ensures this.root == root && this.walkRoot == walkRoot && RootsAgree()
    {
      this.path, this.flag, this.root, this.walkRoot, this.os := path, flag, root, walkRoot, os;
    }

    /** How the two opendir calls relate: opendir("") fails, and for any
        other path the base with or without the trailing '/' names the same
        directory. */
    predicate RootsAgree() {
      (path != "" ==> walkRoot == root) && (path == "" ==> !root.opens)
    }

    static function SupportsCancel(): (b: bool)
      ensures b
    {
      true
    }

    /** One `read`: consumes one stream entry, if any, and files it. Returns
        false only at the end of the stream. */
    method Read(entries: DirectoryEntries, mm: PathManager, dir: Stream) returns (more: bool)
      requires mm.Valid() && dir.pos <= |dir.entries| && CNames(dir.entries)
      modifies entries, mm.buffer, dir
      ensures mm.Valid() && dir.pos <= |dir.entries|
      ensures more <==> old(dir.pos) < |dir.entries|
      ensures more ==> dir.pos == old(dir.pos) + 1 &&
                       entries.View() == Step(Posix, old(entries.View()), dir.entries[old(dir.pos)])
      ensures !more ==> dir.pos == old(dir.pos) && entries.View() == old(entries.View())
    {
      var e := dir.Next();
      if e.Some? {
        File(entries, mm, e.value);
        more := true;
      } else {
        more := false;
      }
    }

    /** What `read` does with one entry: unless it is "." or "..", stat on
        "<base>/<name>" decides whether it is a file, a folder or neither. */
    method File(entries: DirectoryEntries, mm: PathManager, n: Node)
      requires mm.Valid() && '\0' !in n.name
      modifies entries, mm.buffer
      ensures mm.Valid() && mm.prefix == old(mm.prefix)
      ensures ValidName(n.name) ==> mm.Path() == Composed(mm.prefix, Utf8(n.name))
      ensures entries.View() == Step(Posix, old(entries.View()), n)
    {
      if ValidName(n.name) {
        Utf8HasNoNul(n.name);
        var full := mm.SetPath(Utf8(n.name));
        if n.metaOk {
          if n.kind == Regular {
            entries.AddFile(n.time, n.name);
          } else if n.kind == Directory {
            entries.AddFolder(n.time, n.name);
          }
        }
      }
    }

    /** `readAll`: an empty store when the directory cannot be opened;
        otherwise the entries read before the flag reads false or the stream
        ends, each list sorted newest first. The flag is polled once more
        than the number of entries read. */
    method ReadAll() returns (es: DirectoryEntries)
      requires root.opens ==> '\0' !in path && |BasePrefix(path)| <= PATH_MAX && CNames(root.children)
      modifies flag
      ensures fresh(es)
      ensures !root.opens ==> es.folders == [] && es.files == [] && PollsOf(flag) == old(PollsOf(flag))
      ensures root.opens ==>
        var k := Consumed(StopOf(flag), old(PollsOf(flag)), |root.children|);
        SortedFrom(es.View(), Scan(Posix, Empty, root.children[..k])) &&
        (flag != null ==> flag.polls == old(flag.polls) + k + 1)
    {
      es := new DirectoryEntries();
      if !root.opens {
        return;
      }
      var dir := new Stream(root.children);
      var mm := new PathManager(path);
      ReadLoop(es, mm, dir);
      es.Sort();
    }

    /** The two `while` loops of `readAll`: with a flag, it is polled before
        each read and a false reading ends the loop; without one, the stream
        is read to its end. */
    method ReadLoop(es: DirectoryEntries, mm: PathManager, dir: Stream)
      requires mm.Valid() && dir.pos == 0 && CNames(dir.entries) && es.View() == Empty
      modifies es, mm.buffer, dir, flag
      ensures var k := Consumed(StopOf(flag), old(PollsOf(flag)), |dir.entries|);
        es.View() == Scan(Posix, Empty, dir.entries[..k]) &&
        (flag != null ==> flag.polls == old(flag.polls) + k + 1)
    {
      ghost var polls0 := PollsOf(flag);
      assert dir.entries[..0] == [];
      if flag != null {
        while true
          invariant dir.pos <= |dir.entries| && mm.Valid()
          invariant es.View() == Scan(Posix, Empty, dir.entries[..dir.pos])
          invariant flag.polls == polls0 + dir.pos
          invariant dir.pos <= Consumed(StopOf(flag), polls0, |dir.entries|)
          decreases |dir.entries| - dir.pos
        {
          var go := flag.Poll();
          if !go {
            break;
          }
          var more := Read(es, mm, dir);
          if !more {
            break;
          }
          ScanExtend(Posix, Empty, dir.entries, dir.pos - 1);
        }
        assert dir.pos == Consumed(StopOf(flag), polls0, |dir.entries|);
      } else {
        while true
          invariant dir.pos <= |dir.entries| && mm.Valid()
          invariant es.View() == Scan(Posix, Empty, dir.entries[..dir.pos])
          decreases |dir.entries| - dir.pos
        {
          var more := Read(es, mm, dir);
          if !more {
            break;
          }
          ScanExtend(Posix, Empty, dir.entries, dir.pos - 1);
        }
        assert dir.entries[..dir.pos] == dir.entries;
      }
    }

    /** `removeDirectoryContents`: walks the directory the path buffer
        names, with a finishing action that does nothing. */
    method RemoveDirectoryContents()
      modifies os, flag
      ensures var o := RemoveDirectorySpec(Posix, StopOf(flag), [], walkRoot, Keep, old(PollsOf(flag)));
        os.calls == old(os.calls) + o.calls && PollsOf(flag) == o.polls
    {
      RemoveDirectoryAt([], walkRoot, Keep);
    }

    /** `removeDirectory`: walks the directory the path buffer names, then
        rmdir's m_path. */
    method RemoveDirectory()
      modifies os, flag
      ensures var o := RemoveDirectorySpec(Posix, StopOf(flag), [], walkRoot, RemoveSelf, old(PollsOf(flag)));
        os.calls == old(os.calls) + o.calls && PollsOf(flag) == o.polls
    {
      RemoveDirectoryAt([], walkRoot, RemoveSelf);
    }

    /** The private `removeDirectory(pm, function)` on the directory `d` at
        `at`. */
    method RemoveDirectoryAt(at: seq<string>, d: Node, finish: Finish)
      modifies os, flag
      ensures var o := RemoveDirectorySpec(Posix, StopOf(flag), at, d, finish, old(PollsOf(flag)));
        os.calls == old(os.calls) + o.calls && PollsOf(flag) == o.polls
      decreases d, |d.children| + 3
    {
      if !d.opens {
        return;
      }
      ghost var polls0 := PollsOf(flag);
      var dir := new Stream(d.children);
      RemoveLoop(at, d, dir);
      assert DirBody(Posix, StopOf(flag), at, d, polls0) == LoopSpec(Posix, StopOf(flag), at, d, 0, polls0);
      if finish == RemoveSelf {
        os.Rmdir(at);
      }
    }

    /** The two `while` loops of the private `removeDirectory`, from the
        stream's current position on. */
    method RemoveLoop(at: seq<string>, d: Node, dir: Stream)
      requires dir.entries == d.children && dir.pos <= |d.children|
      modifies os, flag, dir
      ensures var o := LoopSpec(Posix, StopOf(flag), at, d, old(dir.pos), old(PollsOf(flag)));
        os.calls == old(os.calls) + o.calls && PollsOf(flag) == o.polls
      decreases d, |d.children| + 1, 1
    {
      if flag != null {
        PolledLoop(at, d, dir);
      } else {
        PlainLoop(at, d, dir);
      }
    }

    /** The loop with a flag: it is polled before each read, and a false
        reading ends the loop. */
    method PolledLoop(at: seq<string>, d: Node, dir: Stream)
      requires flag != null && dir.entries == d.children && dir.pos <= |d.children|
      modifies os, flag, dir
      ensures var o := LoopSpec(Posix, Some(flag.stopAt), at, d, old(dir.pos), old(flag.polls));
        os.calls == old(os.calls) + o.calls && flag.polls == o.polls
      decreases d, |d.children| + 1, 0
    {
      ghost var calls0 := os.calls;
      ghost var whole := LoopSpec(Posix, Some(flag.stopAt), at, d, dir.pos, flag.polls);
      while true
        invariant dir.pos <= |d.children|
        invariant var rest := LoopSpec(Posix, Some(flag.stopAt), at, d, dir.pos, flag.polls);
          os.calls + rest.calls == calls0 + whole.calls && rest.polls == whole.polls
        decreases |d.children| - dir.pos
      {
        var go := flag.Poll();
        if !go {
          break;
        }
        var e := dir.Next();
        if e.None? {
          break;
        }
        RemovePath(at, e.value);
      }
    }

    /** The loop without a flag: the stream is read to its end. */
    method PlainLoop(at: seq<string>, d: Node, dir: Stream)
      requires flag == null && dir.entries == d.children && dir.pos <= |d.children|
      modifies os, flag, dir
      ensures os.calls == old(os.calls) + LoopSpec(Posix, None, at, d, old(dir.pos), 0).calls
      decreases d, |d.children| + 1, 0
    {
      ghost var calls0 := os.calls;
      ghost var whole := LoopSpec(Posix, None, at, d, dir.pos, 0);
      while true
        invariant dir.pos <= |d.children|
        invariant os.calls + LoopSpec(Posix, None, at, d, dir.pos, 0).calls == calls0 + whole.calls
        decreases |d.children| - dir.pos
      {
        var e := dir.Next();
        if e.None? {
          break;
        }
        RemovePath(at, e.value);
      }
    }

    /** `removePath`: "." and ".." are skipped; a regular file is unlinked and
        a directory removed recursively, by what stat reports. */
    method RemovePath(at: seq<string>, n: Node)
      modifies os, flag
      ensures var o := RemovePathSpec(Posix, StopOf(flag), at, n, old(PollsOf(flag)));
        os.calls == old(os.calls) + o.calls && PollsOf(flag) == o.polls
      decreases n, |n.children| + 4
    {
      if ValidName(n.name) && n.metaOk {
        if n.kind == Regular {
          os.Unlink(at + [n.name]);
        } else if n.kind == Directory {
          RemoveDirectoryAt(at + [n.name], n, RemoveSelf);
        }
      }
    }
  }
}
