/** The Windows directoryManager: paths in the long-path form, scanning and
    removal through FindFirstFileW/FindNextFileW handles. A handle comes with
    the first record of the stream, and that record is handled before the
    continue-flag is first polled. */
module WindowsManager {
  import opened Wrappers
  import opened Entries
  import opened Cancel
  import opened Walk
  import opened Removal

  /** The long-path prefix `\\?\`. */
  const LONG_PATH_PREFIX: string := "\\\\?\\"

  predicate HasLongPrefix(s: string) {
    |s| >= 4 && s[..4] == LONG_PATH_PREFIX
  }

  /** QDir::toNativeSeparators: every '/' becomes '\'. */
  function NativeSeparators(s: string): (r: string)
    ensures |r| == |s| && '/' !in r
    ensures forall i :: 0 <= i < |s| && s[i] != '/' ==> r[i] == s[i]
    ensures forall i :: 0 <= i < |s| && s[i] == '/' ==> r[i] == '\\'
  {
    seq(|s|, i requires 0 <= i < |s| => if s[i] == '/' then '\\' else s[i])
  }

  /** The constructor's setPath: the long-path prefix is added unless the
      path already starts with it, then separators are made native. */
  function LongPath(path: string): (r: string)
    ensures HasLongPrefix(r) && '/' !in r
    ensures |r| == if HasLongPrefix(path) then |path| else |path| + 4
    ensures r[|r| - |path|..] == NativeSeparators(path)
  {
    var s := if HasLongPrefix(path) then path else LONG_PATH_PREFIX + path;
    assert s[..4] == LONG_PATH_PREFIX;
    var r := NativeSeparators(s);
    assert r[..4] == s[..4] by {
      forall i | 0 <= i < 4 ensures r[i] == s[i] {
        assert s[i] == LONG_PATH_PREFIX[i];
      }
    }
    r
  }

  /** Converting a path twice changes nothing: the prefix is never doubled
      on a path the conversion produced. */
  lemma LongPathIdempotent(path: string)
    ensures LongPath(LongPath(path)) == LongPath(path)
  {
    var r := LongPath(path);
    assert NativeSeparators(r) == r;
  }

  /** The prefix check looks at the path before separators are converted, so
      the long-path form written with '/' is not recognised and gets a second
      prefix. */
  lemma LongPathMissesForwardSlashForm()
    ensures LongPath("//?/C:") == "\\\\?\\\\\\?\\C:"
  {
    assert "//?/C:"[..4][0] == '/';
    assert LongPath("//?/C:") == NativeSeparators("\\\\?\\//?/C:");
  }

  /** The handle's search pattern: `*` after a trailing '\', `\*` otherwise.
      The source reads the last character, so the path must not be empty. */
  function FindPattern(w: string): (r: string)
    requires |w| > 0
    ensures |r| >= |w| + 1 && r[..|w|] == w
    ensures |r| >= 2 && r[|r| - 2..] == "\\*"
    ensures w[|w| - 1] != '\\' ==> |r| == |w| + 2
    ensures w[|w| - 1] == '\\' ==> |r| == |w| + 1
  {
    if w[|w| - 1] == '\\' then w + "*" else w + "\\*"
  }

  /** A trailing separator does not change the pattern. */
  lemma FindPatternIgnoresTrailingSeparator(w: string)
    requires |w| > 0 && w[|w| - 1] != '\\'
    ensures FindPattern(w + "\\") == FindPattern(w)
  {
  }

  class DirectoryManager {
    /** m_path, in long-path form. */
    const path: string
    const flag: CancelFlag?
    /** The directory `path` names, as the file system holds it. */
    const root: Node
    /** Where DeleteFileW and RemoveDirectoryW calls go. */
    const os: OsLog

    constructor (path: string, flag: CancelFlag?, root: Node, os: OsLog)
      ensures this.path == LongPath(path) && HasLongPrefix(this.path)
      ensures this.flag == flag && this.root == root && this.os == os
    {
      this.path, this.flag, this.root, this.os := LongPath(path), flag, root, os;
    }

    static function SupportsCancel(): (b: bool)
      ensures b
    {
      true
    }

    /** `add`: files one find record by its directory attribute, with its
        creation time; "." and ".." are skipped. */
    method Add(entries: DirectoryEntries, n: Node)
      modifies entries
      ensures entries.View() == Step(Windows, old(entries.View()), n)
    {
      if ValidName(n.name) {
        if n.kind == Directory {
          entries.AddFolder(n.time, n.name);
        } else {
          entries.AddFile(n.time, n.name);
        }
      }
    }

    /** The `_read` lambda of `readAll`: FindNextFileW, then `add`. */
    method Read(entries: DirectoryEntries, h: Stream) returns (more: bool)
      requires h.pos <= |h.entries|
      modifies entries, h
      ensures h.pos <= |h.entries|
      ensures more <==> old(h.pos) < |h.entries|
      ensures more ==> h.pos == old(h.pos) + 1 &&
                       entries.View() == Step(Windows, old(entries.View()), h.entries[old(h.pos)])
      ensures !more ==> h.pos == old(h.pos) && entries.View() == old(entries.View())
    {
      var e := h.Next();
      if e.Some? {
        Add(entries, e.value);
        more := true;
      } else {
        more := false;
      }
    }

    /** `readAll`: an empty store when no handle is obtained; otherwise the
        first record, then those read before the flag reads false or the
        stream ends, each list sorted newest first. */
    method ReadAll() returns (es: DirectoryEntries)
      modifies flag
      ensures fresh(es)
      ensures !Opened(Windows, root) ==>
        es.folders == [] && es.files == [] && PollsOf(flag) == old(PollsOf(flag))
      ensures Opened(Windows, root) ==>
        var k := Consumed(StopOf(flag), old(PollsOf(flag)), |root.children| - 1);
        SortedFrom(es.View(), Scan(Windows, Empty, root.children[..k + 1])) &&
        (flag != null ==> flag.polls == old(flag.polls) + k + 1)
    {
      es := new DirectoryEntries();
      if !Opened(Windows, root) {
        return;
      }
      var h := new Stream(root.children);
      ReadHandle(es, h);
      es.Sort();
    }

    /** What `readAll` reads through a new handle: the record that comes
        with it, then the loops. */
    method ReadHandle(es: DirectoryEntries, h: Stream)
      requires h.pos == 0 < |h.entries| && es.View() == Empty
      modifies es, h, flag
      ensures var k := Consumed(StopOf(flag), old(PollsOf(flag)), |h.entries| - 1);
        es.View() == Scan(Windows, Empty, h.entries[..k + 1]) &&
        (flag != null ==> flag.polls == old(flag.polls) + k + 1)
    {
      var first := h.Next();
      Add(es, first.value);
      assert h.entries[..0] == [];
      ScanExtend(Windows, Empty, h.entries, 0);
      ReadLoop(es, h);
    }

    /** The two `while` loops of `readAll`, after the first record. */
    method ReadLoop(es: DirectoryEntries, h: Stream)
      requires h.pos == 1 <= |h.entries| && es.View() == Scan(Windows, Empty, h.entries[..1])
      modifies es, h, flag
      ensures var k := Consumed(StopOf(flag), old(PollsOf(flag)), |h.entries| - 1);
        es.View() == Scan(Windows, Empty, h.entries[..k + 1]) &&
        (flag != null ==> flag.polls == old(flag.polls) + k + 1)
    {
      ghost var polls0 := PollsOf(flag);
      if flag != null {
        while true
          invariant 1 <= h.pos <= |h.entries|
          invariant es.View() == Scan(Windows, Empty, h.entries[..h.pos])
          invariant flag.polls == polls0 + h.pos - 1
          invariant h.pos - 1 <= Consumed(StopOf(flag), polls0, |h.entries| - 1)
          decreases |h.entries| - h.pos
        {
          var go := flag.Poll();
          if !go {
            break;
          }
          var more := Read(es, h);
          if !more {
            break;
          }
          ScanExtend(Windows, Empty, h.entries, h.pos - 1);
        }
        assert h.pos - 1 == Consumed(StopOf(flag), polls0, |h.entries| - 1);
      } else {
        while true
          invariant 1 <= h.pos <= |h.entries|
          invariant es.View() == Scan(Windows, Empty, h.entries[..h.pos])
          decreases |h.entries| - h.pos
        {
          var more := Read(es, h);
          if !more {
            break;
          }
          ScanExtend(Windows, Empty, h.entries, h.pos - 1);
        }
        assert h.pos == |h.entries|;
      }
    }

    /** `removeDirectoryContents`: walks the directory with a finishing
        action that does nothing. */
    method RemoveDirectoryContents()
      modifies os, flag
      ensures var o := RemoveDirectorySpec(Windows, StopOf(flag), [], root, Keep, old(PollsOf(flag)));
        os.calls == old(os.calls) + o.calls && PollsOf(flag) == o.polls
    {
      RemoveDirectoryAt([], root, Keep);
    }

    /** `removeDirectory`: walks the directory, then RemoveDirectoryW on it. */
    method RemoveDirectory()
      modifies os, flag
      ensures var o := RemoveDirectorySpec(Windows, StopOf(flag), [], root, RemoveSelf, old(PollsOf(flag)));
        os.calls == old(os.calls) + o.calls && PollsOf(flag) == o.polls
    {
      RemoveDirectoryAt([], root, RemoveSelf);
    }

    /** The private `removeDirectory(w, function)`: the walk over the
        directory's handle, then the finishing action. */
    method RemoveDirectoryAt(at: seq<string>, d: Node, finish: Finish)
      modifies os, flag
      ensures var o := RemoveDirectorySpec(Windows, StopOf(flag), at, d, finish, old(PollsOf(flag)));
        os.calls == old(os.calls) + o.calls && PollsOf(flag) == o.polls
      decreases d, |d.children| + 3
    {
      if !Opened(Windows, d) {
        return;
      }
      RemoveBody(at, d);
      if finish == RemoveSelf {
        os.Rmdir(at);
      }
    }

    /** The walk over an opened handle: its first record is removed before
        the loops start. */
    method RemoveBody(at: seq<string>, d: Node)
      requires Opened(Windows, d)
      modifies os, flag
      ensures var o := DirBody(Windows, StopOf(flag), at, d, old(PollsOf(flag)));
        os.calls == old(os.calls) + o.calls && PollsOf(flag) == o.polls
      decreases d, |d.children| + 2
    {
      ghost var stop, polls0, calls0 := StopOf(flag), PollsOf(flag), os.calls;
      ghost var head := RemovePathSpec(Windows, stop, at, d.children[0], polls0);
      var h := new Stream(d.children);
      var first := h.Next();
      RemovePath(at, first.value);
      assert os.calls == calls0 + head.calls && PollsOf(flag) == head.polls;
      RemoveLoop(at, d, h);
    }

    /** The two `while` loops of the private `removeDirectory`, from the
        handle's current record on. */
    method RemoveLoop(at: seq<string>, d: Node, h: Stream)
      requires h.entries == d.children && h.pos <= |d.children|
      modifies os, flag, h
      ensures var o := LoopSpec(Windows, StopOf(flag), at, d, old(h.pos), old(PollsOf(flag)));
        os.calls == old(os.calls) + o.calls && PollsOf(flag) == o.polls
      decreases d, |d.children| + 1, 1
    {
      if flag != null {
        PolledLoop(at, d, h);
      } else {
        PlainLoop(at, d, h);
      }
    }

    /** The loop with a flag: it is polled before each read, and a false
        reading ends the loop. */
    method PolledLoop(at: seq<string>, d: Node, h: Stream)
      requires flag != null && h.entries == d.children && h.pos <= |d.children|
      modifies os, flag, h
      ensures var o := LoopSpec(Windows, Some(flag.stopAt), at, d, old(h.pos), old(flag.polls));
        os.calls == old(os.calls) + o.calls && flag.polls == o.polls
      decreases d, |d.children| + 1, 0
    {
      ghost var calls0 := os.calls;
      ghost var whole := LoopSpec(Windows, Some(flag.stopAt), at, d, h.pos, flag.polls);
      while true
        invariant h.pos <= |d.children|
        invariant var rest := LoopSpec(Windows, Some(flag.stopAt), at, d, h.pos, flag.polls);
          os.calls + rest.calls == calls0 + whole.calls && rest.polls == whole.polls
        decreases |d.children| - h.pos
      {
        var go := flag.Poll();
        if !go {
          break;
        }
        var e := h.Next();
        if e.None? {
          break;
        }
        RemovePath(at, e.value);
      }
    }

    /** The loop without a flag: the stream is read to its end. */
    method PlainLoop(at: seq<string>, d: Node, h: Stream)
      requires flag == null && h.entries == d.children && h.pos <= |d.children|
      modifies os, flag, h
      ensures os.calls == old(os.calls) + LoopSpec(Windows, None, at, d, old(h.pos), 0).calls
      decreases d, |d.children| + 1, 0
    {
      ghost var calls0 := os.calls;
      ghost var whole := LoopSpec(Windows, None, at, d, h.pos, 0);
      while true
        invariant h.pos <= |d.children|
        invariant os.calls + LoopSpec(Windows, None, at, d, h.pos, 0).calls == calls0 + whole.calls
        decreases |d.children| - h.pos
      {
        var e := h.Next();
        if e.None? {
          break;
        }
        RemovePath(at, e.value);
      }
    }

    /** `removePath`: "." and ".." are skipped; a record with the directory
        attribute is removed recursively, anything else is deleted. */
    method RemovePath(at: seq<string>, n: Node)
      modifies os, flag
      ensures var o := RemovePathSpec(Windows, StopOf(flag), at, n, old(PollsOf(flag)));
        os.calls == old(os.calls) + o.calls && PollsOf(flag) == o.polls
      decreases n, |n.children| + 4
    {
      if ValidName(n.name) {
        if n.kind == Directory {
          RemoveDirectoryAt(at + [n.name], n, RemoveSelf);
        } else {
          os.Unlink(at + [n.name]);
        }
      }
    }
  }
}
