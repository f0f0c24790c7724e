/** The portable directoryManager, used on systems that are neither Linux
    nor Windows: the names are listed once by QDir::entryList when the
    manager is built and read one by one through a counter; removal is
    delegated to QDir::removeRecursively and QFile::remove; nothing can be
    cancelled. */
module PortableManager {
  import opened Entries
  import opened Walk
  import opened Removal

  /** What removeDirectoryContents does with one listed entry: QFile::remove
      on a file, QDir::removeRecursively on anything else. */
  function ContentCall(n: Node): (c: Call)
    ensures c.path == [n.name]
    ensures c.RemoveFile? <==> n.metaOk && n.kind == Regular
    ensures !c.RemoveFile? ==> c.RemoveTree?
  {
    if n.metaOk && n.kind == Regular then RemoveFile([n.name]) else RemoveTree([n.name])
  }

  /** The calls removeDirectoryContents makes for a listing, in order. */
  function ContentsCalls(ns: seq<Node>): (cs: seq<Call>)
    ensures |cs| == |ns|
    ensures forall c :: c in cs ==> c.path != []
  {
    if ns == [] then [] else ContentsCalls(ns[..|ns| - 1]) + [ContentCall(ns[|ns| - 1])]
  }

  /** removeDirectoryContents makes exactly one call per listed entry, on
      that entry, in listing order; in particular it never removes the
      directory itself. */
  lemma {:induction false} ContentsCallsOnePerEntry(ns: seq<Node>)
    ensures |ContentsCalls(ns)| == |ns|
    ensures forall i :: 0 <= i < |ns| ==>
              ContentsCalls(ns)[i] == ContentCall(ns[i]) && ContentsCalls(ns)[i].path == [ns[i].name]
  {
    if ns != [] {
      var init := ns[..|ns| - 1];
      ContentsCallsOnePerEntry(init);
      forall i | 0 <= i < |init| ensures init[i] == ns[i] { }
    }
  }

  class DirectoryManager {
    /** m_path. */
    const path: string
    /** m_list: the names QDir::entryList returned when the manager was
        built, each with what QFileInfo reports for it. */
    const list: seq<Node>
    /** m_counter: how many names `read` has consumed. */
    var counter: nat
    /** m_entries. */
    var entries: DirectoryEntries
    /** Where QFile::remove and QDir::removeRecursively calls go. */
    const os: OsLog

    ghost predicate Valid()
      reads this
    {
      counter <= |list|
    }

    constructor (path: string, list: seq<Node>, os: OsLog)
      ensures Valid() && this.path == path && this.list == list && this.os == os
      ensures counter == 0 && fresh(entries) && entries.View() == Empty
    {
      this.path, this.list, this.os, counter := path, list, os, 0;
      entries := new DirectoryEntries();
    }

    static function SupportsCancel(): (b: bool)
      ensures !b
    {
      false
    }

    /** One `read`: consumes the next listed name, if any, and files it by
        what QFileInfo reports. Returns false only when the list is used up. */
    method Read() returns (more: bool)
      requires Valid()
      modifies this, entries
      ensures Valid() && entries == old(entries)
      ensures more <==> old(counter) < |list|
      ensures more ==> counter == old(counter) + 1 &&
                       entries.View() == Step(Portable, old(entries.View()), list[old(counter)])
      ensures !more ==> counter == old(counter) && entries.View() == old(entries.View())
    {
      if counter < |list| {
        var n := list[counter];
        counter := counter + 1;
        if ValidName(n.name) {
          if n.metaOk && n.kind == Regular {
            entries.AddFile(n.time, n.name);
          } else if n.metaOk && n.kind == Directory {
            entries.AddFolder(n.time, n.name);
          }
        }
        more := true;
      } else {
        more := false;
      }
    }

    /** `readAll`: reads every remaining name and hands over the store as it
        stands, unsorted; the manager is left with an empty store and an
        exhausted counter, so a second call returns nothing. */
    method ReadAll() returns (es: DirectoryEntries)
      requires Valid()
      modifies this, entries
      ensures Valid() && counter == |list|
      ensures es == old(entries) && es.View() == Scan(Portable, old(entries.View()), list[old(counter)..])
      ensures fresh(entries) && entries.View() == Empty
    {
      ghost var c0, l0 := counter, entries.View();
      ghost var rest := list[c0..];
      assert rest[..0] == [];
      while true
        invariant Valid() && entries == old(entries) && c0 <= counter
        invariant entries.View() == Scan(Portable, l0, rest[..counter - c0])
        decreases |list| - counter
      {
        var more := Read();
        if !more {
          break;
        }
        assert list[counter - 1] == rest[counter - 1 - c0];
        ScanExtend(Portable, l0, rest, counter - 1 - c0);
      }
      assert rest[..counter - c0] == rest;
      es := entries;
      entries := new DirectoryEntries();
    }

    /** `removeDirectory`: QDir::removeRecursively on the directory. */
    method RemoveDirectory()
      modifies os
      ensures os.calls == old(os.calls) + [RemoveTree([])]
    {
      os.RemoveRecursively([]);
    }

    /** `removeDirectoryContents` over `current`, the listing QDir::entryList
        returns when it is called. */
    method RemoveDirectoryContents(current: seq<Node>)
      modifies os
      ensures os.calls == old(os.calls) + ContentsCalls(current)
    {
      for i := 0 to |current|
        invariant os.calls == old(os.calls) + ContentsCalls(current[..i])
      {
        var n := current[i];
        if n.metaOk && n.kind == Regular {
          os.Unlink([n.name]);
        } else {
          os.RemoveRecursively([n.name]);
        }
        assert current[..i + 1][..i] == current[..i];
      }
      assert current[..|current|] == current;
    }
  }
}
