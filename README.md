# Directory entries and directory managers of media-downloader, in Dafny

This project models `src/directoryEntries.h` of media-downloader. That file
is the small back end the application uses to list one directory and to
delete directory trees.

- `directoryEntries` is the scan result store. It holds two
  insertion-ordered lists, folders and files. Each entry is a creation time
  and a name. The lists can be sorted newest first and read through
  `iter` cursors.
- `directoryManager` comes in three variants, selected at compile time:
  - Linux: `opendir`/`readdir`/`stat`, with a fixed `PATH_MAX` path buffer
    (`pathManager`).
  - Windows: `FindFirstFileW`/`FindNextFileW` on long-form `\\?\` paths.
  - Portable: `QDir::entryList` with `QFileInfo`.

  Each variant can read a directory into a store, empty a directory, or
  remove it. The Linux and Windows variants poll a shared continue-flag
  between steps.

Modules:

- `Entries`: the store as a class with `seq` fields, and the cursor as a
  class. Sorting is specified by sortedness plus permutation.
- `Paths`: the Linux path builder. It is a class over an `array<byte>` of
  `PATH_MAX` bytes, with `snprintf` modelled byte by byte.
- `Utf`: UTF-8 encoding and UTF-16 length, used by the path builder.
- `Cancel`: the continue-flag, as seen by the scanning thread. Polls are
  counted, and every poll from index `stopAt` on reads false, so the flag
  only ever changes from "continue" to "stop".
- `Walk`: a directory as the stream of records it yields (name, type,
  time, whether the metadata query succeeded, and the record's own
  subtree). Also the per-platform classification of one record and the
  specification of a scan.
- `Removal`: the recursive removal walk as the sequence of removal calls
  it makes, on paths written as lists of names below the managed
  directory. Also the lemmas about that walk.
- `PosixManager`, `WindowsManager`, `PortableManager`: the three
  `directoryManager` classes. Their loops and recursive methods are proved
  equal to the `Walk` and `Removal` specifications.

The code decides the following behaviour, and the model follows it:

- The portable `readAll` does not sort. It returns the store in listing
  order. It also moves its store out, so a second call returns nothing.
- On Windows, the record that comes with a new find handle is added, or
  removed, before the flag is first polled. A cancelled Windows walk
  therefore still handles one record per directory it opens.
- On Windows, every record without the directory attribute is treated as a
  file. The POSIX "neither file nor directory" case does not exist there.
- A cancelled Linux or Windows removal still runs each opened directory's
  finishing action. `removeDirectory` therefore calls `rmdir` on a directory
  that may not be empty. That call fails harmlessly.

## Model

| member | source | states |
|---|---|---|
| Entries.DirectoryEntries.constructor | src/directoryEntries.h:41-56 | a new store has both lists empty |
| Entries.DirectoryEntries.Clear | src/directoryEntries.h:62-66 | both lists are empty afterwards |
| Entries.DirectoryEntries.Sort | src/directoryEntries.h:67-78 | each list becomes non-increasing by creation time and is a permutation of what it held (no entry moves between files and folders); the order of equal times is left open, as `std::sort` leaves it |
| Entries.SortByDate | src/directoryEntries.h:67-78 | one order `sort` may produce: sorted newest first and a permutation of its input |
| Entries.Insert | src/directoryEntries.h:67-78 | inserting into a sorted list keeps it sorted and adds exactly that entry |
| Entries.SortedPermutationsAgreeOnDates | src/directoryEntries.h:67-78 | sorting is idempotent up to ties: any two sorted permutations of the same entries have the same sequence of creation times |
| Entries.NonIncreasingUnique | src/directoryEntries.h:67-78 | two non-increasing sequences of times with the same elements are equal, so the times of a sorted list are fixed by its contents |
| Entries.DirectoryEntries.AddFile | src/directoryEntries.h:79-82 | appends exactly one entry (time, name) at the end of the files list; the folders list is unchanged |
| Entries.DirectoryEntries.AddFolder | src/directoryEntries.h:83-86 | appends exactly one entry at the end of the folders list; the files list is unchanged |
| Entries.ValidName | src/directoryEntries.h:273 | a name is rejected exactly when it is one or two characters long and made of dots, that is "." or ".."; the same test guards reading and removal at :300, :445, :502 and :587 |
| Entries.Iter.constructor | src/directoryEntries.h:94-97 | a cursor refers to one list of one store, at position 0 |
| Entries.Iter.Remaining | src/directoryEntries.h:98-118 | the names ahead of the cursor, read through the reference to the store |
| Entries.Iter.HasNext | src/directoryEntries.h:98-101 | true exactly when names remain ahead of the cursor (position below the list's size) |
| Entries.Iter.Value | src/directoryEntries.h:102-105 | the first remaining name, without moving |
| Entries.Iter.ValueWithNext | src/directoryEntries.h:106-109 | returns the name at the position and advances by exactly one: that name followed by the new remaining names is the old remaining names |
| Entries.Iter.Next | src/directoryEntries.h:110-115 | returns a new cursor one step further on the same list; the receiver is unchanged |
| Entries.EmptyStoreHasNoNext | src/directoryEntries.h:98-101 | over an empty list a cursor has no next element at once |
| Entries.DirectoryEntries.DirectoryIter | src/directoryEntries.h:121-124 | a fresh cursor over the folders at position 0 |
| Entries.DirectoryEntries.FileIter | src/directoryEntries.h:125-128 | a fresh cursor over the files at position 0 |
| Utf.CharUtf8 | src/directoryEntries.h:216-226 | a character's UTF-8 bytes (as `QString::toUtf8` writes them): 1 to 4 bytes, one exactly for ASCII, every byte of a non-ASCII character at least 0x80 |
| Utf.Utf8 | src/directoryEntries.h:216-226 | `QString::toUtf8`: one to four bytes per character, exactly one per character for an ASCII string |
| Utf.Utf16Len | src/directoryEntries.h:221-224 | the count of UTF-16 units that `QString::size()` returns is at least the number of characters and at most twice it |
| Utf.Utf8Append | src/directoryEntries.h:216-226 | UTF-8 encoding distributes over concatenation |
| Utf.Utf8HasNoNul | src/directoryEntries.h:216-226 | a string without NUL encodes to bytes without NUL, so the buffer's C string holds all of it |
| Utf.Utf16LenVersusUtf8 | src/directoryEntries.h:221-224 | `QString::size()` (UTF-16 units) never exceeds the UTF-8 byte count, and equals it exactly for ASCII strings |
| Paths.CString | src/directoryEntries.h:211-214 | the path a `char` buffer denotes: its bytes up to the first NUL |
| Paths.CStringOfTerminated | src/directoryEntries.h:211-214 | a NUL right after NUL-free bytes ends the C string there, whatever follows |
| Paths.PathManager.Path | src/directoryEntries.h:211-214 | `path()`: the NUL-free bytes of the buffer before its first NUL, at most `PATH_MAX` |
| Paths.Snprintf | src/directoryEntries.h:227-230 | `snprintf(buf+s, size-s, "%s", data)`: bytes before `s` kept, as much of `data` as fits copied, always NUL-terminated when room is left, nothing written when none is |
| Paths.SnprintfComposes | src/directoryEntries.h:227-230 | after such a write the buffer's C string is the kept prefix followed by the copied part of `data`, shorter than the buffer |
| Paths.BasePrefix | src/directoryEntries.h:216-226 | `init` writes the base's UTF-8 bytes, followed by '/' unless the base already ends with one, and the result holds no NUL when the base holds none |
| Paths.BaseOffsetAsWrittenIsExactOnlyForAscii | src/directoryEntries.h:221-224 | the offset `init` records never exceeds the prefix's byte length and equals it only for an ASCII base |
| Paths.BaseOffsetAsWritten | src/directoryEntries.h:221-224 | the offset `init` stores, from `path.size()` plus one for an added '/': positive and never beyond the prefix just written |
| Paths.ComposeAsWritten | src/directoryEntries.h:205-230 | the C string `init` then `setPath(name)` leave in the buffer with the source's offset: NUL-free and at most `PATH_MAX` bytes |
| Paths.ComposeAsWrittenIsRightOnlyForAscii | src/directoryEntries.h:216-230 | when nothing is truncated, the source's composition equals "<base>/<name>" exactly when the base is ASCII |
| Paths.ComposeAsWrittenIsShortForNonAscii | src/directoryEntries.h:216-230 | for a base that is not ASCII the source's composition is the source's offset plus the name long, shorter than "<base>/<name>" |
| Paths.ComposeAsWrittenDropsSeparator | src/directoryEntries.h:216-230 | with the base "é", `setPath("a")` as written yields the bytes of "éa", not "é/a" |
| Paths.ComposeWithByteOffset | src/directoryEntries.h:205-230 | with the offset set to the prefix's byte length, `init` then `setPath(name)` gives "<base>/<name>", the name truncated if it does not fit, NUL-terminated within `PATH_MAX` |
| Paths.ComposeFits | src/directoryEntries.h:205-210 | when the prefix left room, `setPath` yields the prefix followed by the part of the name that fits, shorter than `PATH_MAX` |
| Paths.ComposeFull | src/directoryEntries.h:205-210 | when the prefix filled the buffer, `setPath` writes nothing and the path is the prefix cut to `PATH_MAX - 1` bytes |
| Paths.PathManager.constructor | src/directoryEntries.h:197-204 | the buffer holds the base followed by '/' unless it already ends with one, cut to fit (`Path() == Composed(prefix, [])`); the offset is the byte length of that prefix, the corrected offset of Findings (the source stores `path.size()`) |
| Paths.PathManager.Init | src/directoryEntries.h:216-226 | as the constructor, on an existing buffer, with the corrected byte offset of Findings |
| Paths.PathManager.Append | src/directoryEntries.h:227-230 | the buffer becomes `Snprintf` of its old contents |
| Paths.PathManager.SetPath | src/directoryEntries.h:205-210 | leaves the bytes before the offset unchanged and returns, as the buffer now holds it, the prefix followed by the part of the name that fits, shorter than `PATH_MAX` |
| Cancel.CancelFlag.Poll | src/directoryEntries.h:171-173 | a read of `*m_continue`: true exactly while the stop point has not been reached; once false, every later read is false |
| Walk.Stream.Next | src/directoryEntries.h:292-296 | `readdir`/`FindNextFileW`: yields the next record and advances by one, or reports the end without moving |
| Walk.Classify | src/directoryEntries.h:300-316 | where a record goes, for the Linux `read` (and the Windows `add` at 498-516, the portable `read` at 581-607): to folders exactly when its name is not "." or "..", it is a directory and, off Windows, its metadata query succeeded; to files exactly when its name is valid and it is a regular file (on Windows: anything but a directory); the entry carries the record's time and name |
| Walk.Step | src/directoryEntries.h:292-321 | one `read` on the store: the lists only grow, by at most one entry in all |
| Walk.Scan | src/directoryEntries.h:171-176 | the store after reading records in order: the lists only grow |
| Walk.ScanMembers | src/directoryEntries.h:292-321 | an entry is in the scanned files (folders) exactly when the store already held it or some stream record was classified as that file (folder): nothing is added that the stream did not yield, and every regular file and directory it yields is added to its own list |
| Walk.ScanFileMembers | src/directoryEntries.h:292-321 | the files half of `ScanMembers`, by induction over the stream |
| Walk.ScanFolderMembers | src/directoryEntries.h:292-321 | the folders half of `ScanMembers`, by induction over the stream |
| Walk.ScanAddsOnlyValidNames | src/directoryEntries.h:300-312 | every scanned entry carries the name and time of a stream record, and "." and ".." never enter a store |
| Walk.ScanSize | src/directoryEntries.h:292-321 | a scan adds at most one entry per record |
| Walk.ScanPathsFromStream | src/directoryEntries.h:292-321 | every scanned name is the name of some stream record |
| Walk.ScanKeepsPathsApart | src/directoryEntries.h:292-321 | with the distinct names of a real directory, no name is listed twice and none is both a file and a folder |
| Walk.InsertKeepsPathsDistinct | src/directoryEntries.h:79-86 | appending an entry with a new name keeps names distinct |
| Walk.Consumed | src/directoryEntries.h:171-176 | how many records a `while (flag && read())` loop consumes: all of them with no flag, none when the flag already reads false, never more than the stream holds |
| Removal.RemovePathStaysBelow | src/directoryEntries.h:271-291 | every call `removePath` makes is at or below `path + [name]`, and so strictly below `path`, reached only through names other than "." and ".." |
| Removal.Dispose | src/directoryEntries.h:271-291 | what `removePath` does with a record (and on Windows at 443-456): it unlinks exactly the records a read files as files and recurses into exactly those it files as folders, and ignores "." and ".." |
| Removal.Opened | src/directoryEntries.h:234-239 | a walk gets a handle only on a directory that opens; on Windows the handle also comes with a first record (457-462) |
| Removal.FinishCalls | src/directoryEntries.h:186-192 | the finishing lambda makes no call for `removeDirectoryContents` and exactly one rmdir of the directory itself otherwise, as the lambdas at :187, :191 and :287 do |
| Removal.RemoveDirectorySpec | src/directoryEntries.h:234-270 | the private `removeDirectory`: nothing for a directory that does not open; polls never decrease, and without a flag none are made |
| Removal.DirBody | src/directoryEntries.h:457-497 | the walk over an opened directory, the Windows first record first: polls never decrease, none without a flag, and on Linux with a flag at least one |
| Removal.LoopSpec | src/directoryEntries.h:241-266 | the `while` loops from a stream position: with a flag it polls at least once, without one never |
| Removal.RemovePathSpec | src/directoryEntries.h:271-291 | `removePath` on one record: only a recursion polls, and none without a flag |
| Removal.DirStaysBelow | src/directoryEntries.h:234-270 | every call but the last is strictly inside the directory through valid names; the last is removal of the directory itself exactly when the finishing action is `rmdir` and the directory opened |
| Removal.DirBodyStaysBelow | src/directoryEntries.h:457-497 | the walk over an opened directory's stream, including the Windows first record, stays strictly inside it |
| Removal.LoopStaysBelow | src/directoryEntries.h:241-266 | the loop from a stream position touches only entries at or after that position |
| Removal.ContentsSparesRoot | src/directoryEntries.h:185-188 | `removeDirectoryContents` never removes the managed directory itself |
| Removal.RemoveDirectoryIsPostOrder | src/directoryEntries.h:234-291 | removal is post-order: after a directory is removed, no later call touches anything inside it |
| Removal.DirBodyIsPostOrder | src/directoryEntries.h:457-497 | the same for the walk over one opened directory's stream |
| Removal.LoopIsPostOrder | src/directoryEntries.h:241-266 | the same for the loop from a stream position |
| Removal.RemovePathIsPostOrder | src/directoryEntries.h:271-291 | the same for one entry |
| Removal.PostOrderedConcat | src/directoryEntries.h:241-266 | two post-ordered call sequences stay post-ordered when no removal in the first contains a path of the second |
| Removal.SiblingsDoNotNest | src/directoryEntries.h:241-266 | calls under two different entries of one directory never nest |
| Removal.RemoveDirectoryPaysForRemovals | src/directoryEntries.h:241-253 | on Linux the number of files a walk unlinks is at most the number of its polls that read "continue". This bounds the number of unlinks; it does not order them against the polls. The case where the flag already reads false is `CancelledWalkOnlyFinishes` |
| Removal.RemovePathPaysForRemovals | src/directoryEntries.h:271-291 | per entry: an unlink costs no poll, a recursion pays for its files with its own polls |
| Removal.LoopPaysForRemovals | src/directoryEntries.h:241-253 | per loop: the files unlinked are at most the polls that read "continue", and the loop polls at least once |
| Removal.FileRemovalsConcat | src/directoryEntries.h:241-253 | unlink counts add up over concatenated call sequences |
| Removal.CancelledWalkOnlyFinishes | src/directoryEntries.h:241-268 | a Linux walk that finds the flag already false removes nothing inside the directory, but still runs the finishing action |
| Removal.WindowsCancelledWalkRemovesFirstRecord | src/directoryEntries.h:462-495 | on Windows the record that comes with the handle is removed even when the flag already reads false |
| Removal.NoFlagHandlesEveryEntry | src/directoryEntries.h:254-266 | on POSIX and on Windows, the loop without a flag, from any stream position on, unlinks every record `removePath` would unlink and removes every subdirectory that opens |
| Removal.NoFlagBodyHandlesEveryEntry | src/directoryEntries.h:462-493 | on Windows (and POSIX), the body without a flag handles every record: the one `FindFirstFileW` returns and those the loop at :481-493 reads are each unlinked, or removed when they are directories that open |
| Removal.ExampleTreeContents | src/directoryEntries.h:185-188 | emptying root/{a.txt, sub/{b.txt}} unlinks a.txt, then sub/b.txt, then removes sub, and leaves the root |
| Removal.OsLog.Unlink | src/directoryEntries.h:283 | records one file removal |
| Removal.OsLog.Rmdir | src/directoryEntries.h:287 | records one directory removal |
| Removal.OsLog.RemoveRecursively | src/directoryEntries.h:544-547 | records one tree removal |
| PosixManager.DirectoryManager.constructor | src/directoryEntries.h:144-156 | keeps the path and the flag (or none), and the two directories the manager opens agree (`RootsAgree`): the walk's "<base>/" names `root` for every non-empty path, and opendir("") fails |
| PosixManager.DirectoryManager.SupportsCancel | src/directoryEntries.h:157-160 | true |
| PosixManager.DirectoryManager.Read | src/directoryEntries.h:292-321 | consumes exactly one record and returns false only at the end of the stream; the store changes by that record's classification: "." and "..", a failed `stat`, and types other than regular file and directory change nothing; the path buffer stays valid |
| PosixManager.DirectoryManager.File | src/directoryEntries.h:298-316 | "." and ".." change nothing; otherwise the path buffer is set to the composed "<base>/<name>" (the base kept unchanged) and a successful `stat` files a regular file or a directory with its time, anything else is ignored; the path buffer stays valid |
| PosixManager.DirectoryManager.ReadAll | src/directoryEntries.h:161-184 | an empty store when `opendir` fails; otherwise the entries read before the flag reads false or the stream ends, each list sorted newest first and a permutation of the scan; the flag is polled once more than the records read |
| PosixManager.DirectoryManager.ReadLoop | src/directoryEntries.h:171-176 | the store after the loops is the scan of exactly the records consumed, none once the flag reads false, all of them without a flag |
| PosixManager.DirectoryManager.RemoveDirectoryContents | src/directoryEntries.h:185-188 | makes exactly the calls and polls of the walk, with the no-op finish, over `walkRoot`: the directory the path buffer "<base>/" names, which is `root` for every non-empty path and "/" for the empty one |
| PosixManager.DirectoryManager.RemoveDirectory | src/directoryEntries.h:189-192 | makes exactly the calls and polls of the walk over `walkRoot` (as for RemoveDirectoryContents), followed by `rmdir` of m_path |
| PosixManager.EmptyPathWalksSlash | src/directoryEntries.h:216-237 | for the empty path `readAll`'s directory does not open, yet the walk's buffer holds "/" and the walk over a root holding the file "x" unlinks it |
| PosixManager.DirectoryManager.RemoveDirectoryAt | src/directoryEntries.h:234-270 | the two loops and the finishing action make exactly the calls and polls of `RemoveDirectorySpec` |
| PosixManager.DirectoryManager.RemoveLoop | src/directoryEntries.h:241-266 | the two loops make exactly the calls and polls of `LoopSpec` from the stream's position |
| PosixManager.DirectoryManager.PolledLoop | src/directoryEntries.h:243-253 | the loop with a flag: exactly the calls and polls of `LoopSpec` |
| PosixManager.DirectoryManager.PlainLoop | src/directoryEntries.h:254-266 | the loop without a flag: exactly the calls of `LoopSpec` |
| PosixManager.DirectoryManager.RemovePath | src/directoryEntries.h:271-291 | skips "." and ".."; unlinks a regular file, recurses into a directory, ignores anything else or a failed `stat` |
| WindowsManager.NativeSeparators | src/directoryEntries.h:402 | `QDir::toNativeSeparators`: same length, every '/' becomes '\\', every other character is kept |
| WindowsManager.LongPath | src/directoryEntries.h:400-404 | the result starts with `\\?\` and has no '/'; it ends with the input with its separators converted, and the prefix is added only when absent |
| WindowsManager.LongPathIdempotent | src/directoryEntries.h:400-404 | converting a converted path changes nothing |
| WindowsManager.LongPathMissesForwardSlashForm | src/directoryEntries.h:402 | the prefix test runs before separators are converted, so "//?/C:" gets a second prefix |
| WindowsManager.FindPattern | src/directoryEntries.h:408-417 | the search pattern extends the path and ends in `\*`; it is one character longer than the path when the path ends in '\' and two longer otherwise, so a separator is added only when missing |
| WindowsManager.FindPatternIgnoresTrailingSeparator | src/directoryEntries.h:410-415 | a path and the same path with a trailing '\' give the same pattern |
| WindowsManager.DirectoryManager.constructor | src/directoryEntries.h:335-347 | keeps the path in long-path form |
| WindowsManager.DirectoryManager.SupportsCancel | src/directoryEntries.h:348-351 | true |
| WindowsManager.DirectoryManager.Add | src/directoryEntries.h:498-516 | "." and ".." change nothing; a record with the directory attribute becomes a folder, any other a file, with its creation time |
| WindowsManager.DirectoryManager.Read | src/directoryEntries.h:362-372 | consumes exactly one record and returns false only at the end of the stream, adding the record as `add` does |
| WindowsManager.DirectoryManager.ReadAll | src/directoryEntries.h:360-395 | an empty store when no handle is obtained; otherwise the first record plus those read before the flag reads false or the stream ends, each list sorted newest first |
| WindowsManager.DirectoryManager.ReadHandle | src/directoryEntries.h:380-387 | the record that comes with the handle, then the loops: the store is the scan of the first record and the ones consumed after it |
| WindowsManager.DirectoryManager.ReadLoop | src/directoryEntries.h:382-387 | the store after the loops is the scan of exactly the records consumed after the first |
| WindowsManager.DirectoryManager.RemoveDirectoryContents | src/directoryEntries.h:352-355 | makes exactly the calls of the walk with the no-op finish |
| WindowsManager.DirectoryManager.RemoveDirectory | src/directoryEntries.h:356-359 | makes exactly the calls of the walk followed by `RemoveDirectoryW` of the directory |
| WindowsManager.DirectoryManager.RemoveDirectoryAt | src/directoryEntries.h:457-497 | removes the handle's first record, runs the loops, then the finishing action: exactly the calls and polls of `RemoveDirectorySpec` |
| WindowsManager.DirectoryManager.RemoveBody | src/directoryEntries.h:464-493 | removes the handle's first record, then runs the loops: exactly the calls and polls of `DirBody` |
| WindowsManager.DirectoryManager.RemoveLoop | src/directoryEntries.h:468-493 | the two loops make exactly the calls and polls of `LoopSpec` |
| WindowsManager.DirectoryManager.PolledLoop | src/directoryEntries.h:468-480 | the loop with a flag: exactly the calls and polls of `LoopSpec` |
| WindowsManager.DirectoryManager.PlainLoop | src/directoryEntries.h:481-493 | the loop without a flag: exactly the calls of `LoopSpec` |
| WindowsManager.DirectoryManager.RemovePath | src/directoryEntries.h:443-456 | skips "." and ".."; recurses into a record with the directory attribute and deletes any other |
| PortableManager.ContentsCallsOnePerEntry | src/directoryEntries.h:548-569 | `removeDirectoryContents` makes exactly one call per listed entry, on that entry, in listing order: `QFile::remove` for a file, `removeRecursively` otherwise; the directory itself is never touched |
| PortableManager.ContentCall | src/directoryEntries.h:556-568 | the call for one listed entry is on that entry: `QFile::remove` exactly when `isFile()`, `removeRecursively` otherwise |
| PortableManager.ContentsCalls | src/directoryEntries.h:554-568 | one call per listed entry, none on the directory itself |
| PortableManager.DirectoryManager.constructor | src/directoryEntries.h:531-543 | the listing is taken once, the counter is 0 and the store is empty |
| PortableManager.DirectoryManager.SupportsCancel | src/directoryEntries.h:570-573 | false |
| PortableManager.DirectoryManager.Read | src/directoryEntries.h:581-607 | consumes exactly the next listed name and returns false only when the list is used up; the store changes by that name's classification |
| PortableManager.DirectoryManager.ReadAll | src/directoryEntries.h:574-579 | returns the store holding the scan of every remaining name, unsorted, and leaves the manager with an empty store and an exhausted counter |
| PortableManager.DirectoryManager.RemoveDirectory | src/directoryEntries.h:544-547 | one `removeRecursively` of the directory |
| PortableManager.DirectoryManager.RemoveDirectoryContents | src/directoryEntries.h:548-569 | makes exactly the calls `ContentsCalls` lists for the current listing |

## Left out

- The operating system calls are not modelled. `opendir`, `readdir`,
  `stat`, `FindFirstFileW`, `FindNextFileW`, `QDir::entryList` and
  `QFileInfo` become a fixed tree of records that the model reads. `unlink`,
  `rmdir`, `DeleteFileW`, `RemoveDirectoryW`, `QFile::remove` and
  `removeRecursively` become entries in a call log. The tree does not change
  during a walk, and the results of removal calls are ignored, as the
  source ignores them.
- Handle release (`unique_rsc`, `closedir`, `FindClose`) is resource
  plumbing and is not modelled. The header of `unique_rsc` is not part of
  this model.
- The flag's cross-thread atomic semantics are not modelled. The flag is
  the schedule of values the scanning thread reads.
- The constructors set the flag to "continue" (src/directoryEntries.h:150
  and 341). The model does not reset anything: the schedule it is given
  is what is read after construction.
- The bodies of `valid(...)` are not part of this model: they are only
  declared (src/directoryEntries.h:58-61). The name filter is the one the
  inline checks at src/directoryEntries.h:273 and 445 apply: it rejects
  exactly "." and "..".
- The default `iter` constructor (src/directoryEntries.h:91-93) is not
  modelled. It has no list, so using it dereferences a null pointer. Every
  modelled cursor refers to a store.
- Entries.Iter.Value requires a remaining name. Reading past the end is
  undefined in the source.
- Entries.Iter.ValueWithNext requires a remaining name, for the same
  reason.
- Timestamps are plain integers. This leaves out `st_ctime`, the
  `FILETIME` to `LARGE_INTEGER` packing, `birthTime`/`created`, and the
  64-bit width. Nothing does arithmetic on them.
- Text conversions are left out: `QString::fromWCharArray`,
  `toStdWString`, `QDir::fromNativeSeparators` on names, and the UTF-8
  conversion of names outside the path builder. Names are kept as strings.
- Removal paths are lists of names. The removal walk does not go through
  the byte buffer of `pathManager`, so it uses the intended composition
  "<dir>/<name>". The truncation at `PATH_MAX` and the offset fault
  described under Findings are modelled only in `Paths`. The Windows
  string `w + '\' + name` is not built either.
- The Windows find pattern is a separate function. Handles are modelled
  as streams over a directory's records, not opened from that pattern.
- The `QDir::Filters` constructor argument is not modelled. The Linux and
  Windows variants ignore it. In the portable variant, the listing the
  model is given is taken to be what `entryList` returns with those
  filters.
- The portable variant builds paths as `m_path + "/" + name`. The model
  does not build them.
- After `std::move`, the portable variant's store is left in a
  moved-from state. The model takes that state to be empty.
- PosixManager.DirectoryManager.ReadAll requires, only when the directory
  opens, that the path and the names hold no NUL and that the base with its
  '/' fits in `PATH_MAX` bytes. `readAll` calls `opendir` before it builds
  the path buffer (src/directoryEntries.h:163-169), and Linux refuses a
  path that long, so the source returns an empty store there and the model
  does the same. A path with an embedded NUL is left out: `opendir` opens
  the part before the NUL, and `init` writes that part without the '/'
  while its offset counts the whole string.
- The removal walk builds the path buffer before `opendir`
  (src/directoryEntries.h:235-237). When the offset `init` stores,
  `path.size()` in UTF-16 units plus the added '/', exceeds `PATH_MAX`,
  `setPath` computes `size - s` below zero (src/directoryEntries.h:205-207
  and 229) and `snprintf` writes past the buffer; `init`'s own write at
  offset 0 never does. The model's removal walk names each path by its list of
  components and does not use the byte buffer, so it does not model that
  overflow.
- PosixManager.DirectoryManager.RemoveDirectoryContents and
  PosixManager.DirectoryManager.RemoveDirectory walk `walkRoot`, which for
  the empty path is "/" (the buffer `init` builds), while `readAll` finds
  nothing there. The model's call paths are then relative to "/", and the
  finishing `RemoveDir([])` of RemoveDirectory stands for `rmdir("")`,
  which fails. The model logs calls, not whether they succeed.
- Symbolic links are followed, and the model does not show it. `stat`
  (src/directoryEntries.h:279 and 304) follows links, so on Linux a link to
  a directory is read as a folder and removed by walking through it; the
  attribute test at src/directoryEntries.h:449 does the same for Windows
  junctions. A record tree can show a link to a directory only as a copy
  of it, never a link back to an ancestor. Removal.Below and the
  StaysBelow lemmas are about path names only, not about the files those
  paths reach.
- Removal.RemoveDirectoryPaysForRemovals bounds the number of unlinks by
  the number of polls that read "continue"; it does not say in what order
  they happen. Only the case of a flag that already reads false is proved
  as an ordering, in Removal.CancelledWalkOnlyFinishes.
- Removal.RemoveDirectoryPaysForRemovals is stated for Linux only. On
  Windows each opened directory's first record is removed without a poll,
  as Removal.WindowsCancelledWalkRemovesFirstRecord shows.

## Findings

| source | as written | input that shows it | evidently intended | confidence | as-written member | corrected member |
|---|---|---|---|---|---|---|
| src/directoryEntries.h:216-226 | `init` sets `m_basePathLocation` from `path.size()`, a count of UTF-16 code units, but the buffer holds the path's UTF-8 bytes | base directory "é" (2 UTF-8 bytes, 1 UTF-16 unit) and child "a": `setPath` writes at byte 2, over the '/', and yields "éa" instead of "é/a", so `stat`, `unlink` and the recursive walk act on a sibling path | the offset is the byte length of the prefix written, so every child path is "<base>/<name>" | high; not executed | Paths.ComposeAsWrittenDropsSeparator | Paths.PathManager.Init, Paths.PathManager.SetPath |
