/** The POSIX path builder (directoryManager::pathManager): a fixed
    PATH_MAX byte buffer that holds "<base>/" once and has only the suffix
    after the base rewritten for each child name. */
module Paths {
  import opened Utf

  /** PATH_MAX from <limits.h> on Linux. */
  const PATH_MAX: nat := 4096

  const SLASH: byte := 0x2F

  /** The C string a buffer holds: its bytes before the first NUL, or all of
      them when there is none. */
  function CString(b: seq<byte>): (r: seq<byte>)
    ensures |r| <= |b| && r == b[..|r|]
    ensures 0 !in r
    ensures |r| < |b| ==> b[|r|] == 0
  {
    if b == [] || b[0] == 0 then [] else [b[0]] + CString(b[1..])
  }

  /** A NUL right after NUL-free bytes ends the C string there, whatever
      follows. */
  lemma {:induction false} CStringOfTerminated(x: seq<byte>, y: seq<byte>)
    requires 0 !in x
    ensures CString(x + [0] + y) == x
  {
    if x != [] {
      assert (x + [0] + y)[1..] == x[1..] + [0] + y;
      CStringOfTerminated(x[1..], y);
    }
  }

  /** The number of bytes of `data` that std::snprintf copies into `room`
      bytes: all that fit in front of the closing NUL. */
  function Copied(data: seq<byte>, room: nat): (m: nat)
    requires room > 0
    ensures m <= |data| && m < room
    ensures m == |data| || m == room - 1
  {
    if |data| < room then |data| else room - 1
  }

  /** std::snprintf(buf + s, |buf| - s, "%s", data) on a buffer's contents.
      With room left it copies as much of `data` as fits and always writes a
      closing NUL; with no room it writes nothing. */
  function Snprintf(buf: seq<byte>, s: nat, data: seq<byte>): (r: seq<byte>)
    requires s <= |buf| && 0 !in data
    ensures |r| == |buf|
    ensures r[..s] == buf[..s]
    ensures s < |buf| ==> r[s + Copied(data, |buf| - s)] == 0
    ensures s < |buf| ==> r[s..s + Copied(data, |buf| - s)] == data[..Copied(data, |buf| - s)]
    ensures s == |buf| ==> r == buf
  {
    if s == |buf| then buf
    else
      var m := Copied(data, |buf| - s);
      buf[..s] + data[..m] + [0] + buf[s + m + 1..]
  }

  /** Writing a C string after a NUL-free prefix yields, as a C string, the
      prefix followed by the part of the string that fit, always shorter
      than the buffer. */
  lemma SnprintfComposes(buf: seq<byte>, s: nat, data: seq<byte>)
    requires s < |buf|
    requires 0 !in buf[..s] && 0 !in data
    ensures CString(Snprintf(buf, s, data)) == buf[..s] + data[..Copied(data, |buf| - s)]
    ensures |CString(Snprintf(buf, s, data))| < |buf|
  {
    var m := Copied(data, |buf| - s);
    var r := Snprintf(buf, s, data);
    assert r == (buf[..s] + data[..m]) + [0] + r[s + m + 1..];
    CStringOfTerminated(buf[..s] + data[..m], r[s + m + 1..]);
  }

  predicate EndsWithSlash(path: string) {
    |path| > 0 && path[|path| - 1] == '/'
  }

  /** What pathManager::init writes: the base's UTF-8 bytes, followed by a
      '/' unless the base already ends with one. */
  function BasePrefix(path: string): (r: seq<byte>)
    ensures |r| == if EndsWithSlash(path) then |Utf8(path)| else |Utf8(path)| + 1
    ensures |r| > 0 && r[|r| - 1] == SLASH
    ensures r[..|Utf8(path)|] == Utf8(path)
    ensures '\0' !in path ==> 0 !in r
  {
    Utf8HasNoNul(path);
    if EndsWithSlash(path) then
      var n := |path| - 1;
      assert path == path[..n] + [path[n]];
      Utf8Append(path[..n], [path[n]]);
      Utf8(path)
    else Utf8(path) + [SLASH]
  }

  /** The base offset as the source computes it: from QString::size(), which
      counts UTF-16 code units, not the UTF-8 bytes just written. */
  function BaseOffsetAsWritten(path: string): (r: nat)
    ensures 0 < r <= |BasePrefix(path)|
  {
    Utf16LenVersusUtf8(path);
    if EndsWithSlash(path) then Utf16Len(path) else Utf16Len(path) + 1
  }

  /** The offset the source computes never exceeds the length of the prefix
      in the buffer, and equals it exactly when the base is ASCII: for any
      other base, setPath starts writing inside the prefix. */
  lemma BaseOffsetAsWrittenIsExactOnlyForAscii(path: string)
    ensures BaseOffsetAsWritten(path) <= |BasePrefix(path)|
    ensures BaseOffsetAsWritten(path) == |BasePrefix(path)| <==> IsAscii(path)
  {
    Utf16LenVersusUtf8(path);
  }

  /** The path init followed by setPath(name) leaves in the buffer, as the
      source writes it. */
  function ComposeAsWritten(buf0: seq<byte>, path: string, name: seq<byte>): (r: seq<byte>)
    requires |buf0| == PATH_MAX && |Utf8(path)| < PATH_MAX
    requires '\0' !in path && 0 !in name
    ensures 0 !in r && |r| <= PATH_MAX
  {
    CString(Snprintf(Snprintf(buf0, 0, BasePrefix(path)), BaseOffsetAsWritten(path), name))
  }

  /** With the base "é" (two UTF-8 bytes, one UTF-16 unit) the source's
      setPath("a") overwrites the separator: the buffer reads "éa", not
      "é/a", whatever the buffer held before. */
  lemma ComposeAsWrittenDropsSeparator(buf0: seq<byte>)
    requires |buf0| == PATH_MAX
    ensures Utf8("\U{E9}") == [0xC3, 0xA9]
    ensures ComposeAsWritten(buf0, "\U{E9}", [0x61]) == [0xC3, 0xA9, 0x61]
    ensures ComposeAsWritten(buf0, "\U{E9}", [0x61]) != BasePrefix("\U{E9}") + [0x61]
  {
    var prefix := BasePrefix("\U{E9}");
    assert prefix == [0xC3, 0xA9, SLASH];
    var b1 := Snprintf(buf0, 0, prefix);
    assert b1[..3] == prefix;
    SnprintfComposes(b1, 2, [0x61]);
  }

  /** The intended composition: the prefix followed by as much of the name
      as fits, or the truncated prefix alone when no room is left. */
  function Composed(prefix: seq<byte>, name: seq<byte>): seq<byte>
    requires |prefix| <= PATH_MAX
  {
    if |prefix| < PATH_MAX then prefix + name[..Copied(name, PATH_MAX - |prefix|)]
    else prefix[..PATH_MAX - 1]
  }

  /** setPath when the prefix left room: the name goes right after it. */
  lemma ComposeFits(buf: seq<byte>, prefix: seq<byte>, name: seq<byte>)
    requires |buf| == PATH_MAX && |prefix| < PATH_MAX && buf[..|prefix|] == prefix
    requires 0 !in prefix && 0 !in name
    ensures CString(Snprintf(buf, |prefix|, name)) == Composed(prefix, name)
    ensures |Composed(prefix, name)| < PATH_MAX
  {
    SnprintfComposes(buf, |prefix|, name);
  }

  /** setPath when the prefix filled the buffer: nothing is written, and the
      buffer still holds the truncated prefix. */
  lemma ComposeFull(buf: seq<byte>, prefix: seq<byte>, name: seq<byte>)
    requires |buf| == |prefix| == PATH_MAX && 0 !in prefix && 0 !in name
    requires buf[..PATH_MAX - 1] == prefix[..PATH_MAX - 1] && buf[PATH_MAX - 1] == 0
    ensures CString(Snprintf(buf, PATH_MAX, name)) == Composed(prefix, name)
    ensures |Composed(prefix, name)| < PATH_MAX
  {
    assert buf == buf[..PATH_MAX - 1] + [0] + [];
    CStringOfTerminated(buf[..PATH_MAX - 1], []);
  }

  /** With the offset set to the length of the prefix, init followed by
      setPath(name) composes "<base>/<name>", with the name cut short if it
      does not fit, NUL-terminated within the buffer. */
  lemma ComposeWithByteOffset(buf0: seq<byte>, path: string, name: seq<byte>)
    requires |buf0| == PATH_MAX && |BasePrefix(path)| <= PATH_MAX
    requires '\0' !in path && 0 !in name
    ensures CString(Snprintf(Snprintf(buf0, 0, BasePrefix(path)), |BasePrefix(path)|, name))
            == Composed(BasePrefix(path), name)
    ensures |Composed(BasePrefix(path), name)| < PATH_MAX
  {
    var prefix := BasePrefix(path);
    Utf8HasNoNul(path);
    var b1 := Snprintf(buf0, 0, prefix);
    if |prefix| < PATH_MAX {
      assert b1[..|prefix|] == prefix;
      ComposeFits(b1, prefix, name);
    } else {
      assert b1[..PATH_MAX - 1] == prefix[..PATH_MAX - 1];
      ComposeFull(b1, prefix, name);
    }
  }

  /** As long as nothing is truncated, the source's composition is the
      intended "<base>/<name>" exactly when the base is ASCII. */
  lemma ComposeAsWrittenIsRightOnlyForAscii(buf0: seq<byte>, path: string, name: seq<byte>)
    requires |buf0| == PATH_MAX && '\0' !in path && 0 !in name
    requires |BasePrefix(path)| + |name| < PATH_MAX
    ensures ComposeAsWritten(buf0, path, name) == Composed(BasePrefix(path), name) <==> IsAscii(path)
  {
    if IsAscii(path) {
      BaseOffsetAsWrittenIsExactOnlyForAscii(path);
      ComposeWithByteOffset(buf0, path, name);
    } else {
      ComposeAsWrittenIsShortForNonAscii(buf0, path, name);
    }
  }

  /** For a base that is not ASCII the source's composition comes out
      shorter than "<base>/<name>": the name is written over the end of the
      prefix. */
  lemma ComposeAsWrittenIsShortForNonAscii(buf0: seq<byte>, path: string, name: seq<byte>)
    requires |buf0| == PATH_MAX && '\0' !in path && 0 !in name && !IsAscii(path)
    requires |BasePrefix(path)| + |name| < PATH_MAX
    ensures |ComposeAsWritten(buf0, path, name)| == BaseOffsetAsWritten(path) + |name|
    ensures |ComposeAsWritten(buf0, path, name)| < |Composed(BasePrefix(path), name)|
  {
    var prefix, off := BasePrefix(path), BaseOffsetAsWritten(path);
    BaseOffsetAsWrittenIsExactOnlyForAscii(path);
    var b1 := Snprintf(buf0, 0, prefix);
    assert b1[..off] == prefix[..off];
    SnprintfComposes(b1, off, name);
    assert Copied(name, PATH_MAX - off) == |name|;
  }

  /** The buffer and its remembered base offset. The offset is the byte
      length of the prefix, as `BaseOffsetAsWritten` shows the source does
      not compute it. */
  class PathManager {
    const buffer: array<byte>
    var basePathLocation: nat
    ghost var prefix: seq<byte>

    ghost predicate Valid()
      reads this, buffer
    {
      buffer.Length == PATH_MAX && basePathLocation == |prefix| <= PATH_MAX && 0 !in prefix &&
      (basePathLocation < PATH_MAX ==> buffer[..basePathLocation] == prefix) &&
      (basePathLocation == PATH_MAX ==>
         buffer[..PATH_MAX - 1] == prefix[..PATH_MAX - 1] && buffer[PATH_MAX - 1] == 0)
    }

    /** The C string the buffer holds (pathManager::path). */
    function Path(): (p: seq<byte>)
      reads this, buffer
      ensures 0 !in p && |p| <= buffer.Length
      ensures |p| < buffer.Length ==> buffer[|p|] == 0
    {
      CString(buffer[..])
    }

    constructor (path: string)
      requires '\0' !in path && |BasePrefix(path)| <= PATH_MAX
      ensures Valid() && fresh(buffer)
      ensures prefix == BasePrefix(path) && basePathLocation == |BasePrefix(path)|
      ensures Path() == Composed(prefix, [])
    {
      buffer := new byte[PATH_MAX];
      basePathLocation, prefix := 0, [];
      new;
      Init(path);
    }

    /** pathManager::init. */
    method Init(path: string)
      requires buffer.Length == PATH_MAX
      requires '\0' !in path && |BasePrefix(path)| <= PATH_MAX
      modifies this, buffer
      ensures Valid()
      ensures prefix == BasePrefix(path) && basePathLocation == |BasePrefix(path)|
      ensures Path() == Composed(prefix, [])
    {
      var bytes := BasePrefix(path);
      Utf8HasNoNul(path);
      ghost var b0 := buffer[..];
      Append(0, bytes);
      basePathLocation, prefix := |bytes|, bytes;
      SnprintfComposes(b0, 0, bytes);
      ComposeWithByteOffset(buffer[..], path, []);
    }

    /** pathManager::append: std::snprintf into the buffer at offset `s`. */
    method Append(s: nat, data: seq<byte>)
      requires buffer.Length == PATH_MAX && s <= PATH_MAX && 0 !in data
      modifies buffer
      ensures buffer[..] == Snprintf(old(buffer[..]), s, data)
    {
      var r := Snprintf(buffer[..], s, data);
      forall i | 0 <= i < buffer.Length {
        buffer[i] := r[i];
      }
    }

    /** pathManager::setPath: rewrites only what follows the base and returns
        the composed path. */
    method SetPath(name: seq<byte>) returns (p: seq<byte>)
      requires Valid() && 0 !in name
      modifies buffer
      ensures Valid()
      ensures var kept := if basePathLocation < PATH_MAX then basePathLocation else PATH_MAX - 1;
        buffer[..kept] == old(buffer[..kept])
      ensures p == Path() == Composed(prefix, name)
      ensures |p| < PATH_MAX
    {
      ghost var b0 := buffer[..];
      Append(basePathLocation, name);
      if basePathLocation < PATH_MAX {
        ComposeFits(b0, prefix, name);
      } else {
        ComposeFull(b0, prefix, name);
      }
      p := CString(buffer[..]);
    }
  }
}
