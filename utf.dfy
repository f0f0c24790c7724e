/** Text encodings the path code relies on: Qt's QString::toUtf8() produces
    UTF-8 bytes, while QString::size() counts UTF-16 code units. Dafny's
    `char` is a Unicode scalar value, so a `string` stands for a QString. */
module Utf {
  newtype byte = x: int | 0 <= x < 256

  /** True when every character is 7-bit ASCII. */
  predicate IsAscii(s: string) {
    forall i :: 0 <= i < |s| ==> (s[i] as int) < 0x80
  }

  /** The UTF-8 encoding of one scalar value (RFC 3629, section 3). */
  function CharUtf8(c: char): (r: seq<byte>)
    ensures 1 <= |r| <= 4
    ensures |r| == 1 <==> (c as int) < 0x80
    ensures |r| == 4 <==> (c as int) >= 0x10000
    ensures (c as int) < 0x80 ==> r[0] as int == c as int
    ensures (c as int) >= 0x80 ==> forall k :: 0 <= k < |r| ==> r[k] >= 0x80
  {
    var cp := c as int;
    if cp < 0x80 then [cp as byte]
    else if cp < 0x800 then [(0xC0 + cp / 64) as byte, (0x80 + cp % 64) as byte]
    else if cp < 0x10000 then
      [(0xE0 + cp / 4096) as byte, (0x80 + (cp / 64) % 64) as byte, (0x80 + cp % 64) as byte]
    else
      [(0xF0 + cp / 262144) as byte, (0x80 + (cp / 4096) % 64) as byte,
       (0x80 + (cp / 64) % 64) as byte, (0x80 + cp % 64) as byte]
  }

  /** QString::toUtf8(). */
  function Utf8(s: string): (r: seq<byte>)
    ensures |s| <= |r| <= 4 * |s|
    ensures IsAscii(s) ==> |r| == |s|
  {
    if s == [] then [] else CharUtf8(s[0]) + Utf8(s[1..])
  }

  /** The number of UTF-16 code units of one scalar value. */
  function CharUtf16Len(c: char): nat {
    if (c as int) < 0x10000 then 1 else 2
  }

  /** QString::size(). */
  function Utf16Len(s: string): (r: nat)
    ensures |s| <= r <= 2 * |s|
  {
    if s == [] then 0 else CharUtf16Len(s[0]) + Utf16Len(s[1..])
  }

  /** Encoding a concatenation concatenates the encodings. */
  lemma {:induction false} Utf8Append(a: string, b: string)
    ensures Utf8(a + b) == Utf8(a) + Utf8(b)
  {
    if a == [] {
      assert a + b == b;
    } else {
      assert (a + b)[1..] == a[1..] + b;
      Utf8Append(a[1..], b);
    }
  }

  /** A string without NUL characters encodes to bytes without a zero byte,
      so its encoding is a well-formed C string. */
  lemma {:induction false} Utf8HasNoNul(s: string)
    ensures '\0' !in s ==> 0 !in Utf8(s)
  {
    if s != [] && '\0' !in s {
      assert s[0] != '\0';
      assert 0 !in CharUtf8(s[0]);
      assert '\0' !in s[1..] by {
        forall i | 0 <= i < |s[1..]| ensures s[1..][i] != '\0' { assert s[1..][i] == s[i + 1]; }
      }
      Utf8HasNoNul(s[1..]);
    }
  }

  /** A string never has more UTF-16 code units than UTF-8 bytes, and the two
      counts agree exactly when the string is ASCII. */
  lemma {:induction false} Utf16LenVersusUtf8(s: string)
    ensures Utf16Len(s) <= |Utf8(s)|
    ensures Utf16Len(s) == |Utf8(s)| <==> IsAscii(s)
  {
    if s != [] {
      Utf16LenVersusUtf8(s[1..]);
      if IsAscii(s) {
        assert IsAscii(s[1..]) by {
          forall i | 0 <= i < |s[1..]| ensures (s[1..][i] as int) < 0x80 {
            assert s[1..][i] == s[i + 1];
          }
        }
      } else if (s[0] as int) < 0x80 {
        var i :| 0 <= i < |s| && (s[i] as int) >= 0x80;
        assert s[1..][i - 1] == s[i];
      }
    }
  }
}
