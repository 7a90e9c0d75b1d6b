/** Bytes, C strings and the C library's case-insensitive comparison, as the
    command decoder of the LED controller uses them. */
module Ascii {

  /** An unsigned 8-bit value (`u8_t` / `unsigned char`). */
  newtype byte = x: int | 0 <= x < 256

  /** The bytes of a string literal whose characters are all 7-bit ASCII. */
  function Bytes(s: string): (r: seq<byte>)
    requires forall i :: 0 <= i < |s| ==> s[i] < 128 as char
    ensures |r| == |s|
    ensures forall i :: 0 <= i < |s| ==> r[i] as int == s[i] as int
  {
    if s == [] then [] else [s[0] as int as byte] + Bytes(s[1..])
  }

  /** `tolower` in the C locale: only 'A'..'Z' change. */
  function Lower(b: byte): (r: byte)
    ensures 'A' as byte <= b <= 'Z' as byte ==> r as int == b as int + 32
    ensures !('A' as byte <= b <= 'Z' as byte) ==> r == b
    ensures r == 0 <==> b == 0
  {
    if 'A' as byte <= b <= 'Z' as byte then b + 32 else b
  }

  /** The C string stored in a NUL-terminated buffer: every byte before the
      first zero byte. */
  function CString(buf: seq<byte>): (r: seq<byte>)
    requires 0 in buf
    ensures |r| < |buf| && buf[..|r|] == r && buf[|r|] == 0
    ensures 0 !in r
  {
    if buf[0] == 0 then [] else [buf[0]] + CString(buf[1..])
  }

  /** Reference meaning of "equal ignoring ASCII case": same length, and the
      same byte at every position once both are lowered. */
  ghost predicate SameIgnoringCase(a: seq<byte>, b: seq<byte>)
  {
    |a| == |b| && forall i :: 0 <= i < |a| ==> Lower(a[i]) == Lower(b[i])
  }

  /** `strcasecmp(s, t) == 0` for two NUL-terminated buffers: walk both
      strings, lowering each byte, until two bytes differ or both end. The
      walk sees only the bytes before each buffer's first NUL, and compares
      those ignoring case. */
  function StrCaseEqual(s: seq<byte>, t: seq<byte>): (r: bool)
    requires 0 in s && 0 in t
    ensures r <==> SameIgnoringCase(CString(s), CString(t))
    decreases |s|
  {
    var c, d := Lower(s[0]), Lower(t[0]);
    var a, b := CString(s), CString(t);
    if c != d then
      // The strings differ at their first position, or exactly one of them ends there.
      assert a != [] && b != [] ==> Lower(a[0]) != Lower(b[0]);
      false
    else if c == 0 then
      true
    else
      var a', b' := CString(s[1..]), CString(t[1..]);
      assert a == [s[0]] + a' && b == [t[0]] + b';
      assert SameIgnoringCase(a, b) ==> SameIgnoringCase(a', b') by {
        if SameIgnoringCase(a, b) {
          assert forall i :: 0 <= i < |a'| ==> a'[i] == a[i + 1] && b'[i] == b[i + 1];
        }
      }
      StrCaseEqual(s[1..], t[1..])
  }

  /** Appending anything after a terminator does not change the C string. */
  lemma {:induction false} CStringOfPrefix(text: seq<byte>, rest: seq<byte>)
    requires 0 !in text
    ensures CString(text + [0] + rest) == text
  {
    if text != [] {
      assert (text + [0] + rest)[1..] == text[1..] + [0] + rest;
      CStringOfPrefix(text[1..], rest);
    }
  }
}
