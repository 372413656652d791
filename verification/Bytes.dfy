/** Bytes, C strings and the characters the file store treats specially. */
module Bytes {
  type Byte = b: int | 0 <= b < 256

  /** A path is the bytes of a C string, without its terminator. */
  type Path = seq<Byte>

  const NUL: Byte := 0
  const NEWLINE: Byte := 10
  const SLASH: Byte := 47
  const LOWER_A := 97

  ghost predicate NoNul(s: seq<Byte>) {
    forall i :: 0 <= i < |s| ==> s[i] != NUL
  }

  /** What the C string functions see of a buffer: the bytes before its first NUL. */
  function CStr(s: seq<Byte>): (r: seq<Byte>)
    ensures r <= s && NoNul(r)
    ensures |r| < |s| ==> s[|r|] == 0
  {
    if s == [] || s[0] == NUL then [] else [s[0]] + CStr(s[1..])
  }

  lemma {:induction false} CStrOfNulFree(s: seq<Byte>)
    requires NoNul(s)
    ensures CStr(s) == s
  {
    assert |CStr(s)| == |s|;
  }
}
