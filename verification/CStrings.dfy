// Strings that end at their first zero byte.
module CStrings {
  import opened Bytes

  /** The bytes before the first 0. */
  function Strlen(s: seq<byte>): (n: nat)
    ensures n <= |s|
  {
    if s == [] || s[0] == 0 then 0 else 1 + Strlen(s[1..])
  }

  predicate NulFree(s: seq<byte>) {
    forall i :: 0 <= i < |s| ==> s[i] != 0
  }

  lemma {:induction false} StrlenWhole(s: seq<byte>)
    requires NulFree(s)
    ensures Strlen(s) == |s|
  {
    if s != [] { StrlenWhole(s[1..]); }
  }

  lemma {:induction false} StrlenIsFirst(s: seq<byte>)
    ensures NulFree(s[..Strlen(s)]) && (Strlen(s) < |s| ==> s[Strlen(s)] == 0)
  {
    CutIsNulFree(s);
    if s != [] && s[0] != 0 { StrlenIsFirst(s[1..]); }
  }

  /** What is seen of a string: it ends before its first zero byte. */
  function Cut(s: seq<byte>): (r: seq<byte>)
    ensures NulFree(r)
  {
    CutIsNulFree(s);
    s[..Strlen(s)]
  }

  lemma {:induction false} CutIsNulFree(s: seq<byte>)
    ensures NulFree(s[..Strlen(s)])
  {
    if s != [] && s[0] != 0 {
      CutIsNulFree(s[1..]);
      var n := Strlen(s[1..]);
      assert s[..n + 1] == [s[0]] + s[1..][..n];
    }
  }
}
