/** The C library's ASCII string functions that the address and buffer code relies on. */
module Strings {
  function ToLower(c: char): char {
    if 'A' <= c <= 'Z' then (c as int + 32) as char else c
  }

  function Lower(s: string): (l: string)
    ensures |l| == |s|
  {
    seq(|s|, i requires 0 <= i < |s| => ToLower(s[i]))
  }

  /** `strchr`/`memchr` from the start: the first occurrence of `c`, or the length. */
  method Find<T(==)>(s: seq<T>, c: T) returns (k: nat)
    ensures k <= |s| && c !in s[..k]
    ensures k < |s| ==> s[k] == c
  {
    k := 0;
    while k < |s| && s[k] != c
      invariant k <= |s| && c !in s[..k]
    {
      k := k + 1;
    }
  }
}
