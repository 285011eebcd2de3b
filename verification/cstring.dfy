/** C strings: `std::string::c_str()` appends a NUL, and assigning a
    `const char*` to a `std::string` copies up to the first NUL. */
module CStrings {

  const NUL: char := '\0'

  /** The string a `const char*` pointing at `s` denotes: the longest prefix
      of `s` without a NUL. */
  function CString(s: seq<char>): (r: seq<char>)
    ensures r <= s
    ensures NUL !in r
    ensures |r| < |s| ==> s[|r|] == NUL
  {
    if s == [] || s[0] == NUL then []
    else [s[0]] + CString(s[1..])
  }

  /** `r` is what a `const char*` pointing at `s` reads: a NUL-free prefix
      of `s` that stops at a NUL or at the end of `s`. */
  predicate ReadsCString(r: seq<char>, s: seq<char>)
  {
    && r <= s
    && NUL !in r
    && (|r| < |s| ==> s[|r|] == NUL)
  }

  /** The reading is determined by the bytes: `CString` is the only one. */
  lemma CStringIsTheOnlyReading(r: seq<char>, s: seq<char>)
    ensures ReadsCString(r, s) <==> r == CString(s)
  {
  }

  /** Reading back a NUL-terminated copy of `m` yields `m`, whatever follows
      the terminator. */
  lemma {:induction false} TerminatedRoundTrip(m: seq<char>, rest: seq<char>)
    requires NUL !in m
    ensures CString(m + [NUL] + rest) == m
  {
    if m == [] {
      assert m + [NUL] + rest == [NUL] + rest;
    } else {
      assert (m + [NUL] + rest)[1..] == m[1..] + [NUL] + rest;
      TerminatedRoundTrip(m[1..], rest);
      assert m == [m[0]] + m[1..];
    }
  }

  /** Without a terminator the read does not stop at the end of `m`: it runs
      on into whatever bytes follow, up to their first NUL. */
  lemma {:induction false} UnterminatedReadsOn(m: seq<char>, rest: seq<char>)
    requires NUL !in m
    ensures CString(m + rest) == m + CString(rest)
  {
    if m == [] {
      assert m + rest == rest;
    } else {
      assert (m + rest)[1..] == m[1..] + rest;
      UnterminatedReadsOn(m[1..], rest);
      assert m == [m[0]] + m[1..];
    }
  }
}
