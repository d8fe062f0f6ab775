/** Types shared by the whole model. */
module Common {
  datatype Option<+T> = None | Some(value: T)

  /** One octet of a file or of an identifier. */
  type byte = b: int | 0 <= b < 256

  /** What a C callee sees of a `char*`: the text up to the first zero character. */
  function CStr(s: string): (r: string)
    ensures r <= s && '\0' !in r
    ensures |r| < |s| ==> s[|r|] == '\0'
  {
    if s == "" || s[0] == '\0' then "" else [s[0]] + CStr(s[1..])
  }

  ghost predicate ZeroFree(s: string) {
    '\0' !in s
  }

  ghost predicate AllZeroFree(fields: seq<string>) {
    forall i | 0 <= i < |fields| :: ZeroFree(fields[i])
  }

  lemma {:induction false} CStrIsIdentityIffZeroFree(s: string)
    ensures CStr(s) == s <==> ZeroFree(s)
  {
    if s != "" && s[0] != '\0' {
      CStrIsIdentityIffZeroFree(s[1..]);
      assert s == [s[0]] + s[1..];
    }
  }

  /** A terminator after a zero-free text is where the C string ends. */
  lemma {:induction false} CStrStopsAtZero(s: string, rest: string)
    ensures CStr(s + ['\0'] + rest) == CStr(s)
  {
    if s == "" {
      assert s + ['\0'] + rest == ['\0'] + rest;
    } else {
      assert (s + ['\0'] + rest)[1..] == s[1..] + ['\0'] + rest;
      CStrStopsAtZero(s[1..], rest);
    }
  }
}
