/** Types shared by the other modules. */
module Common {
  datatype Option<+T> = None | Some(value: T) {
    function GetOr(default: T): T { if Some? then value else default }
  }

  /** What a C string shows of a byte sequence: everything before the first NUL. */
  function CStr(s: string): (r: string)
    ensures '\0' !in r
    ensures '\0' !in s ==> r == s
  {
    if s == [] || s[0] == '\0' then [] else [s[0]] + CStr(s[1..])
  }

  /** A terminated buffer's text ends at its first NUL. */
  lemma {:induction false} CStrEnds(s: string)
    requires '\0' in s
    ensures |CStr(s)| < |s| && s[|CStr(s)|] == '\0' && CStr(s) == s[..|CStr(s)|]
  {
    if s[0] != '\0' {
      CStrEnds(s[1..]);
      assert s == [s[0]] + s[1..];
    }
  }

  lemma {:induction false} CStrIs(s: string, n: nat)
    requires n < |s| && s[n] == '\0' && '\0' !in s[..n]
    ensures CStr(s) == s[..n]
  {
    if n > 0 {
      assert s[..n] == [s[0]] + s[1..][..n - 1];
      CStrIs(s[1..], n - 1);
    }
  }
}
