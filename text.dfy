/** The two string tests the controllers' queries use, with ordinal comparison. */
module Text {

  /** `s.StartsWith(prefix)`. */
  predicate StartsWith(s: string, prefix: string) {
    prefix <= s
  }

  /** `s.Contains(sub)`: `sub` occurs somewhere in `s` (the empty string occurs everywhere). */
  predicate Contains(s: string, sub: string)
    decreases |s|
  {
    StartsWith(s, sub) || (|s| > 0 && Contains(s[1..], sub))
  }

  /** `Contains` agrees with the positional definition of a substring:
      `sub` starts at some index `i` of `s`. */
  lemma {:induction false} ContainsAt(s: string, sub: string)
    ensures Contains(s, sub) <==> exists i :: 0 <= i <= |s| && StartsWith(s[i..], sub)
  {
    if Contains(s, sub) {
      if StartsWith(s, sub) {
        assert s[0..] == s;
      } else {
        ContainsAt(s[1..], sub);
        var i :| 0 <= i <= |s[1..]| && StartsWith(s[1..][i..], sub);
        assert s[1..][i..] == s[i + 1..];
      }
    }
    if exists i :: 0 <= i <= |s| && StartsWith(s[i..], sub) {
      var i :| 0 <= i <= |s| && StartsWith(s[i..], sub);
      if i > 0 {
        assert s[1..][i - 1..] == s[i..];
        ContainsAt(s[1..], sub);
      } else {
        assert s[0..] == s;
      }
    }
  }
}
