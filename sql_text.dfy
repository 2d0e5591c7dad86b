/**
 * Text operations the bucket search relies on: lower-casing of the user's
 * filter text and SQL `LIKE` matching of a pattern against the lower-case
 * mirror columns of a catalog object.
 */
module SqlText {

  /** Lower-casing of one character; only the ASCII letters A-Z change. */
  function LowerChar(c: char): char {
    if 'A' <= c <= 'Z' then (c as int + 32) as char else c
  }

  /** `String.toLowerCase()`, restricted to its ASCII behaviour. */
  function Lower(s: string): string {
    seq(|s|, i requires 0 <= i < |s| => LowerChar(s[i]))
  }

  /** The two characters `LIKE` treats specially when no escape character is given. */
  predicate IsWildcard(c: char) {
    c == '%' || c == '_'
  }

  predicate NoWildcards(s: string) {
    forall i :: 0 <= i < |s| ==> !IsWildcard(s[i])
  }

  /** `pre` is a prefix of `s`. */
  predicate StartsWith(s: string, pre: string) {
    pre <= s
  }

  /** `sub` occurs in `s` at some position. */
  predicate Contains(s: string, sub: string) {
    exists i :: 0 <= i <= |s| && sub <= s[i..]
  }

  /**
   * SQL `s LIKE p` with no escape character: `%` matches any run of
   * characters (possibly empty), `_` matches exactly one character and every
   * other character matches itself.
   */
  function LikeMatches(s: string, p: string): bool
    decreases |s| + |p|
  {
    if p == [] then s == []
    else if p[0] == '%' then LikeMatches(s, p[1..]) || (s != [] && LikeMatches(s[1..], p))
    else s != [] && (p[0] == '_' || p[0] == s[0]) && LikeMatches(s[1..], p[1..])
  }

  /** Lower-casing never introduces a wildcard. */
  lemma LowerKeepsNoWildcards(s: string)
    requires NoWildcards(s)
    ensures NoWildcards(Lower(s))
  {
  }

  /** A trailing `%` matches whatever text is left. */
  lemma {:induction false} PercentMatchesAll(s: string)
    ensures LikeMatches(s, "%")
  {
    if s != [] {
      PercentMatchesAll(s[1..]);
    }
  }

  /** `s LIKE lit || '%'` is exactly "s starts with lit" when `lit` holds no wildcard. */
  lemma {:induction false} LikePrefix(s: string, lit: string)
    requires NoWildcards(lit)
    ensures LikeMatches(s, lit + "%") <==> StartsWith(s, lit)
  {
    if lit == [] {
      assert lit + "%" == "%";
      PercentMatchesAll(s);
    } else {
      assert !IsWildcard(lit[0]);
      assert (lit + "%")[1..] == lit[1..] + "%";
      if s != [] {
        LikePrefix(s[1..], lit[1..]);
        assert StartsWith(s, lit) <==> lit[0] == s[0] && StartsWith(s[1..], lit[1..]);
      }
    }
  }

  /** `s LIKE '%' || lit || '%'` is exactly "s contains lit" when `lit` holds no wildcard. */
  lemma {:induction false} LikeContains(s: string, lit: string)
    requires NoWildcards(lit)
    ensures LikeMatches(s, "%" + lit + "%") <==> Contains(s, lit)
  {
    var p := "%" + lit + "%";
    assert p[0] == '%' && p[1..] == lit + "%";
    LikePrefix(s, lit);
    if s == [] {
      assert Contains(s, lit) <==> lit <= s[0..];
    } else {
      LikeContains(s[1..], lit);
      if Contains(s, lit) && !(lit <= s) {
        var i :| 0 <= i <= |s| && lit <= s[i..];
        assert i != 0;
        assert s[1..][i - 1..] == s[i..];
      }
      if Contains(s[1..], lit) {
        var i :| 0 <= i <= |s[1..]| && lit <= s[1..][i..];
        assert s[1..][i..] == s[i + 1..];
      }
      assert lit <= s ==> lit <= s[0..];
    }
  }

  /**
   * The filter text is pasted into the pattern unescaped, so an `_` typed by
   * the user matches any character: `work` passes the kind filter `w_rk`.
   */
  lemma UnderscoreInFilterIsAWildcard()
    ensures LikeMatches("work", "w_rk" + "%") && !StartsWith("work", "w_rk")
  {
    assert "w_rk" + "%" == "w_rk%";
    assert LikeMatches("", "%");
    assert LikeMatches("k", "k%");
    assert LikeMatches("rk", "rk%");
    assert LikeMatches("ork", "_rk%");
    assert "work"[1] != "w_rk"[1];
  }
}
