/**
 * The two SQL text operations the dog queries use: `LOWER` (ASCII case
 * folding) and `LIKE` with its wildcards `%` (any run of characters) and `_`
 * (any one character).
 */
module SqlText {

  function LowerChar(c: char): (r: char)
    ensures 'A' <= c <= 'Z' ==> r as int == c as int + 32
    ensures !('A' <= c <= 'Z') ==> r == c
  {
    if 'A' <= c <= 'Z' then (c as int + 32) as char else c
  }

  /** SQL `LOWER`, folding ASCII letters only. */
  function Lower(s: string): (r: string)
    ensures |r| == |s|
    ensures forall i :: 0 <= i < |s| ==> r[i] == LowerChar(s[i])
  {
    seq(|s|, i requires 0 <= i < |s| => LowerChar(s[i]))
  }

  lemma LowerConcat(a: string, b: string)
    ensures Lower(a + b) == Lower(a) + Lower(b)
  {
    assert forall i :: 0 <= i < |a + b| ==> Lower(a + b)[i] == (Lower(a) + Lower(b))[i];
  }

  /** `s LIKE p`, with `%` and `_` as wildcards and no escape character. */
  predicate Like(s: string, p: string)
    ensures Literal(p) ==> (Like(s, p) <==> s == p)
    decreases |p|, |s|
  {
    if p == [] then s == []
    else if p[0] == '%' then Like(s, p[1..]) || (s != [] && Like(s[1..], p))
    else s != [] && (p[0] == '_' || p[0] == s[0]) && Like(s[1..], p[1..])
  }

  /** A pattern text holding neither wildcard: it can only match itself. */
  predicate Literal(t: string)
  {
    forall i :: 0 <= i < |t| ==> t[i] != '%' && t[i] != '_'
  }

  /** `t` occurs in `s` starting at position `i`. */
  predicate OccursAt(s: string, t: string, i: int)
  {
    0 <= i <= |s| && t <= s[i..]
  }

  /** `t` is a substring of `s`. */
  predicate Contains(s: string, t: string)
  {
    exists i :: 0 <= i <= |s| && OccursAt(s, t, i)
  }

  /** Lower-casing keeps a wildcard-free text wildcard-free. */
  lemma LowerKeepsLiteral(t: string)
    requires Literal(t)
    ensures Literal(Lower(t))
  {
  }

  /** `%` alone matches every text. */
  lemma {:induction false} PercentMatchesAll(s: string)
    ensures Like(s, "%")
    decreases |s|
  {
    if s != [] {
      PercentMatchesAll(s[1..]);
    }
  }

  /** `t%` with a wildcard-free `t` matches exactly the texts that start with `t`. */
  lemma {:induction false} LiteralPrefixLike(s: string, t: string)
    requires Literal(t)
    ensures Like(s, t + "%") <==> t <= s
    decreases |t|
  {
    if t == [] {
      assert t + "%" == "%";
      PercentMatchesAll(s);
    } else {
      assert (t + "%")[1..] == t[1..] + "%";
      if s != [] {
        LiteralPrefixLike(s[1..], t[1..]);
        assert t <= s <==> t[0] == s[0] && t[1..] <= s[1..];
      }
    }
  }

  /** A leading `%` lets the rest of the pattern match any suffix. */
  lemma {:induction false} LeadingPercentLike(s: string, q: string)
    ensures Like(s, "%" + q) <==> exists i :: 0 <= i <= |s| && Like(s[i..], q)
    decreases |s|
  {
    assert ("%" + q)[1..] == q;
    if s == [] {
      assert s[0..] == s;
    } else {
      LeadingPercentLike(s[1..], q);
      if Like(s, "%" + q) {
        if Like(s, q) {
          assert s[0..] == s;
        } else {
          var j :| 0 <= j <= |s[1..]| && Like(s[1..][j..], q);
          assert s[1..][j..] == s[j + 1..];
        }
      }
      if exists i :: 0 <= i <= |s| && Like(s[i..], q) {
        var i :| 0 <= i <= |s| && Like(s[i..], q);
        if i == 0 {
          assert s[0..] == s;
        } else {
          assert s[1..][i - 1..] == s[i..];
        }
      }
    }
  }

  /** `s LIKE '%t%'` with a wildcard-free `t` is the substring test. */
  lemma {:induction false} SurroundedLiteralIsSubstring(s: string, t: string)
    requires Literal(t)
    ensures Like(s, "%" + t + "%") <==> Contains(s, t)
  {
    assert "%" + t + "%" == "%" + (t + "%");
    LeadingPercentLike(s, t + "%");
    if Contains(s, t) {
      var i :| 0 <= i <= |s| && OccursAt(s, t, i);
      LiteralPrefixLike(s[i..], t);
    }
    if exists i :: 0 <= i <= |s| && Like(s[i..], t + "%") {
      var i :| 0 <= i <= |s| && Like(s[i..], t + "%");
      LiteralPrefixLike(s[i..], t);
      assert OccursAt(s, t, i);
    }
  }
}
