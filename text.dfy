/**
 * String facts used by the query builders and the name filter: substring
 * occurrence, named-parameter placeholders, and Spring's "has text" test.
 */
module Text {
  import opened Wrappers

  /** `pat` occurs in `s` as a contiguous substring. */
  ghost predicate Occurs(pat: string, s: string)
  {
    exists i :: OccursAt(pat, s, i)
  }

  /** `pat` occurs in `s` starting at position `i`. */
  predicate OccursAt(pat: string, s: string, i: int)
  {
    0 <= i <= |s| - |pat| && s[i..i + |pat|] == pat
  }

  predicate StartsWith(s: string, prefix: string)
  {
    |prefix| <= |s| && s[..|prefix|] == prefix
  }

  predicate EndsWith(s: string, suffix: string)
  {
    |suffix| <= |s| && s[|s| - |suffix|..] == suffix
  }

  lemma OccursSelf(pat: string)
    ensures Occurs(pat, pat)
  {
    assert OccursAt(pat, pat, 0);
  }

  /**
   * An occurrence in `a + b` lies in `a` or in `b` when it cannot straddle
   * the seam, i.e. when `b` starts with a character that does not appear
   * in `pat` after its first position.
   */
  lemma {:induction false} OccursAppend(pat: string, a: string, b: string)
    requires |pat| > 0
    requires |b| == 0 || b[0] !in pat[1..]
    ensures Occurs(pat, a + b) <==> Occurs(pat, a) || Occurs(pat, b)
  {
    var s := a + b;
    if Occurs(pat, s) {
      var i :| OccursAt(pat, s, i);
      if i + |pat| <= |a| {
        assert a[i..i + |pat|] == s[i..i + |pat|];
        assert OccursAt(pat, a, i);
      } else if i >= |a| {
        assert b[i - |a|..i - |a| + |pat|] == s[i..i + |pat|];
        assert OccursAt(pat, b, i - |a|);
      } else {
        SeamCharInPattern(pat, a, b, i);
        assert false;
      }
    }
    if Occurs(pat, a) {
      var i :| OccursAt(pat, a, i);
      assert s[i..i + |pat|] == a[i..i + |pat|];
      assert OccursAt(pat, s, i);
    }
    if Occurs(pat, b) {
      var i :| OccursAt(pat, b, i);
      assert s[|a| + i..|a| + i + |pat|] == b[i..i + |pat|];
      assert OccursAt(pat, s, |a| + i);
    }
  }

  /** An occurrence that straddles the seam of `a + b` puts `b[0]` inside `pat[1..]`. */
  lemma SeamCharInPattern(pat: string, a: string, b: string, i: int)
    requires OccursAt(pat, a + b, i) && i < |a| < i + |pat|
    ensures b[0] in pat[1..]
  {
    var k := |a| - i;
    assert (a + b)[|a|] == b[0];
    assert (a + b)[i..i + |pat|][k] == (a + b)[|a|];
    assert pat[1..][k - 1] == pat[k];
  }

  /** Each character of an occurrence of `pat` is a character of `s`. */
  lemma OccurrenceChar(pat: string, s: string, i: int, j: int)
    requires OccursAt(pat, s, i) && 0 <= j < |pat|
    ensures pat[j] in s
  {
    assert s[i..i + |pat|][j] == s[i + j];
  }

  /** A string that lacks one of the characters of `pat` cannot contain `pat`. */
  lemma MissingCharNotOccurs(pat: string, s: string, j: int)
    requires 0 <= j < |pat| && pat[j] !in s
    ensures !Occurs(pat, s)
  {
    if Occurs(pat, s) {
      var i :| OccursAt(pat, s, i);
      OccurrenceChar(pat, s, i, j);
    }
  }

  /** Characters allowed in the name of a `:name` query parameter. */
  predicate IsIdentChar(c: char)
  {
    'a' <= c <= 'z' || 'A' <= c <= 'Z' || '0' <= c <= '9' || c == '_'
  }

  /** The longest prefix of `s` made of identifier characters. */
  function IdentPrefix(s: string): (r: string)
    ensures |r| <= |s| && r == s[..|r|]
    ensures forall c :: c in r ==> IsIdentChar(c)
    ensures |r| < |s| ==> !IsIdentChar(s[|r|])
  {
    if |s| > 0 && IsIdentChar(s[0]) then [s[0]] + IdentPrefix(s[1..]) else []
  }

  /** A `:` at position `i` of `s` followed by at least one identifier character. */
  predicate PlaceholderAt(s: string, i: int)
  {
    0 <= i < |s| && s[i] == ':' && |IdentPrefix(s[i + 1..])| > 0
  }

  /**
   * The names of the `:name` placeholders in a query: every `:` followed by
   * a non-empty run of identifier characters names the parameter spelled by
   * that run.
   */
  ghost function Placeholders(s: string): set<string>
  {
    set i | 0 <= i < |s| && PlaceholderAt(s, i) :: IdentPrefix(s[i + 1..])
  }

  lemma {:induction false} IdentPrefixAppend(a: string, b: string)
    requires |b| == 0 || !IsIdentChar(b[0])
    ensures IdentPrefix(a + b) == if |IdentPrefix(a)| == |a| then a else IdentPrefix(a)
  {
    if |a| > 0 {
      assert (a + b)[0] == a[0];
      assert (a + b)[1..] == a[1..] + b;
      IdentPrefixAppend(a[1..], b);
    } else {
      assert a + b == b;
    }
  }

  /** A placeholder of `a` keeps its name in `a + b` when `b` starts with a non-identifier character. */
  lemma PlaceholderLeft(a: string, b: string, i: int)
    requires |b| == 0 || !IsIdentChar(b[0])
    requires 0 <= i < |a|
    ensures PlaceholderAt(a + b, i) <==> PlaceholderAt(a, i)
    ensures IdentPrefix((a + b)[i + 1..]) == IdentPrefix(a[i + 1..])
  {
    assert (a + b)[i + 1..] == a[i + 1..] + b;
    IdentPrefixAppend(a[i + 1..], b);
    if |IdentPrefix(a[i + 1..])| == |a[i + 1..]| {
      assert IdentPrefix(a[i + 1..]) == a[i + 1..];
    }
  }

  /** Placeholders never straddle a seam that starts with a non-identifier character. */
  lemma PlaceholdersAppend(a: string, b: string)
    requires |b| == 0 || !IsIdentChar(b[0])
    ensures Placeholders(a + b) == Placeholders(a) + Placeholders(b)
  {
    var s := a + b;
    forall n | n in Placeholders(s) ensures n in Placeholders(a) + Placeholders(b) {
      var i :| 0 <= i < |s| && PlaceholderAt(s, i) && n == IdentPrefix(s[i + 1..]);
      if i < |a| {
        PlaceholderLeft(a, b, i);
      } else {
        assert s[i + 1..] == b[i - |a| + 1..];
        assert PlaceholderAt(b, i - |a|);
      }
    }
    forall n | n in Placeholders(a) ensures n in Placeholders(s) {
      var i :| 0 <= i < |a| && PlaceholderAt(a, i) && n == IdentPrefix(a[i + 1..]);
      PlaceholderLeft(a, b, i);
    }
    forall n | n in Placeholders(b) ensures n in Placeholders(s) {
      var i :| 0 <= i < |b| && PlaceholderAt(b, i) && n == IdentPrefix(b[i + 1..]);
      assert s[|a| + i + 1..] == b[i + 1..];
      assert PlaceholderAt(s, |a| + i);
    }
  }

  lemma NoColonNoPlaceholders(s: string)
    requires ':' !in s
    ensures Placeholders(s) == {}
  {
    forall i | 0 <= i < |s| ensures !PlaceholderAt(s, i) {
      assert s[i] in s;
    }
  }

  /** `":" + name + rest` holds exactly the placeholder `name` when `rest` has no `:` and starts a new token. */
  lemma PlaceholderToken(name: string, rest: string)
    requires |name| > 0 && forall i | 0 <= i < |name| :: IsIdentChar(name[i])
    requires |rest| == 0 || !IsIdentChar(rest[0])
    requires forall i | 0 <= i < |rest| :: rest[i] != ':'
    ensures Placeholders(":" + name + rest) == {name}
  {
    var s := ":" + name + rest;
    IdentPrefixAllIdent(name);
    IdentPrefixAppend(name, rest);
    assert s[1..] == name + rest;
    assert PlaceholderAt(s, 0);
    assert !IsIdentChar(':');
    forall i | 0 < i < |s| ensures !PlaceholderAt(s, i) {
      if i <= |name| {
        assert s[i] == name[i - 1];
      } else {
        assert s[i] == rest[i - 1 - |name|];
      }
    }
  }

  lemma {:induction false} IdentPrefixAllIdent(s: string)
    requires forall i | 0 <= i < |s| :: IsIdentChar(s[i])
    ensures IdentPrefix(s) == s
  {
    if |s| > 0 {
      assert forall i | 0 <= i < |s| - 1 :: s[1..][i] == s[i + 1];
      IdentPrefixAllIdent(s[1..]);
    }
  }

  /** `Character.isWhitespace`: Unicode space, line and paragraph separators other than the no-break spaces, and the ASCII controls TAB to CR and FS to US. */
  predicate IsWhitespace(c: char)
  {
    || '\t' <= c <= '\r'
    || '\U{1C}' <= c <= '\U{20}'
    || c == '\U{1680}'
    || '\U{2000}' <= c <= '\U{2006}'
    || '\U{2008}' <= c <= '\U{200A}'
    || c == '\U{2028}' || c == '\U{2029}' || c == '\U{205F}' || c == '\U{3000}'
  }

  /** `StringUtils.hasText`: not null, not empty, and not only whitespace. */
  predicate HasText(s: Option<string>)
    ensures HasText(s) ==> s.Some? && |s.value| > 0
    ensures s.Some? && |s.value| > 0 && !IsWhitespace(s.value[0]) ==> HasText(s)
  {
    s.Some? && exists i :: 0 <= i < |s.value| && !IsWhitespace(s.value[i])
  }
}
