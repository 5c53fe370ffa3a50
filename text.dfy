/**
 * String helpers shared by the bot's message handling: substring search (the
 * regular expressions `/沒發動態|尚未上線/` and `/<@ID>/` with literal
 * contents), Ruby's `Array#join`, `String#gsub` with a literal pattern, and
 * the line-anchored marker test `/^【/`.
 */
module Text {

  /** `p` occurs in `s` starting at index `i`. */
  predicate OccursAt(s: string, p: string, i: nat)
  {
    i + |p| <= |s| && s[i..i + |p|] == p
  }

  /** `s =~ /p/` for a pattern `p` made of literal characters. */
  predicate Contains(s: string, p: string)
  {
    exists i | 0 <= i <= |s| :: OccursAt(s, p, i)
  }

  /**
   * `s =~ /^c/` in Ruby: `^` anchors at the start of the string and after
   * every newline, so the marker may begin any line of `s`.
   */
  predicate SomeLineStartsWith(s: string, c: char)
  {
    exists i | 0 <= i < |s| :: s[i] == c && (i == 0 || s[i - 1] == '\n')
  }

  /** `parts.join(sep)`. */
  function Join(parts: seq<string>, sep: string): string
  {
    if |parts| == 0 then ""
    else if |parts| == 1 then parts[0]
    else parts[0] + sep + Join(parts[1..], sep)
  }

  /**
   * `s.gsub(p, r)` for a literal, non-empty pattern: scans left to right and
   * replaces every non-overlapping occurrence of `p` by `r`.
   */
  function ReplaceAll(s: string, p: string, r: string): string
    requires |p| > 0
    decreases |s|
  {
    if |s| == 0 then ""
    else if |p| <= |s| && s[..|p|] == p then r + ReplaceAll(s[|p|..], p, r)
    else [s[0]] + ReplaceAll(s[1..], p, r)
  }

  lemma ContainsInfix(a: string, p: string, b: string)
    ensures Contains(a + p + b, p)
  {
    var s := a + p + b;
    assert s[|a|..|a| + |p|] == p;
    assert OccursAt(s, p, |a|);
  }

  lemma ContainsPrefix(s: string, p: string, t: string)
    requires Contains(s, p)
    ensures Contains(s + t, p)
  {
    var i :| 0 <= i <= |s| && OccursAt(s, p, i);
    assert (s + t)[i..i + |p|] == s[i..i + |p|];
    assert OccursAt(s + t, p, i);
  }

  /** The first part of a non-empty join is a prefix of it. */
  lemma {:induction false} JoinStartsWithFirst(parts: seq<string>, sep: string)
    requires |parts| > 0
    ensures exists rest :: Join(parts, sep) == parts[0] + rest
  {
    if |parts| > 1 {
      assert Join(parts, sep) == parts[0] + (sep + Join(parts[1..], sep));
    } else {
      assert Join(parts, sep) == parts[0] + "";
    }
  }

  /** A pattern in the first part of a join occurs in the joined text and in any extension of it. */
  lemma JoinHasMarker(parts: seq<string>, sep: string, p: string, t: string)
    requires |parts| > 0 && Contains(parts[0], p)
    ensures Contains(Join(parts, sep) + t, p)
  {
    JoinStartsWithFirst(parts, sep);
    var rest :| Join(parts, sep) == parts[0] + rest;
    ContainsPrefix(parts[0], p, rest + t);
    assert Join(parts, sep) + t == parts[0] + (rest + t);
  }

  /** An occurrence of `p + q` is an occurrence of `p`. */
  lemma ContainsLonger(s: string, p: string, q: string)
    requires Contains(s, p + q)
    ensures Contains(s, p)
  {
    var i :| 0 <= i <= |s| && OccursAt(s, p + q, i);
    assert s[i..i + |p|] == (p + q)[..|p|];
    assert OccursAt(s, p, i);
  }

  /** A pattern cannot occur where its first character does not. */
  lemma FirstCharAbsent(s: string, p: string)
    requires |p| > 0 && p[0] !in s
    ensures !Contains(s, p)
  {
    forall i | 0 <= i <= |s| ensures !OccursAt(s, p, i) {
      if i + |p| <= |s| {
        assert s[i..i + |p|][0] == s[i];
      }
    }
  }

  /** `gsub` leaves text without an occurrence of the pattern unchanged. */
  lemma {:induction false} ReplaceAllAbsent(s: string, p: string, r: string)
    requires |p| > 0
    requires !Contains(s, p)
    ensures ReplaceAll(s, p, r) == s
    decreases |s|
  {
    if |s| > 0 {
      assert !OccursAt(s, p, 0);
      if !Contains(s[1..], p) {
        ReplaceAllAbsent(s[1..], p, r);
        assert [s[0]] + s[1..] == s;
      } else {
        var i :| 0 <= i <= |s[1..]| && OccursAt(s[1..], p, i);
        assert s[i + 1..i + 1 + |p|] == s[1..][i..i + |p|];
        assert OccursAt(s, p, i + 1);
        assert false;
      }
    }
  }

  /**
   * A prefix that does not contain the pattern's first character is passed
   * through untouched: no occurrence can start inside it.
   */
  lemma {:induction false} ReplaceAllSkipsPrefix(a: string, b: string, p: string, r: string)
    requires |p| > 0
    requires p[0] !in a
    ensures ReplaceAll(a + b, p, r) == a + ReplaceAll(b, p, r)
    decreases |a|
  {
    if |a| > 0 {
      var s := a + b;
      assert s[0] == a[0] != p[0];
      assert s[1..] == a[1..] + b;
      ReplaceAllSkipsPrefix(a[1..], b, p, r);
      assert [a[0]] + a[1..] == a;
    } else {
      assert a + b == b;
    }
  }

  /**
   * One occurrence of the pattern, with no earlier start of it, is replaced
   * and scanning resumes right after it.
   */
  lemma ReplaceAllSplice(a: string, p: string, b: string, r: string)
    requires |p| > 0
    requires p[0] !in a
    ensures ReplaceAll(a + p + b, p, r) == a + r + ReplaceAll(b, p, r)
  {
    ReplaceAllSkipsPrefix(a, p + b, p, r);
    assert a + p + b == a + (p + b);
    var s := p + b;
    assert s[..|p|] == p && s[|p|..] == b;
  }
}
