/** The search filters of the employee and store lists: three nested `replace`
    calls escape the query, and the result is matched with ILIKE between two
    `%`. LIKE is the one of section 9.7.1 of the PostgreSQL documentation with
    its default escape character, the backslash. ILIKE is LIKE after a
    per-character case folding of both sides.
 */
module LikeSearch {
  import opened Results

  // ---- escaping ----

  /** SQL's replace(s, from, to) for a one-character `from`. */
  function Replace(s: string, from: char, to: string): string {
    if s == "" then ""
    else (if s[0] == from then to else [s[0]]) + Replace(s[1..], from, to)
  }

  /** The three passes, innermost first: backslash, percent, underscore. */
  function EscapeQuery(q: string): string {
    Replace(Replace(Replace(q, '\\', "\\\\"), '%', "\\%"), '_', "\\_")
  }

  predicate Special(c: char) {
    c == '\\' || c == '%' || c == '_'
  }

  /** A single pass that puts a backslash before every special character. */
  function EscapeEach(q: string): string {
    if q == "" then ""
    else (if Special(q[0]) then ['\\', q[0]] else [q[0]]) + EscapeEach(q[1..])
  }

  lemma {:induction false} ReplaceConcat(s: string, t: string, from: char, to: string)
    ensures Replace(s + t, from, to) == Replace(s, from, to) + Replace(t, from, to)
  {
    if s == "" {
      assert s + t == t;
    } else {
      ReplaceConcat(s[1..], t, from, to);
      assert (s + t)[1..] == s[1..] + t;
    }
  }

  /** No pass re-escapes what an earlier pass wrote, because the backslash goes
      first: the three passes are one per-character escape. */
  lemma {:induction false} ThreePassesAreOne(q: string)
    ensures EscapeQuery(q) == EscapeEach(q)
  {
    if q != "" {
      var c, rest := [q[0]], q[1..];
      assert q == c + rest;
      ThreePassesAreOne(rest);
      EscapeQueryConcat(c, rest);
      EscapeQueryOne(q[0]);
    }
  }

  lemma EscapeQueryConcat(s: string, t: string)
    ensures EscapeQuery(s + t) == EscapeQuery(s) + EscapeQuery(t)
  {
    ReplaceConcat(s, t, '\\', "\\\\");
    var s1, t1 := Replace(s, '\\', "\\\\"), Replace(t, '\\', "\\\\");
    ReplaceConcat(s1, t1, '%', "\\%");
    ReplaceConcat(Replace(s1, '%', "\\%"), Replace(t1, '%', "\\%"), '_', "\\_");
  }

  lemma EscapeQueryOne(c: char)
    ensures EscapeQuery([c]) == if Special(c) then ['\\', c] else [c]
  {
    ReplaceOne(c, '\\', "\\\\");
    ReplaceOne(c, '%', "\\%");
    ReplaceOne(c, '_', "\\_");
    ReplaceTwo('\\', '\\', '%', "\\%");
    ReplaceTwo('\\', '\\', '_', "\\_");
    ReplaceTwo('\\', '%', '_', "\\_");
  }

  lemma ReplaceOne(c: char, from: char, to: string)
    ensures Replace([c], from, to) == if c == from then to else [c]
  {}

  lemma ReplaceTwo(c: char, d: char, from: char, to: string)
    requires c != from && d != from
    ensures Replace([c, d], from, to) == [c, d]
  {
    assert [c, d][1..] == [d];
    ReplaceOne(d, from, to);
  }

  // ---- matching ----

  /** A pattern that does not end in a lone escape character; PostgreSQL
      reports an error for the others. */
  predicate WellFormed(p: string) {
    p == "" ||
    if p[0] == '\\' then |p| >= 2 && WellFormed(p[2..]) else WellFormed(p[1..])
  }

  /** s LIKE p. */
  predicate Like(s: string, p: string)
    requires WellFormed(p)
    decreases |s| + |p|
  {
    if p == "" then s == ""
    else if p[0] == '%' then Like(s, p[1..]) || (s != "" && Like(s[1..], p))
    else if p[0] == '\\' then s != "" && s[0] == p[1] && Like(s[1..], p[2..])
    else s != "" && (p[0] == '_' || s[0] == p[0]) && Like(s[1..], p[1..])
  }

  function Fold(f: char -> char, s: string): (r: string)
    ensures |r| == |s| && forall i :: 0 <= i < |s| ==> r[i] == f(s[i])
  {
    seq(|s|, i requires 0 <= i < |s| => f(s[i]))
  }

  /** Case folding neither moves nor creates a special character. */
  ghost predicate FoldSafe(f: char -> char) {
    forall c :: (Special(c) ==> f(c) == c) && (Special(f(c)) ==> f(c) == c)
  }

  /** q occurs in s. */
  ghost predicate Occurs(q: string, s: string) {
    exists i :: 0 <= i <= |s| && q <= s[i..]
  }

  /** '%' || escaped query || '%'. */
  function SearchPattern(q: string): string {
    "%" + EscapeQuery(q) + "%"
  }

  lemma {:induction false} EscapedIsWellFormed(q: string, tail: string)
    requires WellFormed(tail)
    ensures WellFormed(EscapeEach(q) + tail)
  {
    if q == "" {
      assert EscapeEach(q) + tail == tail;
    } else {
      EscapedIsWellFormed(q[1..], tail);
      var head := if Special(q[0]) then ['\\', q[0]] else [q[0]];
      var p' := EscapeEach(q[1..]) + tail;
      assert EscapeEach(q) + tail == head + p';
      WellFormedStep(head, p');
    }
  }

  lemma WellFormedStep(head: string, p: string)
    requires WellFormed(p)
    requires (|head| == 2 && head[0] == '\\') || (|head| == 1 && head[0] != '\\')
    ensures WellFormed(head + p)
  {}

  lemma {:induction false} LikePercent(s: string)
    ensures WellFormed("%") && Like(s, "%")
  {
    assert "%"[1..] == "";
    if s != "" {
      LikePercent(s[1..]);
    }
  }

  /** An escaped text followed by '%' matches exactly what starts with the text. */
  lemma {:induction false} LikeEscapedPrefix(s: string, q: string)
    requires WellFormed(EscapeEach(q) + "%")
    ensures Like(s, EscapeEach(q) + "%") <==> q <= s
  {
    if q == "" {
      assert EscapeEach(q) + "%" == "%";
      LikePercent(s);
    } else {
      var p := EscapeEach(q) + "%";
      var p' := EscapeEach(q[1..]) + "%";
      assert "%"[1..] == "";
      EscapedIsWellFormed(q[1..], "%");
      assert p[if Special(q[0]) then 2 else 1..] == p';
      if s != "" {
        LikeEscapedPrefix(s[1..], q[1..]);
        assert q <= s <==> q[0] == s[0] && q[1..] <= s[1..];
      }
    }
  }

  lemma {:induction false} LikeLeadingPercent(s: string, p: string)
    requires WellFormed(p) && WellFormed("%" + p)
    ensures Like(s, "%" + p) <==> exists i :: 0 <= i <= |s| && Like(s[i..], p)
  {
    assert ("%" + p)[1..] == p;
    if s == "" {
      assert forall i :: 0 <= i <= |s| ==> s[i..] == s;
      assert s[0..] == s;
    } else {
      LikeLeadingPercent(s[1..], p);
      if Like(s, "%" + p) {
        if Like(s, p) {
          assert s[0..] == s;
        } else {
          var i :| 0 <= i <= |s[1..]| && Like(s[1..][i..], p);
          assert s[1..][i..] == s[i + 1..];
          assert Like(s[i + 1..], p);
        }
      }
      if i :| 0 <= i <= |s| && Like(s[i..], p) {
        if i == 0 {
          assert s[0..] == s;
        } else {
          assert s[1..][i - 1..] == s[i..];
        }
      }
    }
  }

  lemma {:induction false} FoldEscape(f: char -> char, q: string)
    requires FoldSafe(f)
    ensures Fold(f, EscapeEach(q)) == EscapeEach(Fold(f, q))
  {
    if q != "" {
      FoldEscape(f, q[1..]);
      assert Fold(f, q)[1..] == Fold(f, q[1..]);
      assert Special(q[0]) <==> Special(f(q[0]));
    }
  }

  /** The pattern is well formed, and it matches s exactly when the query text
      occurs in s up to case folding, whatever characters the query holds. */
  lemma SearchIsSubstring(f: char -> char, s: string, q: string)
    requires FoldSafe(f)
    ensures WellFormed(Fold(f, SearchPattern(q)))
    ensures Like(Fold(f, s), Fold(f, SearchPattern(q))) <==> Occurs(Fold(f, q), Fold(f, s))
  {
    var s', q' := Fold(f, s), Fold(f, q);
    var p := EscapeEach(q') + "%";
    assert Fold(f, SearchPattern(q)) == "%" + p by {
      ThreePassesAreOne(q);
      FoldEscape(f, q);
      assert f('%') == '%';
    }
    assert "%"[1..] == "";
    EscapedIsWellFormed(q', "%");
    assert ("%" + p)[1..] == p;
    LikeLeadingPercent(s', p);
    forall i | 0 <= i <= |s'|
      ensures Like(s'[i..], p) <==> q' <= s'[i..]
    {
      LikeEscapedPrefix(s'[i..], q');
    }
  }

  // ---- the list filters ----

  /** ListEmployees' first facet: no query, or full name or email ILIKE the pattern. */
  ghost predicate EmployeeMatches(f: char -> char, q: Option<string>, fullName: string, email: string)
    requires FoldSafe(f)
  {
    q.None? ||
    (SearchIsSubstring(f, fullName, q.value);
     Like(Fold(f, fullName), Fold(f, SearchPattern(q.value)))) ||
    (SearchIsSubstring(f, email, q.value);
     Like(Fold(f, email), Fold(f, SearchPattern(q.value))))
  }

  /** The employee search keeps a row exactly when the typed text, taken
      literally, occurs in its name or its email. */
  lemma EmployeeSearchIsLiteral(f: char -> char, q: Option<string>, fullName: string, email: string)
    requires FoldSafe(f)
    ensures EmployeeMatches(f, q, fullName, email) <==>
            q.None? || Occurs(Fold(f, q.value), Fold(f, fullName)) || Occurs(Fold(f, q.value), Fold(f, email))
  {
    if q.Some? {
      SearchIsSubstring(f, fullName, q.value);
      SearchIsSubstring(f, email, q.value);
    }
  }
}
