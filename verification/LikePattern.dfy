/** LIKE patterns with backslash as the escape character (section 9.7.1 of the PostgreSQL
    documentation), and the search filters built on them. */
module LikePattern {
  import opened Prelude

  predicate IsMeta(c: char) { c == '%' || c == '_' || c == '\\' }

  predicate HasMeta(s: string) { exists i :: 0 <= i < |s| && IsMeta(s[i]) }

  /** '%' stands for any text, '_' for any one character, and a backslash makes the next character
      literal. (A pattern that ends in an unescaped backslash is an error; none arises here.) */
  predicate Like(pattern: string, t: string)
    decreases |pattern|, |t|
  {
    if pattern == "" then t == ""
    else if pattern[0] == '%' then Like(pattern[1..], t) || (t != "" && Like(pattern, t[1..]))
    else if t == "" then false
    else if pattern[0] == '_' then Like(pattern[1..], t[1..])
    else if pattern[0] == '\\' then |pattern| > 1 && t[0] == pattern[1] && Like(pattern[2..], t[1..])
    else t[0] == pattern[0] && Like(pattern[1..], t[1..])
  }

  /** search.replace(/[\\%_]/g, "\\$&") */
  function Escape(s: string): string {
    if s == "" then "" else (if IsMeta(s[0]) then ['\\', s[0]] else [s[0]]) + Escape(s[1..])
  }

  predicate Contains(t: string, s: string) {
    exists i :: 0 <= i <= |t| - |s| && s <= t[i..]
  }

  // ----- Case folding -----

  function Fold(fold: char -> char, s: string): (r: string)
    ensures |r| == |s| && forall i :: 0 <= i < |s| ==> r[i] == fold(s[i])
  {
    seq(|s|, i requires 0 <= i < |s| => fold(s[i]))
  }

  /** What is assumed of a case fold: it is idempotent and leaves the pattern characters alone. */
  ghost predicate IsCaseFold(fold: char -> char) {
    (forall c :: fold(fold(c)) == fold(c)) && (forall c :: IsMeta(fold(c)) <==> IsMeta(c)) && (forall c :: IsMeta(c) ==> fold(c) == c)
  }

  predicate ILike(fold: char -> char, pattern: string, t: string) {
    Like(Fold(fold, pattern), Fold(fold, t))
  }

  /** The text `t` contains the search text `s`, ignoring case. */
  predicate ContainsIgnoringCase(fold: char -> char, t: string, s: string) {
    Contains(Fold(fold, t), Fold(fold, s))
  }

  function EscapedSearch(s: string): string { "%" + Escape(s) + "%" }

  function RawSearch(s: string): string { "%" + s + "%" }

  // ----- The escaped search means "contains" -----

  lemma {:induction false} PercentMatchesAll(t: string)
    ensures Like("%", t)
    decreases |t|
  {
    if t != "" {
      PercentMatchesAll(t[1..]);
    }
  }

  lemma {:induction false} EscapedPrefix(s: string, t: string)
    ensures Like(Escape(s) + "%", t) <==> s <= t
    decreases |s|
  {
    var pattern := Escape(s) + "%";
    if s == "" {
      assert pattern == "%";
      PercentMatchesAll(t);
    } else if t != "" {
      if IsMeta(s[0]) {
        assert pattern[2..] == Escape(s[1..]) + "%";
      } else {
        assert pattern[1..] == Escape(s[1..]) + "%";
      }
      EscapedPrefix(s[1..], t[1..]);
      assert s <= t <==> s[0] == t[0] && s[1..] <= t[1..];
    }
  }

  lemma {:induction false} LeadingPercent(pattern: string, t: string)
    ensures Like("%" + pattern, t) <==> exists i :: 0 <= i <= |t| && Like(pattern, t[i..])
    decreases |t|
  {
    var p := "%" + pattern;
    assert p[1..] == pattern && t[0..] == t;
    if t == "" {
      assert forall i :: 0 <= i <= |t| ==> t[i..] == t;
    } else {
      LeadingPercent(pattern, t[1..]);
      if Like(p, t[1..]) {
        var i :| 0 <= i <= |t[1..]| && Like(pattern, t[1..][i..]);
        assert t[1..][i..] == t[i + 1..];
      }
      if i :| 0 <= i <= |t| && Like(pattern, t[i..]) {
        if i > 0 {
          assert t[1..][i - 1..] == t[i..];
        }
      }
    }
  }

  lemma EscapedSearchContains(s: string, t: string)
    ensures Like(EscapedSearch(s), t) <==> Contains(t, s)
  {
    var pattern := Escape(s) + "%";
    assert EscapedSearch(s) == "%" + pattern;
    LeadingPercent(pattern, t);
    forall i | 0 <= i <= |t|
      ensures Like(pattern, t[i..]) <==> s <= t[i..]
    {
      EscapedPrefix(s, t[i..]);
    }
  }

  lemma {:induction false} FoldEscape(fold: char -> char, s: string)
    requires IsCaseFold(fold)
    ensures Fold(fold, Escape(s)) == Escape(Fold(fold, s))
  {
    if s != "" {
      assert Fold(fold, s)[1..] == Fold(fold, s[1..]);
      FoldEscape(fold, s[1..]);
    }
  }

  /** For all search texts and all values, the escaped pattern matches exactly the values that contain
      the search text, ignoring case. */
  lemma EscapedSearchMeansContains(fold: char -> char, s: string, t: string)
    requires IsCaseFold(fold)
    ensures ILike(fold, EscapedSearch(s), t) <==> ContainsIgnoringCase(fold, t, s)
  {
    FoldEscape(fold, s);
    assert IsMeta('%') && fold('%') == '%';
    assert Fold(fold, EscapedSearch(s)) == EscapedSearch(Fold(fold, s));
    EscapedSearchContains(Fold(fold, s), Fold(fold, t));
  }

  // ----- The unescaped search -----

  /** A shortest value that the unescaped pattern for `s` matches. */
  function Instance(s: string): (t: string)
    ensures |t| <= |s|
    decreases |s|
  {
    if s == "" then ""
    else if s[0] == '%' then Instance(s[1..])
    else if s[0] == '_' then "%" + Instance(s[1..])
    else if s[0] == '\\' then if |s| == 1 then "%" else [s[1]] + Instance(s[2..])
    else [s[0]] + Instance(s[1..])
  }

  lemma {:induction false} InstanceMatches(s: string)
    ensures Like(s + "%", Instance(s))
    ensures HasMeta(s) ==> Instance(s) != s
    decreases |s|
  {
    var pattern, t := s + "%", Instance(s);
    if s == "" {
      assert pattern == "%";
    } else if s == "\\" {
      assert pattern[2..] == "" && t[1..] == "";
    } else if s[0] == '\\' {
      assert pattern[2..] == s[2..] + "%" && t[1..] == Instance(s[2..]);
      InstanceMatches(s[2..]);
    } else {
      assert pattern[1..] == s[1..] + "%";
      InstanceMatches(s[1..]);
      if !IsMeta(s[0]) {
        assert t[1..] == Instance(s[1..]);
        assert HasMeta(s) ==> HasMeta(s[1..]) by {
          if i :| 0 <= i < |s| && IsMeta(s[i]) {
            assert IsMeta(s[1..][i - 1]);
          }
        }
      } else if s[0] == '_' {
        assert t[1..] == Instance(s[1..]);
      }
    }
  }

  lemma {:induction false} PlainTextEscapesToItself(s: string)
    requires !HasMeta(s)
    ensures Escape(s) == s
  {
    if s != "" {
      assert !IsMeta(s[0]);
      forall i | 0 <= i < |s[1..]|
        ensures !IsMeta(s[1..][i])
      {
        assert s[1..][i] == s[i + 1];
      }
      PlainTextEscapesToItself(s[1..]);
    }
  }

  lemma {:induction false} FoldFixesInstance(fold: char -> char, s: string)
    requires IsCaseFold(fold) && Fold(fold, s) == s
    ensures Fold(fold, Instance(s)) == Instance(s)
    decreases |s|
  {
    assert IsMeta('%') && fold('%') == '%';
    if s != "" {
      var rest := if s[0] == '\\' && |s| > 1 then s[2..] else s[1..];
      forall i | 0 <= i < |rest|
        ensures fold(rest[i]) == rest[i]
      {
        var k := i + |s| - |rest|;
        assert rest[i] == s[k] && Fold(fold, s)[k] == fold(s[k]);
      }
      FoldFixesInstance(fold, rest);
      assert fold(s[0]) == Fold(fold, s)[0];
      if |s| > 1 {
        assert fold(s[1]) == Fold(fold, s)[1];
      }
    }
  }

  lemma RawSearchOverMatches(fold: char -> char, s: string)
    requires IsCaseFold(fold) && HasMeta(s)
    ensures exists t :: ILike(fold, RawSearch(s), t) && !ContainsIgnoringCase(fold, t, s)
  {
    var folded := Fold(fold, s);
    var t := Instance(folded);
    var i :| 0 <= i < |s| && IsMeta(s[i]);
    assert IsMeta(folded[i]);
    assert Fold(fold, folded) == folded;
    FoldFixesInstance(fold, folded);
    InstanceMatches(folded);
    LeadingPercent(folded + "%", t);
    assert t[0..] == t;
    assert IsMeta('%') && fold('%') == '%';
    assert Fold(fold, RawSearch(s)) == "%" + (folded + "%");
    assert ILike(fold, RawSearch(s), t);
  }

  /** A search text put into the pattern without escaping means "contains" if and only if it holds
      none of the three pattern characters. */
  lemma RawSearchMeansContains(fold: char -> char, s: string)
    requires IsCaseFold(fold)
    ensures (forall t :: ILike(fold, RawSearch(s), t) <==> ContainsIgnoringCase(fold, t, s)) <==> !HasMeta(s)
  {
    if HasMeta(s) {
      RawSearchOverMatches(fold, s);
    } else {
      PlainTextEscapesToItself(s);
      assert RawSearch(s) == EscapedSearch(s);
      forall t
        ensures ILike(fold, RawSearch(s), t) <==> ContainsIgnoringCase(fold, t, s)
      {
        EscapedSearchMeansContains(fold, s, t);
      }
    }
  }
}
