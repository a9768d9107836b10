/**
 * SQLite's `LIKE` operator with its default settings: `%` matches any run of
 * characters, `_` any single character, and every other pattern character
 * matches the same character up to ASCII case.  `search_expenses` wraps the
 * keyword as `'%' + keyword + '%'`, which for a keyword free of wildcards is
 * a case-insensitive substring test.
 */
module Patterns {
  import opened Text

  /**
   * `s LIKE p`.  Only `%` can absorb a run of characters, so a pattern
   * without wildcards matches only text of its own length.
   */
  predicate Like(p: string, s: string)
    ensures Like(p, s) && NoWildcards(p) ==> |s| == |p|
    decreases |p| + |s|
  {
    if |p| == 0 then |s| == 0
    else if p[0] == '%' then Like(p[1..], s) || (|s| > 0 && Like(p, s[1..]))
    else if |s| == 0 then false
    else if p[0] == '_' then Like(p[1..], s[1..])
    else FoldCase(p[0]) == FoldCase(s[0]) && Like(p[1..], s[1..])
  }

  /** The keyword contains neither `%` nor `_`. */
  predicate NoWildcards(k: string) {
    forall j :: 0 <= j < |k| ==> k[j] != '%' && k[j] != '_'
  }

  /** `k` occurs in `s` at offset `i`, up to ASCII case. */
  predicate OccursAt(s: string, k: string, i: int) {
    0 <= i && i + |k| <= |s| && forall j :: 0 <= j < |k| ==> FoldCase(s[i + j]) == FoldCase(k[j])
  }

  /** `k` occurs somewhere in `s`, up to ASCII case. */
  predicate ContainsFolded(s: string, k: string) {
    exists i :: 0 <= i <= |s| - |k| && OccursAt(s, k, i)
  }

  /** The pattern of `search_expenses`. */
  function SearchPattern(keyword: string): (p: string)
    ensures |p| == |keyword| + 2 && p[0] == '%' && p[|p| - 1] == '%'
    ensures p[1..|p| - 1] == keyword
  {
    "%" + keyword + "%"
  }

  /** A pattern without wildcards matches exactly the text that spells it, up to ASCII case. */
  lemma {:induction false} LiteralPattern(p: string, s: string)
    requires NoWildcards(p)
    ensures Like(p, s) <==> |s| == |p| && OccursAt(s, p, 0)
    decreases |p|
  {
    if |p| > 0 && |s| > 0 {
      assert NoWildcards(p[1..]) by {
        forall j | 0 <= j < |p| - 1
          ensures p[1..][j] != '%' && p[1..][j] != '_'
        {
          assert p[1..][j] == p[j + 1];
        }
      }
      LiteralPattern(p[1..], s[1..]);
      assert p[0] != '%' && p[0] != '_';
      if |s| == |p| && OccursAt(s, p, 0) {
        assert FoldCase(s[0]) == FoldCase(p[0]);
        assert OccursAt(s[1..], p[1..], 0) by {
          forall j | 0 <= j < |p| - 1
            ensures FoldCase(s[1..][j]) == FoldCase(p[1..][j])
          {
            assert FoldCase(s[j + 1]) == FoldCase(p[j + 1]);
          }
        }
      }
      if Like(p, s) {
        assert OccursAt(s, p, 0) by {
          forall j | 0 <= j < |p|
            ensures FoldCase(s[j]) == FoldCase(p[j])
          {
            if j > 0 {
              assert s[1..][j - 1] == s[j] && p[1..][j - 1] == p[j];
            }
          }
        }
      }
    } else if |p| > 0 {
      assert p[0] != '%';
    }
  }

  /** A lone `%` matches every string. */
  lemma {:induction false} PercentMatchesAll(s: string)
    ensures Like("%", s)
    decreases |s|
  {
    if |s| > 0 {
      PercentMatchesAll(s[1..]);
    }
  }

  /** A wildcard-free `k` followed by `%` matches exactly the strings that start with `k`. */
  lemma {:induction false} PrefixPattern(k: string, s: string)
    requires NoWildcards(k)
    ensures Like(k + "%", s) <==> OccursAt(s, k, 0)
    decreases |k|
  {
    if |k| == 0 {
      assert k + "%" == "%";
      PercentMatchesAll(s);
    } else {
      var p := k + "%";
      assert p[0] == k[0] && p[1..] == k[1..] + "%";
      if |s| > 0 {
        PrefixPattern(k[1..], s[1..]);
        if OccursAt(s[1..], k[1..], 0) && FoldCase(s[0]) == FoldCase(k[0]) {
          assert forall j :: 0 <= j < |k| ==> FoldCase(s[j]) == FoldCase(k[j]) by {
            forall j | 0 <= j < |k|
              ensures FoldCase(s[j]) == FoldCase(k[j])
            {
              if j > 0 {
                assert s[1..][j - 1] == s[j] && k[1..][j - 1] == k[j];
              }
            }
          }
        }
        if OccursAt(s, k, 0) {
          assert FoldCase(s[0]) == FoldCase(k[0]);
          assert forall j :: 0 <= j < |k| - 1 ==> FoldCase(s[1..][j]) == FoldCase(k[1..][j]) by {
            forall j | 0 <= j < |k| - 1
              ensures FoldCase(s[1..][j]) == FoldCase(k[1..][j])
            {
              assert FoldCase(s[j + 1]) == FoldCase(k[j + 1]);
            }
          }
        }
      }
    }
  }

  /** A leading `%` lets the rest of the pattern match any suffix. */
  lemma {:induction false} LeadingPercent(q: string, s: string)
    ensures Like("%" + q, s) <==> exists i :: 0 <= i <= |s| && Like(q, s[i..])
    decreases |s|
  {
    var p := "%" + q;
    assert p[1..] == q;
    assert s[0..] == s;
    if |s| > 0 {
      LeadingPercent(q, s[1..]);
      if Like(p, s[1..]) {
        var i :| 0 <= i <= |s[1..]| && Like(q, s[1..][i..]);
        assert s[1..][i..] == s[i + 1..];
      }
      if exists i :: 0 <= i <= |s| && Like(q, s[i..]) {
        var i :| 0 <= i <= |s| && Like(q, s[i..]);
        if i > 0 {
          assert s[1..][i - 1..] == s[i..];
        }
      }
    }
  }

  /**
   * `description LIKE '%k%'` holds exactly when `k` occurs in the
   * description up to ASCII case, for a keyword without wildcards.
   */
  lemma SearchPatternIsContainment(k: string, s: string)
    requires NoWildcards(k)
    ensures Like(SearchPattern(k), s) <==> ContainsFolded(s, k)
  {
    assert SearchPattern(k) == "%" + (k + "%");
    LeadingPercent(k + "%", s);
    if Like(SearchPattern(k), s) {
      var i :| 0 <= i <= |s| && Like(k + "%", s[i..]);
      PrefixPattern(k, s[i..]);
      assert OccursAt(s, k, i) by {
        forall j | 0 <= j < |k|
          ensures FoldCase(s[i + j]) == FoldCase(k[j])
        {
          assert s[i..][j] == s[i + j];
        }
      }
    }
    if ContainsFolded(s, k) {
      var i :| 0 <= i <= |s| - |k| && OccursAt(s, k, i);
      PrefixPattern(k, s[i..]);
      assert OccursAt(s[i..], k, 0) by {
        forall j | 0 <= j < |k|
          ensures FoldCase(s[i..][j]) == FoldCase(k[j])
        {
          assert s[i..][j] == s[i + j];
        }
      }
    }
  }

  /** The pattern `%%` of an empty keyword matches every description. */
  lemma EmptyKeywordMatchesAll(s: string)
    ensures Like(SearchPattern(""), s)
  {
    SearchPatternIsContainment("", s);
    assert OccursAt(s, "", 0);
  }
}
