/**
 * The string rewriting shared by `slugify` (common/src/index.ts) and the
 * content model's `generateSlug` (backend/src/models/Content.ts): character
 * filters, collapsing of character runs into one `-`, and the `SLUG`
 * pattern `^[a-z0-9]+(?:-[a-z0-9]+)*$` of the shared constants.
 */
module Slugs {
  import opened Text

  predicate IsSlugAlnum(c: char) { IsAsciiLower(c) || IsAsciiDigit(c) }

  predicate IsSlugChar(c: char) { IsSlugAlnum(c) || c == '-' }

  predicate IsDash(c: char) { c == '-' }

  /** No two adjacent characters are both dashes. */
  ghost predicate NoDoubleDash(s: string) {
    forall i, j :: 0 <= i < j < |s| && j == i + 1 ==> s[i] != '-' || s[j] != '-'
  }

  /** Lower-case letters, digits and single inner dashes, with no dash at either end. */
  ghost predicate SlugShape(s: string) {
    && (forall i :: 0 <= i < |s| ==> IsSlugChar(s[i]))
    && NoDoubleDash(s)
    && (s != [] ==> s[0] != '-' && s[|s| - 1] != '-')
  }

  /** The length of the longest prefix of `s` made of `[a-z0-9]`. */
  function AlnumPrefix(s: string): (k: nat)
    ensures k <= |s|
    ensures forall i :: 0 <= i < k ==> IsSlugAlnum(s[i])
    ensures k < |s| ==> !IsSlugAlnum(s[k])
  {
    if s != [] && IsSlugAlnum(s[0]) then 1 + AlnumPrefix(s[1..]) else 0
  }

  /**
   * The `SLUG` regular expression as a grammar: a run of `[a-z0-9]`, then
   * either the end or a `-` followed by another match.
   */
  predicate MatchesSlugPattern(s: string)
    decreases |s|
  {
    var k := AlnumPrefix(s);
    k >= 1 && (k == |s| || (s[k] == '-' && MatchesSlugPattern(s[k + 1..])))
  }

  /** The pattern accepts exactly the non-empty strings of slug shape. */
  lemma SlugPatternIff(s: string)
    ensures MatchesSlugPattern(s) <==> s != [] && SlugShape(s)
  {
    if MatchesSlugPattern(s) {
      MatchImpliesShape(s);
    }
    if s != [] && SlugShape(s) {
      ShapeImpliesMatch(s);
    }
  }

  lemma {:induction false} MatchImpliesShape(s: string)
    requires MatchesSlugPattern(s)
    ensures s != [] && SlugShape(s)
    decreases |s|
  {
    var k := AlnumPrefix(s);
    if k < |s| {
      MatchImpliesShape(s[k + 1..]);
      JoinShape(s, k);
    }
  }

  lemma {:induction false} ShapeImpliesMatch(s: string)
    requires s != [] && SlugShape(s)
    ensures MatchesSlugPattern(s)
    decreases |s|
  {
    var k := AlnumPrefix(s);
    assert IsSlugAlnum(s[0]);
    if k < |s| {
      SplitShape(s);
      ShapeImpliesMatch(s[k + 1..]);
    }
  }

  /** An alphanumeric run, a dash and a slug make a slug. */
  lemma JoinShape(s: string, k: nat)
    requires 1 <= k < |s| && s[k] == '-'
    requires forall i :: 0 <= i < k ==> IsSlugAlnum(s[i])
    requires s[k + 1..] != [] && SlugShape(s[k + 1..])
    ensures SlugShape(s)
  {
    var t := s[k + 1..];
    forall i | 0 <= i < |s| ensures IsSlugChar(s[i]) {
      if i > k {
        assert s[i] == t[i - k - 1];
      }
    }
    forall i, j | 0 <= i < j < |s| && j == i + 1 ensures s[i] != '-' || s[j] != '-' {
      if i > k {
        assert s[i] == t[i - k - 1] && s[j] == t[j - k - 1];
      } else if i == k {
        assert s[j] == t[0];
      }
    }
    assert s[|s| - 1] == t[|t| - 1];
  }

  /** A slug with a dash splits after its first alphanumeric run into that run, a dash and a slug. */
  lemma SplitShape(s: string)
    requires s != [] && SlugShape(s) && AlnumPrefix(s) < |s|
    ensures var k := AlnumPrefix(s);
            k >= 1 && s[k] == '-' && k + 1 < |s| && SlugShape(s[k + 1..])
  {
    var k := AlnumPrefix(s);
    assert IsSlugAlnum(s[0]);
    assert s[k] == '-';
    var t := s[k + 1..];
    forall i | 0 <= i < |t| ensures IsSlugChar(t[i]) {
      assert t[i] == s[k + 1 + i];
    }
    forall i, j | 0 <= i < j < |t| && j == i + 1 ensures t[i] != '-' || t[j] != '-' {
      assert t[i] == s[k + 1 + i] && t[j] == s[k + 1 + j];
    }
    assert t[0] == s[k + 1];
    assert t[|t| - 1] == s[|s| - 1];
  }

  /** The characters of `s` that `keep` accepts, in order. */
  function Filter(s: string, keep: char -> bool): (r: string)
    ensures forall i :: 0 <= i < |r| ==> keep(r[i]) && r[i] in s
  {
    if s == [] then []
    else (if keep(s[0]) then [s[0]] else []) + Filter(s[1..], keep)
  }

  lemma {:induction false} FilterKeepsAll(s: string, keep: char -> bool)
    requires forall i :: 0 <= i < |s| ==> keep(s[i])
    ensures Filter(s, keep) == s
  {
    if s != [] {
      FilterKeepsAll(s[1..], keep);
    }
  }

  /** `s` without its leading run of characters in `inRun`. */
  function DropRun(s: string, inRun: char -> bool): (r: string)
    ensures |r| <= |s| && r == s[|s| - |r|..]
    ensures r == [] || !inRun(r[0])
  {
    if s != [] && inRun(s[0]) then DropRun(s[1..], inRun) else s
  }

  /** `replace(/[class]+/g, '-')`: every maximal run of characters in `inRun` becomes one `-`. */
  function CollapseRuns(s: string, inRun: char -> bool): (r: string)
    ensures forall i :: 0 <= i < |r| ==> r[i] == '-' || (!inRun(r[i]) && r[i] in s)
    ensures inRun('-') ==> NoDoubleDash(r)
    ensures s == [] <==> r == []
    ensures s != [] && !inRun(s[0]) ==> r[0] == s[0]
    decreases |s|
  {
    if s == [] then []
    else if inRun(s[0]) then
      var t := DropRun(s[1..], inRun);
      var rest := CollapseRuns(t, inRun);
      SuffixChars(s, t);
      PrependChar('-', rest, t, s, inRun);
      "-" + rest
    else
      var rest := CollapseRuns(s[1..], inRun);
      SuffixChars(s, s[1..]);
      PrependChar(s[0], rest, s[1..], s, inRun);
      [s[0]] + rest
  }

  /** Every character of a suffix occurs in the whole. */
  lemma SuffixChars(s: string, t: string)
    requires |t| <= |s| && t == s[|s| - |t|..]
    ensures forall c :: c in t ==> c in s
  {
    forall c | c in t ensures c in s {
      var j :| 0 <= j < |t| && t[j] == c;
      assert s[|s| - |t| + j] == c;
    }
  }

  /** One step of `CollapseRuns`: prepending the output character keeps its guarantees. */
  lemma PrependChar(c: char, rest: string, t: string, s: string, inRun: char -> bool)
    requires c == '-' || (!inRun(c) && c in s)
    requires forall x :: x in t ==> x in s
    requires forall i :: 0 <= i < |rest| ==> rest[i] == '-' || (!inRun(rest[i]) && rest[i] in t)
    requires inRun('-') ==> NoDoubleDash(rest) && (c == '-' ==> rest == [] || rest[0] != '-')
    ensures var r := [c] + rest;
            forall i :: 0 <= i < |r| ==> r[i] == '-' || (!inRun(r[i]) && r[i] in s)
    ensures inRun('-') ==> NoDoubleDash([c] + rest)
  {
    var r := [c] + rest;
    forall i | 0 < i < |r| ensures r[i] == '-' || (!inRun(r[i]) && r[i] in s) {
      assert r[i] == rest[i - 1];
    }
    if inRun('-') {
      forall i, j | 0 <= i < j < |r| && j == i + 1 ensures r[i] != '-' || r[j] != '-' {
        if i > 0 {
          assert r[i] == rest[i - 1] && r[j] == rest[j - 1];
        } else {
          assert r[j] == rest[0];
        }
      }
    }
  }

  /** Collapsing dash runs changes nothing in a string whose only run characters are lone dashes. */
  lemma {:induction false} CollapseRunsFixes(s: string, inRun: char -> bool)
    requires inRun('-')
    requires forall i :: 0 <= i < |s| ==> inRun(s[i]) ==> s[i] == '-'
    requires NoDoubleDash(s)
    ensures CollapseRuns(s, inRun) == s
    decreases |s|
  {
    if s != [] {
      var t := s[1..];
      LoneDashesInTail(s, inRun);
      CollapseRunsFixes(t, inRun);
      if inRun(s[0]) {
        assert t != [] ==> t[0] == s[1] && s[1] != '-';
        assert DropRun(t, inRun) == t;
        assert CollapseRuns(s, inRun) == "-" + CollapseRuns(t, inRun);
      } else {
        assert CollapseRuns(s, inRun) == [s[0]] + CollapseRuns(t, inRun);
      }
    }
  }

  lemma LoneDashesInTail(s: string, inRun: char -> bool)
    requires s != []
    requires forall i :: 0 <= i < |s| ==> inRun(s[i]) ==> s[i] == '-'
    requires NoDoubleDash(s)
    ensures forall i :: 0 <= i < |s[1..]| ==> inRun(s[1..][i]) ==> s[1..][i] == '-'
    ensures NoDoubleDash(s[1..])
  {
    var t := s[1..];
    forall i, j | 0 <= i < j < |t| && j == i + 1 ensures t[i] != '-' || t[j] != '-' {
      assert t[i] == s[i + 1] && t[j] == s[j + 1];
    }
    forall i | 0 <= i < |t| ensures inRun(t[i]) ==> t[i] == '-' {
      assert t[i] == s[i + 1];
    }
  }

  /** Collapsing runs changes nothing in a string with no run characters at all. */
  lemma {:induction false} CollapseRunsWithoutRuns(s: string, inRun: char -> bool)
    requires forall i :: 0 <= i < |s| ==> !inRun(s[i])
    ensures CollapseRuns(s, inRun) == s
    decreases |s|
  {
    if s != [] {
      assert forall i :: 0 <= i < |s[1..]| ==> !inRun(s[1..][i]) by {
        forall i | 0 <= i < |s[1..]| ensures !inRun(s[1..][i]) {
          assert s[1..][i] == s[i + 1];
        }
      }
      CollapseRunsWithoutRuns(s[1..], inRun);
      assert CollapseRuns(s, inRun) == [s[0]] + CollapseRuns(s[1..], inRun);
    }
  }

  /** `replace(/^-+|-+$/g, '')`: the leading and the trailing run of dashes removed. */
  function StripDashes(s: string): (r: string)
    ensures exists a, b :: 0 <= a <= b <= |s| && r == s[a..b]
    ensures r == [] || (r[0] != '-' && r[|r| - 1] != '-')
    ensures s == [] || (s[0] != '-' && s[|s| - 1] != '-') ==> r == s
  {
    var l := StripLeadingDashes(s);
    var r := StripTrailingDashes(l);
    assert r == s[|s| - |l|..|s| - |l| + |r|];
    r
  }

  function StripLeadingDashes(s: string): (r: string)
    ensures |r| <= |s| && r == s[|s| - |r|..]
    ensures r == [] || r[0] != '-'
  {
    if s != [] && s[0] == '-' then StripLeadingDashes(s[1..]) else s
  }

  function StripTrailingDashes(s: string): (r: string)
    ensures |r| <= |s| && r == s[..|r|]
    ensures r == [] || r[|r| - 1] != '-'
    ensures s != [] && s[|s| - 1] != '-' ==> r == s
  {
    if s != [] && s[|s| - 1] == '-' then StripTrailingDashes(s[..|s| - 1]) else s
  }

  /** A slice of a string without double dashes has none either, and keeps its characters. */
  lemma SliceKeepsSlugChars(s: string, a: nat, b: nat)
    requires a <= b <= |s|
    requires NoDoubleDash(s) && forall i :: 0 <= i < |s| ==> IsSlugChar(s[i])
    ensures NoDoubleDash(s[a..b]) && forall i :: 0 <= i < b - a ==> IsSlugChar(s[a..b][i])
  {
    var t := s[a..b];
    forall i, j | 0 <= i < j < |t| && j == i + 1
      ensures t[i] != '-' || t[j] != '-'
    {
      assert t[i] == s[a + i] && t[j] == s[a + j];
    }
  }
}
