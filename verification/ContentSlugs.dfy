/**
 * How a catalogue entry's slug is generated (backend/src/models/Content.ts,
 * `generateSlug`): a base derived from the title, a dash, and the instant of
 * generation in decimal.
 */
module ContentSlugs {
  import opened Wrappers
  import opened Text
  import opened Slugs

  /** Characters `[^a-z0-9\s-]` does not remove. */
  predicate IsBaseKept(c: char) { IsAsciiLower(c) || IsAsciiDigit(c) || IsJsWhitespace(c) || c == '-' }

  /**
   * The base of `generateSlug`: lower-case, drop everything but
   * `[a-z0-9]`, whitespace and dashes, trim, turn each whitespace run into
   * a dash, then each dash run into one dash.
   */
  function BaseSlug(title: string): (r: string)
    ensures forall i :: 0 <= i < |r| ==> IsSlugChar(r[i])
    ensures NoDoubleDash(r)
  {
    BaseSlugChars(title);
    CollapseRuns(CollapseRuns(Trim(Filter(ToLower(title), IsBaseKept)), IsJsWhitespace), IsDash)
  }

  lemma BaseSlugChars(title: string)
    ensures var r := CollapseRuns(CollapseRuns(Trim(Filter(ToLower(title), IsBaseKept)), IsJsWhitespace), IsDash);
            forall i :: 0 <= i < |r| ==> IsSlugChar(r[i])
  {
    var trimmed := Trim(Filter(ToLower(title), IsBaseKept));
    TrimmedKeptChars(title);
    SpacedChars(trimmed);
    DashedChars(CollapseRuns(trimmed, IsJsWhitespace));
  }

  lemma TrimmedKeptChars(title: string)
    ensures var t := Trim(Filter(ToLower(title), IsBaseKept));
            forall i :: 0 <= i < |t| ==> IsBaseKept(t[i])
  {
    var kept := Filter(ToLower(title), IsBaseKept);
    var t := Trim(kept);
    forall i | 0 <= i < |t| ensures IsBaseKept(t[i]) {
      var k :| 0 <= k < |kept| && kept[k] == t[i];
    }
  }

  lemma SpacedChars(t: string)
    requires forall i :: 0 <= i < |t| ==> IsBaseKept(t[i])
    ensures var r := CollapseRuns(t, IsJsWhitespace);
            forall i :: 0 <= i < |r| ==> IsSlugChar(r[i])
  {
    var r := CollapseRuns(t, IsJsWhitespace);
    forall i | 0 <= i < |r| ensures IsSlugChar(r[i]) {
      if r[i] != '-' {
        var j :| 0 <= j < |t| && t[j] == r[i];
      }
    }
  }

  lemma DashedChars(t: string)
    requires forall i :: 0 <= i < |t| ==> IsSlugChar(t[i])
    ensures var r := CollapseRuns(t, IsDash);
            forall i :: 0 <= i < |r| ==> IsSlugChar(r[i])
  {
    var r := CollapseRuns(t, IsDash);
    forall i | 0 <= i < |r| ensures IsSlugChar(r[i]) {
      if r[i] != '-' {
        var j :| 0 <= j < |t| && t[j] == r[i];
      }
    }
  }

  /** A title already of slug shape is its own base. */
  lemma BaseSlugKeepsSlugs(title: string)
    requires SlugShape(title)
    ensures BaseSlug(title) == title
  {
    BaseLowerTrimKeeps(title);
    WhitespaceCollapseKeeps(title);
    DashCollapseKeeps(title);
  }

  lemma WhitespaceCollapseKeeps(title: string)
    requires SlugShape(title)
    ensures CollapseRuns(title, IsJsWhitespace) == title
  {
    CollapseRunsWithoutRuns(title, IsJsWhitespace);
  }

  lemma DashCollapseKeeps(title: string)
    requires SlugShape(title)
    ensures CollapseRuns(title, IsDash) == title
  {
    CollapseRunsFixes(title, IsDash);
  }

  lemma BaseLowerTrimKeeps(title: string)
    requires SlugShape(title)
    ensures Trim(Filter(ToLower(title), IsBaseKept)) == title
  {
    LowerKeepsSlugs(title);
    BaseFilterKeepsSlugs(title);
    TrimKeepsUnpadded(title);
  }

  lemma LowerKeepsSlugs(title: string)
    requires SlugShape(title)
    ensures ToLower(title) == title
  {
    ToLowerKeepsLowerText(title);
  }

  lemma BaseFilterKeepsSlugs(title: string)
    requires SlugShape(title)
    ensures Filter(title, IsBaseKept) == title
  {
    FilterKeepsAll(title, IsBaseKept);
  }

  /**
   * `generateSlug`: the base, a dash, and the decimal instant of generation.
   * The instant adds no dash, so the slug's last dash is the one that ends
   * the title's base.
   */
  function GenerateSlug(title: string, now: nat): (r: string)
    ensures LastDash(r) == Some(|BaseSlug(title)|)
  {
    StampLastDash(BaseSlug(title), now);
    Stamp(BaseSlug(title), now)
  }

  /** A base, a dash, and the decimal instant. */
  function Stamp(base: string, now: nat): string {
    base + "-" + Decimal(now)
  }

  lemma StampLastDash(base: string, now: nat)
    ensures LastDash(Stamp(base, now)) == Some(|base|)
  {
    var d := Decimal(now);
    var s := Stamp(base, now);
    assert s[|base|] == '-';
    assert forall j :: |base| < j < |s| ==> s[j] == d[j - |base| - 1];
    var i := LastDash(s).value;
    assert i == |base|;
  }

  /** Every character of a generated slug is a lower-case letter, a digit or a dash. */
  lemma GenerateSlugChars(title: string, now: nat)
    ensures var slug := GenerateSlug(title, now);
            forall i :: 0 <= i < |slug| ==> IsSlugChar(slug[i])
  {
    StampedChars(BaseSlug(title), now);
  }

  lemma StampedChars(base: string, now: nat)
    requires forall i :: 0 <= i < |base| ==> IsSlugChar(base[i])
    ensures var s := Stamp(base, now);
            forall i :: 0 <= i < |s| ==> IsSlugChar(s[i])
  {
    var d := Decimal(now);
    var s := base + "-" + d;
    forall i | 0 <= i < |s| ensures IsSlugChar(s[i]) {
      if i > |base| {
        assert s[i] == d[i - |base| - 1];
      }
    }
  }

  /** The index of the last dash of `s`, if any. */
  function LastDash(s: string): (r: Option<nat>)
    ensures r.Some? ==> r.value < |s| && s[r.value] == '-' && forall j :: r.value < j < |s| ==> s[j] != '-'
    ensures r.None? ==> forall j :: 0 <= j < |s| ==> s[j] != '-'
  {
    if s == [] then None
    else if s[|s| - 1] == '-' then Some(|s| - 1)
    else LastDash(s[..|s| - 1])
  }

  /** Splits a generated slug into its base and the instant after its last dash. */
  function SplitSlug(slug: string): Option<(string, nat)> {
    match LastDash(slug)
    case None => None
    case Some(i) =>
      var digits := slug[i + 1..];
      if digits != [] && AllDigits(digits) then Some((slug[..i], DigitsValue(digits))) else None
  }

  /** A generated slug splits back into the base of its title and the instant it was generated at. */
  lemma GenerateSlugRoundTrip(title: string, now: nat)
    ensures SplitSlug(GenerateSlug(title, now)) == Some((BaseSlug(title), now))
  {
    DecimalRoundTrip(now);
    SplitAfterLastDash(BaseSlug(title), Decimal(now));
  }

  lemma SplitAfterLastDash(base: string, digits: string)
    requires digits != [] && AllDigits(digits)
    ensures SplitSlug(base + "-" + digits) == Some((base, DigitsValue(digits)))
  {
    var slug := base + "-" + digits;
    assert slug[|base|] == '-';
    assert forall j :: |base| < j < |slug| ==> slug[j] == digits[j - |base| - 1];
    var i := LastDash(slug).value;
    assert i == |base|;
    assert slug[i + 1..] == digits;
    assert slug[..i] == base;
  }

  /** An empty title yields a slug that starts with a dash, so it does not match the `SLUG` pattern. */
  lemma EmptyTitleSlugBreaksPattern(now: nat)
    ensures GenerateSlug("", now) == "-" + Decimal(now)
    ensures !MatchesSlugPattern(GenerateSlug("", now))
  {
    EmptyTitleBase();
  }

  lemma EmptyTitleBase()
    ensures BaseSlug("") == ""
  {
    assert Trim(Filter(ToLower(""), IsBaseKept)) == "";
  }
}
