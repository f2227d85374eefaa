/**
 * The pure helpers exported by the shared package (common/src/index.ts):
 * duration formatting, `slugify`, the e-mail and password patterns, the
 * watch percentage and the two display lookup tables.
 */
module CommonUtils {
  import opened Wrappers
  import opened Text
  import opened Slugs
  import opened ContentTypes

  // ---------------------------------------------------------------- durations

  /** The `:`-separated fields of `s`, as `s.split(':')` returns them. */
  function SplitColons(s: string): (r: seq<string>)
    ensures |r| >= 1
    decreases |s|
  {
    if s == [] then [[]]
    else
      var rest := SplitColons(s[1..]);
      if s[0] == ':' then [[]] + rest else [[s[0]] + rest[0]] + rest[1..]
  }

  lemma {:induction false} SplitWithoutColon(a: string)
    requires ':' !in a
    ensures SplitColons(a) == [a]
    decreases |a|
  {
    if a != [] {
      assert ':' !in a[1..] by {
        forall c | c in a[1..] ensures c != ':' {
          var j :| 0 <= j < |a[1..]| && a[1..][j] == c;
          assert a[j + 1] == c;
        }
      }
      SplitWithoutColon(a[1..]);
      assert a[0] != ':';
      assert [a[0]] + a[1..] == a;
    }
  }

  lemma {:induction false} SplitAtColon(a: string, b: string)
    requires ':' !in a
    ensures SplitColons(a + ":" + b) == [a] + SplitColons(b)
    decreases |a|
  {
    if a == [] {
      assert (a + ":" + b)[1..] == b;
    } else {
      assert (a + ":" + b)[1..] == a[1..] + ":" + b;
      assert ':' !in a[1..] by {
        forall c | c in a[1..] ensures c != ':' {
          var j :| 0 <= j < |a[1..]| && a[1..][j] == c;
          assert a[j + 1] == c;
        }
      }
      SplitAtColon(a[1..], b);
      assert (a + ":" + b)[0] == a[0] && a[0] != ':';
      assert [a[0]] + a[1..] == a;
    }
  }

  lemma DigitsHaveNoColon(s: string)
    requires AllDigits(s)
    ensures ':' !in s
  {
  }

  /** `formatDuration`: `H:MM:SS` from one hour on, `M:SS` below, for a whole number of seconds. */
  function FormatDuration(seconds: nat): (r: string)
    ensures forall i :: 0 <= i < |r| ==> IsAsciiDigit(r[i]) || r[i] == ':'
  {
    var hours := seconds / 3600;
    var minutes := (seconds % 3600) / 60;
    var remainingSeconds := seconds % 60;
    if hours > 0 then
      Decimal(hours) + ":" + PadStart2(Decimal(minutes)) + ":" + PadStart2(Decimal(remainingSeconds))
    else
      Decimal(minutes) + ":" + PadStart2(Decimal(remainingSeconds))
  }

  /** A two-digit field denoting less than 60. */
  predicate IsSexagesimalField(f: string) {
    |f| == 2 && AllDigits(f) && DigitsValue(f) < 60
  }

  /** Reads back the output of `FormatDuration`: `M:SS` or `H:MM:SS` with `H` at least 1. */
  function ParseDuration(s: string): Option<nat> {
    var f := SplitColons(s);
    if |f| == 2 && f[0] != [] && AllDigits(f[0]) && IsSexagesimalField(f[1]) then
      Some(DigitsValue(f[0]) * 60 + DigitsValue(f[1]))
    else if |f| == 3 && f[0] != [] && AllDigits(f[0]) && DigitsValue(f[0]) >= 1
            && IsSexagesimalField(f[1]) && IsSexagesimalField(f[2]) then
      Some(DigitsValue(f[0]) * 3600 + DigitsValue(f[1]) * 60 + DigitsValue(f[2]))
    else
      None
  }

  /** Zero-padding a number below 60 gives a two-digit field with the same value. */
  lemma PaddedField(n: nat)
    requires n < 60
    ensures IsSexagesimalField(PadStart2(Decimal(n))) && DigitsValue(PadStart2(Decimal(n))) == n
  {
    DecimalLength(n);
    DecimalRoundTrip(n);
    if n < 10 {
      LeadingZeroKeepsValue(Decimal(n));
    }
  }

  /** The hour, minute and second fields of `FormatDuration` recombine to the input. */
  lemma DurationArithmetic(seconds: nat)
    ensures (seconds % 3600) / 60 < 60 && seconds % 60 < 60
    ensures (seconds / 3600) * 3600 + ((seconds % 3600) / 60) * 60 + seconds % 60 == seconds
    ensures seconds < 3600 ==> seconds / 3600 == 0 && (seconds / 60) == (seconds % 3600) / 60
  {
    var h, rest := seconds / 3600, seconds % 3600;
    assert seconds == h * 3600 + rest;
    var m, sec := rest / 60, rest % 60;
    assert rest == m * 60 + sec;
    assert seconds % 60 == sec by {
      assert seconds == (h * 60 + m) * 60 + sec;
    }
  }

  /** Below one hour the format is `M:SS`, and its two fields recombine to the input. */
  lemma ShortDurationFields(seconds: nat)
    requires seconds < 3600
    ensures var f := SplitColons(FormatDuration(seconds));
            && |f| == 2 && f[0] != [] && AllDigits(f[0]) && IsSexagesimalField(f[1])
            && DigitsValue(f[0]) * 60 + DigitsValue(f[1]) == seconds
  {
    DurationArithmetic(seconds);
    var minutes := (seconds % 3600) / 60;
    var rem := seconds % 60;
    var sec := PadStart2(Decimal(rem));
    PaddedField(rem);
    DigitsHaveNoColon(sec);
    SplitWithoutColon(sec);
    var m := Decimal(minutes);
    DecimalRoundTrip(minutes);
    DigitsHaveNoColon(m);
    SplitAtColon(m, sec);
    assert FormatDuration(seconds) == m + ":" + sec;
  }

  /** From one hour on the format is `H:MM:SS` with `H` at least 1, and its three fields recombine to the input. */
  lemma LongDurationFields(seconds: nat)
    requires seconds >= 3600
    ensures var f := SplitColons(FormatDuration(seconds));
            && |f| == 3 && f[0] != [] && AllDigits(f[0]) && DigitsValue(f[0]) >= 1
            && IsSexagesimalField(f[1]) && IsSexagesimalField(f[2])
            && DigitsValue(f[0]) * 3600 + DigitsValue(f[1]) * 60 + DigitsValue(f[2]) == seconds
  {
    DurationArithmetic(seconds);
    var hours := seconds / 3600;
    var minutes := (seconds % 3600) / 60;
    var rem := seconds % 60;
    var sec := PadStart2(Decimal(rem));
    PaddedField(rem);
    DigitsHaveNoColon(sec);
    SplitWithoutColon(sec);
    var h := Decimal(hours);
    var m := PadStart2(Decimal(minutes));
    PaddedField(minutes);
    DecimalRoundTrip(hours);
    DigitsHaveNoColon(h);
    DigitsHaveNoColon(m);
    SplitAtColon(m, sec);
    SplitAtColon(h, m + ":" + sec);
    assert FormatDuration(seconds) == h + ":" + (m + ":" + sec);
  }

  /** Reading a formatted duration back yields the seconds it was made from. */
  lemma DurationRoundTrip(seconds: nat)
    ensures ParseDuration(FormatDuration(seconds)) == Some(seconds)
  {
    if seconds < 3600 {
      ShortDurationFields(seconds);
    } else {
      LongDurationFields(seconds);
    }
  }

  // ---------------------------------------------------------------- slugify

  /** Characters `[^\w\s-]` does not remove. */
  predicate IsSlugifyKept(c: char) { IsWordChar(c) || IsJsWhitespace(c) || c == '-' }

  /** Characters of a `[\s_-]+` run. */
  predicate IsSlugifySeparator(c: char) { IsJsWhitespace(c) || c == '_' || c == '-' }

  /**
   * `slugify`: lower-case, trim, drop everything but word characters,
   * whitespace and dashes, turn every run of whitespace, `_` and `-` into one
   * dash, and strip dashes from both ends.
   */
  function Slugify(text: string): (r: string)
    ensures SlugShape(r)
  {
    StrippedKeepsShape(SlugifyCollapse(text));
    StripDashes(SlugifyCollapse(text))
  }

  /** The steps of `slugify` before the dashes at either end are stripped. */
  function SlugifyCollapse(text: string): (r: string)
    ensures forall i :: 0 <= i < |r| ==> IsSlugChar(r[i])
    ensures NoDoubleDash(r)
  {
    CollapsedSlugChars(text);
    CollapseRuns(Filter(Trim(ToLower(text)), IsSlugifyKept), IsSlugifySeparator)
  }

  lemma CollapsedSlugChars(text: string)
    ensures var r := CollapseRuns(Filter(Trim(ToLower(text)), IsSlugifyKept), IsSlugifySeparator);
            forall i :: 0 <= i < |r| ==> IsSlugChar(r[i])
  {
    var lowered := Trim(ToLower(text));
    var kept := Filter(lowered, IsSlugifyKept);
    NoUpperCarries(ToLower(text), lowered);
    NoUpperCarries(lowered, kept);
    var collapsed := CollapseRuns(kept, IsSlugifySeparator);
    NoUpperCarries(kept, collapsed);
    assert forall i :: 0 <= i < |collapsed| ==> collapsed[i] == '-' || IsSlugifyKept(collapsed[i]);
  }

  /** Stripping the end dashes of a string of slug characters without double dashes leaves a string of slug shape. */
  lemma StrippedKeepsShape(s: string)
    requires forall i :: 0 <= i < |s| ==> IsSlugChar(s[i])
    requires NoDoubleDash(s)
    ensures SlugShape(StripDashes(s))
  {
    var r := StripDashes(s);
    var a, b :| 0 <= a <= b <= |s| && r == s[a..b];
    SliceKeepsSlugChars(s, a, b);
  }

  /** Characters drawn from a string without ASCII upper case are not ASCII upper case, and keep the filters' classes. */
  lemma NoUpperCarries(s: string, t: string)
    requires forall i :: 0 <= i < |s| ==> !IsAsciiUpper(s[i])
    requires forall i :: 0 <= i < |t| ==> t[i] == '-' || t[i] in s
    ensures forall i :: 0 <= i < |t| ==> !IsAsciiUpper(t[i])
  {
    forall i | 0 <= i < |t| ensures !IsAsciiUpper(t[i]) {
      if t[i] != '-' {
        var j :| 0 <= j < |s| && s[j] == t[i];
      }
    }
  }

  /** `slugify` leaves a string of slug shape unchanged. */
  lemma SlugifyKeepsSlugs(s: string)
    requires SlugShape(s)
    ensures Slugify(s) == s
  {
    CollapseStepKeepsSlugs(s);
  }

  lemma CollapseStepKeepsSlugs(s: string)
    requires SlugShape(s)
    ensures SlugifyCollapse(s) == s
  {
    LowerTrimKeepsSlugs(s);
    FilterKeepsSlugs(s);
    CollapseKeepsSlugs(s);
  }

  lemma LowerTrimKeepsSlugs(s: string)
    requires SlugShape(s)
    ensures Trim(ToLower(s)) == s
  {
    ToLowerKeepsLowerText(s);
    TrimKeepsUnpadded(s);
  }

  lemma FilterKeepsSlugs(s: string)
    requires SlugShape(s)
    ensures Filter(s, IsSlugifyKept) == s
  {
    FilterKeepsAll(s, IsSlugifyKept);
  }

  lemma CollapseKeepsSlugs(s: string)
    requires SlugShape(s)
    ensures CollapseRuns(s, IsSlugifySeparator) == s
  {
    CollapseRunsFixes(s, IsSlugifySeparator);
  }

  /** `slugify` is idempotent. */
  lemma SlugifyIdempotent(text: string)
    ensures Slugify(Slugify(text)) == Slugify(text)
  {
    SlugifyKeepsSlugs(Slugify(text));
  }

  /** A `slugify` result matches the `SLUG` pattern exactly when it is non-empty. */
  lemma SlugifyMatchesPattern(text: string)
    ensures MatchesSlugPattern(Slugify(text)) <==> Slugify(text) != []
  {
    SlugPatternIff(Slugify(text));
  }

  // ---------------------------------------------------------------- e-mail

  /** `[^\s@]`. */
  predicate IsEmailChar(c: char) { !IsJsWhitespace(c) && c != '@' }

  /**
   * `^[^\s@]+@[^\s@]+\.[^\s@]+$`: an `@` at `at` with something before it,
   * a `.` at `dot` with something between and after, and every other
   * character neither whitespace nor `@`.
   */
  ghost predicate EmailPattern(s: string) {
    exists at, dot ::
      && 0 < at && at + 1 < dot < |s| - 1
      && s[at] == '@' && s[dot] == '.'
      && forall k :: 0 <= k < |s| && k != at ==> IsEmailChar(s[k])
  }

  /** The index of the first `@`, or `|s|` when there is none. */
  function FirstAt(s: string): (k: nat)
    ensures k <= |s| && (k < |s| ==> s[k] == '@')
    ensures forall j :: 0 <= j < k ==> s[j] != '@'
  {
    if s == [] || s[0] == '@' then 0 else 1 + FirstAt(s[1..])
  }

  /** `isValidEmail`, and the `email` validators of the auth schemas. */
  function IsValidEmail(s: string): (b: bool)
    ensures b <==> EmailPattern(s)
  {
    var at := FirstAt(s);
    var b := 0 < at && at + 2 < |s| - 1
      && (forall k :: 0 <= k < |s| && k != at ==> IsEmailChar(s[k]))
      && '.' in s[at + 2..|s| - 1];
    if b then
      var j :| 0 <= j < |s| - 1 - (at + 2) && s[at + 2..|s| - 1][j] == '.';
      assert s[at + 2 + j] == '.';
      b
    else
      b
  }

  /**
   * An accepted address has exactly one `@`, no whitespace, a non-empty
   * local part, and a `.` in its domain that is neither its first nor its
   * last character.
   */
  lemma AcceptedEmailShape(s: string)
    requires IsValidEmail(s)
    ensures exists at :: 0 < at < |s| && s[at] == '@' && (forall k :: 0 <= k < |s| && k != at ==> s[k] != '@')
              && '.' in s[at + 1..][1..|s| - at - 2]
    ensures forall k :: 0 <= k < |s| ==> !IsJsWhitespace(s[k])
  {
    var at, dot :| 0 < at && at + 1 < dot < |s| - 1 && s[at] == '@' && s[dot] == '.'
      && forall k :: 0 <= k < |s| && k != at ==> IsEmailChar(s[k]);
    assert s[at + 1..][1..|s| - at - 2][dot - at - 2] == '.';
  }

  // ---------------------------------------------------------------- password

  predicate IsPasswordSpecial(c: char) {
    c == '@' || c == '$' || c == '!' || c == '%' || c == '*' || c == '?' || c == '&'
  }

  /** `[A-Za-z\d@$!%*?&]`. */
  predicate IsPasswordChar(c: char) {
    IsAsciiLower(c) || IsAsciiUpper(c) || IsAsciiDigit(c) || IsPasswordSpecial(c)
  }

  /** `^(?=.*[a-z])(?=.*[A-Z])(?=.*\d)(?=.*[@$!%*?&])[A-Za-z\d@$!%*?&]{8,}$`. */
  ghost predicate PasswordPattern(p: string) {
    && |p| >= 8
    && (forall i :: 0 <= i < |p| ==> IsPasswordChar(p[i]))
    && (exists i :: 0 <= i < |p| && IsAsciiLower(p[i]))
    && (exists i :: 0 <= i < |p| && IsAsciiUpper(p[i]))
    && (exists i :: 0 <= i < |p| && IsAsciiDigit(p[i]))
    && (exists i :: 0 <= i < |p| && IsPasswordSpecial(p[i]))
  }

  /** `isValidPassword`, as one pass over the characters. */
  method IsValidPassword(p: string) returns (ok: bool)
    ensures ok <==> PasswordPattern(p)
  {
    var allowed, lower, upper, digit, special := true, false, false, false, false;
    var i := 0;
    while i < |p|
      invariant 0 <= i <= |p|
      invariant allowed <==> forall j :: 0 <= j < i ==> IsPasswordChar(p[j])
      invariant lower <==> exists j :: 0 <= j < i && IsAsciiLower(p[j])
      invariant upper <==> exists j :: 0 <= j < i && IsAsciiUpper(p[j])
      invariant digit <==> exists j :: 0 <= j < i && IsAsciiDigit(p[j])
      invariant special <==> exists j :: 0 <= j < i && IsPasswordSpecial(p[j])
    {
      var c := p[i];
      allowed := allowed && IsPasswordChar(c);
      lower := lower || IsAsciiLower(c);
      upper := upper || IsAsciiUpper(c);
      digit := digit || IsAsciiDigit(c);
      special := special || IsPasswordSpecial(c);
      i := i + 1;
    }
    ok := |p| >= 8 && allowed && lower && upper && digit && special;
  }

  // ---------------------------------------------------------------- watch progress

  /**
   * `calculateWatchPercentage` over whole numbers: 0 for an empty total,
   * otherwise `Math.round(watched / total * 100)` capped at 100, computed
   * exactly (round half up).
   */
  function CalculateWatchPercentage(watched: nat, total: nat): (r: nat)
    ensures total == 0 ==> r == 0
    ensures r <= 100
    ensures total > 0 && watched >= total ==> r == 100
    ensures total > 0 && watched <= total ==> 2 * r * total <= 200 * watched + total < 2 * (r + 1) * total
  {
    if total == 0 then 0
    else
      var rounded := (200 * watched + total) / (2 * total);
      RoundingBounds(watched, total);
      if rounded < 100 then rounded else 100
  }

  /** `(200w + t) / 2t` is `w / t * 100` rounded half up, and reaches 100 exactly from `w == t` on. */
  lemma RoundingBounds(watched: nat, total: nat)
    requires total > 0
    ensures var q := (200 * watched + total) / (2 * total);
            && 2 * q * total <= 200 * watched + total < 2 * (q + 1) * total
            && (watched >= total ==> q >= 100)
            && (watched <= total ==> q <= 100)
  {
    var n, d := 200 * watched + total, 2 * total;
    var q := n / d;
    DivisionBounds(n, d);
    assert 2 * q * total == q * d;
    assert 2 * (q + 1) * total == (q + 1) * d;
    if watched >= total && q < 100 {
      MultiplyMonotone(q + 1, 100, d);
    }
    if watched <= total && q > 100 {
      MultiplyMonotone(101, q, d);
    }
  }

  lemma DivisionBounds(n: nat, d: nat)
    requires d > 0
    ensures (n / d) * d <= n < (n / d + 1) * d
  {
  }

  lemma MultiplyMonotone(a: nat, b: nat, d: nat)
    requires a <= b
    ensures a * d <= b * d
  {
  }

  // ---------------------------------------------------------------- lookup tables

  /**
   * The names a plain object literal inherits from `Object.prototype`:
   * reading any of them from a lookup table yields an inherited member,
   * never `undefined`.
   */
  const ObjectPrototypeMembers: seq<string> := [
    "constructor", "hasOwnProperty", "isPrototypeOf", "propertyIsEnumerable",
    "toLocaleString", "toString", "valueOf", "__proto__",
    "__defineGetter__", "__defineSetter__", "__lookupGetter__", "__lookupSetter__"]

  /** A value a lookup in an object literal can yield. */
  datatype JsValue = Str(s: string) | InheritedMember(name: string)

  function QualityLabelOf(q: VideoQuality): string {
    match q
    case SD => "SD"
    case HD => "HD"
    case FullHD => "Full HD"
    case UHD4K => "4K Ultra HD"
  }

  /**
   * `getVideoQualityLabel` as written: `qualityMap[quality] || quality`,
   * where a key inherited from `Object.prototype` reads a truthy member.
   */
  function QualityLabelAsWritten(quality: string): JsValue {
    match ParseQuality(quality)
    case Some(q) => Str(QualityLabelOf(q))
    case None => if quality in ObjectPrototypeMembers then InheritedMember(quality) else Str(quality)
  }

  /** As written, the label of `"toString"` is `Object.prototype.toString`, not a string. */
  lemma QualityLabelLeaksPrototype()
    ensures QualityLabelAsWritten("toString") == InheritedMember("toString")
    ensures !QualityLabelAsWritten("constructor").Str?
  {
    assert ObjectPrototypeMembers[5] == "toString";
    assert ObjectPrototypeMembers[0] == "constructor";
  }

  /** `getVideoQualityLabel` with own keys only: each quality value its label, anything else itself. */
  function QualityLabel(quality: string): (r: string)
    ensures forall q: VideoQuality :: quality == QualityString(q) ==> r == QualityLabelOf(q)
    ensures ParseQuality(quality).None? ==> r == quality
    ensures quality !in ObjectPrototypeMembers ==> QualityLabelAsWritten(quality) == Str(r)
  {
    match ParseQuality(quality)
    case Some(q) => QualityLabelOf(q)
    case None => quality
  }

  function AgeRatingColorOf(a: AgeRating): string {
    match a
    case G => "#4ade80"
    case PG => "#facc15"
    case PG13 => "#fb923c"
    case R => "#ef4444"
    case NC17 => "#dc2626"
    case TVY => "#4ade80"
    case TVY7 => "#facc15"
    case TVG => "#4ade80"
    case TVPG => "#fb923c"
    case TV14 => "#ef4444"
    case TVMA => "#dc2626"
  }

  const UnknownRatingColor: string := "#6b7280"

  /** `getAgeRatingColor` as written: `colorMap[rating] || '#6b7280'`, with inherited keys reading a member. */
  function AgeRatingColorAsWritten(rating: string): JsValue {
    match ParseAgeRating(rating)
    case Some(a) => Str(AgeRatingColorOf(a))
    case None => if rating in ObjectPrototypeMembers then InheritedMember(rating) else Str(UnknownRatingColor)
  }

  /** As written, the colour of `"valueOf"` is `Object.prototype.valueOf`, not the fallback grey. */
  lemma AgeRatingColorLeaksPrototype()
    ensures AgeRatingColorAsWritten("valueOf") == InheritedMember("valueOf")
  {
    assert ObjectPrototypeMembers[6] == "valueOf";
  }

  /** `getAgeRatingColor` with own keys only: each rating its colour, anything else grey. */
  function AgeRatingColor(rating: string): (r: string)
    ensures forall a: AgeRating :: rating == AgeRatingString(a) ==> r == AgeRatingColorOf(a)
    ensures ParseAgeRating(rating).None? ==> r == "#6b7280"
    ensures |r| == 7 && r[0] == '#'
    ensures rating !in ObjectPrototypeMembers ==> AgeRatingColorAsWritten(rating) == Str(r)
  {
    match ParseAgeRating(rating)
    case Some(a) => AgeRatingColorOf(a)
    case None => UnknownRatingColor
  }
}
