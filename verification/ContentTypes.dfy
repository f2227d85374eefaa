/**
 * The content vocabulary shared by client and server
 * (common/src/types/content.ts): its enums, the video-file and visibility
 * records, and the constraints of the video-upload schema.
 */
module ContentTypes {
  import opened Wrappers
  import opened Text

  datatype ContentType = Movie | TvShow | Documentary | Short

  function ContentTypeString(t: ContentType): string {
    match t
    case Movie => "movie"
    case TvShow => "tv_show"
    case Documentary => "documentary"
    case Short => "short"
  }

  /** The enum member whose value is `s`, if any: what `z.nativeEnum(ContentType)` accepts. */
  function ParseContentType(s: string): (r: Option<ContentType>)
    ensures r.Some? ==> ContentTypeString(r.value) == s
    ensures r.None? ==> forall t: ContentType :: ContentTypeString(t) != s
  {
    if s == "movie" then Some(Movie)
    else if s == "tv_show" then Some(TvShow)
    else if s == "documentary" then Some(Documentary)
    else if s == "short" then Some(Short)
    else None
  }

  datatype ContentStatus = Draft | Published | Archived | ComingSoon

  function StatusString(s: ContentStatus): string {
    match s
    case Draft => "draft"
    case Published => "published"
    case Archived => "archived"
    case ComingSoon => "coming_soon"
  }

  function ParseStatus(s: string): (r: Option<ContentStatus>)
    ensures r.Some? ==> StatusString(r.value) == s
    ensures r.None? ==> forall st: ContentStatus :: StatusString(st) != s
  {
    if s == "draft" then Some(Draft)
    else if s == "published" then Some(Published)
    else if s == "archived" then Some(Archived)
    else if s == "coming_soon" then Some(ComingSoon)
    else None
  }

  /** The status enum has exactly four members, with four distinct string values. */
  lemma StatusValuesExact()
    ensures forall st: ContentStatus :: ParseStatus(StatusString(st)) == Some(st)
    ensures forall s: string :: ParseStatus(s).Some? <==> s in {"draft", "published", "archived", "coming_soon"}
  {
  }

  /** The quality ladder, lowest first. */
  datatype VideoQuality = SD | HD | FullHD | UHD4K

  function QualityString(q: VideoQuality): string {
    match q
    case SD => "480p"
    case HD => "720p"
    case FullHD => "1080p"
    case UHD4K => "2160p"
  }

  function ParseQuality(s: string): (r: Option<VideoQuality>)
    ensures r.Some? ==> QualityString(r.value) == s
    ensures r.None? ==> forall q: VideoQuality :: QualityString(q) != s
  {
    if s == "480p" then Some(SD)
    else if s == "720p" then Some(HD)
    else if s == "1080p" then Some(FullHD)
    else if s == "2160p" then Some(UHD4K)
    else None
  }

  /** The rung of a quality on the ladder. */
  function QualityRank(q: VideoQuality): nat {
    match q
    case SD => 0
    case HD => 1
    case FullHD => 2
    case UHD4K => 3
  }

  /** The `VIDEO_QUALITIES` constant of the shared constants. */
  const VideoQualities: seq<string> := ["480p", "720p", "1080p", "2160p"]

  /** The enum is exactly the four rungs of `VIDEO_QUALITIES`, in the same order. */
  lemma QualityLadderMatchesConstant()
    ensures forall q: VideoQuality :: QualityRank(q) < |VideoQualities| && VideoQualities[QualityRank(q)] == QualityString(q)
    ensures forall i :: 0 <= i < |VideoQualities| ==> ParseQuality(VideoQualities[i]).Some?
    ensures forall i :: 0 <= i < |VideoQualities| ==> QualityRank(ParseQuality(VideoQualities[i]).value) == i
    ensures forall q: VideoQuality :: ParseQuality(QualityString(q)) == Some(q)
  {
  }

  datatype AgeRating = G | PG | PG13 | R | NC17 | TVY | TVY7 | TVG | TVPG | TV14 | TVMA

  function AgeRatingString(a: AgeRating): string {
    match a
    case G => "G"
    case PG => "PG"
    case PG13 => "PG-13"
    case R => "R"
    case NC17 => "NC-17"
    case TVY => "TV-Y"
    case TVY7 => "TV-Y7"
    case TVG => "TV-G"
    case TVPG => "TV-PG"
    case TV14 => "TV-14"
    case TVMA => "TV-MA"
  }

  function ParseAgeRating(s: string): (r: Option<AgeRating>)
    ensures r.Some? ==> AgeRatingString(r.value) == s
    ensures r.None? ==> forall a: AgeRating :: AgeRatingString(a) != s
  {
    if s == "G" then Some(G)
    else if s == "PG" then Some(PG)
    else if s == "PG-13" then Some(PG13)
    else if s == "R" then Some(R)
    else if s == "NC-17" then Some(NC17)
    else if s == "TV-Y" then Some(TVY)
    else if s == "TV-Y7" then Some(TVY7)
    else if s == "TV-G" then Some(TVG)
    else if s == "TV-PG" then Some(TVPG)
    else if s == "TV-14" then Some(TV14)
    else if s == "TV-MA" then Some(TVMA)
    else None
  }

  datatype VideoFormat = Hls | Dash | Mp4

  /** One encoded rendition of a title.  Instants are milliseconds since the epoch. */
  datatype VideoFile = VideoFile(
    id: string,
    url: string,
    quality: VideoQuality,
    format: VideoFormat,
    sizeBytes: nat,
    durationSeconds: nat,
    isEncrypted: bool,
    hlsManifest: Option<string>,
    dashManifest: Option<string>,
    uploadedAt: nat)

  /** Who may see a title and when. */
  datatype VisibilitySettings = VisibilitySettings(
    isPublic: bool,
    publishDate: Option<nat>,
    expiryDate: Option<nat>,
    requiresSubscription: bool,
    allowedPlans: seq<string>,
    geoBlocked: bool,
    allowedCountries: seq<string>,
    blockedCountries: seq<string>)

  /** The fields of a video upload, as the schema receives them. */
  datatype VideoUpload = VideoUpload(
    title: string,
    description: string,
    contentType: string,
    genreIds: seq<string>,
    releaseDate: string,
    ageRating: string,
    duration: real,
    language: string,
    country: string,
    tmdbId: Option<string>,
    imdbId: Option<string>)

  /** One failed constraint of the upload schema, in field order. */
  datatype UploadIssue =
    | TitleRequired
    | DescriptionTooShort
    | InvalidContentType
    | GenreRequired
    | InvalidAgeRating
    | DurationNotPositive
    | LanguageRequired
    | CountryRequired

  /**
   * The message the schema attaches to a failed constraint.  Every length or
   * range constraint carries its own message; the two native-enum checks
   * carry none and fall back to zod's default text.
   */
  function IssueMessage(i: UploadIssue): (r: Option<string>)
    ensures r.None? <==> i == InvalidContentType || i == InvalidAgeRating
    ensures r.Some? ==> r.value != []
  {
    match i
    case TitleRequired => Some("Title is required")
    case DescriptionTooShort => Some("Description must be at least 10 characters")
    case GenreRequired => Some("At least one genre is required")
    case DurationNotPositive => Some("Duration must be positive")
    case LanguageRequired => Some("Language is required")
    case CountryRequired => Some("Country is required")
    case InvalidContentType => None
    case InvalidAgeRating => None
  }

  /** No two constraints share a message, so a message names the field that failed. */
  lemma IssueMessagesDistinct(i: UploadIssue, j: UploadIssue)
    requires i != j && IssueMessage(i).Some?
    ensures IssueMessage(j) != IssueMessage(i)
  {
  }

  /** Every constraint of the upload schema, in field order. */
  const AllUploadIssues: seq<UploadIssue> := [
    TitleRequired, DescriptionTooShort, InvalidContentType, GenreRequired,
    InvalidAgeRating, DurationNotPositive, LanguageRequired, CountryRequired]

  /**
   * Whether the upload fails the constraint behind issue `i`.  String
   * minimums count UTF-16 code units, as `.length` does.
   */
  predicate Fails(u: VideoUpload, i: UploadIssue) {
    match i
    case TitleRequired => Utf16Length(u.title) < 1
    case DescriptionTooShort => Utf16Length(u.description) < 10
    case InvalidContentType => ParseContentType(u.contentType).None?
    case GenreRequired => |u.genreIds| < 1
    case InvalidAgeRating => ParseAgeRating(u.ageRating).None?
    case DurationNotPositive => u.duration < 1.0
    case LanguageRequired => Utf16Length(u.language) < 2
    case CountryRequired => Utf16Length(u.country) < 2
  }

  /** The failing constraints among `candidates`, in their order. */
  function FailedAmong(u: VideoUpload, candidates: seq<UploadIssue>): (r: seq<UploadIssue>)
    ensures forall i :: i in r <==> i in candidates && Fails(u, i)
    ensures |r| <= |candidates|
  {
    if candidates == [] then []
    else (if Fails(u, candidates[0]) then [candidates[0]] else []) + FailedAmong(u, candidates[1..])
  }

  /** The string values of the `ContentType` enum. */
  const ContentTypeValues: seq<string> := ["movie", "tv_show", "documentary", "short"]

  /** The string values of the `AgeRating` enum. */
  const AgeRatingValues: seq<string> :=
    ["G", "PG", "PG-13", "R", "NC-17", "TV-Y", "TV-Y7", "TV-G", "TV-PG", "TV-14", "TV-MA"]

  /** An upload that meets every field constraint of the schema. */
  ghost predicate AcceptableUpload(u: VideoUpload) {
    && u.title != []
    && Utf16Length(u.description) >= 10
    && u.contentType in ContentTypeValues
    && u.genreIds != []
    && u.ageRating in AgeRatingValues
    && u.duration >= 1.0
    && Utf16Length(u.language) >= 2
    && Utf16Length(u.country) >= 2
  }

  /** `videoUploadSchema`: every failed field constraint, in field order. */
  function ValidateUpload(u: VideoUpload): (issues: seq<UploadIssue>)
    ensures forall i :: i in issues <==> Fails(u, i)
    ensures issues == [] <==> AcceptableUpload(u)
  {
    var r := FailedAmong(u, AllUploadIssues);
    EveryIssueListed();
    EnumValuesParse(u.contentType, u.ageRating);
    if r == [] then
      assert !Fails(u, TitleRequired) && !Fails(u, DescriptionTooShort);
      assert !Fails(u, InvalidContentType) && !Fails(u, GenreRequired);
      assert !Fails(u, InvalidAgeRating) && !Fails(u, DurationNotPositive);
      assert !Fails(u, LanguageRequired) && !Fails(u, CountryRequired);
      r
    else
      assert r[0] in r;
      r
  }

  lemma EveryIssueListed()
    ensures forall i :: i in AllUploadIssues
  {
    forall i: UploadIssue
      ensures i in AllUploadIssues
    {
      match i
      case TitleRequired => assert AllUploadIssues[0] == i;
      case DescriptionTooShort => assert AllUploadIssues[1] == i;
      case InvalidContentType => assert AllUploadIssues[2] == i;
      case GenreRequired => assert AllUploadIssues[3] == i;
      case InvalidAgeRating => assert AllUploadIssues[4] == i;
      case DurationNotPositive => assert AllUploadIssues[5] == i;
      case LanguageRequired => assert AllUploadIssues[6] == i;
      case CountryRequired => assert AllUploadIssues[7] == i;
    }
  }

  /** The enum parsers accept exactly the listed enum values. */
  lemma EnumValuesParse(t: string, a: string)
    ensures ParseContentType(t).Some? <==> t in ContentTypeValues
    ensures ParseAgeRating(a).Some? <==> a in AgeRatingValues
  {
  }

  /** Each constraint the schema states rejects the uploads that break it. */
  lemma UploadRejections(u: VideoUpload)
    ensures u.title == [] ==> TitleRequired in ValidateUpload(u)
    ensures Utf16Length(u.description) < 10 ==> DescriptionTooShort in ValidateUpload(u)
    ensures u.genreIds == [] ==> GenreRequired in ValidateUpload(u)
    ensures u.duration < 1.0 ==> DurationNotPositive in ValidateUpload(u)
    ensures Utf16Length(u.language) < 2 ==> LanguageRequired in ValidateUpload(u)
    ensures Utf16Length(u.country) < 2 ==> CountryRequired in ValidateUpload(u)
  {
    var issues := ValidateUpload(u);
    assert u.title == [] ==> Fails(u, TitleRequired);
    assert u.genreIds == [] ==> Fails(u, GenreRequired);
  }

  /** The optional external ids never affect the outcome. */
  lemma OptionalIdsIgnored(u: VideoUpload, tmdb: Option<string>, imdb: Option<string>)
    ensures ValidateUpload(u.(tmdbId := tmdb, imdbId := imdb)) == ValidateUpload(u)
  {
    var v := u.(tmdbId := tmdb, imdbId := imdb);
    assert forall i :: Fails(v, i) == Fails(u, i);
    FailedAmongDependsOnFailures(u, v, AllUploadIssues);
  }

  lemma {:induction false} FailedAmongDependsOnFailures(u: VideoUpload, v: VideoUpload, candidates: seq<UploadIssue>)
    requires forall i :: Fails(v, i) == Fails(u, i)
    ensures FailedAmong(v, candidates) == FailedAmong(u, candidates)
  {
    if candidates != [] {
      FailedAmongDependsOnFailures(u, v, candidates[1..]);
    }
  }
}
