/**
 * The behaviour of a catalogue entry (backend/src/models/Content.ts):
 * whether it is available at an instant, which stream URL serves a
 * quality, and how its slug is generated and kept on save.  Instants are
 * milliseconds since the epoch, and the wall clock is an explicit `now`.
 */
module ContentModel {
  import opened Wrappers
  import opened Text
  import opened Slugs
  import opened ContentTypes
  import opened ContentSlugs

  /** The fields of a content document that its methods read or write; an unset slug is empty. */
  datatype ContentRecord = ContentRecord(
    title: string,
    slug: string,
    status: ContentStatus,
    visibility: VisibilitySettings,
    videoFiles: seq<VideoFile>)

  // ---------------------------------------------------------------- availability

  /** The publish/expiry window, both ends inclusive; an unset end does not bound it. */
  predicate WithinWindow(v: VisibilitySettings, now: nat) {
    && (v.publishDate.None? || v.publishDate.value <= now)
    && (v.expiryDate.None? || v.expiryDate.value >= now)
  }

  /**
   * `isAvailableForUser`: published, public, and not before its publish
   * date nor after its expiry date, checked in that order.  The user id is
   * accepted and ignored.
   */
  function IsAvailableForUser(c: ContentRecord, userId: Option<string>, now: nat): (r: bool)
    ensures r <==> c.status == Published && c.visibility.isPublic && WithinWindow(c.visibility, now)
  {
    if c.status != Published then false
    else if !c.visibility.isPublic then false
    else if c.visibility.publishDate.Some? && c.visibility.publishDate.value > now then false
    else if c.visibility.expiryDate.Some? && c.visibility.expiryDate.value < now then false
    else true
  }

  /** Unpublished or non-public content is never available, whatever its dates. */
  lemma HiddenNeverAvailable(c: ContentRecord, userId: Option<string>, now: nat)
    requires c.status != Published || !c.visibility.isPublic
    ensures !IsAvailableForUser(c, userId, now)
  {
  }

  /**
   * A publish date after `now` blocks and an expiry date before `now`
   * blocks; either date equal to `now` blocks nothing.
   */
  lemma WindowBoundaries(c: ContentRecord, userId: Option<string>, now: nat)
    ensures c.visibility.publishDate.Some? && c.visibility.publishDate.value > now ==> !IsAvailableForUser(c, userId, now)
    ensures c.visibility.expiryDate.Some? && c.visibility.expiryDate.value < now ==> !IsAvailableForUser(c, userId, now)
    ensures c.visibility.publishDate == Some(now) ==>
              IsAvailableForUser(c, userId, now) == IsAvailableForUser(c.(visibility := c.visibility.(publishDate := None)), userId, now)
    ensures c.visibility.expiryDate == Some(now) ==>
              IsAvailableForUser(c, userId, now) == IsAvailableForUser(c.(visibility := c.visibility.(expiryDate := None)), userId, now)
  {
  }

  /**
   * The outcome depends on neither the user nor the subscription, plan and
   * geography settings.
   */
  lemma AvailabilityIgnoresEntitlement(
    c: ContentRecord, userId: Option<string>, otherUser: Option<string>, now: nat,
    requiresSubscription: bool, allowedPlans: seq<string>, geoBlocked: bool,
    allowedCountries: seq<string>, blockedCountries: seq<string>)
    ensures var v := c.visibility.(requiresSubscription := requiresSubscription, allowedPlans := allowedPlans,
                                   geoBlocked := geoBlocked, allowedCountries := allowedCountries,
                                   blockedCountries := blockedCountries);
            IsAvailableForUser(c.(visibility := v), otherUser, now) == IsAvailableForUser(c, userId, now)
  {
  }

  /** The instants at which content is available form one interval: available at two instants means available between them. */
  lemma AvailabilityIsInterval(c: ContentRecord, userId: Option<string>, t1: nat, t2: nat, t3: nat)
    requires t1 <= t2 <= t3
    requires IsAvailableForUser(c, userId, t1) && IsAvailableForUser(c, userId, t3)
    ensures IsAvailableForUser(c, userId, t2)
  {
  }

  // ---------------------------------------------------------------- streaming

  /** The quality `getStreamingUrl` looks up when none is given. */
  const DefaultQuality: VideoQuality := HD

  /** The index of the first file of quality `q`, as `Array.prototype.find` visits them. */
  function FirstWithQuality(files: seq<VideoFile>, q: VideoQuality): (r: Option<nat>)
    ensures r.Some? ==> r.value < |files| && files[r.value].quality == q
    ensures r.Some? ==> forall j :: 0 <= j < r.value ==> files[j].quality != q
    ensures r.None? ==> forall j :: 0 <= j < |files| ==> files[j].quality != q
  {
    if files == [] then None
    else if files[0].quality == q then Some(0)
    else
      match FirstWithQuality(files[1..], q)
      case None => None
      case Some(i) => Some(i + 1)
  }

  /**
   * `getStreamingUrl`: the URL of the first video file of exactly the
   * requested quality (HD when none is requested), or nothing.
   */
  function GetStreamingUrl(c: ContentRecord, quality: Option<VideoQuality>): (r: Option<string>)
    ensures var q := quality.GetOr(DefaultQuality);
            r.Some? <==> exists i :: 0 <= i < |c.videoFiles| && c.videoFiles[i].quality == q
    ensures var q := quality.GetOr(DefaultQuality);
            r.Some? ==> exists i :: 0 <= i < |c.videoFiles| && c.videoFiles[i].quality == q
                                    && c.videoFiles[i].url == r.value
                                    && forall j :: 0 <= j < i ==> c.videoFiles[j].quality != q
  {
    match FirstWithQuality(c.videoFiles, quality.GetOr(DefaultQuality))
    case None => None
    case Some(i) => Some(c.videoFiles[i].url)
  }

  /** Asking for no quality is asking for HD. */
  lemma DefaultQualityIsHD(c: ContentRecord)
    ensures GetStreamingUrl(c, None) == GetStreamingUrl(c, Some(HD))
  {
  }

  /** The files of quality `q`, in order. */
  function OfQuality(files: seq<VideoFile>, q: VideoQuality): (r: seq<VideoFile>)
    ensures forall j :: 0 <= j < |r| ==> r[j].quality == q && r[j] in files
  {
    if files == [] then []
    else (if files[0].quality == q then [files[0]] else []) + OfQuality(files[1..], q)
  }

  lemma {:induction false} FirstOfQualityKept(files: seq<VideoFile>, q: VideoQuality)
    ensures FirstWithQuality(files, q).None? <==> OfQuality(files, q) == []
    ensures FirstWithQuality(files, q).Some? ==> files[FirstWithQuality(files, q).value] == OfQuality(files, q)[0]
  {
    if files != [] {
      FirstOfQualityKept(files[1..], q);
    }
  }

  /**
   * There is no fallback: files of other qualities never influence the
   * result, so removing them all changes nothing.
   */
  lemma OtherQualitiesIgnored(c: ContentRecord, q: VideoQuality)
    ensures GetStreamingUrl(c, Some(q)) == GetStreamingUrl(c.(videoFiles := OfQuality(c.videoFiles, q)), Some(q))
  {
    var kept := OfQuality(c.videoFiles, q);
    FirstOfQualityKept(c.videoFiles, q);
    FirstOfQualityKept(kept, q);
    assert kept != [] ==> FirstWithQuality(kept, q) == Some(0);
  }

  // ---------------------------------------------------------------- slugs

  /**
   * The pre-save hook: the slug is regenerated when it is unset or the
   * title was modified; otherwise the record is saved unchanged.  No other
   * field is touched.
   */
  function PreSave(c: ContentRecord, titleModified: bool, now: nat): (r: ContentRecord)
    ensures r == c.(slug := r.slug)
    ensures (c.slug == [] || titleModified) ==> SplitSlug(r.slug) == Some((BaseSlug(c.title), now))
    ensures !(c.slug == [] || titleModified) ==> r == c
  {
    if c.slug == [] || titleModified then
      GenerateSlugRoundTrip(c.title, now);
      c.(slug := GenerateSlug(c.title, now))
    else
      c
  }
}
