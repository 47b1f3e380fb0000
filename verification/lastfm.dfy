/** The Last.fm side of the synchronisation: the decoded answer of the
    `user.getrecenttracks` call (asked for one entry) and its normalisation
    into a single canonical "now playing" record, or none. */
module LastFm {
  import opened Options

  /** What the rest of the program sees of a track that is playing. */
  datatype NowPlaying = NowPlaying(artist: string, track: string, album: Option<string>, image: Option<string>)

  /** A track's artist arrives either as an object with a `#text` field or
      as a plain string. */
  datatype Artist = NestedArtist(text: string) | PlainArtist(name: string)

  /** One image variant. A variant without a `size` tag is written with
      `size == ""`, which, like a missing tag, never equals "medium". */
  datatype Image = Image(size: string, url: Option<string>)

  /** The `@attr` object of a track; only its `nowplaying` marker matters. */
  datatype Attr = Attr(nowplaying: Option<string>)

  /** One entry of `recenttracks.track`. `album` is the album's `#text`
      (absent when the album object or its text is absent); a missing
      `image` array is written as the empty sequence, since searching an
      empty array finds nothing either. */
  datatype Track = Track(name: string, artist: Artist, album: Option<string>, attr: Option<Attr>, images: seq<Image>)

  /** The outcome of the fetch, as the decision logic distinguishes it. */
  datatype Payload =
    | Unreadable                  // the request or JSON decoding threw
    | ApiError(message: string)   // the service answered with an `error` object
    | NoTracks                    // `recenttracks.track` is missing
    | SingleTrack(track: Track)   // `track` is one object
    | TrackArray(tracks: seq<Track>)  // `track` is an array

  const NowPlayingMarker := "true"
  const MediumSize := "medium"

  /** A track counts as playing only when its `@attr.nowplaying` is exactly "true". */
  predicate IsPlaying(t: Track) {
    t.attr.Some? && t.attr.value.nowplaying == Some(NowPlayingMarker)
  }

  function ArtistName(a: Artist): string {
    match a
    case NestedArtist(text) => text
    case PlainArtist(name) => name
  }

  /** The index of the first image variant of size "medium", if any. */
  function FirstMedium(images: seq<Image>): (r: Option<nat>)
    ensures r.Some? ==> r.value < |images| && images[r.value].size == MediumSize
    ensures r.Some? ==> forall j :: 0 <= j < r.value ==> images[j].size != MediumSize
    ensures r.None? <==> forall j :: 0 <= j < |images| ==> images[j].size != MediumSize
  {
    if |images| == 0 then None
    else if images[0].size == MediumSize then Some(0)
    else
      match FirstMedium(images[1..])
      case None => None
      case Some(i) => Some(i + 1)
  }

  /** The URL of the first medium variant; a later medium variant is never
      consulted, even when the first one carries no URL. */
  function MediumImage(images: seq<Image>): (r: Option<string>)
    ensures r.Some? ==> exists i :: 0 <= i < |images| && images[i].size == MediumSize && images[i].url == r
    ensures (forall j :: 0 <= j < |images| ==> images[j].size != MediumSize) ==> r.None?
    ensures forall i ::
              (0 <= i < |images| && images[i].size == MediumSize
               && (forall j :: 0 <= j < i ==> images[j].size != MediumSize))
              ==> r == images[i].url
  {
    match FirstMedium(images)
    case None => None
    case Some(i) => images[i].url
  }

  /** The record a single track normalises to. */
  function Describe(t: Track): (r: Option<NowPlaying>)
    ensures r.Some? <==> IsPlaying(t)
    ensures r.Some? ==> r.value.track == t.name && r.value.album == t.album
    ensures r.Some? && t.artist.NestedArtist? ==> r.value.artist == t.artist.text
    ensures r.Some? && t.artist.PlainArtist? ==> r.value.artist == t.artist.name
    ensures r.Some? ==> r.value.image == MediumImage(t.images)
  {
    if IsPlaying(t) then Some(NowPlaying(ArtistName(t.artist), t.name, t.album, MediumImage(t.images)))
    else None
  }

  /** The decision part of fetching the current track: every failure and
      every shape without a playing first entry yields none. */
  function Normalize(p: Payload): (r: Option<NowPlaying>)
    ensures p.Unreadable? || p.ApiError? || p.NoTracks? ==> r.None?
    ensures p.TrackArray? && |p.tracks| == 0 ==> r.None?
    ensures p.SingleTrack? ==> r == Describe(p.track)
    ensures p.TrackArray? && |p.tracks| > 0 ==> r == Describe(p.tracks[0])
    ensures r.Some? <==> Selected(p).Some? && IsPlaying(Selected(p).value)
  {
    match p
    case Unreadable => None
    case ApiError(_) => None
    case NoTracks => None
    case SingleTrack(t) => Describe(t)
    case TrackArray(ts) => if |ts| == 0 then None else Describe(ts[0])
  }

  /** The entry the decision looks at: the object itself, or the first
      element of an array. */
  function Selected(p: Payload): Option<Track> {
    match p
    case SingleTrack(t) => Some(t)
    case TrackArray(ts) => if |ts| == 0 then None else Some(ts[0])
    case _ => None
  }

  /** Only the first element of an array matters: an array behaves exactly
      like its first element sent as a single object. */
  lemma ArrayUsesFirstEntry(t: Track, rest: seq<Track>)
    ensures Normalize(TrackArray([t] + rest)) == Normalize(SingleTrack(t))
  {
  }

  /** A recent track without the exact "true" marker is history, not playback. */
  lemma NotPlayingYieldsNone(p: Payload)
    requires Selected(p).Some? && !IsPlaying(Selected(p).value)
    ensures Normalize(p).None?
  {
  }
}
