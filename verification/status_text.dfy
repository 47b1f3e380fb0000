/** The chat-platform status text derived from what is playing:
    "<track> - <artist>", cut to the platform's 100-character limit by
    keeping 97 characters and appending three ASCII dots. */
module StatusText {
  import opened Options
  import opened LastFm

  const MaxLength := 100
  const KeptPrefix := 97
  const Ellipsis := "..."
  const Separator := " - "

  /** The natural, untruncated rendering of a playing track. */
  function Render(np: NowPlaying): string {
    np.track + Separator + np.artist
  }

  /** Enforces the length limit on a rendering. */
  function Truncate(s: string): (r: string)
    ensures |r| <= MaxLength
    ensures |s| <= MaxLength ==> r == s
    ensures |s| > MaxLength ==> |r| == MaxLength
    ensures |s| > MaxLength ==> r[..KeptPrefix] == s[..KeptPrefix] && r[KeptPrefix..] == Ellipsis
  {
    if |s| > MaxLength then s[..KeptPrefix] + Ellipsis else s
  }

  /** The status text for a tick: empty when nothing plays, otherwise the
      rendering, truncated when it exceeds the limit. */
  function Format(np: Option<NowPlaying>): (r: string)
    ensures np.None? ==> r == ""
    ensures np.Some? ==> 0 < |r| <= MaxLength
    ensures np.Some? && |Render(np.value)| <= MaxLength ==> r == Render(np.value)
    ensures np.Some? && |Render(np.value)| > MaxLength ==>
              |r| == MaxLength && r == Render(np.value)[..KeptPrefix] + Ellipsis
  {
    match np
    case None => ""
    case Some(v) => Truncate(Render(v))
  }

  /** Truncation is idempotent: an admissible text is left as it is. */
  lemma TruncateIdempotent(s: string)
    ensures Truncate(Truncate(s)) == Truncate(s)
  {
  }

  /** A playing track's status text is never the empty "cleared" text, so
      the sync loop can never mistake a playing track for a cleared status. */
  lemma PlayingNeverClears(np: NowPlaying)
    ensures Format(Some(np)) != ""
  {
  }

  function Repeat(c: char, n: nat): (r: string)
    ensures |r| == n
    ensures forall i :: 0 <= i < n ==> r[i] == c
  {
    if n == 0 then "" else [c] + Repeat(c, n - 1)
  }

  /** Two different tracks whose renderings share their first 97
      characters get the same status text. */
  lemma TruncationCollides()
    ensures exists a: NowPlaying, b: NowPlaying :: Render(a) != Render(b) && Format(Some(a)) == Format(Some(b))
  {
    var title := Repeat('a', MaxLength);
    var a := NowPlaying("x", title, None, None);
    var b := NowPlaying("y", title, None, None);
    assert Render(a)[..KeptPrefix] == title[..KeptPrefix];
    assert Render(b)[..KeptPrefix] == title[..KeptPrefix];
    assert Render(a)[|title| + 3] != Render(b)[|title| + 3];
    assert Render(a) != Render(b) && Format(Some(a)) == Format(Some(b));
  }
}
