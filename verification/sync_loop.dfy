/** The synchronisation loop as a state machine. Its only state is the last
    status text known to be on the chat platform (`None` before any write
    succeeded). One tick turns what is playing into a status text, compares
    it with that state and issues at most one status write; the state moves
    only when the write reports success. The outcome of the write is an
    input of the tick, as is the outcome of the Last.fm fetch. */
module SyncLoop {
  import opened Options
  import opened LastFm
  import opened StatusText
  import opened Settings

  datatype SyncState = SyncState(lastStatus: Option<string>)

  /** The state at process start: nothing written yet. */
  const Initial := SyncState(None)

  /** One call of the status sink: status text and emoji. */
  datatype WriteCall = WriteCall(text: string, emoji: string)

  /** Clearing writes an empty text with an empty emoji. */
  const ClearCall := WriteCall("", "")

  datatype TickResult = TickResult(state: SyncState, write: Option<WriteCall>)

  /** The write a tick aims for given what is playing: the formatted text
      with the configured emoji, or the clear call when nothing plays. */
  function Intended(cfg: Config, np: Option<NowPlaying>): (w: WriteCall)
    ensures np.None? ==> w == ClearCall
    ensures np.Some? ==> w.text != "" && |w.text| <= MaxLength && w.emoji == cfg.statusEmoji
    ensures w.text == Format(np)
  {
    if np.Some? then WriteCall(Format(np), cfg.statusEmoji) else ClearCall
  }

  /** A state in which a tick seeing `np` has nothing to do: the platform
      already shows the text, or nothing plays and clearing is disabled. */
  predicate Settled(cfg: Config, st: SyncState, np: Option<NowPlaying>) {
    st.lastStatus == Some(Format(np)) || (np.None? && !cfg.clearWhenNotPlaying)
  }

  /** One tick of the loop, given what is playing and whether the write
      (if one is issued) succeeds. */
  function Tick(cfg: Config, st: SyncState, np: Option<NowPlaying>, writeOk: bool): (r: TickResult)
    ensures r.write.None? <==> Settled(cfg, st, np)
    ensures r.write.None? ==> r.state == st
    ensures r.write.Some? ==> r.write.value == Intended(cfg, np)
    ensures r.write.Some? && writeOk ==> r.state.lastStatus == Some(Format(np))
    ensures r.write.Some? && !writeOk ==> r.state == st
    ensures r.state != st ==> r.write.Some? && writeOk
  {
    var text := Format(np);
    if st.lastStatus == Some(text) then TickResult(st, None)
    else if np.Some? then
      TickResult(if writeOk then SyncState(Some(text)) else st, Some(WriteCall(text, cfg.statusEmoji)))
    else if cfg.clearWhenNotPlaying && st.lastStatus != Some("") then
      TickResult(if writeOk then SyncState(Some("")) else st, Some(ClearCall))
    else TickResult(st, None)
  }

  /** A whole tick including the fetch: the payload is normalised first, so
      every failed or empty read is handled as "nothing playing". */
  function CheckAndUpdate(cfg: Config, st: SyncState, p: Payload, writeOk: bool): (r: TickResult)
    ensures Normalize(p).None? ==> r == Tick(cfg, st, None, writeOk)
    ensures Normalize(p).Some? ==> r == Tick(cfg, st, Normalize(p), writeOk)
    ensures Normalize(p).Some? && st.lastStatus != Some(Format(Normalize(p))) ==>
              r.write == Some(WriteCall(Format(Normalize(p)), cfg.statusEmoji))
              && r.state == (if writeOk then SyncState(Some(Format(Normalize(p)))) else st)
    ensures Normalize(p).Some? && st.lastStatus == Some(Format(Normalize(p))) ==> r == TickResult(st, None)
    ensures p.Unreadable? || p.ApiError? || p.NoTracks? ==> r.write.Some? ==> r.write.value == ClearCall
    ensures r.write.Some? && r.write.value != ClearCall ==>
              Normalize(p).Some? && r.write.value.text == Format(Normalize(p))
  {
    PlayingNeverClearsCall(cfg, Normalize(p));
    Tick(cfg, st, Normalize(p), writeOk)
  }

  lemma PlayingNeverClearsCall(cfg: Config, np: Option<NowPlaying>)
    ensures np.Some? ==> Intended(cfg, np) != ClearCall
  {
  }

  /** The states the loop can be in: never written, cleared, or showing an
      admissible status text. */
  predicate Valid(st: SyncState) {
    st.lastStatus.None? || |st.lastStatus.value| <= MaxLength
  }

  lemma TickPreservesValid(cfg: Config, st: SyncState, np: Option<NowPlaying>, writeOk: bool)
    requires Valid(st)
    ensures Valid(Tick(cfg, st, np, writeOk).state)
  {
  }

  /** From the initial state, the first idle tick with clearing enabled
      always attempts exactly one clear, since "never written" differs
      from "cleared". */
  lemma FirstIdleTickClears(cfg: Config, writeOk: bool)
    requires cfg.clearWhenNotPlaying
    ensures Tick(cfg, Initial, None, writeOk).write == Some(ClearCall)
    ensures Tick(cfg, Initial, None, writeOk).state.lastStatus == (if writeOk then Some("") else None)
  {
  }
}
