/** Sequences of ticks: what the loop writes over many polls, and how its
    state relates to the writes that succeeded. */
module SyncRuns {
  import opened Options
  import opened LastFm
  import opened StatusText
  import opened Settings
  import opened SyncLoop

  /** What one poll observes: the normalised fetch result and the outcome
      the status write would have. */
  datatype Observation = Observation(nowPlaying: Option<NowPlaying>, writeOk: bool)

  /** A write that was issued, with its outcome. */
  datatype Attempt = Attempt(call: WriteCall, ok: bool)

  datatype Trace = Trace(state: SyncState, attempts: seq<Attempt>)

  /** Runs the loop over consecutive polls, collecting every issued write. */
  function Run(cfg: Config, st: SyncState, obs: seq<Observation>): (r: Trace)
    ensures |r.attempts| <= |obs|
    ensures forall i :: 0 <= i < |r.attempts| ==>
              r.attempts[i].call.text == "" || r.attempts[i].call.emoji == cfg.statusEmoji
    decreases |obs|
  {
    if |obs| == 0 then Trace(st, [])
    else
      var t := Tick(cfg, st, obs[0].nowPlaying, obs[0].writeOk);
      var rest := Run(cfg, t.state, obs[1..]);
      var here := if t.write.Some? then [Attempt(t.write.value, obs[0].writeOk)] else [];
      Trace(rest.state, here + rest.attempts)
  }

  /** The call is what one of the polls intends to write. */
  predicate IntendedBySome(cfg: Config, obs: seq<Observation>, call: WriteCall) {
    exists j :: 0 <= j < |obs| && call == Intended(cfg, obs[j].nowPlaying)
  }

  lemma IntendedByTail(cfg: Config, obs: seq<Observation>, call: WriteCall)
    requires |obs| > 0 && IntendedBySome(cfg, obs[1..], call)
    ensures IntendedBySome(cfg, obs, call)
  {
  }

  /** Every write of a run is the intended write of one of its polls. */
  lemma {:induction false} RunWritesIntended(cfg: Config, st: SyncState, obs: seq<Observation>)
    ensures forall i :: 0 <= i < |Run(cfg, st, obs).attempts| ==>
              IntendedBySome(cfg, obs, Run(cfg, st, obs).attempts[i].call)
    decreases |obs|
  {
    if |obs| > 0 {
      var t := Tick(cfg, st, obs[0].nowPlaying, obs[0].writeOk);
      var rest := Run(cfg, t.state, obs[1..]).attempts;
      var all := Run(cfg, st, obs).attempts;
      var here := if t.write.Some? then [Attempt(t.write.value, obs[0].writeOk)] else [];
      assert all == here + rest;
      RunWritesIntended(cfg, t.state, obs[1..]);
      forall i | 0 <= i < |all|
        ensures IntendedBySome(cfg, obs, all[i].call)
      {
        if i < |here| {
          assert all[i].call == Intended(cfg, obs[0].nowPlaying);
        } else {
          assert all[i] == rest[i - |here|];
          IntendedByTail(cfg, obs, all[i].call);
        }
      }
    }
  }

  /** Every poll sees the same thing playing. */
  predicate Constant(obs: seq<Observation>, np: Option<NowPlaying>) {
    forall i :: 0 <= i < |obs| ==> obs[i].nowPlaying == np
  }

  /** The text of the last successful attempt, or `init` when none succeeded. */
  function LastSuccess(attempts: seq<Attempt>, init: Option<string>): Option<string>
    decreases |attempts|
  {
    if |attempts| == 0 then init
    else LastSuccess(attempts[1..], if attempts[0].ok then Some(attempts[0].call.text) else init)
  }

  /** The index of the first poll whose write would succeed, or `|obs|`. */
  function FirstOk(obs: seq<Observation>): (k: nat)
    ensures k <= |obs|
    ensures k < |obs| ==> obs[k].writeOk
    ensures forall i :: 0 <= i < k ==> !obs[i].writeOk
    decreases |obs|
  {
    if |obs| == 0 then 0 else if obs[0].writeOk then 0 else 1 + FirstOk(obs[1..])
  }

  /** Deduplication: once settled, unchanged input produces no write at all. */
  lemma {:induction false} SettledStaysQuiet(cfg: Config, st: SyncState, np: Option<NowPlaying>, obs: seq<Observation>)
    requires Constant(obs, np)
    requires Settled(cfg, st, np)
    ensures Run(cfg, st, obs).attempts == []
    ensures Run(cfg, st, obs).state == st
    decreases |obs|
  {
    if |obs| > 0 {
      SettledStaysQuiet(cfg, st, np, obs[1..]);
    }
  }

  /** Across consecutive polls seeing the same thing, where the first write
      succeeds, at most one write is issued. */
  lemma AtMostOneWrite(cfg: Config, st: SyncState, np: Option<NowPlaying>, obs: seq<Observation>)
    requires Constant(obs, np)
    requires |obs| > 0 && obs[0].writeOk
    ensures |Run(cfg, st, obs).attempts| <= 1
  {
    var t := Tick(cfg, st, np, true);
    assert Settled(cfg, t.state, np);
    SettledStaysQuiet(cfg, t.state, np, obs[1..]);
  }

  /** Implicit retry: with unchanged input and an unsettled state, the same
      write is issued on every poll up to and including the first one that
      succeeds, and never again after it. */
  lemma {:induction false} RetryUntilSuccess(cfg: Config, st: SyncState, np: Option<NowPlaying>, obs: seq<Observation>)
    requires Constant(obs, np)
    requires !Settled(cfg, st, np)
    ensures |Run(cfg, st, obs).attempts| == if FirstOk(obs) < |obs| then FirstOk(obs) + 1 else |obs|
    ensures forall i :: 0 <= i < |Run(cfg, st, obs).attempts| ==>
              Run(cfg, st, obs).attempts[i] == Attempt(Intended(cfg, np), obs[i].writeOk)
    decreases |obs|
  {
    if |obs| > 0 {
      var t := Tick(cfg, st, np, obs[0].writeOk);
      assert t.write == Some(Intended(cfg, np));
      var r := Run(cfg, st, obs);
      var rest := Run(cfg, t.state, obs[1..]);
      assert r.attempts == [Attempt(Intended(cfg, np), obs[0].writeOk)] + rest.attempts;
      if obs[0].writeOk {
        assert Settled(cfg, t.state, np);
        SettledStaysQuiet(cfg, t.state, np, obs[1..]);
      } else {
        assert t.state == st;
        RetryUntilSuccess(cfg, st, np, obs[1..]);
        assert FirstOk(obs) == 1 + FirstOk(obs[1..]);
        forall i | 0 <= i < |r.attempts|
          ensures r.attempts[i] == Attempt(Intended(cfg, np), obs[i].writeOk)
        {
          if i > 0 {
            assert r.attempts[i] == rest.attempts[i - 1];
            assert obs[1..][i - 1] == obs[i];
          }
        }
      }
    }
  }

  /** The state only ever records the text of the last write that
      succeeded; without a successful write it is unchanged. */
  lemma {:induction false} StateIsLastSuccess(cfg: Config, st: SyncState, obs: seq<Observation>)
    ensures Run(cfg, st, obs).state.lastStatus == LastSuccess(Run(cfg, st, obs).attempts, st.lastStatus)
    decreases |obs|
  {
    if |obs| > 0 {
      var t := Tick(cfg, st, obs[0].nowPlaying, obs[0].writeOk);
      StateIsLastSuccess(cfg, t.state, obs[1..]);
      var rest := Run(cfg, t.state, obs[1..]);
      if t.write.Some? {
        var a := Attempt(t.write.value, obs[0].writeOk);
        assert Run(cfg, st, obs).attempts == [a] + rest.attempts;
        assert ([a] + rest.attempts)[1..] == rest.attempts;
        assert t.state.lastStatus == (if a.ok then Some(a.call.text) else st.lastStatus);
        assert LastSuccess([a] + rest.attempts, st.lastStatus) == LastSuccess(rest.attempts, t.state.lastStatus);
      } else {
        assert Run(cfg, st, obs).attempts == [] + rest.attempts == rest.attempts;
      }
    }
  }

  /** The status the chat platform shows after the given attempts, when it
      showed `shown` before and only successful writes change it. */
  function Visible(attempts: seq<Attempt>, shown: string): string
    decreases |attempts|
  {
    if |attempts| == 0 then shown
    else Visible(attempts[1..], if attempts[0].ok then attempts[0].call.text else shown)
  }

  lemma {:induction false} LastSuccessIsVisible(attempts: seq<Attempt>, init: Option<string>, shown: string)
    requires init.None? || init == Some(shown)
    ensures LastSuccess(attempts, init).Some? ==> LastSuccess(attempts, init) == Some(Visible(attempts, shown))
    decreases |attempts|
  {
    if |attempts| > 0 {
      var a := attempts[0];
      LastSuccessIsVisible(attempts[1..], if a.ok then Some(a.call.text) else init,
                           if a.ok then a.call.text else shown);
    }
  }

  /** The recorded state agrees with what the platform shows: whenever the
      loop believes it wrote a status, that status is the visible one. */
  lemma StateMatchesPlatform(cfg: Config, st: SyncState, obs: seq<Observation>, shown: string)
    requires st.lastStatus.None? || st.lastStatus == Some(shown)
    ensures var r := Run(cfg, st, obs);
            r.state.lastStatus.Some? ==> r.state.lastStatus == Some(Visible(r.attempts, shown))
  {
    StateIsLastSuccess(cfg, st, obs);
    LastSuccessIsVisible(Run(cfg, st, obs).attempts, st.lastStatus, shown);
  }

  /** A recorded text, unless it is the starting one, is the text of some
      successful attempt. */
  lemma {:induction false} LastSuccessIsAttempt(attempts: seq<Attempt>, init: Option<string>)
    ensures LastSuccess(attempts, init) == init ||
            exists i :: 0 <= i < |attempts| && attempts[i].ok && LastSuccess(attempts, init) == Some(attempts[i].call.text)
    decreases |attempts|
  {
    if |attempts| > 0 {
      var a := attempts[0];
      var next := if a.ok then Some(a.call.text) else init;
      LastSuccessIsAttempt(attempts[1..], next);
      if LastSuccess(attempts[1..], next) != next {
        var k :| 0 <= k < |attempts[1..]| && attempts[1..][k].ok
                 && LastSuccess(attempts[1..], next) == Some(attempts[1..][k].call.text);
        assert attempts[k + 1] == attempts[1..][k];
      } else if a.ok {
        assert attempts[0].ok && LastSuccess(attempts, init) == Some(attempts[0].call.text);
      }
    }
  }

  /** Started from process start, the loop only ever records the status
      text formatted from one of the polls it saw ("" for an idle poll). */
  lemma StateIsObservedText(cfg: Config, obs: seq<Observation>)
    ensures var r := Run(cfg, Initial, obs);
            r.state.lastStatus.Some? ==>
              exists j :: 0 <= j < |obs| && r.state.lastStatus == Some(Format(obs[j].nowPlaying))
  {
    var r := Run(cfg, Initial, obs);
    StateIsLastSuccess(cfg, Initial, obs);
    RunWritesIntended(cfg, Initial, obs);
    LastSuccessIsAttempt(r.attempts, None);
    if r.state.lastStatus.Some? {
      var i :| 0 <= i < |r.attempts| && r.attempts[i].ok && r.state.lastStatus == Some(r.attempts[i].call.text);
      assert IntendedBySome(cfg, obs, r.attempts[i].call);
      var j :| 0 <= j < |obs| && r.attempts[i].call == Intended(cfg, obs[j].nowPlaying);
      assert r.state.lastStatus == Some(Format(obs[j].nowPlaying));
    }
  }

  /** The loop's state is always valid: never written, cleared, or an
      admissible status text. */
  lemma {:induction false} RunPreservesValid(cfg: Config, st: SyncState, obs: seq<Observation>)
    requires Valid(st)
    ensures Valid(Run(cfg, st, obs).state)
    decreases |obs|
  {
    if |obs| > 0 {
      var t := Tick(cfg, st, obs[0].nowPlaying, obs[0].writeOk);
      TickPreservesValid(cfg, st, obs[0].nowPlaying, obs[0].writeOk);
      RunPreservesValid(cfg, t.state, obs[1..]);
    }
  }

  /** A sample run: a track plays twice, then
      nothing plays twice, every write succeeding. Only one status write
      and one clear are issued, and the status ends cleared. */
  lemma Scenario()
    ensures var cfg := Config(DefaultEmoji, true);
            var song := Some(NowPlaying("Band X", "Song A", None, None));
            var r := Run(cfg, Initial, [Observation(song, true), Observation(song, true),
                                       Observation(None, true), Observation(None, true)]);
            r.attempts == [Attempt(WriteCall("Song A - Band X", DefaultEmoji), true), Attempt(ClearCall, true)]
            && r.state.lastStatus == Some("")
  {
    var cfg := Config(DefaultEmoji, true);
    var song := Some(NowPlaying("Band X", "Song A", None, None));
    var playing := Observation(song, true);
    var idle := Observation(None, true);
    assert Format(song) == "Song A - Band X";
    var s1 := SyncState(Some("Song A - Band X"));
    var s2 := SyncState(Some(""));
    assert Run(cfg, s2, [idle]) == Trace(s2, []);
    assert Run(cfg, s1, [idle, idle]) == Trace(s2, [Attempt(ClearCall, true)]);
    assert Run(cfg, s1, [playing, idle, idle]) == Trace(s2, [Attempt(ClearCall, true)]);
    assert [playing, playing, idle, idle][1..] == [playing, idle, idle];
  }
}
