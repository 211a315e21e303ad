/** The debounce interval over whole runs: when successive force-refreshes of a slug are
    kept apart. */
module StsIntervals {
  import opened StsProtocol

  /** The last refresh of the slug is on record and less than the interval ago. */
  predicate Resting(s: State, slug: Slug) {
    slug in s.lastForceRefreshAt && Debounced(s, slug)
  }

  /** The slug is removed, or everything disposed, only when its interval has passed. */
  ghost predicate Patient(events: seq<Event>, slug: Slug) {
    forall i :: 0 <= i < |events| ==> Keeps(events[i], slug) || !Resting(Run(INITIAL, events[..i]), slug)
  }

  /** A start at time `at` is on record for as long as its interval lasts. */
  predicate Since(s: State, slug: Slug, at: nat) {
    && at <= s.now
    && (s.now < at + FORCE_REFRESH_DEBOUNCE_MS ==> slug in s.lastForceRefreshAt && at <= s.lastForceRefreshAt[slug])
  }

  lemma StepKeepsSince(s: State, e: Event, slug: Slug, at: nat)
    requires Since(s, slug, at) && (Keeps(e, slug) || !Resting(s, slug))
    ensures Since(Step(s, e), slug, at)
  {
  }

  lemma StartIsSince(s: State, slug: Slug)
    requires StartsRefresh(s, slug)
    ensures Since(Step(s, ForceRefresh(slug)), slug, s.now)
  {
  }

  lemma RunStep(events: seq<Event>, j: nat)
    requires j < |events|
    ensures Run(INITIAL, events[..j + 1]) == Step(Run(INITIAL, events[..j]), events[j])
  {
    assert events[..j + 1][..j] == events[..j];
  }

  lemma {:induction false} StartIsRemembered(events: seq<Event>, i: nat, j: nat, slug: Slug)
    requires Patient(events, slug) && i < j <= |events|
    requires IsStart(Run(INITIAL, events[..i]), events[i], slug)
    ensures Since(Run(INITIAL, events[..j]), slug, Run(INITIAL, events[..i]).now)
    decreases j
  {
    hide Step;
    hide Run;
    hide Since;
    hide StartsRefresh;
    RunStep(events, j - 1);
    if i == j - 1 {
      StartIsSince(Run(INITIAL, events[..i]), slug);
    } else {
      StartIsRemembered(events, i, j - 1, slug);
      StepKeepsSince(Run(INITIAL, events[..j - 1]), events[j - 1], slug, Run(INITIAL, events[..i]).now);
    }
  }

  /** No refresh can start less than the interval after another, in any run in which the
      slug is forgotten only when its interval has passed. */
  lemma RefreshesAreSpaced(events: seq<Event>, i: nat, j: nat, slug: Slug)
    requires Patient(events, slug) && i < j <= |events|
    requires IsStart(Run(INITIAL, events[..i]), events[i], slug)
    requires StartsRefresh(Run(INITIAL, events[..j]), slug)
    ensures Run(INITIAL, events[..i]).now + FORCE_REFRESH_DEBOUNCE_MS <= Run(INITIAL, events[..j]).now
  {
    hide Step;
    hide Run;
    StartIsRemembered(events, i, j, slug);
  }

  // ---- Forgetting too soon ----------------------------------------------------------------

  lemma StepStarts(s: State, e: Event, slug: Slug)
    requires slug in Step(s, e).lastForceRefreshAt
    ensures s.now <= Step(s, e).now
    ensures if IsStart(s, e, slug) then Step(s, e).lastForceRefreshAt[slug] == s.now
            else slug in s.lastForceRefreshAt && Step(s, e).lastForceRefreshAt[slug] == s.lastForceRefreshAt[slug]
  {
  }

  /** A time on record is that of a start in the run. */
  lemma {:induction false} RecordedStart(events: seq<Event>, slug: Slug) returns (i: nat)
    requires slug in Run(INITIAL, events).lastForceRefreshAt
    ensures i < |events| && IsStart(Run(INITIAL, events[..i]), events[i], slug)
    ensures Run(INITIAL, events[..i]).now == Run(INITIAL, events).lastForceRefreshAt[slug] <= Run(INITIAL, events).now
    decreases |events|
  {
    hide Step;
    hide IsStart;
    if events == [] {
      assert false;
    } else {
      var n := |events| - 1;
      StepStarts(Run(INITIAL, events[..n]), events[n], slug);
      if IsStart(Run(INITIAL, events[..n]), events[n], slug) {
        i := n;
      } else {
        i := RecordedStart(events[..n], slug);
        assert events[..n][..i] == events[..i];
      }
    }
  }

  /** Forgetting a slug lets a refresh of it start at once, if the clock has passed the
      interval at all. */
  lemma ForgettingRestarts(s: State, e: Event, slug: Slug)
    requires !Keeps(e, slug) && s.now >= FORCE_REFRESH_DEBOUNCE_MS
    ensures Step(s, e).now == s.now && StartsRefresh(Step(s, e), slug)
  {
  }

  /** A start on record means that the clock had passed the interval then. */
  lemma StartsAreLate(s: State, slug: Slug)
    requires StartsRefresh(s, slug)
    ensures s.now >= FORCE_REFRESH_DEBOUNCE_MS
  {
  }

  /** At every point of the run at which a refresh of the slug could start, the interval
      since every earlier start has passed. */
  ghost predicate Spaced(events: seq<Event>, slug: Slug) {
    forall i, j :: 0 <= i < j <= |events| ==> SpacedAt(events, i, j, slug)
  }

  ghost predicate SpacedAt(events: seq<Event>, i: nat, j: nat, slug: Slug)
    requires i < j <= |events|
  {
    IsStart(Run(INITIAL, events[..i]), events[i], slug) && StartsRefresh(Run(INITIAL, events[..j]), slug) ==>
      Run(INITIAL, events[..i]).now + FORCE_REFRESH_DEBOUNCE_MS <= Run(INITIAL, events[..j]).now
  }

  lemma ImpatienceShows(events: seq<Event>, k: nat, slug: Slug)
    requires k < |events| && !Keeps(events[k], slug) && Resting(Run(INITIAL, events[..k]), slug)
    ensures !Spaced(events, slug)
  {
    hide Step;
    hide Run;
    var s := Run(INITIAL, events[..k]);
    var i := RecordedStart(events[..k], slug);
    assert events[..k][..i] == events[..i] && events[..k][i] == events[i];
    assert IsStart(Run(INITIAL, events[..i]), events[i], slug);
    StartsAreLate(Run(INITIAL, events[..i]), slug);
    ForgettingRestarts(s, events[k], slug);
    RunStep(events, k);
    assert !SpacedAt(events, i, k + 1, slug);
  }

  /** For every run: the slug is forgotten only when its interval has passed if and only if
      at no point of the run a refresh can start too soon after another. */
  lemma SpacedExactly(events: seq<Event>, slug: Slug)
    ensures Patient(events, slug) <==> Spaced(events, slug)
  {
    hide Run;
    hide Resting;
    hide StartsRefresh;
    if Patient(events, slug) {
      forall i, j | 0 <= i < j <= |events| ensures SpacedAt(events, i, j, slug) {
        if IsStart(Run(INITIAL, events[..i]), events[i], slug) && StartsRefresh(Run(INITIAL, events[..j]), slug) {
          RefreshesAreSpaced(events, i, j, slug);
        }
      }
    } else {
      var k :| 0 <= k < |events| && !Keeps(events[k], slug) && Resting(Run(INITIAL, events[..k]), slug);
      ImpatienceShows(events, k, slug);
    }
  }
}
