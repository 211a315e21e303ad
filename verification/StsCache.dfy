/** What the cache holds over whole runs: the token of the last answer that came for the
    slug after it was last forgotten, whenever the request for it was sent. */
module StsCache {
  import opened Wrappers
  import opened StsProtocol

  /** With this event a token arrives for the slug. */
  predicate Caches(s: State, e: Event, slug: Slug) {
    && e.Answer? && e.outcome.Some?
    && e.task in s.tasks && !s.tasks[e.task].ForceSettled? && s.tasks[e.task].slug == slug
  }

  /** The event leaves the entry of the slug alone. */
  predicate LeavesAlone(s: State, e: Event, slug: Slug) {
    Keeps(e, slug) && !Caches(s, e, slug)
  }

  lemma ArrivalIsCached(s: State, e: Event, slug: Slug)
    requires Caches(s, e, slug)
    ensures e.Answer? && e.outcome.Some?
    ensures var s', data := Step(s, e), e.outcome.value;
            && slug in s'.tokens
            && s'.tokens[slug] == Entry(data.token, data.expiresAt * 1000, s.next, data.slug)
            && s.next in s'.armed && s'.armed[s.next] == Armed(slug, data.token)
  {
  }

  lemma ForgettingEmpties(s: State, e: Event, slug: Slug)
    requires !Keeps(e, slug)
    ensures slug !in Step(s, e).tokens && !Caches(s, e, slug)
  {
  }

  lemma OthersLeaveAlone(s: State, e: Event, slug: Slug)
    requires LeavesAlone(s, e, slug)
    ensures slug in Step(s, e).tokens <==> slug in s.tokens
    ensures slug in s.tokens ==> Step(s, e).tokens[slug] == s.tokens[slug]
  {
  }

  /** The entry of the slug, by its token and the time in milliseconds at which it expires. */
  predicate HasToken(s: State, slug: Slug, token: string, expiry: int) {
    slug in s.tokens && s.tokens[slug].token == token && s.tokens[slug].expiresAtMs == expiry
  }

  /** Event `j` brings the token, and nothing touches the entry of the slug after it. */
  ghost predicate LastBrought(events: seq<Event>, j: nat, slug: Slug, token: string, expiry: int) {
    && j < |events| && Caches(Run(INITIAL, events[..j]), events[j], slug)
    && events[j].outcome.value.token == token && events[j].outcome.value.expiresAt * 1000 == expiry
    && forall k :: j < k < |events| ==> LeavesAlone(Run(INITIAL, events[..k]), events[k], slug)
  }

  lemma LastBroughtEarlier(events: seq<Event>, j: nat, slug: Slug, token: string, expiry: int)
    requires events != [] && j < |events| - 1
    ensures LastBrought(events, j, slug, token, expiry) <==>
              && LastBrought(events[..|events| - 1], j, slug, token, expiry)
              && LeavesAlone(Run(INITIAL, events[..|events| - 1]), events[|events| - 1], slug)
  {
    hide Run;
    hide LeavesAlone;
    hide Caches;
    var n := |events| - 1;
    assert forall k :: 0 <= k < n ==> events[..n][..k] == events[..k] && events[..n][k] == events[k];
  }

  /** For every run: the cache holds this token for the slug if and only if some event of
      the run brought it and none has replaced or removed it since. */
  lemma {:induction false} CachedExactly(events: seq<Event>, slug: Slug, token: string, expiry: int)
    ensures HasToken(Run(INITIAL, events), slug, token, expiry) <==> exists j :: LastBrought(events, j, slug, token, expiry)
    decreases |events|
  {
    hide Step;
    hide Caches;
    if events == [] {
    } else {
      var n := |events| - 1;
      var s, e := Run(INITIAL, events[..n]), events[n];
      CachedExactly(events[..n], slug, token, expiry);
      hide Run;
      RunOneMore(INITIAL, events[..n], e);
      assert events == events[..n] + [e];
      if Caches(s, e, slug) {
        ArrivalIsCached(s, e, slug);
        assert e.outcome.value.token == token && e.outcome.value.expiresAt * 1000 == expiry ==>
          LastBrought(events, n, slug, token, expiry);
      } else if !Keeps(e, slug) {
        ForgettingEmpties(s, e, slug);
      } else {
        OthersLeaveAlone(s, e, slug);
        forall j: nat | j < n
          ensures LastBrought(events, j, slug, token, expiry) <==> LastBrought(events[..n], j, slug, token, expiry)
        {
          LastBroughtEarlier(events, j, slug, token, expiry);
        }
      }
    }
  }

  /** A slug that was removed has an entry again only through an answer to one of its tasks
      that came after the removal. */
  lemma EntryAfterRemoval(events: seq<Event>, i: nat, slug: Slug) returns (j: nat)
    requires i < |events| && !Keeps(events[i], slug) && slug in Run(INITIAL, events).tokens
    ensures var entry := Run(INITIAL, events).tokens[slug];
            i < j < |events| && LastBrought(events, j, slug, entry.token, entry.expiresAtMs)
  {
    hide Run;
    hide Caches;
    var entry := Run(INITIAL, events).tokens[slug];
    CachedExactly(events, slug, entry.token, entry.expiresAtMs);
    j :| LastBrought(events, j, slug, entry.token, entry.expiresAtMs);
    ForgettingEmpties(Run(INITIAL, events[..i]), events[i], slug);
  }

  /** For every run: a caller is handed this token for the slug if and only if some event of
      the run brought it, none has replaced or removed it since, and it has not expired. */
  lemma HandedOutExactly(events: seq<Event>, slug: Slug, token: string)
    ensures GetToken(Run(INITIAL, events), slug) == Some(token) <==>
              exists j, expiry :: LastBrought(events, j, slug, token, expiry) && expiry > Run(INITIAL, events).now
  {
    hide Run;
    hide LastBrought;
    var s := Run(INITIAL, events);
    if slug in s.tokens {
      CachedExactly(events, slug, token, s.tokens[slug].expiresAtMs);
    }
    forall j, expiry | LastBrought(events, j, slug, token, expiry) ensures HasToken(s, slug, token, expiry) {
      CachedExactly(events, slug, token, expiry);
    }
  }
}
