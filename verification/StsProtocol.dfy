/** The token manager as a state machine: each event is one stretch of code between
    two awaits, in any order the event loop may choose. */
module StsProtocol {
  import opened Wrappers

  type Slug = string

  const FORCE_REFRESH_DEBOUNCE_MS: int := 2000
  const MIN_REMAINING_MS: int := 30000

  /** A cached token with its expiry and the handle of its refresh timer. */
  datatype Entry = Entry(token: string, expiresAtMs: int, timer: nat, slug: Slug)

  /** The body of a successful answer; `expiresAt` is in seconds. */
  datatype TokenResult = TokenResult(token: string, expiresAt: int, slug: Slug)

  /** A function that waits for an answer, or a force-refresh that has its result but
      has not yet run its `finally` block. */
  datatype Task =
    | ForceRefreshing(slug: Slug)
    | ForceFetching(slug: Slug)
    | ForceSettled(slug: Slug, result: Option<string>)
    | Acquiring(slug: Slug)
    | Background(slug: Slug)
  {
    predicate IsForce() {
      ForceRefreshing? || ForceFetching? || ForceSettled?
    }
  }

  /** A timer that has been set and has neither fired nor been cleared. */
  datatype Armed = Armed(slug: Slug, token: string)

  datatype State = State(
    now: nat,
    port: nat,
    tokens: map<Slug, Entry>,
    inFlight: map<Slug, nat>,
    lastForceRefreshAt: map<Slug, nat>,
    armed: map<nat, Armed>,
    tasks: map<nat, Task>,
    next: nat)

  datatype Event =
    | Tick(ms: nat)
    | SetPort(port: nat)
    | Acquire(slug: Slug)
    | ForceRefresh(slug: Slug)
    | Answer(task: nat, outcome: Option<TokenResult>)
    | Finish(task: nat)
    | Fire(timer: nat)
    | RemoveToken(slug: Slug)
    | Dispose

  const INITIAL := State(0, 0, map[], map[], map[], map[], map[], 0)

  /** A token that a caller can use: an empty one counts as none. */
  predicate Usable(token: Option<string>) {
    token.Some? && token.value != ""
  }

  // ---- Synchronous pieces ---------------------------------------------------------

  function GetToken(s: State, slug: Slug): Option<string> {
    if slug in s.tokens && s.tokens[slug].expiresAtMs > s.now then Some(s.tokens[slug].token) else None
  }

  /** Cancel the old timer of the slug, arm a new one, store the entry. */
  function CacheToken(s: State, slug: Slug, data: TokenResult): State {
    var armed := if slug in s.tokens then s.armed - {s.tokens[slug].timer} else s.armed;
    s.(armed := armed[s.next := Armed(slug, data.token)],
       tokens := s.tokens[slug := Entry(data.token, data.expiresAt * 1000, s.next, data.slug)],
       next := s.next + 1)
  }

  /** Start a waiting function; without a proxy port it gives up at once. */
  function Launch(s: State, t: Task): State {
    s.(tasks := s.tasks[s.next := t], next := s.next + 1)
  }

  function LastRefresh(s: State, slug: Slug): nat {
    if slug in s.lastForceRefreshAt then s.lastForceRefreshAt[slug] else 0
  }

  predicate Debounced(s: State, slug: Slug) {
    s.now - LastRefresh(s, slug) < FORCE_REFRESH_DEBOUNCE_MS
  }

  /** A call of `forceRefresh` that begins a refresh of its own. */
  predicate StartsRefresh(s: State, slug: Slug) {
    !Debounced(s, slug) && slug !in s.inFlight
  }

  /** What a fetch of a new token does first: wait, or fail at once without a port. */
  function AwaitFetch(s: State, slug: Slug): Task {
    if s.port == 0 then ForceSettled(slug, None) else ForceFetching(slug)
  }

  /** The first stretch of a force-refresh: renew the cached token if there is a
      non-empty one, otherwise fetch a new one. */
  function FirstWait(s: State, slug: Slug): Task {
    if slug in s.tokens && s.tokens[slug].token != "" && s.port != 0 then ForceRefreshing(slug)
    else AwaitFetch(s, slug)
  }

  function StartRefresh(s: State, slug: Slug): State {
    var s1 := s.(lastForceRefreshAt := s.lastForceRefreshAt[slug := s.now]);
    var s2 := Launch(s1, FirstWait(s, slug));
    s2.(inFlight := s2.inFlight[slug := s.next])
  }

  /** What a force-refresh waits for after an answer: a renewal that gives nothing usable
      is followed by a fetch of a new token; otherwise it has its result. */
  function NextWait(s: State, t: Task, outcome: Option<TokenResult>): (next: Task)
    requires t.IsForce()
    ensures next.IsForce() && next.slug == t.slug
  {
    match t
    case ForceRefreshing(slug) =>
      if outcome.Some? && outcome.value.token != "" then ForceSettled(slug, Some(outcome.value.token))
      else AwaitFetch(s, slug)
    case ForceFetching(slug) => ForceSettled(slug, if outcome.Some? then Some(outcome.value.token) else None)
    case _ => t
  }

  /** The continuation of a task when its answer arrives. */
  function Continue(s: State, id: nat, outcome: Option<TokenResult>): State
    requires id in s.tasks
  {
    var t := s.tasks[id];
    var cached := if outcome.Some? then CacheToken(s, t.slug, outcome.value) else s;
    if t.ForceSettled? then s
    else if t.IsForce() then cached.(tasks := cached.tasks[id := NextWait(s, t, outcome)])
    else cached.(tasks := cached.tasks - {id})
  }

  function Step(s: State, e: Event): State {
    match e
    case Tick(ms) => s.(now := s.now + ms)
    case SetPort(port) => s.(port := port)
    case Acquire(slug) =>
      if slug in s.tokens && s.tokens[slug].expiresAtMs > s.now + MIN_REMAINING_MS then s
      else if s.port == 0 then s
      else Launch(s, Acquiring(slug))
    case ForceRefresh(slug) => if StartsRefresh(s, slug) then StartRefresh(s, slug) else s
    case Answer(id, outcome) => if id in s.tasks then Continue(s, id, outcome) else s
    case Finish(id) =>
      if id in s.tasks && s.tasks[id].ForceSettled? then
        s.(inFlight := s.inFlight - {s.tasks[id].slug}, tasks := s.tasks - {id})
      else s
    case Fire(timer) =>
      if timer in s.armed then
        var s1 := s.(armed := s.armed - {timer});
        if s.port == 0 then s1 else Launch(s1, Background(s.armed[timer].slug))
      else s
    case RemoveToken(slug) =>
      s.(armed := if slug in s.tokens then s.armed - {s.tokens[slug].timer} else s.armed,
         tokens := s.tokens - {slug}, inFlight := s.inFlight - {slug},
         lastForceRefreshAt := s.lastForceRefreshAt - {slug})
    case Dispose =>
      s.(armed := s.armed - (set k | k in s.tokens :: s.tokens[k].timer),
         tokens := map[], inFlight := map[], lastForceRefreshAt := map[])
  }

  function Run(s: State, events: seq<Event>): State {
    if events == [] then s else Step(Run(s, events[..|events| - 1]), events[|events| - 1])
  }

  // ---- Timers: in every interleaving, removals included ----------------------------

  /** Handles in use are smaller than the next one to be given out. */
  ghost predicate Fresh(s: State) {
    && (forall t :: t in s.armed ==> t < s.next)
    && (forall t :: t in s.tasks ==> t < s.next)
    && (forall k :: k in s.tokens ==> s.tokens[k].timer < s.next)
  }

  /** Every armed timer is the one held by its slug's current cache entry. */
  ghost predicate TimersHeld(s: State) {
    forall t :: t in s.armed ==> s.armed[t].slug in s.tokens && s.tokens[s.armed[t].slug].timer == t
  }

  lemma CacheKeepsTimers(s: State, slug: Slug, data: TokenResult)
    requires Fresh(s) && TimersHeld(s)
    ensures Fresh(CacheToken(s, slug, data)) && TimersHeld(CacheToken(s, slug, data))
    ensures CacheToken(s, slug, data).tasks == s.tasks
  {
  }

  lemma ContinueKeepsTimers(s: State, id: nat, outcome: Option<TokenResult>)
    requires Fresh(s) && TimersHeld(s) && id in s.tasks
    ensures Fresh(Continue(s, id, outcome)) && TimersHeld(Continue(s, id, outcome))
  {
    hide CacheToken;
    if outcome.Some? {
      CacheKeepsTimers(s, s.tasks[id].slug, outcome.value);
    }
  }

  lemma StartKeepsTimers(s: State, slug: Slug)
    requires Fresh(s) && TimersHeld(s)
    ensures Fresh(StartRefresh(s, slug)) && TimersHeld(StartRefresh(s, slug))
  {
    hide FirstWait;
  }

  lemma RemovalKeepsTimers(s: State, e: Event)
    requires Fresh(s) && TimersHeld(s) && (e.RemoveToken? || e.Dispose?)
    ensures Fresh(Step(s, e)) && TimersHeld(Step(s, e))
  {
  }

  lemma StepKeepsTimers(s: State, e: Event)
    requires Fresh(s) && TimersHeld(s)
    ensures Fresh(Step(s, e)) && TimersHeld(Step(s, e))
  {
    match e {
      case Answer(id, outcome) =>
        hide Continue;
        hide Fresh;
        hide TimersHeld;
        if id in s.tasks {
          ContinueKeepsTimers(s, id, outcome);
        }
      case ForceRefresh(slug) =>
        hide StartRefresh;
        hide Fresh;
        hide TimersHeld;
        if StartsRefresh(s, slug) {
          StartKeepsTimers(s, slug);
        }
      case RemoveToken(_) => RemovalKeepsTimers(s, e);
      case Dispose => RemovalKeepsTimers(s, e);
      case _ =>
        hide Continue;
        hide StartRefresh;
    }
  }

  lemma {:induction false} TimersAreHeld(events: seq<Event>)
    ensures Fresh(Run(INITIAL, events)) && TimersHeld(Run(INITIAL, events))
  {
    if events == [] {
    } else {
      hide Step;
      TimersAreHeld(events[..|events| - 1]);
      StepKeepsTimers(Run(INITIAL, events[..|events| - 1]), events[|events| - 1]);
    }
  }

  /** At most one timer is armed for a slug. */
  lemma OneTimerPerSlug(events: seq<Event>, t: nat, u: nat)
    requires var s := Run(INITIAL, events);
             t in s.armed && u in s.armed && s.armed[t].slug == s.armed[u].slug
    ensures t == u
  {
    hide Step;
    TimersAreHeld(events);
  }

  /** After `dispose` no timer is armed. */
  lemma DisposeDisarms(events: seq<Event>)
    ensures Step(Run(INITIAL, events), Dispose).armed == map[]
  {
    TimersAreHeld(events);
    var s := Run(INITIAL, events);
    var s' := Step(s, Dispose);
    forall t | t in s.armed ensures t !in s'.armed {
      assert s.armed[t].slug in s.tokens;
    }
    assert s'.armed.Keys == {};
  }

  // ---- Force-refreshes ---------------------------------------------------------------

  /** Task `t` is a force-refresh of the slug that is in flight. */
  predicate InFlight(s: State, slug: Slug, t: nat) {
    t in s.tasks && s.tasks[t].IsForce() && s.tasks[t].slug == slug
  }

  ghost predicate AtMostOneInFlight(s: State, slug: Slug) {
    forall t, u :: InFlight(s, slug, t) && InFlight(s, slug, u) ==> t == u
  }

  /** Every force-refresh of the slug in flight is the one on record for it. */
  ghost predicate OnRecord(s: State, slug: Slug) {
    forall t :: InFlight(s, slug, t) ==> slug in s.inFlight && s.inFlight[slug] == t
  }

  /** What is on record is in flight, and nothing is in flight before the debounce
      interval after time 0 has passed. */
  ghost predicate Live(s: State) {
    && (forall k :: k in s.inFlight ==> InFlight(s, k, s.inFlight[k]))
    && (forall t :: t in s.tasks && s.tasks[t].IsForce() ==> s.now >= FORCE_REFRESH_DEBOUNCE_MS)
  }

  /** The event does not forget the slug. */
  predicate Keeps(e: Event, slug: Slug) {
    e != RemoveToken(slug) && e != Dispose
  }

  lemma ContinueKeepsRecord(s: State, id: nat, outcome: Option<TokenResult>, slug: Slug)
    requires id in s.tasks && OnRecord(s, slug)
    ensures OnRecord(Continue(s, id, outcome), slug)
  {
    hide NextWait;
    assert forall t :: InFlight(Continue(s, id, outcome), slug, t) ==> InFlight(s, slug, t);
  }

  lemma StepKeepsRecord(s: State, e: Event, slug: Slug)
    requires Fresh(s) && OnRecord(s, slug) && (Keeps(e, slug) || slug !in s.inFlight)
    ensures OnRecord(Step(s, e), slug)
  {
    hide Continue;
    match e {
      case Answer(id, outcome) =>
        if id in s.tasks {
          ContinueKeepsRecord(s, id, outcome, slug);
        }
      case ForceRefresh(_) =>
        StartKeepsRecord(s, e, slug);
      case Finish(id) =>
        FinishKeepsRecord(s, id, slug);
      case _ =>
        assert forall t :: InFlight(Step(s, e), slug, t) ==> InFlight(s, slug, t);
    }
  }

  lemma FinishKeepsRecord(s: State, id: nat, slug: Slug)
    requires OnRecord(s, slug)
    ensures OnRecord(Step(s, Finish(id)), slug)
  {
    if id in s.tasks && s.tasks[id].ForceSettled? {
      assert s.tasks[id].slug == slug ==> InFlight(s, slug, id);
      assert forall t :: InFlight(Step(s, Finish(id)), slug, t) ==> InFlight(s, slug, t) && t != id;
    }
  }

  lemma StartKeepsRecord(s: State, e: Event, slug: Slug)
    requires e.ForceRefresh? && OnRecord(s, slug)
    ensures OnRecord(Step(s, e), slug)
  {
    forall t | InFlight(Step(s, e), slug, t) && t != s.next ensures InFlight(s, slug, t) {
    }
  }

  lemma ContinueKeepsLive(s: State, id: nat, outcome: Option<TokenResult>)
    requires id in s.tasks && Live(s)
    ensures Live(Continue(s, id, outcome))
  {
    hide NextWait;
  }

  lemma StepKeepsLive(s: State, e: Event)
    requires Fresh(s) && Live(s)
    ensures Live(Step(s, e))
  {
    hide Continue;
    match e {
      case Answer(id, outcome) =>
        if id in s.tasks {
          ContinueKeepsLive(s, id, outcome);
        }
      case _ =>
    }
  }

  lemma {:induction false} RecordsAreLive(events: seq<Event>)
    ensures Live(Run(INITIAL, events))
  {
    if events == [] {
    } else {
      hide Step;
      TimersAreHeld(events[..|events| - 1]);
      RecordsAreLive(events[..|events| - 1]);
      StepKeepsLive(Run(INITIAL, events[..|events| - 1]), events[|events| - 1]);
    }
  }

  /** The slug is forgotten only while no refresh of it is on record, which is what a
      caller of `removeToken` or `dispose` could look up. */
  ghost predicate Careful(events: seq<Event>, slug: Slug) {
    forall i :: 0 <= i < |events| ==> Keeps(events[i], slug) || slug !in Run(INITIAL, events[..i]).inFlight
  }

  lemma CarefulPrefix(events: seq<Event>, slug: Slug, n: nat)
    requires Careful(events, slug) && n <= |events|
    ensures Careful(events[..n], slug)
  {
    forall i | 0 <= i < n ensures events[..n][..i] == events[..i] {
    }
  }

  lemma {:induction false} CarefulRunKeepsRecord(events: seq<Event>, slug: Slug)
    requires Careful(events, slug)
    ensures OnRecord(Run(INITIAL, events), slug)
  {
    if events == [] {
    } else {
      hide Step;
      var n := |events| - 1;
      CarefulPrefix(events, slug, n);
      TimersAreHeld(events[..n]);
      CarefulRunKeepsRecord(events[..n], slug);
      StepKeepsRecord(Run(INITIAL, events[..n]), events[n], slug);
    }
  }

  /** A slug that is forgotten only while nothing is on record for it has at most one
      force-refresh in flight. */
  lemma OneForceRefreshInFlight(events: seq<Event>, slug: Slug)
    requires Careful(events, slug)
    ensures AtMostOneInFlight(Run(INITIAL, events), slug)
  {
    hide Step;
    CarefulRunKeepsRecord(events, slug);
  }

  /** In every reachable state with a refresh in flight, forgetting the slug by a removal
      or a disposal lets the next call start a second one. */
  lemma ForgettingAllowsTwo(events: seq<Event>, e: Event, slug: Slug, t: nat)
    requires InFlight(Run(INITIAL, events), slug, t) && !Keeps(e, slug)
    ensures var s := Step(Step(Run(INITIAL, events), e), ForceRefresh(slug));
            InFlight(s, slug, t) && slug in s.inFlight && InFlight(s, slug, s.inFlight[slug]) && s.inFlight[slug] != t
  {
    hide Run;
    TimersAreHeld(events);
    RecordsAreLive(events);
    var s := Step(Run(INITIAL, events), e);
    assert StartsRefresh(s, slug);
    assert t != s.next;
  }

  /** For every run: the slug is forgotten carefully if and only if at no point of the run
      one more call can make two refreshes be in flight. */
  lemma OneInFlightExactly(events: seq<Event>, slug: Slug)
    ensures Careful(events, slug) <==>
      forall i :: 0 <= i <= |events| ==> AtMostOneInFlight(Step(Run(INITIAL, events[..i]), ForceRefresh(slug)), slug)
  {
    hide Step;
    hide Run;
    if Careful(events, slug) {
      forall i | 0 <= i <= |events|
        ensures AtMostOneInFlight(Step(Run(INITIAL, events[..i]), ForceRefresh(slug)), slug)
      {
        var more := events[..i] + [ForceRefresh(slug)];
        forall j | 0 <= j < |more| ensures Keeps(more[j], slug) || slug !in Run(INITIAL, more[..j]).inFlight {
          assert more[..j] == events[..j];
        }
        OneForceRefreshInFlight(more, slug);
        RunOneMore(INITIAL, events[..i], ForceRefresh(slug));
      }
    } else {
      var i :| 0 <= i < |events| && !Keeps(events[i], slug) && slug in Run(INITIAL, events[..i]).inFlight;
      var s := Run(INITIAL, events[..i]);
      RecordsAreLive(events[..i]);
      ForgettingAllowsTwo(events[..i], events[i], slug, s.inFlight[slug]);
      assert events[..i + 1] == events[..i] + [events[i]];
      RunOneMore(INITIAL, events[..i], events[i]);
      assert !AtMostOneInFlight(Step(Run(INITIAL, events[..i + 1]), ForceRefresh(slug)), slug);
    }
  }

  lemma RunOneMore(s: State, events: seq<Event>, e: Event)
    ensures Run(s, events + [e]) == Step(Run(s, events), e)
    ensures Run(s, []) == s
  {
    assert (events + [e])[..|events|] == events;
  }

  /** The event starts a force-refresh of the slug. */
  predicate IsStart(s: State, e: Event, slug: Slug) {
    e == ForceRefresh(slug) && StartsRefresh(s, slug)
  }

  // ---- Where tokens come from ----------------------------------------------------------

  /** Some answer to a task of this slug carried this token. */
  ghost predicate Answered(events: seq<Event>, slug: Slug, token: string) {
    exists i :: 0 <= i < |events| && Delivers(Run(INITIAL, events[..i]), events[i], slug, token)
  }

  predicate Delivers(s: State, e: Event, slug: Slug, token: string) {
    e.Answer? && e.outcome.Some? && e.outcome.value.token == token && e.task in s.tasks && s.tasks[e.task].slug == slug
  }

  /** What a slug's cache entry or settled refresh holds. */
  predicate Holds(s: State, slug: Slug, token: string, id: nat) {
    || (slug in s.tokens && s.tokens[slug].token == token)
    || (id in s.tasks && s.tasks[id] == ForceSettled(slug, Some(token)))
  }

  lemma ContinueHolds(s: State, task: nat, outcome: Option<TokenResult>, slug: Slug, token: string, id: nat)
    requires task in s.tasks && Holds(Continue(s, task, outcome), slug, token, id)
    ensures Holds(s, slug, token, id) || Delivers(s, Answer(task, outcome), slug, token)
  {
  }

  lemma HeldIsDelivered(s: State, e: Event, slug: Slug, token: string, id: nat)
    requires Holds(Step(s, e), slug, token, id)
    ensures Holds(s, slug, token, id) || Delivers(s, e, slug, token)
  {
    hide Continue;
    match e {
      case Answer(task, outcome) =>
        if task in s.tasks {
          ContinueHolds(s, task, outcome, slug, token, id);
        }
      case _ =>
    }
  }

  /** A token cached for a slug, or returned by a force-refresh of it, was received in
      answer to a request for that very slug. */
  lemma {:induction false} TokensComeFromAnswers(events: seq<Event>, slug: Slug, token: string, id: nat)
    requires Holds(Run(INITIAL, events), slug, token, id)
    ensures Answered(events, slug, token)
  {
    if events == [] {
    } else {
      hide Step;
      var init := events[..|events| - 1];
      var s := Run(INITIAL, init);
      HeldIsDelivered(s, events[|events| - 1], slug, token, id);
      if Holds(s, slug, token, id) {
        TokensComeFromAnswers(init, slug, token, id);
        var i :| 0 <= i < |init| && Delivers(Run(INITIAL, init[..i]), init[i], slug, token);
        assert events[..i] == init[..i];
        assert Delivers(Run(INITIAL, events[..i]), events[i], slug, token);
      } else {
        assert Delivers(Run(INITIAL, events[..|events| - 1]), events[|events| - 1], slug, token);
      }
    }
  }

  // ---- How a force-refresh fails --------------------------------------------------------

  predicate SettledEmpty(s: State, id: nat, slug: Slug) {
    id in s.tasks && s.tasks[id] == ForceSettled(slug, None)
  }

  /** With this event refresh `id` ends without a token, for want of a proxy port or
      because its acquisition was answered without success. */
  predicate AcquisitionFails(s: State, e: Event, id: nat, slug: Slug) {
    && SettledEmpty(Step(s, e), id, slug) && !SettledEmpty(s, id, slug)
    && (s.port == 0 || (e == Answer(id, None) && id in s.tasks && s.tasks[id] == ForceFetching(slug)))
  }

  lemma ContinueFails(s: State, task: nat, outcome: Option<TokenResult>, id: nat, slug: Slug)
    requires task in s.tasks && SettledEmpty(Continue(s, task, outcome), id, slug)
    ensures || SettledEmpty(s, id, slug)
            || s.port == 0
            || (task == id && outcome == None && s.tasks[id] == ForceFetching(slug))
  {
  }

  lemma StepFails(s: State, e: Event, id: nat, slug: Slug)
    requires SettledEmpty(Step(s, e), id, slug)
    ensures SettledEmpty(s, id, slug) || AcquisitionFails(s, e, id, slug)
  {
    hide Continue;
    match e {
      case Answer(task, outcome) =>
        if task in s.tasks {
          ContinueFails(s, task, outcome, id, slug);
        }
      case _ =>
    }
  }

  /** In every run, a force-refresh that has ended without a token did so by a failed
      acquisition for its slug, or for want of a port. */
  lemma {:induction false} EmptyResultsComeFromAcquisitions(events: seq<Event>, id: nat, slug: Slug)
    requires SettledEmpty(Run(INITIAL, events), id, slug)
    ensures exists i :: 0 <= i < |events| && AcquisitionFails(Run(INITIAL, events[..i]), events[i], id, slug)
  {
    hide Step;
    hide AcquisitionFails;
    if events == [] {
      assert false;
    } else {
      var n := |events| - 1;
      StepFails(Run(INITIAL, events[..n]), events[n], id, slug);
      if SettledEmpty(Run(INITIAL, events[..n]), id, slug) {
        EmptyResultsComeFromAcquisitions(events[..n], id, slug);
        var i :| 0 <= i < n && AcquisitionFails(Run(INITIAL, events[..n][..i]), events[..n][i], id, slug);
        assert events[..n][..i] == events[..i];
      }
    }
  }

  predicate Acquires(s: State, id: nat, slug: Slug) {
    id in s.tasks && s.tasks[id] == ForceFetching(slug)
  }

  /** With this event refresh `id` goes on to acquire a new token: it starts with nothing
      to renew, or its renewal gave nothing usable. */
  predicate AcquisitionBegins(s: State, e: Event, id: nat, slug: Slug) {
    && Acquires(Step(s, e), id, slug) && !Acquires(s, id, slug)
    && if IsStart(s, e, slug) then id == s.next && (slug in s.tokens ==> s.tokens[slug].token == "")
       else
         && id in s.tasks && s.tasks[id] == ForceRefreshing(slug)
         && e.Answer? && e.task == id && (e.outcome.Some? ==> e.outcome.value.token == "")
  }

  lemma ContinueAcquires(s: State, task: nat, outcome: Option<TokenResult>, id: nat, slug: Slug)
    requires task in s.tasks && Acquires(Continue(s, task, outcome), id, slug)
    ensures || Acquires(s, id, slug)
            || (task == id && s.tasks[id] == ForceRefreshing(slug) && (outcome.Some? ==> outcome.value.token == ""))
  {
  }

  lemma StepAcquires(s: State, e: Event, id: nat, slug: Slug)
    requires Acquires(Step(s, e), id, slug)
    ensures Acquires(s, id, slug) || AcquisitionBegins(s, e, id, slug)
  {
    hide Continue;
    match e {
      case Answer(task, outcome) =>
        if task in s.tasks {
          ContinueAcquires(s, task, outcome, id, slug);
        }
      case _ =>
    }
  }

  /** In every run, a force-refresh that is acquiring a new token started with nothing to
      renew, or its renewal was answered without a usable token before. */
  lemma {:induction false} AcquisitionsFollowRenewals(events: seq<Event>, id: nat, slug: Slug)
    requires Acquires(Run(INITIAL, events), id, slug)
    ensures exists i :: 0 <= i < |events| && AcquisitionBegins(Run(INITIAL, events[..i]), events[i], id, slug)
  {
    hide Step;
    hide AcquisitionBegins;
    if events == [] {
      assert false;
    } else {
      var n := |events| - 1;
      StepAcquires(Run(INITIAL, events[..n]), events[n], id, slug);
      if Acquires(Run(INITIAL, events[..n]), id, slug) {
        AcquisitionsFollowRenewals(events[..n], id, slug);
        var i :| 0 <= i < n && AcquisitionBegins(Run(INITIAL, events[..n][..i]), events[..n][i], id, slug);
        assert events[..n][..i] == events[..i];
      }
    }
  }

  // ---- What a removal can do -----------------------------------------------------------

  const A: Slug := "a"

  /** Removing a slug while its refresh is in flight lets a second one start at once. */
  lemma RemovalAllowsTwoInFlight()
    ensures var s := Run(INITIAL, [Tick(2000)] + [SetPort(1)] + [ForceRefresh(A)] + [RemoveToken(A)] + [ForceRefresh(A)]);
            0 in s.tasks && s.tasks[0] == ForceFetching(A) && 1 in s.tasks && s.tasks[1] == ForceFetching(A)
  {
    hide Run;
    var e1 := [Tick(2000)];
    var e2 := e1 + [SetPort(1)];
    var e3 := e2 + [ForceRefresh(A)];
    var e4 := e3 + [RemoveToken(A)];
    assert e1 == [] + [Tick(2000)];
    RunOneMore(INITIAL, [], Tick(2000));
    RunOneMore(INITIAL, e1, SetPort(1));
    RunOneMore(INITIAL, e2, ForceRefresh(A));
    RunOneMore(INITIAL, e3, RemoveToken(A));
    RunOneMore(INITIAL, e4, ForceRefresh(A));
    assert Run(INITIAL, e3).tasks == map[0 := ForceFetching(A)];
  }

  /** A refresh has just started with nothing to renew; another caller of the same slug
      comes at once. It is not handed the refresh on record: it is inside the debounce
      interval, and gets the cached token, of which there is none. */
  lemma DebouncedCallerGetsNothing()
    ensures var s := Run(INITIAL, [Tick(2000)] + [SetPort(1)] + [ForceRefresh(A)]);
            A in s.inFlight && Acquires(s, s.inFlight[A], A) && Debounced(s, A) && GetToken(s, A) == None
  {
    hide Run;
    var e1 := [Tick(2000)];
    var e2 := e1 + [SetPort(1)];
    assert e1 == [] + [Tick(2000)];
    RunOneMore(INITIAL, [], Tick(2000));
    RunOneMore(INITIAL, e1, SetPort(1));
    RunOneMore(INITIAL, e2, ForceRefresh(A));
  }
}
