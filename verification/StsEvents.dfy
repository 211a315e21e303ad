/** What each event starts and ends, in the source's own numbers, and what follows for
    whole runs: which functions are waiting, what the clock shows, which port is in force. */
module StsEvents {
  import opened Wrappers
  import opened StsProtocol
  import opened StsCache

  /** A function begins to wait in three cases only: a token is asked for while the cached
      one is missing or has at most 30 s left; a force-refresh is asked for at least 2 s
      after the last one with none on record; or the timer of a cached token goes off. The
      first and the last need a proxy port. */
  predicate Begins(s: State, e: Event) {
    match e
    case Acquire(slug) => s.port != 0 && (slug in s.tokens ==> s.tokens[slug].expiresAtMs <= s.now + 30000)
    case ForceRefresh(slug) =>
      slug !in s.inFlight && s.now >= 2000 + (if slug in s.lastForceRefreshAt then s.lastForceRefreshAt[slug] else 0)
    case Fire(timer) => s.port != 0 && timer in s.armed
    case _ => false
  }

  lemma BeginsExactly(s: State, e: Event)
    requires Fresh(s)
    ensures s.next in Step(s, e).tasks <==> Begins(s, e)
    ensures !Begins(s, e) && !e.Answer? && !e.Finish? ==> Step(s, e).tasks == s.tasks
  {
  }

  /** What the new function waits for. A force-refresh renews a non-empty cached token, even
      an expired one, and otherwise fetches a new one; without a port it has already failed. */
  lemma BeginsWith(s: State, e: Event)
    requires Begins(s, e)
    ensures Step(s, e).next == s.next + 1
    ensures Step(s, e).tasks ==
      s.tasks[s.next :=
        match e
        case Acquire(slug) => Acquiring(slug)
        case ForceRefresh(slug) =>
          if s.port == 0 then ForceSettled(slug, None)
          else if slug in s.tokens && s.tokens[slug].token != "" then ForceRefreshing(slug)
          else ForceFetching(slug)
        case Fire(timer) => Background(s.armed[timer].slug)]
  {
  }

  /** An answer to a renewal ends it with the token or sends it on to fetch a new one; an
      answer to a fetch ends it either way; the other functions are done. */
  lemma AnswerMovesOn(s: State, id: nat, outcome: Option<TokenResult>)
    requires id in s.tasks && !s.tasks[id].ForceSettled?
    ensures var slug, after := s.tasks[id].slug, Step(s, Answer(id, outcome)).tasks;
            match s.tasks[id]
            case ForceRefreshing(_) =>
              after == s.tasks[id :=
                if outcome.Some? && outcome.value.token != "" then ForceSettled(slug, Some(outcome.value.token))
                else if s.port != 0 then ForceFetching(slug)
                else ForceSettled(slug, None)]
            case ForceFetching(_) =>
              after == s.tasks[id :=
                if outcome.Some? then ForceSettled(slug, Some(outcome.value.token)) else ForceSettled(slug, None)]
            case _ => after == s.tasks - {id}
  {
  }

  /** The event ends function `t`: the answer of an acquisition or of a background renewal,
      or the last block of a force-refresh that has its result. */
  predicate Ends(s: State, e: Event, t: nat) {
    && t in s.tasks
    && if s.tasks[t].Acquiring? || s.tasks[t].Background? then e.Answer? && e.task == t
       else s.tasks[t].ForceSettled? && e == Finish(t)
  }

  lemma EndsExactly(s: State, e: Event, t: nat)
    requires t in s.tasks
    ensures t in Step(s, e).tasks <==> !Ends(s, e, t)
  {
    hide NextWait;
    match e {
      case Answer(_, _) =>
      case _ => hide Continue;
    }
  }

  /** Function `t` is begun by event `i` and by no later event ended. */
  ghost predicate Waits(events: seq<Event>, i: nat, t: nat) {
    && i < |events| && Run(INITIAL, events[..i]).next == t && Begins(Run(INITIAL, events[..i]), events[i])
    && forall k :: i < k < |events| ==> !Ends(Run(INITIAL, events[..k]), events[k], t)
  }

  lemma WaitsEarlier(events: seq<Event>, i: nat, t: nat)
    requires events != [] && i < |events| - 1
    ensures Waits(events, i, t) <==>
              && Waits(events[..|events| - 1], i, t)
              && !Ends(Run(INITIAL, events[..|events| - 1]), events[|events| - 1], t)
  {
    hide Run;
    hide Begins;
    hide Ends;
    var n := |events| - 1;
    assert forall k :: 0 <= k < n ==> events[..n][..k] == events[..k] && events[..n][k] == events[k];
  }

  lemma OnlyNextIsNew(s: State, e: Event, t: nat)
    requires t !in s.tasks && t != s.next
    ensures t !in Step(s, e).tasks
  {
    hide NextWait;
    match e {
      case Answer(_, _) =>
      case _ => hide Continue;
    }
  }

  lemma NextIsNotUsed(s: State)
    requires Fresh(s)
    ensures s.next !in s.tasks
  {
  }

  /** For every run: a function is waiting if and only if some event began it and none has
      ended it. */
  lemma {:induction false} WaitingExactly(events: seq<Event>, t: nat)
    ensures t in Run(INITIAL, events).tasks <==> exists i :: Waits(events, i, t)
    decreases |events|
  {
    hide Step;
    hide Begins;
    hide Ends;
    hide Fresh;
    if events == [] {
    } else {
      var n := |events| - 1;
      var s, e := Run(INITIAL, events[..n]), events[n];
      WaitingExactly(events[..n], t);
      TimersAreHeld(events[..n]);
      hide Run;
      RunOneMore(INITIAL, events[..n], e);
      assert events == events[..n] + [e];
      forall i: nat | i < n
        ensures Waits(events, i, t) <==> Waits(events[..n], i, t) && !Ends(s, e, t)
      {
        WaitsEarlier(events, i, t);
      }
      NextIsNotUsed(s);
      if t == s.next {
        BeginsExactly(s, e);
        assert Begins(s, e) ==> Waits(events, n, t);
      } else if t in s.tasks {
        EndsExactly(s, e, t);
      } else {
        OnlyNextIsNew(s, e, t);
      }
    }
  }

  // ---- Timers -----------------------------------------------------------------------------

  /** No two slugs hold the same timer. */
  ghost predicate OwnTimers(s: State) {
    forall k, l :: k in s.tokens && l in s.tokens && s.tokens[k].timer == s.tokens[l].timer ==> k == l
  }

  lemma StepKeepsOwnTimers(s: State, e: Event)
    requires Fresh(s) && OwnTimers(s)
    ensures OwnTimers(Step(s, e))
  {
    hide NextWait;
    match e {
      case Answer(_, _) =>
      case _ => hide Continue;
    }
  }

  lemma {:induction false} EverySlugHasItsTimer(events: seq<Event>)
    ensures OwnTimers(Run(INITIAL, events))
  {
    hide Step;
    if events == [] {
    } else {
      var n := |events| - 1;
      TimersAreHeld(events[..n]);
      EverySlugHasItsTimer(events[..n]);
      StepKeepsOwnTimers(Run(INITIAL, events[..n]), events[n]);
    }
  }

  lemma ArmedAfterAnswer(s: State, id: nat, outcome: Option<TokenResult>, timer: nat)
    requires Fresh(s) && TimersHeld(s) && OwnTimers(s) && timer in s.armed
    ensures var s' := Step(s, Answer(id, outcome));
            && (timer in s'.armed <==> !Caches(s, Answer(id, outcome), s.armed[timer].slug))
            && (timer in s'.armed ==> s'.armed[timer] == s.armed[timer])
  {
    hide NextWait;
  }

  lemma ArmedAfter(s: State, e: Event, timer: nat)
    requires Fresh(s) && TimersHeld(s) && OwnTimers(s) && timer in s.armed && !e.Answer?
    ensures timer in Step(s, e).armed <==> e != Fire(timer) && Keeps(e, s.armed[timer].slug)
    ensures timer in Step(s, e).armed ==> Step(s, e).armed[timer] == s.armed[timer]
  {
    hide Continue;
  }

  /** In every run, an armed timer stays armed unless it goes off, its slug is forgotten, or
      a newer token arrives for its slug. */
  lemma TimerGoesExactly(events: seq<Event>, e: Event, timer: nat)
    requires timer in Run(INITIAL, events).armed
    ensures var s, s' := Run(INITIAL, events), Step(Run(INITIAL, events), e);
            && (timer in s'.armed <==>
                  e != Fire(timer) && Keeps(e, s.armed[timer].slug) && !Caches(s, e, s.armed[timer].slug))
            && (timer in s'.armed ==> s'.armed[timer] == s.armed[timer])
  {
    hide Run;
    hide Step;
    TimersAreHeld(events);
    EverySlugHasItsTimer(events);
    var s := Run(INITIAL, events);
    match e {
      case Answer(id, outcome) => ArmedAfterAnswer(s, id, outcome, timer);
      case _ => ArmedAfter(s, e, timer);
    }
  }

  // ---- The clock and the port -------------------------------------------------------------

  function Elapsed(events: seq<Event>): int {
    if events == [] then 0 else Elapsed(events[1..]) + (if events[0].Tick? then events[0].ms else 0)
  }

  lemma {:induction false} ElapsedOneMore(events: seq<Event>, e: Event)
    ensures Elapsed(events + [e]) == Elapsed(events) + (if e.Tick? then e.ms else 0)
  {
    if events == [] {
    } else {
      assert (events + [e])[1..] == events[1..] + [e];
      ElapsedOneMore(events[1..], e);
    }
  }

  lemma StepMovesClock(s: State, e: Event)
    ensures Step(s, e).now == s.now + (if e.Tick? then e.ms else 0)
    ensures Step(s, e).port == if e.SetPort? then e.port else s.port
  {
  }

  /** The clock shows the time that has passed, and nothing else moves it. */
  lemma {:induction false} ClockIsElapsed(events: seq<Event>)
    ensures Run(INITIAL, events).now == Elapsed(events)
  {
    hide Step;
    if events == [] {
    } else {
      var n := |events| - 1;
      ClockIsElapsed(events[..n]);
      StepMovesClock(Run(INITIAL, events[..n]), events[n]);
      ElapsedOneMore(events[..n], events[n]);
      assert events == events[..n] + [events[n]];
    }
  }

  /** The port in force is the one set last, and 0 before the first is set. */
  lemma {:induction false} PortIsLastSet(events: seq<Event>, i: int)
    requires -1 <= i < |events| && (i >= 0 ==> events[i].SetPort?)
    requires forall k :: i < k < |events| ==> !events[k].SetPort?
    ensures Run(INITIAL, events).port == if i >= 0 then events[i].port else 0
    decreases |events|
  {
    hide Step;
    if events == [] {
    } else {
      var n := |events| - 1;
      StepMovesClock(Run(INITIAL, events[..n]), events[n]);
      if i < n {
        PortIsLastSet(events[..n], i);
      }
    }
  }
}
