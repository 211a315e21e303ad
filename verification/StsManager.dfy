/** The token manager as it runs: maps reassigned by methods, timers and waiting
    functions held by the event loop. Each method is one stretch between awaits and
    makes exactly the step of the protocol that its name says. */
module StsManager {
  import opened Wrappers
  import opened StsProtocol

  /** The runtime's side: the clock, the armed timers and the waiting functions. */
  class EventLoop {
    var now: nat
    var armed: map<nat, Armed>
    var tasks: map<nat, Task>
    var next: nat

    constructor ()
      ensures now == 0 && armed == map[] && tasks == map[] && next == 0
    {
      now, armed, tasks, next := 0, map[], map[], 0;
    }

    method SetTimeout(slug: Slug, token: string) returns (timer: nat)
      modifies this`armed, this`next
      ensures timer == old(next) && next == old(next) + 1
      ensures armed == old(armed)[timer := Armed(slug, token)]
    {
      timer := next;
      armed := armed[timer := Armed(slug, token)];
      next := next + 1;
    }

    method ClearTimeout(timer: nat)
      modifies this`armed
      ensures armed == old(armed) - {timer}
    {
      armed := armed - {timer};
    }

    method Await(t: Task) returns (id: nat)
      modifies this`tasks, this`next
      ensures id == old(next) && next == old(next) + 1
      ensures tasks == old(tasks)[id := t]
    {
      id := next;
      tasks := tasks[id := t];
      next := next + 1;
    }
  }

  /** What a caller of an asynchronous method gets at its first await. */
  datatype Reply = Now(token: Option<string>) | Await(task: nat)

  class Manager {
    var tokens: map<Slug, Entry>
    var proxyPort: nat
    var forceRefreshInFlight: map<Slug, nat>
    var lastForceRefreshAt: map<Slug, nat>
    const loop: EventLoop

    constructor (loop: EventLoop)
      requires loop.now == 0 && loop.armed == map[] && loop.tasks == map[] && loop.next == 0
      ensures this.loop == loop && Current() == INITIAL
    {
      tokens, proxyPort, forceRefreshInFlight, lastForceRefreshAt := map[], 0, map[], map[];
      this.loop := loop;
    }

    function Current(): State
      reads this, loop
    {
      State(loop.now, proxyPort, tokens, forceRefreshInFlight, lastForceRefreshAt, loop.armed, loop.tasks, loop.next)
    }

    method SetProxyPort(port: nat)
      modifies this`proxyPort
      ensures Current() == Step(old(Current()), SetPort(port))
    {
      proxyPort := port;
    }

    /** A cached token that has not expired, for header injection. */
    method Get(slug: Slug) returns (token: Option<string>)
      ensures token == GetToken(Current(), slug)
      ensures forall t :: token == Some(t) <==>
                slug in tokens && tokens[slug].token == t && tokens[slug].expiresAtMs > loop.now
    {
      if slug !in tokens {
        return None;
      }
      var cached := tokens[slug];
      if cached.expiresAtMs <= loop.now {
        return None;
      }
      return Some(cached.token);
    }

    method AcquireToken(slug: Slug) returns (r: Reply)
      modifies loop
      ensures Current() == Step(old(Current()), Acquire(slug))
      ensures if slug in tokens && tokens[slug].expiresAtMs > loop.now + 30000 then r == Now(Some(tokens[slug].token))
              else if proxyPort == 0 then r == Now(None)
              else r == Await(old(loop.next)) && loop.tasks == old(loop.tasks)[old(loop.next) := Acquiring(slug)]
    {
      if slug in tokens && tokens[slug].expiresAtMs > loop.now + MIN_REMAINING_MS {
        return Now(Some(tokens[slug].token));
      }
      if proxyPort == 0 {
        return Now(None);
      }
      var id := loop.Await(Acquiring(slug));
      return Await(id);
    }

    /** Debounce, then coalesce, then start. */
    method ForceRefreshToken(slug: Slug) returns (r: Reply)
      modifies this`forceRefreshInFlight, this`lastForceRefreshAt, loop
      ensures Current() == Step(old(Current()), ForceRefresh(slug))
      ensures var s := old(Current());
              if Debounced(s, slug) then r == Now(GetToken(s, slug))
              else slug in forceRefreshInFlight && r == Await(forceRefreshInFlight[slug])
      ensures var last := if slug in old(lastForceRefreshAt) then old(lastForceRefreshAt)[slug] else 0;
              if loop.now - last < 2000 then
                r.Now? && forall t :: r.token == Some(t) <==>
                  slug in tokens && tokens[slug].token == t && tokens[slug].expiresAtMs > loop.now
              else if slug in old(forceRefreshInFlight) then r == Await(old(forceRefreshInFlight)[slug])
              else r == Await(old(loop.next))
    {
      var lastRefresh := if slug in lastForceRefreshAt then lastForceRefreshAt[slug] else 0;
      if loop.now - lastRefresh < FORCE_REFRESH_DEBOUNCE_MS {
        var token := Get(slug);
        return Now(token);
      }
      if slug in forceRefreshInFlight {
        return Await(forceRefreshInFlight[slug]);
      }
      var wait := FirstWait(Current(), slug);
      lastForceRefreshAt := lastForceRefreshAt[slug := loop.now];
      var id := loop.Await(wait);
      forceRefreshInFlight := forceRefreshInFlight[slug := id];
      return Await(id);
    }

    method Cache(slug: Slug, data: TokenResult)
      modifies this`tokens, loop
      ensures Current() == CacheToken(old(Current()), slug, data)
    {
      if slug in tokens {
        loop.ClearTimeout(tokens[slug].timer);
      }
      var timer := loop.SetTimeout(slug, data.token);
      tokens := tokens[slug := Entry(data.token, data.expiresAt * 1000, timer, data.slug)];
    }

    /** The continuation of a waiting function. */
    method OnAnswer(id: nat, outcome: Option<TokenResult>)
      requires id in loop.tasks
      modifies this`tokens, loop
      ensures Current() == Step(old(Current()), Answer(id, outcome))
    {
      hide CacheToken;
      var t := loop.tasks[id];
      if t.ForceSettled? {
        return;
      }
      var next := AwaitFetch(Current(), t.slug);
      CacheKeepsTasks(Current(), t.slug, outcome);
      if outcome.Some? {
        Cache(t.slug, outcome.value);
      }
      match t {
        case ForceRefreshing(slug) =>
          var done := outcome.Some? && outcome.value.token != "";
          loop.tasks := loop.tasks[id := if done then ForceSettled(slug, Some(outcome.value.token)) else next];
        case ForceFetching(slug) =>
          loop.tasks := loop.tasks[id := ForceSettled(slug, if outcome.Some? then Some(outcome.value.token) else None)];
        case Acquiring(_) => loop.tasks := loop.tasks - {id};
        case Background(_) => loop.tasks := loop.tasks - {id};
      }
    }

    /** The `finally` block of the call that started a force-refresh. */
    method OnSettled(id: nat)
      requires id in loop.tasks && loop.tasks[id].ForceSettled?
      modifies this`forceRefreshInFlight, loop
      ensures Current() == Step(old(Current()), Finish(id))
    {
      forceRefreshInFlight := forceRefreshInFlight - {loop.tasks[id].slug};
      loop.tasks := loop.tasks - {id};
    }

    /** The refresh timer of a cached token goes off. */
    method OnTimer(timer: nat)
      requires timer in loop.armed
      modifies loop
      ensures Current() == Step(old(Current()), Fire(timer))
      ensures loop.armed == old(loop.armed) - {timer}
      ensures loop.tasks == if proxyPort == 0 then old(loop.tasks)
                            else old(loop.tasks)[old(loop.next) := Background(old(loop.armed)[timer].slug)]
    {
      var slug := loop.armed[timer].slug;
      loop.ClearTimeout(timer);
      if proxyPort != 0 {
        var id := loop.Await(Background(slug));
      }
    }

    method Remove(slug: Slug)
      modifies this, loop
      ensures Current() == Step(old(Current()), RemoveToken(slug))
    {
      if slug in tokens {
        loop.ClearTimeout(tokens[slug].timer);
      }
      tokens := tokens - {slug};
      forceRefreshInFlight := forceRefreshInFlight - {slug};
      lastForceRefreshAt := lastForceRefreshAt - {slug};
    }

    /** Clear every timer held by an entry, then forget everything. */
    method DisposeAll()
      modifies this, loop
      ensures Current() == Step(old(Current()), Dispose)
    {
      var todo := tokens.Keys;
      while todo != {}
        invariant todo <= tokens.Keys
        invariant loop.armed == old(loop.armed) - (set k | k in tokens.Keys - todo :: tokens[k].timer)
        invariant unchanged(this) && unchanged(loop`now, loop`tasks, loop`next)
      {
        var slug :| slug in todo;
        ghost var before := set k | k in tokens.Keys - todo :: tokens[k].timer;
        loop.ClearTimeout(tokens[slug].timer);
        todo := todo - {slug};
        assert (set k | k in tokens.Keys - todo :: tokens[k].timer) == before + {tokens[slug].timer};
      }
      tokens, forceRefreshInFlight, lastForceRefreshAt := map[], map[], map[];
    }
  }

  lemma CacheKeepsTasks(s: State, slug: Slug, outcome: Option<TokenResult>)
    ensures outcome.Some? ==> CacheToken(s, slug, outcome.value).tasks == s.tasks
  {
  }
}
