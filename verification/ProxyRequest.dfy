/** Handling one client request: token injection, one retry when the token has
    expired, and the nested requests that a refresh sends back through the same
    proxy. What the upstream, the token cache and other requests do in between is
    arbitrary; what requests wait for is the subject of `RequestWaits`. */
module ProxyRequest {
  import opened Wrappers
  import opened StsProtocol

  const STS_REFRESH_PATH := "/_auth/sts/refresh"
  const STS_TOKEN_PATH := "/_auth/sts/token"

  /** A client request; `project` is its X-Ellul-Project header. */
  datatype Request = Request(path: string, project: Option<string>)

  /** A call to the upstream server: the request it is made for and the token it carries. */
  datatype Call = Call(path: string, project: Option<string>, token: Option<string>)

  /** `body` is the token that the body of a response holds, if it holds one. */
  datatype Outcome =
    | Unreachable
    | FetchError
    | Response(status: nat, saysExpired: bool, body: Option<TokenResult>)

  datatype Exchange = Exchange(call: Call, answer: Outcome)

  datatype Reply =
    | Local
    | NoSession
    | NoManager
    | NoToken
    | VpsUnreachable
    | ProxyError
    | Unauthorized
    | Streamed(upstream: Outcome)

  /** An absent or empty header means no project. */
  predicate HasProject(req: Request) {
    req.project.Some? && req.project.value != ""
  }

  predicate IsLocal(path: string) {
    path == "/_vault" || path == "/_vault/" || "/_internal/" <= path
  }

  /** What a request finds on arrival: a session, a token manager, and the token that
      the manager has for the project of the request. */
  datatype Surroundings = Surroundings(session: bool, manager: bool, token: Option<string>)

  /** Why a request is answered without any upstream call, in the order of the checks. */
  function Refusal(req: Request, found: Surroundings): Option<Reply> {
    if IsLocal(req.path) then Some(Local)
    else if !found.session then Some(NoSession)
    else if !HasProject(req) then None
    else if !found.manager then Some(NoManager)
    else if !Usable(found.token) then Some(NoToken)
    else None
  }

  /** The answer says that the token of this request has expired. */
  predicate Expired(req: Request, answer: Outcome) {
    answer.Response? && answer.status == 401 && HasProject(req) && answer.saysExpired
  }

  function AfterFirst(req: Request, answer: Outcome): Reply {
    match answer
    case Unreachable => VpsUnreachable
    case FetchError => ProxyError
    case Response(status, saysExpired, _) =>
      if status == 401 && HasProject(req) && !saysExpired then Unauthorized else Streamed(answer)
  }

  /** The answer to the retry is final, whatever it is. */
  function AfterRetry(answer: Outcome): Reply {
    if answer.Response? then Streamed(answer) else ProxyError
  }

  // ---- The refresh, as the protocol of the token manager has it ---------------------------

  /** The calls of a refresh: a renewal, then an acquisition, without a project and
      without a token. */
  ghost predicate Nested(calls: seq<Exchange>) {
    && |calls| <= 2
    && (forall e :: e in calls ==> e.call == Call(STS_REFRESH_PATH, None, None) || e.call == Call(STS_TOKEN_PATH, None, None))
    && (|calls| == 2 ==> calls[0].call.path == STS_REFRESH_PATH && calls[1].call.path == STS_TOKEN_PATH)
  }

  /** Where a refresh sends its request for an answer. */
  function PathOf(t: Task): string {
    if t.ForceRefreshing? then STS_REFRESH_PATH else STS_TOKEN_PATH
  }

  /** The wait that the protocol has follow `t` after this answer, in some state. */
  ghost predicate FollowedBy(t: Task, answer: Option<TokenResult>, next: Task)
    requires t.IsForce()
  {
    exists s :: next == NextWait(s, t, answer)
  }

  /** What a refresh that started in state `s` has waited for in turn, and the answers it
      got. */
  ghost predicate Underway(s: State, slug: Slug, waits: seq<Task>, answers: seq<Option<TokenResult>>) {
    && |waits| == |answers| + 1
    && (forall i :: 0 <= i < |waits| ==> waits[i].IsForce())
    && (forall i :: 0 <= i < |answers| ==> !waits[i].ForceSettled?)
    && waits[0] == FirstWait(s, slug)
    && (forall i :: 0 <= i < |answers| ==> FollowedBy(waits[i], answers[i], waits[i + 1]))
  }

  /** Where the result of a refresh came from, by what the caller finds in state `s`: the
      cached token, the refresh on record, or a refresh that is started here. */
  datatype Source =
    | Cached(s: State)
    | Awaited(s: State)
    | Here(s: State, waits: seq<Task>, answers: seq<Option<TokenResult>>)

  ghost predicate ResultOf(slug: Slug, source: Source, token: Option<string>, nested: seq<Exchange>) {
    match source
    case Cached(s) => Debounced(s, slug) && token == GetToken(s, slug) && nested == []
    case Awaited(s) => !Debounced(s, slug) && slug in s.inFlight && nested == []
    case Here(s, waits, answers) =>
      && StartsRefresh(s, slug) && Underway(s, slug, waits, answers) && waits[|answers|].ForceSettled?
      && token == waits[|answers|].result
      && forall i :: 0 <= i < |answers| && answers[i].Some? ==> CameIn(nested, PathOf(waits[i]), answers[i].value)
  }

  /** The data came in a successful answer to a call of this path. */
  ghost predicate CameIn(nested: seq<Exchange>, path: string, data: TokenResult) {
    exists e :: e in nested && e.call == Call(path, None, None)
      && e.answer.Response? && 200 <= e.answer.status < 300 && e.answer.body == Some(data)
  }

  // ---- What the log of upstream calls shows ----------------------------------------------

  /** The call that a request makes with this token. */
  function OwnCall(req: Request, token: Option<string>): Call {
    if HasProject(req) then Call(req.path, req.project, token) else Call(req.path, None, None)
  }

  function Last(made: seq<Exchange>): Exchange
    requires made != []
  {
    made[|made| - 1]
  }

  /** Calls that a refresh made on the way to this result. */
  ghost predicate RefreshGave(slug: Slug, token: Option<string>, nested: seq<Exchange>) {
    Nested(nested) && exists source :: ResultOf(slug, source, token, nested)
  }

  /** The exchanges made for a request, and its reply: refused without any; the first
      call, with the token found; and when its answer says that the token has expired,
      a refresh and, with the token `refreshed` that it gives, one repetition. */
  ghost predicate Handled(req: Request, found: Surroundings, made: seq<Exchange>, refreshed: Option<string>, reply: Reply) {
    match Refusal(req, found)
    case Some(refusal) => made == [] && reply == refusal
    case None =>
      && made != [] && made[0].call == OwnCall(req, found.token)
      && if !Expired(req, made[0].answer) then |made| == 1 && reply == AfterFirst(req, made[0].answer)
         else if !Usable(refreshed) then
           RefreshGave(req.project.value, refreshed, made[1..]) && reply == Streamed(made[0].answer)
         else
           && |made| >= 2 && RefreshGave(req.project.value, refreshed, made[1..|made| - 1])
           && Last(made).call == OwnCall(req, refreshed)
           && reply == AfterRetry(Last(made).answer)
  }

  /** What the log and the reply show for each input: which requests are refused, what the
      first call is, which answers end the matter, and which lead to a repetition. */
  ghost predicate RepliesRight(req: Request, found: Surroundings, made: seq<Exchange>, refreshed: Option<string>, reply: Reply) {
    var named := req.project.Some? && req.project.value != "";
    if req.path == "/_vault" || req.path == "/_vault/" || "/_internal/" <= req.path then made == [] && reply == Local
    else if !found.session then made == [] && reply == NoSession
    else if named && !found.manager then made == [] && reply == NoManager
    else if named && (found.token.None? || found.token.value == "") then made == [] && reply == NoToken
    else
      && made != []
      && made[0].call == (if named then Call(req.path, req.project, found.token) else Call(req.path, None, None))
      && match made[0].answer
         case Unreachable => |made| == 1 && reply == VpsUnreachable
         case FetchError => |made| == 1 && reply == ProxyError
         case Response(status, saysExpired, _) =>
           if status != 401 || !named then |made| == 1 && reply == Streamed(made[0].answer)
           else if !saysExpired then |made| == 1 && reply == Unauthorized
           else if refreshed.None? || refreshed.value == "" then
             |made| <= 3 && reply == Streamed(made[0].answer)
           else
             && 2 <= |made| <= 4 && made[|made| - 1].call == Call(req.path, req.project, refreshed)
             && reply == if made[|made| - 1].answer.Response? then Streamed(made[|made| - 1].answer) else ProxyError
  }

  /** The call is repeated exactly for a 401 that says expired, to a request with a project,
      when the refresh gave a non-empty token. */
  ghost predicate RepeatedRight(req: Request, made: seq<Exchange>, refreshed: Option<string>) {
    |made| >= 2 && made[|made| - 1].call.token.Some? <==>
      && made != [] && made[0].answer.Response? && made[0].answer.status == 401 && made[0].answer.saysExpired
      && req.project.Some? && req.project.value != "" && refreshed.Some? && refreshed.value != ""
  }

  /** Only the first call and the repetition carry a token; between them there is at most a
      renewal and then an acquisition. */
  ghost predicate NestedRight(made: seq<Exchange>) {
    && (forall i :: 0 < i < |made| && made[i].call.token.None? ==>
          made[i].call in {Call("/_auth/sts/refresh", None, None), Call("/_auth/sts/token", None, None)})
    && (forall i :: 0 < i < |made| - 1 ==> made[i].call.token.None?)
    && (forall i, j :: 0 < i < j < |made| && made[j].call.token.None? ==>
          made[i].call.path == "/_auth/sts/refresh" && made[j].call.path == "/_auth/sts/token")
  }

  lemma HandledInFull(req: Request, found: Surroundings, made: seq<Exchange>, refreshed: Option<string>, reply: Reply)
    requires Handled(req, found, made, refreshed, reply)
    ensures RepliesRight(req, found, made, refreshed, reply)
    ensures RepeatedRight(req, made, refreshed)
    ensures NestedRight(made)
  {
    hide ResultOf;
    if Refusal(req, found).None? && Expired(req, made[0].answer) {
      if Usable(refreshed) {
        var nested := made[1..|made| - 1];
        assert forall i :: 0 < i < |made| - 1 ==> made[i] == nested[i - 1];
      } else {
        var nested := made[1..];
        assert forall i :: 0 < i < |made| ==> made[i] == nested[i - 1];
      }
    }
  }

  /** How many more answers a refresh can wait for. */
  function AnswersLeft(t: Task): nat {
    if t.ForceRefreshing? then 2 else if t.ForceFetching? then 1 else 0
  }

  lemma NothingNested()
    ensures Nested([])
  {
  }

  /** The refresh goes on. */
  lemma RefreshGoesOn(start: State, slug: Slug, waits: seq<Task>, answers: seq<Option<TokenResult>>,
                      s: State, answer: Option<TokenResult>)
    requires Underway(start, slug, waits, answers) && !waits[|answers|].ForceSettled?
    ensures Underway(start, slug, waits + [NextWait(s, waits[|answers|], answer)], answers + [answer])
  {
    hide FirstWait;
    hide FollowedBy;
    hide NextWait;
    assert FollowedBy(waits[|answers|], answer, NextWait(s, waits[|answers|], answer)) by {
      NextFollows(s, waits[|answers|], answer);
    }
  }

  lemma NextFollows(s: State, t: Task, answer: Option<TokenResult>)
    requires t.IsForce()
    ensures FollowedBy(t, answer, NextWait(s, t, answer))
  {
  }

  /** Every answer so far came in a call of its own, and only what may come first has come. */
  ghost predicate Asked(waits: seq<Task>, answers: seq<Option<TokenResult>>, nested: seq<Exchange>)
    requires |waits| == |answers| + 1
  {
    && Nested(nested)
    && (waits[|answers|].ForceRefreshing? ==> nested == [])
    && (waits[|answers|].ForceFetching? ==> |nested| <= 1 && forall e :: e in nested ==> e.call.path == STS_REFRESH_PATH)
    && (forall i :: 0 <= i < |answers| && answers[i].Some? ==> CameIn(nested, PathOf(waits[i]), answers[i].value))
  }

  lemma AskedGrows(waits: seq<Task>, answers: seq<Option<TokenResult>>, nested: seq<Exchange>,
                   s: State, answer: Option<TokenResult>, more: seq<Exchange>)
    requires |waits| == |answers| + 1 && Asked(waits, answers, nested)
    requires var t := waits[|answers|];
             && t.IsForce() && !t.ForceSettled?
             && |more| <= 1 && (forall e :: e in more ==> e.call == Call(PathOf(t), None, None))
             && (answer.Some? ==> CameIn(more, PathOf(t), answer.value))
    ensures Asked(waits + [NextWait(s, waits[|answers|], answer)], answers + [answer], nested + more)
  {
    var t := waits[|answers|];
    var waits', answers', nested' := waits + [NextWait(s, t, answer)], answers + [answer], nested + more;
    forall e | e in nested' ensures e in nested || e in more {
    }
    forall i | 0 <= i < |answers'| && answers'[i].Some? ensures CameIn(nested', PathOf(waits'[i]), answers'[i].value) {
      if i < |answers| {
        assert CameIn(nested, PathOf(waits[i]), answers[i].value);
      } else {
        assert CameIn(more, PathOf(t), answer.value);
      }
    }
  }

  class Proxy {
    /** Every exchange with the upstream server, in order. */
    var log: seq<Exchange>

    constructor ()
      ensures log == []
    {
      log := [];
    }

    method Fetch(call: Call) returns (u: Outcome)
      modifies this`log
      ensures log == old(log) + [Exchange(call, u)]
    {
      u := *;
      log := log + [Exchange(call, u)];
    }

    /** The request handler: the calls that a request makes, the bound on them and the
        retry rule, all read off the log, and the reply that goes with them. The nesting
        ends because the requests sent by a refresh carry no project header, and only
        requests that carry one can refresh. */
    method HandleRequest(req: Request) returns (reply: Reply, ghost found: Surroundings, ghost refreshed: Option<string>)
      modifies this`log
      ensures old(log) <= log
      ensures Handled(req, found, log[|old(log)|..], refreshed, reply)
      ensures RepliesRight(req, found, log[|old(log)|..], refreshed, reply)
      ensures RepeatedRight(req, log[|old(log)|..], refreshed)
      ensures NestedRight(log[|old(log)|..])
      decreases if HasProject(req) then 2 else 0, 1
    {
      hide Handled;
      ghost var made;
      reply, found, refreshed, made := Forward(req);
      assert log[|old(log)|..] == made;
      HandledInFull(req, found, log[|old(log)|..], refreshed, reply);
    }

    method Forward(req: Request)
      returns (reply: Reply, ghost found: Surroundings, ghost refreshed: Option<string>, ghost made: seq<Exchange>)
      modifies this`log
      ensures log == old(log) + made && Handled(req, found, made, refreshed, reply)
      decreases if HasProject(req) then 2 else 0, 0
    {
      hide Nested;
      hide ResultOf;
      NothingNested();
      var hasSession: bool := *;
      var hasManager: bool := *;
      var stsToken: Option<string> := *;
      found, refreshed, made := Surroundings(hasSession, hasManager, stsToken), None, [];
      if IsLocal(req.path) {
        return Local, found, refreshed, made;
      }
      if !hasSession {
        return NoSession, found, refreshed, made;
      }
      var project, token: Option<string> := None, None;
      if HasProject(req) {
        if !hasManager {
          return NoManager, found, refreshed, made;
        }
        if !Usable(stsToken) {
          return NoToken, found, refreshed, made;
        }
        project, token := req.project, stsToken;
      }
      var upstream := Fetch(Call(req.path, project, token));
      ghost var first := Exchange(Call(req.path, project, token), upstream);
      made := [first];
      if upstream.Unreachable? {
        return VpsUnreachable, found, refreshed, made;
      }
      if upstream.FetchError? {
        return ProxyError, found, refreshed, made;
      }
      if upstream.status == 401 && HasProject(req) {
        if upstream.saysExpired {
          var newToken;
          ghost var nested, source;
          newToken, nested, source := ForceRefresh(req.project.value);
          refreshed, made := newToken, [first] + nested;
          assert made[1..] == nested;
          assert RefreshGave(req.project.value, newToken, nested);
          if Usable(newToken) {
            var second := Fetch(Call(req.path, project, newToken));
            ghost var retry := Exchange(Call(req.path, project, newToken), second);
            assert ([first] + nested + [retry])[1..|nested| + 1] == nested;
            made := [first] + nested + [retry];
            if !second.Response? {
              return ProxyError, found, refreshed, made;
            }
            return Streamed(second), found, refreshed, made;
          }
        } else {
          return Unauthorized, found, refreshed, made;
        }
      }
      return Streamed(upstream), found, refreshed, made;
    }

    /** Inside the debounce interval the cached token is returned; a refresh already in
        flight is awaited; otherwise a refresh is started, which waits for answers as the
        protocol says until it has its result. */
    method ForceRefresh(slug: Slug) returns (token: Option<string>, ghost nested: seq<Exchange>, ghost source: Source)
      modifies this`log
      ensures log == old(log) + nested && Nested(nested) && ResultOf(slug, source, token, nested)
      decreases 1, 1
    {
      hide Underway;
      hide Asked;
      hide Nested;
      hide CameIn;
      hide FirstWait;
      hide NextWait;
      NothingNested();
      var s: State := *;
      nested := [];
      if Debounced(s, slug) {
        return GetToken(s, slug), nested, Cached(s);
      }
      if slug in s.inFlight {
        token := *;
        return token, nested, Awaited(s);
      }
      ghost var start := s;
      var wait := FirstWait(s, slug);
      ghost var waits: seq<Task>, answers: seq<Option<TokenResult>> := [wait], [];
      RefreshStarts(s, slug);
      while !wait.ForceSettled?
        invariant |waits| == |answers| + 1 && wait == waits[|answers|] && wait.IsForce()
        invariant Underway(start, slug, waits, answers) && Asked(waits, answers, nested)
        invariant log == old(log) + nested
        decreases AnswersLeft(wait)
      {
        var answer;
        ghost var more;
        answer, more := AskForToken(PathOf(wait));
        s := *;
        RefreshGoesOn(start, slug, waits, answers, s, answer);
        AskedGrows(waits, answers, nested, s, answer, more);
        WaitsEnd(s, wait, answer);
        wait := NextWait(s, wait, answer);
        waits, answers, nested := waits + [wait], answers + [answer], nested + more;
      }
      token, source := wait.result, Here(start, waits, answers);
      RefreshEnds(start, slug, waits, answers, nested);
    }

    /** A request for a token, sent through this proxy without a project header. */
    method AskForToken(path: string) returns (data: Option<TokenResult>, ghost nested: seq<Exchange>)
      requires path == STS_REFRESH_PATH || path == STS_TOKEN_PATH
      modifies this`log
      ensures log == old(log) + nested && |nested| <= 1
      ensures forall e :: e in nested ==> e.call == Call(path, None, None)
      ensures data.Some? ==> CameIn(nested, path, data.value)
      decreases 1, 0
    {
      var reply;
      ghost var found, refreshed;
      reply, found, refreshed := HandleRequest(Request(path, None));
      nested := log[|old(log)|..];
      if reply.Streamed? && 200 <= reply.upstream.status < 300 {
        ghost var e := nested[0];
        assert e.answer == reply.upstream;
        return reply.upstream.body, nested;
      }
      return None, nested;
    }
  }

  /** What a refresh gives, by where its result comes from. A token that was refreshed here is
      one that the upstream server sent in a successful answer to a call of this refresh. */
  lemma RefreshResult(slug: Slug, source: Source, token: Option<string>, nested: seq<Exchange>)
    requires ResultOf(slug, source, token, nested)
    ensures var s := source.s;
            var last := if slug in s.lastForceRefreshAt then s.lastForceRefreshAt[slug] else 0;
            && (source.Cached? <==> s.now - last < 2000)
            && (source.Awaited? <==> s.now - last >= 2000 && slug in s.inFlight)
            && (source.Cached? ==> forall t :: token == Some(t) <==>
                  slug in s.tokens && s.tokens[slug].token == t && s.tokens[slug].expiresAtMs > s.now)
            && (!source.Here? ==> nested == [])
    ensures source.Here? && token.Some? ==>
              exists e :: e in nested && e.answer.Response? && 200 <= e.answer.status < 300
                          && e.answer.body.Some? && e.answer.body.value.token == token.value
  {
    if source.Here? && token.Some? {
      var n := |source.answers|;
      FirstWaitIsNoResult(source.s, slug);
      assert n > 0;
      var t, answer := source.waits[n - 1], source.answers[n - 1];
      assert FollowedBy(t, answer, source.waits[n - 1 + 1]);
      ResultIsAnswer(t, answer, source.waits[n]);
      assert CameIn(nested, PathOf(t), answer.value);
    }
  }

  lemma FirstWaitIsNoResult(s: State, slug: Slug)
    ensures FirstWait(s, slug).ForceSettled? ==> FirstWait(s, slug).result == None
  {
  }

  lemma ResultIsAnswer(t: Task, answer: Option<TokenResult>, next: Task)
    requires t.IsForce() && !t.ForceSettled? && FollowedBy(t, answer, next)
    requires next.ForceSettled? && next.result.Some?
    ensures answer.Some? && answer.value.token == next.result.value
  {
  }

  lemma RefreshStarts(s: State, slug: Slug)
    ensures Underway(s, slug, [FirstWait(s, slug)], []) && Asked([FirstWait(s, slug)], [], [])
  {
  }

  lemma RefreshEnds(s: State, slug: Slug, waits: seq<Task>, answers: seq<Option<TokenResult>>, nested: seq<Exchange>)
    requires StartsRefresh(s, slug) && Underway(s, slug, waits, answers) && Asked(waits, answers, nested) && waits[|answers|].ForceSettled?
    ensures Nested(nested) && ResultOf(slug, Here(s, waits, answers), waits[|answers|].result, nested)
  {
  }

  lemma WaitsEnd(s: State, t: Task, answer: Option<TokenResult>)
    requires t.IsForce() && !t.ForceSettled?
    ensures AnswersLeft(NextWait(s, t, answer)) < AnswersLeft(t)
  {
  }
}
