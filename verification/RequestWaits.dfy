/** Requests in flight together: what each waits for. A request waits for the upstream
    server or for a refresh; a refresh waits for a request that it sends through the same
    proxy. Nothing waits on itself, directly or through others. */
module RequestWaits {
  import opened Wrappers
  import opened StsProtocol

  /** Who gets the answer: a client, or a waiting function of the token manager. */
  datatype Client = Outside | ForTask(task: nat)

  datatype Wait =
    | ForUpstream(token: Option<string>, retried: bool)
    | ForRefresh(task: nat)

  /** A request that the proxy is handling; `project` is its project header, if it has a
      non-empty one. */
  datatype Pending = Pending(project: Option<Slug>, client: Client, wait: Wait)

  /** The token manager, the requests being handled, and for each waiting function the
      request that it has sent. */
  datatype World = World(sts: State, requests: map<nat, Pending>, serving: map<nat, nat>, next: nat)

  const START := World(INITIAL, map[], map[], 0)

  /** Something happens: a client request arrives, the upstream answers a request, a
      refresh that has its result wakes its waiters, or the token manager is called or its
      timers and clock advance. */
  datatype Happening =
    | Arrive(project: Option<Slug>)
    | Upstream(id: nat, saysExpired: bool, outcome: Option<TokenResult>)
    | Settle(task: nat)
    | Other(event: Event)

  /** A request reaches the proxy. With a project it needs a token; it is refused without. */
  function Admit(w: World, project: Option<Slug>, client: Client): World {
    var token := if project.Some? then GetToken(w.sts, project.value) else None;
    if project.Some? && !Usable(token) then w
    else w.(requests := w.requests[w.next := Pending(project, client, ForUpstream(token, false))], next := w.next + 1)
  }

  /** A waiting function that needs an answer sends a request of its own, without a
      project header. */
  function Attend(w: World, t: nat): World {
    if t in w.sts.tasks && !w.sts.tasks[t].ForceSettled? then
      Admit(w.(serving := w.serving[t := w.next]), None, ForTask(t))
    else w.(serving := w.serving - {t})
  }

  /** A refresh gave the request this result: repeat the request, or be done. */
  function Resume(w: World, id: nat, token: Option<string>): World
    requires id in w.requests
  {
    if Usable(token) then w.(requests := w.requests[id := w.requests[id].(wait := ForUpstream(token, true))])
    else w.(requests := w.requests - {id})
  }

  /** The request calls `forceRefresh`. */
  function Ask(w: World, id: nat, slug: Slug): World
    requires id in w.requests
  {
    if Debounced(w.sts, slug) then Resume(w, id, GetToken(w.sts, slug))
    else
      var sts := Step(w.sts, ForceRefresh(slug));
      var t := sts.inFlight[slug];
      var asked := w.(sts := sts, requests := w.requests[id := w.requests[id].(wait := ForRefresh(t))]);
      if StartsRefresh(w.sts, slug) then Attend(asked, t) else asked
  }

  /** The request has its final answer. */
  function Done(w: World, id: nat, outcome: Option<TokenResult>): World
    requires id in w.requests
  {
    var rest := w.(requests := w.requests - {id});
    match w.requests[id].client
    case Outside => rest
    case ForTask(t) => Attend(rest.(sts := Step(rest.sts, Answer(t, outcome))), t)
  }

  predicate Awaits(w: World, id: nat, t: nat) {
    id in w.requests && w.requests[id].wait == ForRefresh(t)
  }

  /** All waiters of a refresh wake with its result. */
  function Wake(w: World, t: nat, result: Option<string>): World {
    w.(requests := map id | id in w.requests && (Awaits(w, id, t) ==> Usable(result)) ::
                     if Awaits(w, id, t) then w.requests[id].(wait := ForUpstream(result, true)) else w.requests[id])
  }

  function Move(w: World, h: Happening): World {
    match h
    case Arrive(project) => Admit(w, project, Outside)
    case Upstream(id, saysExpired, outcome) =>
      if id !in w.requests || !w.requests[id].wait.ForUpstream? then w
      else
        var r := w.requests[id];
        if saysExpired && r.project.Some? && !r.wait.retried then Ask(w, id, r.project.value) else Done(w, id, outcome)
    case Settle(t) =>
      if t in w.sts.tasks && w.sts.tasks[t].ForceSettled? then
        Wake(w, t, w.sts.tasks[t].result).(sts := Step(w.sts, Finish(t)))
      else w
    case Other(e) =>
      if e.ForceRefresh? || e.Answer? || e.Finish? then w
      else
        var after := w.(sts := Step(w.sts, e));
        if w.sts.next in after.sts.tasks then Attend(after, w.sts.next) else after
  }

  function History(hs: seq<Happening>): World {
    if hs == [] then START else Move(History(hs[..|hs| - 1]), hs[|hs| - 1])
  }

  // ---- What every reachable world keeps ------------------------------------------------

  /** Handles in use have been given out. */
  ghost predicate Numbered(w: World) {
    && Fresh(w.sts) && TimersHeld(w.sts) && Live(w.sts)
    && (forall id :: id in w.requests ==> id < w.next)
  }

  /** A request waits for a refresh only if it has a project, and that refresh exists. */
  ghost predicate WaitersRight(w: World) {
    forall id, t :: Awaits(w, id, t) ==>
      w.requests[id].project.Some? && w.requests[id].client == Outside && InFlight(w.sts, w.requests[id].project.value, t)
  }

  /** A waiting function needs an answer. */
  predicate Needs(s: State, t: nat) {
    t in s.tasks && !s.tasks[t].ForceSettled?
  }

  /** Request `id` was sent by `t`, has no project and waits for the upstream server. */
  predicate SentBy(w: World, id: nat, t: nat) {
    id in w.requests && w.requests[id] == Pending(None, ForTask(t), ForUpstream(None, false))
  }

  /** Request `id` was sent by `t`. */
  predicate SentFor(w: World, id: nat, t: nat) {
    id in w.requests && w.requests[id].client == ForTask(t)
  }

  /** Waiting functions that need an answer and the requests they sent go together, except
      perhaps for `but`. */
  ghost predicate Served(w: World, but: Option<nat>) {
    && (forall t: nat :: Needs(w.sts, t) && but != Some(t) ==> t in w.serving)
    && (forall t: nat :: t in w.serving && but != Some(t) ==> Needs(w.sts, t) && SentBy(w, w.serving[t], t))
    && (forall id: nat, t: nat :: SentFor(w, id, t) ==> but != Some(t) && t in w.serving && w.serving[t] == id)
  }

  ghost predicate Sound(w: World) {
    Numbered(w) && WaitersRight(w) && Served(w, None)
  }

  lemma AdmitKeeps(w: World, project: Option<Slug>)
    requires Sound(w)
    ensures Sound(Admit(w, project, Outside))
  {
    hide Fresh;
    hide TimersHeld;
    hide Live;
    hide GetToken;
    var w' := Admit(w, project, Outside);
    assert forall id, t :: Awaits(w', id, t) ==> Awaits(w, id, t);
    assert forall id, t :: SentFor(w', id, t) ==> SentFor(w, id, t);
    assert forall id, t :: SentBy(w, id, t) ==> SentBy(w', id, t);
  }

  lemma AttendKeeps(w: World, t: nat)
    requires Numbered(w) && WaitersRight(w) && Served(w, Some(t))
    ensures Sound(Attend(w, t))
  {
    hide Fresh;
    hide TimersHeld;
    hide Live;
    hide GetToken;
    var w' := Attend(w, t);
    assert forall id, u :: Awaits(w', id, u) ==> Awaits(w, id, u);
    assert forall id, u :: SentBy(w, id, u) ==> SentBy(w', id, u);
    if Needs(w.sts, t) {
      assert SentBy(w', w.next, t);
      assert forall id, u :: SentFor(w', id, u) ==> SentFor(w, id, u) || (id == w.next && u == t);
    } else {
      assert forall id, u :: SentFor(w', id, u) ==> SentFor(w, id, u);
    }
  }

  // ---- What a step of the protocol does to the waiting functions --------------------------

  predicate SameTask(s: State, s': State, t: nat) {
    (t in s.tasks <==> t in s'.tasks) && (t in s.tasks ==> s'.tasks[t] == s.tasks[t])
  }

  lemma OtherTasks(s: State, e: Event)
    requires !e.ForceRefresh? && !e.Answer? && !e.Finish?
    ensures forall t :: t != s.next ==> SameTask(s, Step(s, e), t)
  {
  }

  lemma RefreshTasks(s: State, slug: Slug)
    requires !Debounced(s, slug)
    ensures var s' := Step(s, ForceRefresh(slug));
            && slug in s'.inFlight
            && (forall t :: t != s.next ==> SameTask(s, s', t))
            && (StartsRefresh(s, slug) ==> s'.inFlight[slug] == s.next)
            && (!StartsRefresh(s, slug) ==> s' == s)
  {
  }

  lemma AnswerTasks(s: State, t: nat, outcome: Option<TokenResult>)
    ensures var s' := Step(s, Answer(t, outcome));
            && (forall u :: u != t ==> SameTask(s, s', u))
            && (forall slug :: InFlight(s, slug, t) ==> InFlight(s', slug, t))
  {
    hide NextWait;
  }

  lemma FinishTasks(s: State, t: nat)
    ensures forall u :: u != t ==> SameTask(s, Step(s, Finish(t)), u)
  {
  }

  lemma StepKeepsNumbers(s: State, e: Event)
    requires Fresh(s) && TimersHeld(s) && Live(s)
    ensures Fresh(Step(s, e)) && TimersHeld(Step(s, e)) && Live(Step(s, e))
  {
    hide Step;
    StepKeepsTimers(s, e);
    StepKeepsLive(s, e);
  }

  // ---- Each happening keeps the world sound ------------------------------------------------

  /** A world whose protocol state has changed for one waiting function only. */
  lemma ProtocolMoves(w: World, sts: State, t: nat)
    requires Sound(w) && Fresh(sts) && TimersHeld(sts) && Live(sts)
    requires forall u :: u != t ==> SameTask(w.sts, sts, u)
    requires forall slug :: InFlight(w.sts, slug, t) ==> InFlight(sts, slug, t)
    requires t !in w.serving
    ensures Numbered(w.(sts := sts)) && WaitersRight(w.(sts := sts)) && Served(w.(sts := sts), Some(t))
  {
    hide Fresh;
    hide TimersHeld;
    hide Live;
    var w' := w.(sts := sts);
    forall slug, u | InFlight(w.sts, slug, u) ensures InFlight(sts, slug, u) {
      assert u != t ==> SameTask(w.sts, sts, u);
    }
    assert forall id, u :: Awaits(w', id, u) ==> Awaits(w, id, u);
    assert forall id, u :: SentBy(w, id, u) ==> SentBy(w', id, u);
    assert forall id, u :: SentFor(w', id, u) ==> SentFor(w, id, u);
    assert forall u :: u != t ==> SameTask(w.sts, sts, u) ==> (Needs(sts, u) <==> Needs(w.sts, u));
  }

  lemma NotYetServing(w: World)
    requires Sound(w)
    ensures w.sts.next !in w.sts.tasks && w.sts.next !in w.serving
  {
  }

  lemma OtherKeeps(w: World, e: Event)
    requires Sound(w) && !e.ForceRefresh? && !e.Answer? && !e.Finish?
    ensures Sound(Move(w, Other(e)))
  {
    hide Step;
    hide Attend;
    var t := w.sts.next;
    var after := w.(sts := Step(w.sts, e));
    StepKeepsNumbers(w.sts, e);
    OtherTasks(w.sts, e);
    NotYetServing(w);
    ProtocolMoves(w, Step(w.sts, e), t);
    AttendKeeps(after, t);
    if t !in after.sts.tasks {
      NothingToServe(after, t);
    }
  }

  lemma NothingToServe(w: World, t: nat)
    requires Numbered(w) && WaitersRight(w) && Served(w, Some(t)) && !Needs(w.sts, t) && t !in w.serving
    ensures Sound(w)
  {
  }

  /** A request with a project was sent by a client, not by a waiting function. */
  lemma ProjectMeansOutside(w: World, id: nat)
    requires Sound(w) && id in w.requests && w.requests[id].project.Some?
    ensures w.requests[id].client == Outside
  {
    if w.requests[id].client.ForTask? {
      assert SentFor(w, id, w.requests[id].client.task);
    }
  }

  /** A client request may wait for something else, or be done. */
  lemma ClientMoves(w: World, id: nat, requests: map<nat, Pending>)
    requires Sound(w) && id in w.requests && w.requests[id].client == Outside
    requires requests.Keys <= w.requests.Keys
    requires forall k :: k in w.requests && k != id ==> k in requests && requests[k] == w.requests[k]
    requires id in requests ==>
               && requests[id].client == Outside && requests[id].project == w.requests[id].project
               && forall t :: requests[id].wait == ForRefresh(t) ==>
                    requests[id].project.Some? && InFlight(w.sts, requests[id].project.value, t)
    ensures Sound(w.(requests := requests))
  {
    hide Fresh;
    hide TimersHeld;
    hide Live;
    hide InFlight;
    hide Needs;
    var w' := w.(requests := requests);
    assert forall k, t :: Awaits(w', k, t) && k != id ==> Awaits(w, k, t);
    assert forall k, t :: SentBy(w, k, t) ==> SentBy(w', k, t);
    assert forall k, t :: SentFor(w', k, t) ==> SentFor(w, k, t);
  }

  lemma ResumeKeeps(w: World, id: nat, token: Option<string>)
    requires Sound(w) && id in w.requests && w.requests[id].client == Outside
    ensures Sound(Resume(w, id, token))
  {
    ClientMoves(w, id, Resume(w, id, token).requests);
  }

  /** What is on record for the slug after a call of `forceRefresh` is in flight. */
  lemma RecordIsInFlight(s: State, slug: Slug)
    requires Live(s) && slug in s.inFlight
    ensures InFlight(s, slug, s.inFlight[slug])
  {
  }

  lemma AskKeeps(w: World, id: nat, slug: Slug)
    requires Sound(w) && id in w.requests && w.requests[id].project == Some(slug)
    ensures Sound(Ask(w, id, slug))
  {
    hide Step;
    hide Attend;
    hide Sound;
    ProjectMeansOutside(w, id);
    if Debounced(w.sts, slug) {
      ResumeKeeps(w, id, GetToken(w.sts, slug));
    } else {
      var sts := Step(w.sts, ForceRefresh(slug));
      SoundParts(w);
      StepKeepsNumbers(w.sts, ForceRefresh(slug));
      RefreshTasks(w.sts, slug);
      RecordIsInFlight(sts, slug);
      var t := sts.inFlight[slug];
      if StartsRefresh(w.sts, slug) {
        NotYetServing(w);
        NotYetInFlight(w);
        ProtocolMoves(w, sts, t);
        AskerMoves(w.(sts := sts), id, slug, t, Some(t));
        AttendKeeps(w.(sts := sts, requests := w.requests[id := w.requests[id].(wait := ForRefresh(t))]), t);
      } else {
        ClientMoves(w, id, w.requests[id := w.requests[id].(wait := ForRefresh(t))]);
      }
    }
  }

  lemma SoundParts(w: World)
    requires Sound(w)
    ensures Fresh(w.sts) && TimersHeld(w.sts) && Live(w.sts)
  {
  }

  lemma NotYetInFlight(w: World)
    requires Sound(w)
    ensures forall slug :: !InFlight(w.sts, slug, w.sts.next)
  {
    NotYetServing(w);
  }

  /** The asking request waits for the refresh that is being started. */
  lemma AskerMoves(w: World, id: nat, slug: Slug, t: nat, but: Option<nat>)
    requires Numbered(w) && WaitersRight(w) && Served(w, but)
    requires id in w.requests && w.requests[id].project == Some(slug) && w.requests[id].client == Outside
    requires InFlight(w.sts, slug, t)
    ensures var w' := w.(requests := w.requests[id := w.requests[id].(wait := ForRefresh(t))]);
            Numbered(w') && WaitersRight(w') && Served(w', but)
  {
    hide Fresh;
    hide TimersHeld;
    hide Live;
    hide Needs;
    var w' := w.(requests := w.requests[id := w.requests[id].(wait := ForRefresh(t))]);
    assert forall k, u :: Awaits(w', k, u) ==> Awaits(w, k, u) || (k == id && u == t);
    assert forall k, u :: SentBy(w, k, u) ==> SentBy(w', k, u);
    assert forall k, u :: SentFor(w', k, u) ==> SentFor(w, k, u);
  }

  lemma DoneKeeps(w: World, id: nat, outcome: Option<TokenResult>)
    requires Sound(w) && id in w.requests && w.requests[id].wait.ForUpstream?
    ensures Sound(Done(w, id, outcome))
  {
    hide Step;
    hide Attend;
    match w.requests[id].client {
      case Outside =>
        ClientMoves(w, id, w.requests - {id});
      case ForTask(t) =>
        AnswerMoves(w, id, t, outcome);
        AttendKeeps(w.(requests := w.requests - {id}, sts := Step(w.sts, Answer(t, outcome))), t);
    }
  }

  /** The answer to a request sent by `t` reaches `t`. */
  lemma AnswerMoves(w: World, id: nat, t: nat, outcome: Option<TokenResult>)
    requires Sound(w) && SentFor(w, id, t)
    ensures var w' := w.(requests := w.requests - {id}, sts := Step(w.sts, Answer(t, outcome)));
            Numbered(w') && WaitersRight(w') && Served(w', Some(t))
  {
    hide Step;
    hide Fresh;
    hide TimersHeld;
    hide Live;
    var sts := Step(w.sts, Answer(t, outcome));
    var w' := w.(requests := w.requests - {id}, sts := sts);
    StepKeepsNumbers(w.sts, Answer(t, outcome));
    AnswerTasks(w.sts, t, outcome);
    forall slug, u | InFlight(w.sts, slug, u) ensures InFlight(sts, slug, u) {
      assert u != t ==> SameTask(w.sts, sts, u);
    }
    assert forall k, u :: Awaits(w', k, u) ==> Awaits(w, k, u);
    assert forall k, u :: SentBy(w, k, u) && k != id ==> SentBy(w', k, u);
    assert forall k, u :: SentFor(w', k, u) ==> SentFor(w, k, u) && k != id;
    assert forall u :: u != t ==> SameTask(w.sts, sts, u) ==> (Needs(sts, u) <==> Needs(w.sts, u));
  }

  lemma SettleKeeps(w: World, t: nat)
    requires Sound(w)
    ensures Sound(Move(w, Settle(t)))
  {
    if t in w.sts.tasks && w.sts.tasks[t].ForceSettled? {
      hide Step;
      hide Fresh;
      hide TimersHeld;
      hide Live;
      var sts := Step(w.sts, Finish(t));
      var w' := Wake(w, t, w.sts.tasks[t].result).(sts := sts);
      StepKeepsNumbers(w.sts, Finish(t));
      FinishTasks(w.sts, t);
      FinishedIsGone(w.sts, t);
      assert forall k, u :: Awaits(w', k, u) ==> Awaits(w, k, u) && u != t;
      assert forall k, u :: SentBy(w, k, u) ==> SentBy(w', k, u);
      assert forall k, u :: SentFor(w', k, u) ==> SentFor(w, k, u);
      forall slug, u | InFlight(w.sts, slug, u) && u != t ensures InFlight(sts, slug, u) {
        assert SameTask(w.sts, sts, u);
      }
      assert forall u :: u != t ==> SameTask(w.sts, sts, u) ==> (Needs(sts, u) <==> Needs(w.sts, u));
      assert !Needs(w.sts, t) && !Needs(sts, t);
    }
  }

  lemma FinishedIsGone(s: State, t: nat)
    requires t in s.tasks && s.tasks[t].ForceSettled?
    ensures t !in Step(s, Finish(t)).tasks
  {
  }

  /** Whatever happens, the world stays sound. */
  lemma MoveKeepsSound(w: World, h: Happening)
    requires Sound(w)
    ensures Sound(Move(w, h))
  {
    hide Sound;
    hide Step;
    hide Ask;
    hide Done;
    hide Admit;
    hide Wake;
    hide Attend;
    match h {
      case Arrive(project) => AdmitKeeps(w, project);
      case Upstream(id, saysExpired, outcome) =>
        if id in w.requests && w.requests[id].wait.ForUpstream? {
          var r := w.requests[id];
          if saysExpired && r.project.Some? && !r.wait.retried {
            AskKeeps(w, id, r.project.value);
          } else {
            DoneKeeps(w, id, outcome);
          }
        }
      case Settle(t) => SettleKeeps(w, t);
      case Other(e) =>
        if !e.ForceRefresh? && !e.Answer? && !e.Finish? {
          OtherKeeps(w, e);
        }
    }
  }

  lemma {:induction false} EveryWorldIsSound(hs: seq<Happening>)
    ensures Sound(History(hs))
  {
    if hs == [] {
    } else {
      hide Move;
      hide Sound;
      EveryWorldIsSound(hs[..|hs| - 1]);
      MoveKeepsSound(History(hs[..|hs| - 1]), hs[|hs| - 1]);
    }
  }

  // ---- Nothing waits on itself ----------------------------------------------------------

  /** Somebody who may wait: a request, or a waiting function of the token manager. */
  datatype Party = ARequest(id: nat) | ATask(task: nat)

  predicate WaitsOn(w: World, a: Party, b: Party) {
    match a
    case ARequest(id) => b.ATask? && Awaits(w, id, b.task)
    case ATask(t) => b.ARequest? && t in w.serving && w.serving[t] == b.id
  }

  /** Requests with a project above waiting functions, these above requests without. */
  function Rank(w: World, a: Party): nat {
    match a
    case ARequest(id) => if id in w.requests && w.requests[id].project.Some? then 2 else 0
    case ATask(_) => 1
  }

  /** In every reachable world, waiting leads strictly down. */
  lemma WaitingFallsInRank(hs: seq<Happening>, a: Party, b: Party)
    requires WaitsOn(History(hs), a, b)
    ensures Rank(History(hs), a) > Rank(History(hs), b)
  {
    hide History;
    EveryWorldIsSound(hs);
    var w := History(hs);
    match a {
      case ARequest(id) => assert Awaits(w, id, b.task);
      case ATask(t) => assert SentBy(w, w.serving[t], t);
    }
  }

  /** A chain of parties, each waiting on the next. */
  predicate Chain(w: World, path: seq<Party>) {
    path != [] && forall i :: 0 <= i < |path| - 1 ==> WaitsOn(w, path[i], path[i + 1])
  }

  /** No chain is longer than a request, its refresh and the request that sends, so
      none comes back to where it started. */
  lemma {:induction false} NothingWaitsOnItself(hs: seq<Happening>, path: seq<Party>)
    requires Chain(History(hs), path)
    ensures |path| <= 1 + Rank(History(hs), path[0]) <= 3
    ensures |path| > 1 ==> Rank(History(hs), path[|path| - 1]) < Rank(History(hs), path[0])
    ensures |path| > 1 ==> path[|path| - 1] != path[0]
    decreases |path|
  {
    hide History;
    if |path| == 1 {
    } else {
      assert WaitsOn(History(hs), path[0], path[0 + 1]);
      WaitingFallsInRank(hs, path[0], path[1]);
      var rest := path[1..];
      forall i | 0 <= i < |rest| - 1 ensures WaitsOn(History(hs), rest[i], rest[i + 1]) {
        assert rest[i] == path[i + 1] && rest[i + 1] == path[i + 1 + 1];
      }
      NothingWaitsOnItself(hs, rest);
    }
  }

  /** Nobody is left waiting for something that cannot come: in every reachable world each
      request waits for the upstream server, or for a refresh that has its result or has
      sent a request that waits for the upstream server. */
  lemma EveryWaitEndsUpstream(hs: seq<Happening>, id: nat)
    requires id in History(hs).requests
    ensures var w := History(hs);
            match w.requests[id].wait
            case ForUpstream(_, _) => true
            case ForRefresh(t) =>
              && t in w.sts.tasks
              && (w.sts.tasks[t].ForceSettled? || (t in w.serving && SentBy(w, w.serving[t], t)))
  {
    hide History;
    EveryWorldIsSound(hs);
    var w := History(hs);
    match w.requests[id].wait {
      case ForUpstream(_, _) =>
      case ForRefresh(t) =>
        assert Awaits(w, id, t);
        assert Needs(w.sts, t) || w.sts.tasks[t].ForceSettled?;
    }
  }

  /** Requests without a project never wait for a refresh, whatever the upstream answers. */
  lemma NestedNeverRefreshes(hs: seq<Happening>, id: nat)
    requires id in History(hs).requests && History(hs).requests[id].project.None?
    ensures History(hs).requests[id].wait.ForUpstream?
  {
    hide History;
    EveryWorldIsSound(hs);
    var w := History(hs);
    assert w.requests[id].wait.ForRefresh? ==> Awaits(w, id, w.requests[id].wait.task);
  }

  /** All waiters of a refresh get its result, and it is a result for their project: they
      are repeated with that token, or answered without a repetition. */
  lemma WaitersGetTheResult(hs: seq<Happening>, id: nat, t: nat)
    requires Awaits(History(hs), id, t) && t in History(hs).sts.tasks && History(hs).sts.tasks[t].ForceSettled?
    ensures var w, w' := History(hs), Move(History(hs), Settle(t));
            && w.requests[id].project == Some(w.sts.tasks[t].slug)
            && if Usable(w.sts.tasks[t].result) then
                 id in w'.requests && w'.requests[id].wait == ForUpstream(w.sts.tasks[t].result, true)
               else id !in w'.requests
  {
    hide History;
    EveryWorldIsSound(hs);
  }

  /** How far a request is from its end. */
  function WaitsLeft(r: Pending): nat {
    match r.wait
    case ForUpstream(_, retried) => if retried then 1 else 3
    case ForRefresh(_) => 2
  }

  /** Whatever happens, a request is left as it is, advances, or is done: it waits for the
      upstream server at most twice, and for a refresh at most once. */
  lemma RequestsOnlyAdvance(hs: seq<Happening>, h: Happening, id: nat)
    requires id in History(hs).requests
    ensures var w, w' := History(hs), Move(History(hs), h);
            id in w'.requests && w'.requests[id] != w.requests[id] ==>
              && w'.requests[id].project == w.requests[id].project && w'.requests[id].client == w.requests[id].client
              && WaitsLeft(w'.requests[id]) < WaitsLeft(w.requests[id])
  {
    hide History;
    hide Step;
    hide GetToken;
    EveryWorldIsSound(hs);
    hide WaitersRight;
    hide Served;
    hide Fresh;
    hide TimersHeld;
    hide Live;
  }
}
