/** What one happening does to one request, by what the token manager holds at that moment:
    who is admitted, who is repeated, who waits, and whose answer goes where. */
module RequestOutcomes {
  import opened Wrappers
  import opened StsProtocol
  import opened RequestWaits

  /** A non-empty token for the slug is cached and has not expired. */
  predicate HasUsableToken(s: State, slug: Slug) {
    slug in s.tokens && s.tokens[slug].token != "" && s.tokens[slug].expiresAtMs > s.now
  }

  /** A request without a project is always admitted, one with a project exactly when there
      is a token for it, and then it carries that token. A refused one leaves no trace. */
  lemma AdmittedExactly(w: World, project: Option<Slug>)
    ensures var w' := Move(w, Arrive(project));
            if project.None? then
              w' == w.(requests := w.requests[w.next := Pending(None, Outside, ForUpstream(None, false))], next := w.next + 1)
            else if HasUsableToken(w.sts, project.value) then
              w' == w.(requests := w.requests[w.next :=
                         Pending(project, Outside, ForUpstream(Some(w.sts.tokens[project.value].token), false))],
                       next := w.next + 1)
            else w' == w
  {
  }

  /** The first answer to the request says that its token has expired. */
  predicate FirstExpiry(w: World, h: Happening, id: nat, slug: Slug) {
    && h.Upstream? && h.id == id && h.saysExpired
    && id in w.requests && w.requests[id].project == Some(slug)
    && w.requests[id].wait.ForUpstream? && !w.requests[id].wait.retried
  }

  function LastStart(s: State, slug: Slug): nat {
    if slug in s.lastForceRefreshAt then s.lastForceRefreshAt[slug] else 0
  }

  /** Less than 2 s after the last refresh no new one is asked for: the request is repeated
      with the cached token if there is one to use, and is otherwise done. */
  lemma ExpirySoonAfterRefresh(w: World, h: Happening, id: nat, slug: Slug)
    requires FirstExpiry(w, h, id, slug) && w.sts.now < 2000 + LastStart(w.sts, slug)
    ensures var w' := Move(w, h);
            && w'.sts == w.sts
            && if HasUsableToken(w.sts, slug) then
                 w'.requests == w.requests[id := Pending(Some(slug), w.requests[id].client,
                                                         ForUpstream(Some(w.sts.tokens[slug].token), true))]
               else w'.requests == w.requests - {id}
  {
  }

  /** Later the request waits for the refresh on record, or for a new one if there is none;
      a new one sends its own request at once, unless it has failed for want of a port. */
  lemma ExpiryLater(hs: seq<Happening>, h: Happening, id: nat, slug: Slug)
    requires FirstExpiry(History(hs), h, id, slug)
    requires History(hs).sts.now >= 2000 + LastStart(History(hs).sts, slug)
    ensures var w, w' := History(hs), Move(History(hs), h);
            && id in w'.requests
            && w'.requests[id] ==
                 w.requests[id].(wait := ForRefresh(if slug in w.sts.inFlight then w.sts.inFlight[slug] else w.sts.next))
            && w'.sts == (if slug in w.sts.inFlight then w.sts else Step(w.sts, ForceRefresh(slug)))
            && (slug !in w.sts.inFlight && w.sts.port != 0 ==>
                 && w.sts.next in w'.serving && w'.serving[w.sts.next] == w.next
                 && SentBy(w', w.next, w.sts.next))
  {
    hide History;
    EveryWorldIsSound(hs);
    SoundParts(History(hs));
    NotYetServing(History(hs));
  }

  /** Every other answer is the last one of its request. If a waiting function sent the
      request, the answer reaches that function; otherwise the token manager sees nothing. */
  lemma FinalAnswer(w: World, id: nat, saysExpired: bool, outcome: Option<TokenResult>)
    requires id in w.requests && w.requests[id].wait.ForUpstream? && id < w.next
    requires saysExpired ==> w.requests[id].project.None? || w.requests[id].wait.retried
    ensures var w' := Move(w, Upstream(id, saysExpired, outcome));
            && id !in w'.requests
            && w'.sts == match w.requests[id].client
                         case Outside => w.sts
                         case ForTask(t) => Step(w.sts, Answer(t, outcome))
  {
    hide Step;
  }

  /** A refresh that has its result leaves the requests that do not wait for it alone, and
      comes off the record. */
  lemma SettlingSparesOthers(w: World, t: nat, id: nat)
    requires t in w.sts.tasks && w.sts.tasks[t].ForceSettled?
    ensures var w' := Move(w, Settle(t));
            && w'.sts == Step(w.sts, Finish(t))
            && w.sts.tasks[t].slug !in w'.sts.inFlight
            && (id in w.requests && w.requests[id].wait != ForRefresh(t) ==>
                  id in w'.requests && w'.requests[id] == w.requests[id])
  {
  }

  /** A timer, the clock and a direct call of the token manager act on it alone; a function
      that begins to wait sends its request. */
  lemma OthersActOnTokens(w: World, e: Event)
    requires Sound(w) && !e.ForceRefresh? && !e.Answer? && !e.Finish?
    ensures var w' := Move(w, Other(e));
            && w'.sts == Step(w.sts, e)
            && (forall id :: id in w.requests ==> id in w'.requests && w'.requests[id] == w.requests[id])
            && (w.sts.next in w'.sts.tasks ==> SentBy(w', w.next, w.sts.next))
  {
    NotYetServing(w);
    OtherBegins(w.sts, e);
    hide Step;
    assert forall id :: id in w.requests ==> id < w.next;
  }

  lemma OtherBegins(s: State, e: Event)
    requires s.next !in s.tasks && !e.ForceRefresh? && !e.Answer? && !e.Finish?
    ensures s.next in Step(s, e).tasks ==> !Step(s, e).tasks[s.next].ForceSettled?
  {
  }
}
