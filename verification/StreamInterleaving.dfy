/** Concurrent responses: any interleaving of instance creation, calls on the instances
    and dictionary swaps on their parent. Each instance behaves as it would alone, with
    the dictionary that the parent had when the instance was created. */
module StreamInterleaving {
  import opened Octets
  import opened Wrappers
  import opened Sequences
  import opened DictionaryEntries
  import opened RedactionStream
  import opened StreamingRedaction

  /** One call made by the event loop: create an instance, use instance `k` (they are
      numbered in the order of creation), or swap the dictionary of the parent. */
  datatype Call = Open | Chunk(k: nat, bytes: Bytes) | End(k: nat) | Swap(secrets: seq<Secret>)

  /** The rules of the parent after some calls. */
  function ParentRules(r0: Rules, calls: seq<Call>): Rules {
    if calls == [] then r0
    else
      var r := ParentRules(r0, calls[..|calls| - 1]);
      match calls[|calls| - 1]
      case Swap(secrets) => Rules(Entries(secrets), Longest(KeepFirst(Candidates(secrets)), r.maxPatternLen))
      case _ => r
  }

  function Opened(calls: seq<Call>): nat {
    if calls == [] then 0 else Opened(calls[..|calls| - 1]) + if calls[|calls| - 1].Open? then 1 else 0
  }

  /** The rules that each instance was created with. */
  function Born(r0: Rules, calls: seq<Call>): (rules: seq<Rules>)
    ensures |rules| == Opened(calls)
  {
    if calls == [] then []
    else
      var init := calls[..|calls| - 1];
      Born(r0, init) + if calls[|calls| - 1].Open? then [ParentRules(r0, init)] else []
  }

  /** What instance `k` is and has returned when only the calls on it are made. */
  function Alone(r: Rules, k: nat, calls: seq<Call>): (Stream, seq<Bytes>) {
    if calls == [] then (FRESH, [])
    else
      var (st, outs) := Alone(r, k, calls[..|calls| - 1]);
      match calls[|calls| - 1]
      case Chunk(j, bytes) => if j != k then (st, outs) else var (end, out) := Process(r, st, bytes); (end, outs + [out])
      case End(j) => if j != k then (st, outs) else var (end, out) := Flush(r, st); (end, outs + [out])
      case _ => (st, outs)
  }

  /** Instances are used after they have been created. */
  ghost predicate Allowed(calls: seq<Call>) {
    forall i :: 0 <= i < |calls| ==>
      match calls[i]
      case Open => true
      case Chunk(k, _) => k < Opened(calls[..i])
      case End(k) => k < Opened(calls[..i])
      case Swap(secrets) => Encoded(secrets)
  }

  /** Every instance has its own rules, and is where it would be alone. */
  ghost predicate AsIfAlone(r0: Rules, calls: seq<Call>, rules: seq<Rules>, states: seq<Stream>, outs: seq<seq<Bytes>>) {
    && rules == Born(r0, calls) && |states| == |outs| == |rules|
    && forall k :: 0 <= k < |rules| ==> (states[k], outs[k]) == Alone(rules[k], k, calls)
  }

  lemma AllowedPrefix(calls: seq<Call>)
    requires Allowed(calls) && calls != []
    ensures Allowed(calls[..|calls| - 1])
  {
    forall i | 0 <= i < |calls| - 1 ensures calls[..|calls| - 1][..i] == calls[..i] {
    }
  }

  /** An instance that does not exist yet has done nothing. */
  lemma {:induction false} NotYetOpen(r: Rules, k: nat, calls: seq<Call>)
    requires Allowed(calls) && Opened(calls) <= k
    ensures Alone(r, k, calls) == (FRESH, [])
  {
    hide Process;
    hide Flush;
    if calls == [] {
    } else {
      AllowedPrefix(calls);
      NotYetOpen(r, k, calls[..|calls| - 1]);
    }
  }

  lemma OneMoreCall(r0: Rules, calls: seq<Call>, c: Call)
    ensures (calls + [c])[..|calls + [c]| - 1] == calls && (calls + [c])[|calls + [c]| - 1] == c
    ensures Born(r0, calls + [c]) == Born(r0, calls) + if c.Open? then [ParentRules(r0, calls)] else []
  {
    assert (calls + [c])[..|calls|] == calls;
  }

  lemma OpenStep(r0: Rules, calls: seq<Call>, rules: seq<Rules>, states: seq<Stream>, outs: seq<seq<Bytes>>)
    requires Allowed(calls) && AsIfAlone(r0, calls, rules, states, outs)
    ensures AsIfAlone(r0, calls + [Open], rules + [ParentRules(r0, calls)], states + [FRESH], outs + [[]])
  {
    hide Born;
    hide ParentRules;
    OneMoreCall(r0, calls, Open);
    NotYetOpen(ParentRules(r0, calls), |rules|, calls);
  }

  lemma ChunkStep(r0: Rules, calls: seq<Call>, rules: seq<Rules>, states: seq<Stream>, outs: seq<seq<Bytes>>,
                  k: nat, bytes: Bytes)
    requires AsIfAlone(r0, calls, rules, states, outs) && k < |rules|
    ensures var (end, out) := Process(rules[k], states[k], bytes);
            AsIfAlone(r0, calls + [Chunk(k, bytes)], rules, states[k := end], outs[k := outs[k] + [out]])
  {
    hide Born;
    hide Process;
    OneMoreCall(r0, calls, Chunk(k, bytes));
  }

  lemma EndStep(r0: Rules, calls: seq<Call>, rules: seq<Rules>, states: seq<Stream>, outs: seq<seq<Bytes>>, k: nat)
    requires AsIfAlone(r0, calls, rules, states, outs) && k < |rules|
    ensures var (end, out) := Flush(rules[k], states[k]);
            AsIfAlone(r0, calls + [End(k)], rules, states[k := end], outs[k := outs[k] + [out]])
  {
    hide Born;
    hide Flush;
    OneMoreCall(r0, calls, End(k));
  }

  lemma SwapStep(r0: Rules, calls: seq<Call>, rules: seq<Rules>, states: seq<Stream>, outs: seq<seq<Bytes>>,
                 secrets: seq<Secret>)
    requires AsIfAlone(r0, calls, rules, states, outs)
    ensures AsIfAlone(r0, calls + [Swap(secrets)], rules, states, outs)
  {
    hide Born;
    OneMoreCall(r0, calls, Swap(secrets));
  }

  lemma ParentStep(r0: Rules, calls: seq<Call>, c: Call)
    ensures ParentRules(r0, calls + [c]) ==
      match c
      case Swap(secrets) =>
        Rules(Entries(secrets), Longest(KeepFirst(Candidates(secrets)), ParentRules(r0, calls).maxPatternLen))
      case _ => ParentRules(r0, calls)
  {
    OneMoreCall(r0, calls, c);
  }

  // ---- The engines ------------------------------------------------------------------

  ghost predicate Separate(parent: StreamingRedactionEngine, streams: seq<StreamingRedactionEngine>) {
    parent !in streams && forall i, j :: 0 <= i < j < |streams| ==> streams[i] != streams[j]
  }

  ghost predicate AllValid(streams: seq<StreamingRedactionEngine>)
    reads streams, set k, n | 0 <= k < |streams| && n in streams[k].trie.Values :: n
  {
    forall k :: 0 <= k < |streams| ==> streams[k].Valid()
  }

  ghost function RulesOf(streams: seq<StreamingRedactionEngine>): (rules: seq<Rules>)
    reads streams
    ensures |rules| == |streams| && forall k :: 0 <= k < |streams| ==> rules[k] == streams[k].CurrentRules()
  {
    seq(|streams|, k requires 0 <= k < |streams| reads streams => streams[k].CurrentRules())
  }

  ghost function StatesOf(streams: seq<StreamingRedactionEngine>): (states: seq<Stream>)
    reads streams
    ensures |states| == |streams| && forall k :: 0 <= k < |streams| ==> states[k] == streams[k].State()
  {
    seq(|streams|, k requires 0 <= k < |streams| reads streams => streams[k].State())
  }

  /** Creating an instance leaves every other instance and the parent alone. */
  method OpenStream(parent: StreamingRedactionEngine, streams: seq<StreamingRedactionEngine>)
    returns (stream: StreamingRedactionEngine)
    requires parent.Valid() && AllValid(streams) && Separate(parent, streams)
    ensures fresh(stream) && Separate(parent, streams + [stream]) && AllValid(streams + [stream])
    ensures RulesOf(streams + [stream]) == RulesOf(streams) + [parent.CurrentRules()]
    ensures StatesOf(streams + [stream]) == StatesOf(streams) + [FRESH]
  {
    hide StreamingRedactionEngine.Valid;
    stream := new StreamingRedactionEngine.StreamInstance(parent);
  }

  /** A call on one instance leaves every other instance and the parent alone. */
  method CallStream(parent: StreamingRedactionEngine, streams: seq<StreamingRedactionEngine>, k: nat, chunk: Option<Bytes>)
    returns (out: Bytes)
    requires parent.Valid() && AllValid(streams) && Separate(parent, streams) && k < |streams|
    modifies streams[k]
    ensures parent.Valid() && AllValid(streams)
    ensures RulesOf(streams) == old(RulesOf(streams))
    ensures var (end, last) := var r, st := old(RulesOf(streams))[k], old(StatesOf(streams))[k];
                               if chunk.Some? then Process(r, st, chunk.value) else Flush(r, st);
            out == last && StatesOf(streams) == old(StatesOf(streams))[k := end]
  {
    hide StreamingRedactionEngine.Valid;
    hide RedactionStream.Process;
    hide RedactionStream.Flush;
    if chunk.Some? {
      out := streams[k].Process(chunk.value);
    } else {
      out := streams[k].Flush();
    }
  }

  /** A dictionary swap on the parent leaves every instance alone. */
  method SwapParent(parent: StreamingRedactionEngine, streams: seq<StreamingRedactionEngine>, secrets: seq<Secret>)
    requires parent.Valid() && AllValid(streams) && Separate(parent, streams) && Encoded(secrets)
    modifies parent
    ensures parent.Valid() && AllValid(streams)
    ensures RulesOf(streams) == old(RulesOf(streams)) && StatesOf(streams) == old(StatesOf(streams))
    ensures parent.CurrentRules() ==
      Rules(Entries(secrets), Longest(KeepFirst(Candidates(secrets)), old(parent.maxPatternLen)))
  {
    hide StreamingRedactionEngine.Valid;
    hide Entries;
    hide Longest;
    parent.UpdateDictionary(secrets);
  }

  lemma AllowedAt(calls: seq<Call>, i: nat)
    requires Allowed(calls) && i < |calls|
    ensures Allowed(calls[..i])
    ensures match calls[i]
            case Open => true
            case Chunk(k, _) => k < Opened(calls[..i])
            case End(k) => k < Opened(calls[..i])
            case Swap(secrets) => Encoded(secrets)
  {
    forall j | 0 <= j < i ensures calls[..i][..j] == calls[..j] {
    }
  }

  /** Run the calls in the order of the event loop. */
  method Interleave(parent: StreamingRedactionEngine, calls: seq<Call>)
    returns (streams: seq<StreamingRedactionEngine>, outs: seq<seq<Bytes>>)
    requires parent.Valid() && Allowed(calls)
    modifies parent
    ensures parent.Valid() && AllValid(streams) && Separate(parent, streams)
    ensures parent.CurrentRules() == ParentRules(old(parent.CurrentRules()), calls)
    ensures AsIfAlone(old(parent.CurrentRules()), calls, RulesOf(streams), StatesOf(streams), outs)
  {
    hide StreamingRedactionEngine.Valid;
    hide AllValid;
    hide Separate;
    hide ParentRules;
    hide Born;
    hide Alone;
    hide Allowed;
    hide RulesOf;
    hide StatesOf;
    hide Entries;
    hide Longest;
    hide RedactionStream.Process;
    hide RedactionStream.Flush;
    ghost var r0 := parent.CurrentRules();
    streams, outs := [], [];
    NothingOpened(r0, parent, streams);
    for i := 0 to |calls|
      invariant parent.Valid() && AllValid(streams) && Separate(parent, streams)
      invariant forall s :: s in streams ==> fresh(s)
      invariant parent.CurrentRules() == ParentRules(r0, calls[..i])
      invariant AsIfAlone(r0, calls[..i], RulesOf(streams), StatesOf(streams), outs)
    {
      TakeOneMore(calls, i);
      AllowedAt(calls, i);
      ParentStep(r0, calls[..i], calls[i]);
      match calls[i] {
        case Open =>
          OpenStep(r0, calls[..i], RulesOf(streams), StatesOf(streams), outs);
          var stream := OpenStream(parent, streams);
          streams, outs := streams + [stream], outs + [[]];
        case Chunk(k, bytes) =>
          ChunkStep(r0, calls[..i], RulesOf(streams), StatesOf(streams), outs, k, bytes);
          assert streams[k] in streams;
          var out := CallStream(parent, streams, k, Some(bytes));
          outs := outs[k := outs[k] + [out]];
        case End(k) =>
          EndStep(r0, calls[..i], RulesOf(streams), StatesOf(streams), outs, k);
          assert streams[k] in streams;
          var out := CallStream(parent, streams, k, None);
          outs := outs[k := outs[k] + [out]];
        case Swap(secrets) =>
          SwapStep(r0, calls[..i], RulesOf(streams), StatesOf(streams), outs, secrets);
          SwapParent(parent, streams, secrets);
      }
    }
    assert calls[..|calls|] == calls;
  }

  lemma NothingOpened(r0: Rules, parent: StreamingRedactionEngine, streams: seq<StreamingRedactionEngine>)
    requires streams == []
    ensures AllValid(streams) && Separate(parent, streams)
    ensures ParentRules(r0, []) == r0
    ensures AsIfAlone(r0, [], RulesOf(streams), StatesOf(streams), [])
  {
  }
}
