# Verified model of the redaction proxy, the signing payloads and their codecs

This project models the parts of the repository in which a property spans many
calls, and states these properties for all inputs and all runs.

* **Streaming redaction.** Secrets become byte patterns, patterns become an
  Aho-Corasick automaton, and the automaton replaces secrets in a response that
  arrives in arbitrary chunks. `GreedyRedaction` says what redaction means: one
  leftmost, longest-at-each-start pass over the whole stream. `AhoTrie`,
  `AhoLinks`, `AhoScan` and `StreamingRedaction` are the engine: nodes linked in
  place, breadth-first sweeps over queues, scan loops, fields updated call by
  call. A ghost map from paths to nodes connects them to `AutomatonTheory` and
  `BreadthFirst`; every engine method is a step of the state machine in
  `RedactionStream`, and `StreamTheorems` speaks about whole runs of it.
  `OutputSafety` says what remains visible, `ConfinementAudit` what the second
  pass finds, `RedactionTokens` what stands in place of a secret. `ReleasedSteps`
  and `HaltingOfCuts` say when a stream is halted and exactly when that depends on
  how it was cut, `ShortStreams`, `HaltingTheorems` and `SecretTheorems` which
  dictionaries can halt one, and `ChunkedHalt` gives an example. `StreamPump` says
  what the client receives, `StreamInterleaving` what concurrent streams can observe
  of each other.
* **Project tokens.** `StsProtocol` is the token manager as a state machine whose
  events are the stretches of code between two awaits, in any order; `StsIntervals`,
  `StsCache` and `StsEvents` are about whole runs of it, and `StsManager` is the class
  whose methods make these steps. `ProxyRequest` is the handling of one client request,
  including the requests that a refresh sends back through the same proxy;
  `RequestWaits` is any number of them together, and says who waits for whom;
  `RequestOutcomes` says what becomes of one among them.
* **Canonical JSON and manifests.** `CanonicalJson` prints into a mutable buffer,
  `JsonReader` reads the text of RFC 8259, `CanonicalTheorems` connects them,
  `CanonicalSpelling` says which of the texts of a value is printed and
  `JsonSpellings` what becomes of the others, and `ManifestPayload` says which
  signature a manifest carries and what it covers.
* **Calendar.** `CivilTime` relates the closed-form date to the Gregorian calendar
  of RFC 3339; `Timestamps` does the same for the text written.
* **Two printers and their readers.** `ShellStrings` and `ShellCase` for shell
  quoting and the generated case statement, `TunnelProtocol` for tunnel frames.

The remaining modules hold bytes, results, sequences and the order of texts.

Each method that changes state is specified by a function of the old state, and
the theorems are about that function. Counts of automaton steps, traces of calls
and the map of nodes are ghost: they describe the code and are not part of it.

## Where code and documentation differ

The models follow the code.

* The comment on `updateDictionary` (`packages/shield-proxy/src/streaming-redaction.ts:475-479`)
  says that active streams use the new dictionary. Instances hold references to
  the old automaton and list, and keep using them (`StreamInterleaving.Interleave`).
* `confinementViolations` is documented as always 0
  (`packages/shield-proxy/src/streaming-redaction.ts:53-54`), and a violation as a
  bug in the replacement (lines 431-443). A pattern inside a token, such as the
  value `REDA`, is enough to halt a stream
  (`SecretTheorems.SecretInsideEveryTokenHalts`);
  `HaltingOfCuts.SomeCutHaltsExactly` says exactly which streams can be halted,
  and `ShortStreams.ShortStreamsDecide` which dictionaries can halt one.
* All waiters of a force-refresh are said to receive the same result
  (`packages/shield-proxy/src/sts-manager.ts:42-46`). A caller inside the debounce
  interval gets the token that is cached at that moment, which may be none
  (`StsManager.Manager.ForceRefreshToken`, `StsProtocol.DebouncedCallerGetsNothing`).
* `maxPatternLen` is described as the maximum pattern length
  (`packages/shield-proxy/src/streaming-redaction.ts:106`). It is never reset, so
  after a swap it is an upper bound; the theorems need no more than that.
* `canonical.rs` promises agreement with a TypeScript serializer and with `jq`
  (`packages/ellul-crypto/src/canonical.rs:6`); neither is part of this model.

## Model

| member | source | states |
|---|---|---|
| `StreamTheorems.ChunkingIsInvisible` | packages/shield-proxy/src/streaming-redaction.ts:266-343 | For every dictionary and every way of cutting a stream into chunks, empty ones included, the bytes released are an initial part of one greedy pass over the whole stream, and exactly that pass when no call halts |
| `StreamTheorems.AnyTwoChunkingsAgree` | packages/shield-proxy/src/streaming-redaction.ts:266-343 | Two ways of cutting the same bytes that do not halt release the same bytes |
| `StreamTheorems.RunTracks` | packages/shield-proxy/src/streaming-redaction.ts:266-310 | Induction over any run: what has been released is an initial part of the pass over everything received, and an un-halted state keeps tracking that pass |
| `RedactionStream.StepTracks` | packages/shield-proxy/src/streaming-redaction.ts:274-309 | One un-halted call keeps the invariant: the carryover is exactly the unread raw suffix, starts where the whole-stream pass also arrives whatever bytes follow, and has at most `maxPatternLen - 1` bytes; a halting call returns nothing |
| `RedactionStream.StepIsInvisible` | packages/shield-proxy/src/streaming-redaction.ts:279-295 | Scanning up to the safe boundary and keeping the rest leaves the meaning of the stream unchanged, whatever follows |
| `RedactionStream.CarryoverIsShort` | packages/shield-proxy/src/streaming-redaction.ts:279-295 | The bytes kept back are fewer than `maxPatternLen`, also when a match reaches beyond the boundary, and the reported buffer size is `maxPatternLen - 1`, or 0 without patterns |
| `RedactionStream.FreshTracks` | packages/shield-proxy/src/streaming-redaction.ts:518-534 | A new stream satisfies the invariant with nothing received |
| `StreamTheorems.FlushShape` | packages/shield-proxy/src/streaming-redaction.ts:316-343 | An un-halted `flush` releases the pass over the carryover, empties it and adds to the counters exactly what it released |
| `StreamTheorems.CountersBalance` | packages/shield-proxy/src/streaming-redaction.ts:297-299 | After any un-halted run of chunks, bytes processed are bytes emitted plus bytes held back plus pattern length minus token length summed over the counted replacements, and the released bytes come from exactly these replacements |
| `StreamTheorems.EveryStateBalances` | packages/shield-proxy/src/streaming-redaction.ts:266-343 | The same conservation in every un-halted state reached by any mixture of `process` and `flush` calls |
| `StreamTheorems.EmissionIsCountedExactly` | packages/shield-proxy/src/streaming-redaction.ts:297-341 | In every state, whatever `process` and `flush` calls led there: the emitted count is the number of bytes returned if and only if the stream is not halted, and one violation is counted if and only if it is |
| `StreamTheorems.HaltingChunkIsCounted` | packages/shield-proxy/src/streaming-redaction.ts:297-307 | A halting `process` call returns nothing, counts one violation, and counts the non-empty buffer it withholds as emitted |
| `StreamTheorems.HaltingFlushIsCounted` | packages/shield-proxy/src/streaming-redaction.ts:329-340 | So does a halting `flush` |
| `StreamTheorems.HaltedStaysSilent` | packages/shield-proxy/src/streaming-redaction.ts:267-267 | After a halt no call changes the state or returns a byte |
| `StreamTheorems.BuffersAreClean` | packages/shield-proxy/src/streaming-redaction.ts:301-309 | Every buffer returned, in any run, contains no pattern |
| `StreamTheorems.StepIsClean` | packages/shield-proxy/src/streaming-redaction.ts:301-342 | A single `process` or `flush` call never returns a buffer with a pattern in it |
| `StreamTheorems.HaltsExactly` | packages/shield-proxy/src/streaming-redaction.ts:301-342 | A call halts if and only if the buffer it would release contains a pattern |
| `HaltingOfCuts.CutMattersExactly` | packages/shield-proxy/src/streaming-redaction.ts:266-343 | For every dictionary and every stream: all cuts are halted alike if and only if the steps taken before `flush` show no pattern but inside their tokens, or the stream is halted in every cut |
| `HaltingOfCuts.SomeCutHaltsExactly` | packages/shield-proxy/src/streaming-redaction.ts:266-343 | Some cut of a stream is halted if and only if the stream in one chunk is, which is if and only if the steps before `flush`, taken together, or the steps of `flush` show a pattern |
| `HaltingOfCuts.EveryCutHaltsExactly` | packages/shield-proxy/src/streaming-redaction.ts:266-343 | Every cut of a stream is halted if and only if the stream byte by byte is, which is if and only if a token put down before `flush` contains a pattern or the steps of `flush` show one |
| `ReleasedSteps.ReleasedIsFirst` | packages/shield-proxy/src/streaming-redaction.ts:279-295 | Which steps are taken before `flush` and which by it does not depend on the cut, only on the stream |
| `ReleasedSteps.ReleasedIsBeginning` | packages/shield-proxy/src/streaming-redaction.ts:279-295 | At any point of any run, what has been released is a beginning of the steps that one chunk would release |
| `HaltingOfCuts.OneChunkHaltsMost` | packages/shield-proxy/src/streaming-redaction.ts:301-342 | A stream that is halted in some cut is halted in one chunk |
| `HaltingOfCuts.SingleBytesHaltLeast` | packages/shield-proxy/src/streaming-redaction.ts:301-342 | A stream that is halted byte by byte is halted in every cut |
| `ShortStreams.ShortStreamsDecide` | packages/shield-proxy/src/streaming-redaction.ts:444-473 | For every dictionary: no stream is ever halted, in any cut, if and only if no single chunk of at most the square of `maxPatternLen` bytes is |
| `ShortStreams.StepsAlone` | packages/shield-proxy/src/streaming-redaction.ts:279-295 | The bytes of consecutive steps with one pattern length of look-ahead make a new stream take the very same steps |
| `HaltingTheorems.HaltedExactly` | packages/shield-proxy/src/streaming-redaction.ts:266-343 | For dictionaries in which no pattern can stick out of a token the tokens decide: a stream is halted if and only if the pass over the whole of it puts down a token that contains a pattern |
| `HaltingTheorems.HaltingIgnoresChunking` | packages/shield-proxy/src/streaming-redaction.ts:266-343 | For the same dictionaries, two ways of cutting the same bytes are halted alike, and otherwise release the same bytes |
| `HaltingTheorems.HaltNeedsPatternInOutput` | packages/shield-proxy/src/streaming-redaction.ts:301-307 | For every dictionary: a stream is halted only if the redaction of the whole of it contains a pattern |
| `HaltingTheorems.StepHalts` | packages/shield-proxy/src/streaming-redaction.ts:301-307 | When no pattern can stick out of a token, a `process` call halts if and only if one of the tokens it puts down contains a pattern |
| `HaltingTheorems.PartIsClean` | packages/shield-proxy/src/streaming-redaction.ts:412-422 | Then any part of the output contains a pattern if and only if a token in that part does |
| `HaltingTheorems.DisjointTokensNeverHalt` | packages/shield-proxy/src/streaming-redaction.ts:444-473 | If no pattern can line up with any token, on either side or inside, no stream is ever halted |
| `HaltingTheorems.TokenWithPatternHalts` | packages/shield-proxy/src/streaming-redaction.ts:301-307 | For every dictionary: a pattern inside the token of `q` halts the stream that consists of the bytes of `q` alone |
| `HaltingTheorems.NeverHaltsExactly` | packages/shield-proxy/src/streaming-redaction.ts:444-473 | For the same dictionaries: no stream is ever halted if and only if no pattern lies inside a token |
| `ChunkedHalt.OneChunkHalts` | packages/shield-proxy/src/streaming-redaction.ts:301-307 | The secrets `1111` and `]777` and a stream that is halted when it arrives in one chunk: `]777` sticks out of the token of the other secret |
| `ChunkedHalt.TwoChunksDoNotHalt` | packages/shield-proxy/src/streaming-redaction.ts:301-307 | The same bytes in two chunks are not halted |
| `ChunkedHalt.RulesAreBuilt` | packages/shield-proxy/src/streaming-redaction.ts:133-229 | The dictionary of this example is the one that an engine builds from the two secrets and their encoded variants |
| `ChunkedHalt.HaltingDependsOnChunking` | packages/shield-proxy/src/streaming-redaction.ts:301-307 | For a dictionary that an engine builds, one cut of a stream is halted and another cut of the same bytes is not: the cases of `HaltingOfCuts.CutMattersExactly` in which the cut matters do arise |
| `SecretTheorems.SecretsHaltExactly` | packages/shield-proxy/src/streaming-redaction.ts:133-229 | For secrets no kept variant of which can stick out of a token: which streams are halted, whatever the cut, and that some stream is halted if and only if some kept variant is a factor of some `[REDACTED:name]` |
| `SecretTheorems.AnySecretsHaltExactly` | packages/shield-proxy/src/streaming-redaction.ts:133-229 | For any secrets: chunks of at most the square of the bound decide whether a stream can be halted at all, and the steps before `flush` whether the cut of a stream matters |
| `SecretTheorems.WithoutBracketsNothingSticksOut` | packages/shield-proxy/src/streaming-redaction.ts:141-151 | Secrets without square brackets in any kept variant are of this kind |
| `SecretTheorems.SecretInsideEveryTokenHalts` | packages/shield-proxy/src/streaming-redaction.ts:137-151 | Any kept secret with the variant `REDA` halts the stream of these four bytes |
| `SecretTheorems.EveryVariantIsReplaced` | packages/shield-proxy/src/streaming-redaction.ts:133-156 | Every occurrence of every variant of a secret of at least four characters starts inside a replaced span |
| `SecretTheorems.EntriesAreBracketFree` | packages/shield-proxy/src/streaming-redaction.ts:133-160 | Variants without brackets give a dictionary without brackets |
| `GreedyRedaction.CutIsInvisible` | packages/shield-proxy/src/streaming-redaction.ts:279-292 | Cutting the pass at any point that leaves `maxPatternLen - 1` bytes of look-ahead is invisible, whatever bytes follow |
| `GreedyRedaction.RawOfCut` | packages/shield-proxy/src/streaming-redaction.ts:407-428 | The steps of a partial pass spell exactly the raw bytes up to where it ends |
| `GreedyRedaction.SegmentsOfSuffix` | packages/shield-proxy/src/streaming-redaction.ts:292-295 | The pass from an offset is the pass over the suffix there, so raw carryover is all a stream must remember |
| `GreedyRedaction.CutOfAll` | packages/shield-proxy/src/streaming-redaction.ts:327-329 | With the boundary at the end nothing is held back |
| `GreedyRedaction.Lengths` | packages/shield-proxy/src/streaming-redaction.ts:297-299 | Raw length is shown length plus what replacement removed |
| `GreedyRedaction.MatchCountCounts` | packages/shield-proxy/src/streaming-redaction.ts:416-422 | The match count is the number of replaced spans, each counted once |
| `Patterns.LongestAtIsLongest` | packages/shield-proxy/src/streaming-redaction.ts:394-401 | The replacement chosen at a start is at least as long as every pattern occurring there, and one is chosen whenever some pattern occurs there |
| `Patterns.LongestAtSound` | packages/shield-proxy/src/streaming-redaction.ts:394-401 | What is chosen at a start is an entry that occurs there |
| `Patterns.LongestAtIsLocal` | packages/shield-proxy/src/streaming-redaction.ts:279-282 | Bytes further away than `maxPatternLen` cannot change the choice |
| `OutputSafety.InputOccurrenceIsReplaced` | packages/shield-proxy/src/streaming-redaction.ts:412-422 | Every pattern occurrence in the input starts inside a replaced span |
| `OutputSafety.OutputOccurrenceMeetsToken` | packages/shield-proxy/src/streaming-redaction.ts:412-422 | Every pattern occurrence in the output overlaps a token that stands there |
| `OutputSafety.GreedyIsPatternFree` | packages/shield-proxy/src/streaming-redaction.ts:412-422 | If no pattern can line up with a token, the whole output, across all buffers, is pattern-free |
| `OutputSafety.BracketFreeMeetsInside` | packages/shield-proxy/src/streaming-redaction.ts:141-141 | A pattern without brackets meets a token only by lying inside it |
| `OutputSafety.BracketFreeStaysInside` | packages/shield-proxy/src/streaming-redaction.ts:141-141 | Patterns without brackets cannot stick out of a token |
| `OutputSafety.InsideCriterion` | packages/shield-proxy/src/streaming-redaction.ts:141-141 | When no pattern can stick out of a token, none can line up with one if and only if none is a factor of one |
| `ConfinementAudit.AuditIsExact` | packages/shield-proxy/src/streaming-redaction.ts:444-473 | The audit returns nothing exactly for pattern-free buffers; otherwise it names a secret and the first byte of an occurrence than which none ends earlier |
| `AutomatonTheory.LongestSuffixIsLongest` | packages/shield-proxy/src/streaming-redaction.ts:375-387 | The state is the longest suffix of the input that is a prefix of some pattern |
| `AutomatonTheory.LongestSuffixSound` | packages/shield-proxy/src/streaming-redaction.ts:375-387 | The state is a suffix of the input and a node of the trie |
| `AutomatonTheory.StepLaw` | packages/shield-proxy/src/streaming-redaction.ts:375-387 | Remembering only the longest such suffix loses nothing when the next byte is read |
| `AutomatonTheory.FailStep` | packages/shield-proxy/src/streaming-redaction.ts:379-382 | Following a failure link does not change the state that will be reached |
| `AutomatonTheory.ChildFail` | packages/shield-proxy/src/streaming-redaction.ts:196-204 | The failure link of a child is reached from the failure link of its parent |
| `AutomatonTheory.FailIsLongestProperSuffix` | packages/shield-proxy/src/streaming-redaction.ts:181-208 | The failure link is the longest proper suffix of the path that is a prefix of some pattern |
| `AutomatonTheory.EndingsOfState` | packages/shield-proxy/src/streaming-redaction.ts:389-404 | The patterns ending at a position can be read off the state reached there |
| `AutomatonTheory.DictSuffixLaw` | packages/shield-proxy/src/streaming-redaction.ts:218-224 | Copying the failure target or its link gives the longest proper suffix that is a whole pattern |
| `AutomatonTheory.DictSuffixIsNode` | packages/shield-proxy/src/streaming-redaction.ts:218-224 | That suffix is a strictly shorter node at which a pattern ends, so chains terminate |
| `AutomatonTheory.ChainIsExact` | packages/shield-proxy/src/streaming-redaction.ts:389-404 | Output plus dictionary-suffix chain visits exactly the patterns that end the path of a node, in strictly falling length and so each once |
| `AutomatonTheory.ChainAtState` | packages/shield-proxy/src/streaming-redaction.ts:389-404 | At every position of a text the chain of the state holds exactly the patterns ending there |
| `BreadthFirst.FrontierStep` | packages/shield-proxy/src/streaming-redaction.ts:192-208 | Taking a node off the queue and appending its children keeps the sweep level by level, without repeats or omissions |
| `BreadthFirst.NoLongerIsReached` | packages/shield-proxy/src/streaming-redaction.ts:192-208 | Every node no deeper than the front of the queue has been reached, the shallower ones processed |
| `BreadthFirst.SweepStart` | packages/shield-proxy/src/streaming-redaction.ts:186-190 | The sweep may start with the root processed and its children queued |
| `BreadthFirst.FrontierEnd` | packages/shield-proxy/src/streaming-redaction.ts:192-208 | When the queue is empty every node has been processed |
| `AhoTrie.AhoNode.Root` | packages/shield-proxy/src/streaming-redaction.ts:65-75 | A root fails to itself and has neither children, output nor dictionary-suffix link |
| `AhoTrie.AhoNode.Child` | packages/shield-proxy/src/streaming-redaction.ts:77-85 | A new node has the given depth and provisional failure link, and nothing else |
| `AhoTrie.Descend` | packages/shield-proxy/src/streaming-redaction.ts:168-173 | One step of an insertion returns the child on the byte, creating it if missing, and keeps the trie well linked |
| `AhoTrie.GrowPath` | packages/shield-proxy/src/streaming-redaction.ts:165-174 | After an insertion walk the nodes are the old ones and the prefixes of the word |
| `AhoTrie.InsertPattern` | packages/shield-proxy/src/streaming-redaction.ts:164-179 | Inserting a pattern gives the trie of the longer dictionary, with outputs as the dictionary says |
| `AhoTrie.NewPattern` | packages/shield-proxy/src/streaming-redaction.ts:175-178 | A new pattern changes the lookup of its own bytes only and the nodes by its prefixes only |
| `AhoTrie.BuildTrie` | packages/shield-proxy/src/streaming-redaction.ts:162-179 | Phase 1: the nodes are exactly the prefixes of patterns, children are one byte longer, each node holds exactly the pattern that ends there; all nodes are new |
| `AhoLinks.Advance` | packages/shield-proxy/src/streaming-redaction.ts:379-387 | The transition loop ends, arrives at the longest suffix that is a node, and pays for every failure step with a level of depth |
| `AhoLinks.SetFail` | packages/shield-proxy/src/streaming-redaction.ts:202-204 | The guard against self-links never fires: what is stored is the target found |
| `AhoLinks.LinkChild` | packages/shield-proxy/src/streaming-redaction.ts:196-204 | The failure link of a child is right once those of all nodes at the depth of its parent are |
| `AhoLinks.LinkRootChildren` | packages/shield-proxy/src/streaming-redaction.ts:186-190 | Children of the root fail to the root and are all queued once |
| `AhoLinks.LinkChildren` | packages/shield-proxy/src/streaming-redaction.ts:195-207 | All children of a dequeued node are linked rightly and queued once |
| `AhoLinks.LinkFailures` | packages/shield-proxy/src/streaming-redaction.ts:181-208 | Phase 2: every failure link is the longest proper suffix that is a node, and the sweep terminates |
| `AhoLinks.SetSuffix` | packages/shield-proxy/src/streaming-redaction.ts:220-224 | One dictionary-suffix link is right once that of the failure target is |
| `AhoLinks.LinkSuffixes` | packages/shield-proxy/src/streaming-redaction.ts:210-228 | Phase 3: every dictionary-suffix link is the longest proper suffix that is a pattern, or null when there is none |
| `AhoLinks.Compile` | packages/shield-proxy/src/streaming-redaction.ts:162-228 | The three phases together build the complete automaton out of new nodes and touch no existing one |
| `MatchCollection.CollectVisit` | packages/shield-proxy/src/streaming-redaction.ts:391-404 | Recording the pattern at one suffix and moving to the next link keeps the table of best matches exact |
| `MatchCollection.NothingSkipped` | packages/shield-proxy/src/streaming-redaction.ts:403-403 | A dictionary-suffix link skips no pattern |
| `MatchCollection.NothingBeyondState` | packages/shield-proxy/src/streaming-redaction.ts:389-391 | No pattern ending here is longer than the state |
| `MatchCollection.EndingCountCounts` | packages/shield-proxy/src/streaming-redaction.ts:389-404 | The counted chain length is the number of places where a pattern starts that ends here |
| `AhoScan.ReadByte` | packages/shield-proxy/src/streaming-redaction.ts:376-387 | After each byte the walk is at the longest suffix of what it has read that is a node |
| `AhoScan.FollowSuffix` | packages/shield-proxy/src/streaming-redaction.ts:403-403 | Each link leads to a strictly shorter suffix, skips no pattern, and reaches the next one if there is one |
| `AhoScan.VisitChain` | packages/shield-proxy/src/streaming-redaction.ts:389-404 | The chain at a byte visits exactly the patterns ending there, in falling length and so each once, and completes the table for that byte in at most one step more than there are such patterns |
| `AhoScan.CollectMatches` | packages/shield-proxy/src/streaming-redaction.ts:371-405 | The table holds, for every start below `stopAt`, the longest pattern occurring there in the buffer and nothing else; at most n failure steps and at most n plus occurrences chain steps for n bytes |
| `AhoScan.TableIsHead` | packages/shield-proxy/src/streaming-redaction.ts:412-422 | At every offset it asks about, the table answers as the reference pass does |
| `AhoScan.ReplaceGreedily` | packages/shield-proxy/src/streaming-redaction.ts:407-428 | Output, end position and match count are those of the reference pass cut at `stopAt` |
| `AhoScan.FindEnding` | packages/shield-proxy/src/streaming-redaction.ts:459-469 | The first output on the chain is the longest pattern ending at the byte |
| `AhoScan.Audit` | packages/shield-proxy/src/streaming-redaction.ts:444-473 | The audit walk reports exactly the first violation of the output |
| `DictionaryEntries.EntriesAreRight` | packages/shield-proxy/src/streaming-redaction.ts:133-160 | The compiled dictionary has no empty and no repeated patterns, is sorted longest first, has bracketed tokens, and looks every byte string up to its first candidate |
| `DictionaryEntries.CandidatesComplete` | packages/shield-proxy/src/streaming-redaction.ts:137-151 | The candidates are exactly the variants of the secrets of at least four characters, with the token and name of their secret |
| `DictionaryEntries.FirstSecretWins` | packages/shield-proxy/src/streaming-redaction.ts:147-151 | When several secrets share the same bytes, the token is that of the first of them |
| `DictionaryEntries.KeepFirstKeepsFirst` | packages/shield-proxy/src/streaming-redaction.ts:147-149 | Dropping later duplicates changes no lookup |
| `DictionaryEntries.SortKeeps` | packages/shield-proxy/src/streaming-redaction.ts:158-160 | Sorting loses and adds no entry |
| `DictionaryEntries.SortDescending` | packages/shield-proxy/src/streaming-redaction.ts:158-160 | Sorting puts longer patterns first |
| `DictionaryEntries.LongestBounds` | packages/shield-proxy/src/streaming-redaction.ts:152-154 | `maxPatternLen` bounds every pattern and is either attained or left over from an earlier dictionary |
| `RedactionTokens.HeldExactly` | packages/shield-proxy/src/streaming-redaction.ts:133-156 | A byte string is a pattern of the dictionary of any secrets if and only if it is a variant of a secret of at least 4 characters |
| `RedactionTokens.TokensSpellNames` | packages/shield-proxy/src/streaming-redaction.ts:137-151 | The token of every entry has the ten bytes of `[REDACTED:`, then the whole name of a secret that has the variant, then `]`, and nothing else |
| `RedactionTokens.TokensTellNamesApart` | packages/shield-proxy/src/streaming-redaction.ts:141-141 | Two entries have the same token if and only if their secrets have the same name |
| `RedactionTokens.VariantAlone` | packages/shield-proxy/src/streaming-redaction.ts:141-156 | A stream that consists of one kept variant alone is redacted to exactly the bracketed name of the first secret that has it |
| `StreamingRedaction.StreamingRedactionEngine.constructor` | packages/shield-proxy/src/streaming-redaction.ts:118-120 | A new engine is a fresh stream over the compiled entries |
| `StreamingRedaction.StreamingRedactionEngine.BuildDictionary` | packages/shield-proxy/src/streaming-redaction.ts:133-229 | Entries, automaton and length bound are those of the secrets; the token of every pattern is the bytes `[REDACTED:`, the name of its secret in full, and `]`; the automaton consists of new nodes |
| `StreamingRedaction.StreamingRedactionEngine.GatherEntries` | packages/shield-proxy/src/streaming-redaction.ts:134-156 | The loop gathers each byte string once, from the first secret that has it, and keeps the length bound |
| `StreamingRedaction.StreamingRedactionEngine.AddVariants` | packages/shield-proxy/src/streaming-redaction.ts:143-155 | The inner loop adds the variants not seen before |
| `StreamingRedaction.StreamingRedactionEngine.AhoReplace` | packages/shield-proxy/src/streaming-redaction.ts:367-429 | The automaton replacement is the reference pass cut at `stopAt`, within the linear step bounds |
| `StreamingRedaction.StreamingRedactionEngine.ConfinementAudit` | packages/shield-proxy/src/streaming-redaction.ts:444-473 | The method reports the first violation, or nothing for a pattern-free buffer |
| `StreamingRedaction.StreamingRedactionEngine.Process` | packages/shield-proxy/src/streaming-redaction.ts:266-310 | The method is the `process` step of the stream model on carryover, halt flag, counters and returned bytes, and leaves dictionary and automaton alone |
| `StreamingRedaction.StreamingRedactionEngine.Flush` | packages/shield-proxy/src/streaming-redaction.ts:316-343 | The method is the `flush` step of the stream model |
| `StreamingRedaction.StreamingRedactionEngine.UpdateDictionary` | packages/shield-proxy/src/streaming-redaction.ts:480-490 | A swap gives a fresh stream over a new automaton, and the length bound never shrinks |
| `StreamingRedaction.StreamingRedactionEngine.StreamInstance` | packages/shield-proxy/src/streaming-redaction.ts:518-534 | An instance shares dictionary and automaton and starts as a fresh stream |
| `StreamPump.StreamResponse` | packages/shield-proxy/src/engine.ts:300-383 | Without a body nothing is written; without an engine, or with an empty dictionary, the client receives the body; otherwise an initial part of its greedy redaction, all of it unless halted, in buffers free of every pattern, and a halt is reported exactly when the stream model halts on this body; the response is ended |
| `StreamPump.PumpRedacted` | packages/shield-proxy/src/engine.ts:321-379 | With a redactor the same, and the pump reports a halt exactly when the stream model halts |
| `StreamPump.Pump` | packages/shield-proxy/src/engine.ts:321-379 | The pump delivers exactly what the stream model releases, in clean buffers, and stops writing at a halt |
| `StreamPump.PassThrough` | packages/shield-proxy/src/engine.ts:361-377 | Without a redactor the body is delivered unchanged |
| `StreamPump.HaltedMidway` | packages/shield-proxy/src/engine.ts:365-369 | Stopping to read at a halt delivers the same bytes as reading on would have |
| `StreamPump.PumpStep` | packages/shield-proxy/src/engine.ts:361-377 | One round of the pump keeps its invariant, or halts having delivered everything released |
| `StreamPump.PumpEnd` | packages/shield-proxy/src/engine.ts:326-358 | The last buffer completes the stream |
| `StreamInterleaving.Interleave` | packages/shield-proxy/src/streaming-redaction.ts:475-534 | Any interleaving of instance creation, calls on the instances and dictionary swaps on the parent gives every instance the state and outputs it would have alone, with the dictionary that the parent had at its creation, and the parent the last dictionary |
| `StreamInterleaving.OpenStream` | packages/shield-proxy/src/streaming-redaction.ts:518-534 | Creating an instance adds a fresh stream with the current dictionary of the parent and leaves everything else alone |
| `StreamInterleaving.CallStream` | packages/shield-proxy/src/streaming-redaction.ts:518-534 | A call on one instance leaves the others and the parent valid and unchanged |
| `StreamInterleaving.SwapParent` | packages/shield-proxy/src/streaming-redaction.ts:480-490 | A swap on the parent leaves every instance and the shared nodes alone |
| `StsProtocol.OneForceRefreshInFlight` | packages/shield-proxy/src/sts-manager.ts:100-122 | In every run in which the slug is removed, or everything disposed, only while no refresh of it is on record, at most one force-refresh of it is in flight |
| `StsProtocol.OneInFlightExactly` | packages/shield-proxy/src/sts-manager.ts:100-156 | For every run: the slug is forgotten only while no refresh of it is on record if and only if at no point can one more call make two refreshes be in flight |
| `StsProtocol.ForgettingAllowsTwo` | packages/shield-proxy/src/sts-manager.ts:127-156 | In every reachable state with a refresh in flight, a removal or disposal lets the next call start a second one |
| `StsProtocol.RecordsAreLive` | packages/shield-proxy/src/sts-manager.ts:114-121 | In every reachable state, each refresh on record is in flight |
| `StsIntervals.SpacedExactly` | packages/shield-proxy/src/sts-manager.ts:100-156 | For every run: the slug is removed, or everything disposed, only when its interval has passed, if and only if at no point of the run a refresh can start less than 2000 ms after another |
| `StsIntervals.RefreshesAreSpaced` | packages/shield-proxy/src/sts-manager.ts:100-122 | In such a run a refresh can start only 2000 ms after every earlier start |
| `StsIntervals.RecordedStart` | packages/shield-proxy/src/sts-manager.ts:160-161 | A time on record for a slug is that of a start in the run |
| `StsProtocol.StepKeepsRecord` | packages/shield-proxy/src/sts-manager.ts:100-122 | No event breaks the record of the refresh in flight, unless the slug is forgotten while it is there |
| `StsProtocol.StepKeepsTimers` | packages/shield-proxy/src/sts-manager.ts:228-257 | Every event, removals included, keeps every armed timer the one held by the current entry of its slug |
| `StsProtocol.TimersAreHeld` | packages/shield-proxy/src/sts-manager.ts:127-156 | That holds in every reachable state |
| `StsProtocol.OneTimerPerSlug` | packages/shield-proxy/src/sts-manager.ts:228-257 | At most one timer is armed for a slug, in every reachable state |
| `StsProtocol.DisposeDisarms` | packages/shield-proxy/src/sts-manager.ts:147-156 | After `dispose` no timer is armed, in every reachable state |
| `StsProtocol.TokensComeFromAnswers` | packages/shield-proxy/src/sts-manager.ts:174-226 | A token cached for a slug, or returned by a force-refresh of it, was received in answer to a request for that slug |
| `StsProtocol.EmptyResultsComeFromAcquisitions` | packages/shield-proxy/src/sts-manager.ts:160-203 | In every run, a force-refresh that has ended without a token did so at an event of that run: by an unsuccessful answer to its acquisition, or for want of a proxy port |
| `StsProtocol.AcquisitionsFollowRenewals` | packages/shield-proxy/src/sts-manager.ts:160-172 | In every run, a force-refresh that is acquiring a token started with nothing to renew, or its renewal was answered without a usable token before |
| `StsProtocol.DebouncedCallerGetsNothing` | packages/shield-proxy/src/sts-manager.ts:100-112 | A run in which a caller comes while a refresh is on record and is given no token instead of its result |
| `StsProtocol.RemovalAllowsTwoInFlight` | packages/shield-proxy/src/sts-manager.ts:127-135 | A concrete run in which a removal lets two force-refreshes of one slug be in flight at once, as `StsProtocol.ForgettingAllowsTwo` says of every such state |
| `StsCache.CachedExactly` | packages/shield-proxy/src/sts-manager.ts:127-156 | For every run: the cache holds a token with this expiry for a slug if and only if some answer of the run brought it and no later answer or removal has touched the entry, whenever the request was sent |
| `StsCache.EntryAfterRemoval` | packages/shield-proxy/src/sts-manager.ts:196-198 | A slug that was removed has an entry again only through an answer to one of its tasks that came after the removal |
| `StsCache.ArrivalIsCached` | packages/shield-proxy/src/sts-manager.ts:228-257 | A token that arrives is stored with 1000 times the seconds of its expiry and a timer armed for its slug and token |
| `StsCache.HandedOutExactly` | packages/shield-proxy/src/sts-manager.ts:81-89 | For every run: a caller is handed a token for a slug if and only if some answer of the run brought it, nothing has touched the entry since, and its expiry is later than the clock |
| `StsEvents.BeginsExactly` | packages/shield-proxy/src/sts-manager.ts:66-122 | An event makes a function wait in three cases only: a token is asked for, there is a port, and the cached one is missing or has at most 30000 ms left; a force-refresh is asked for at least 2000 ms after the last with none on record; an armed timer goes off and there is a port |
| `StsEvents.BeginsWith` | packages/shield-proxy/src/sts-manager.ts:158-246 | What the new function waits for: a force-refresh renews a non-empty cached token, even an expired one, and otherwise fetches one, and has failed without a port; a timer renews for the slug it was armed for |
| `StsEvents.AnswerMovesOn` | packages/shield-proxy/src/sts-manager.ts:158-226 | An answer ends a renewal with its non-empty token or sends it on to fetch one, ends a fetch with its token or none, and ends every other function |
| `StsEvents.WaitingExactly` | packages/shield-proxy/src/sts-manager.ts:66-246 | For every run: a function is waiting if and only if some event of the run began it and no later one ended it |
| `StsEvents.TimerGoesExactly` | packages/shield-proxy/src/sts-manager.ts:127-156 | In every reachable state an armed timer stays armed unless it goes off, its slug is removed or everything disposed, or a newer token arrives for its slug |
| `StsEvents.EverySlugHasItsTimer` | packages/shield-proxy/src/sts-manager.ts:228-257 | No two slugs hold the same timer, in every reachable state |
| `StsEvents.ClockIsElapsed` | packages/shield-proxy/src/sts-manager.ts:100-106 | The clock of a run shows the sum of its ticks, and no other event moves it |
| `StsEvents.PortIsLastSet` | packages/shield-proxy/src/sts-manager.ts:57-59 | The port in force is the one set last, and 0 before any is set |
| `StsManager.Manager.constructor` | packages/shield-proxy/src/sts-manager.ts:37-54 | A new manager is in the initial state of the protocol |
| `StsManager.Manager.SetProxyPort` | packages/shield-proxy/src/sts-manager.ts:57-59 | The method is the port event of the protocol |
| `StsManager.Manager.Get` | packages/shield-proxy/src/sts-manager.ts:81-89 | A token is returned if and only if it is the cached one of the slug and its expiry is later than the clock |
| `StsManager.Manager.AcquireToken` | packages/shield-proxy/src/sts-manager.ts:66-75 | The cached token is returned at once if it has more than 30000 ms left; otherwise there is no token without a port, and with one an acquisition for the slug is awaited |
| `StsManager.Manager.ForceRefreshToken` | packages/shield-proxy/src/sts-manager.ts:100-122 | Less than 2000 ms after the last refresh the caller gets the cached token if and only if it has not expired; otherwise it awaits the refresh on record, or, if there is none, a new one |
| `StsManager.Manager.Cache` | packages/shield-proxy/src/sts-manager.ts:228-257 | Caching cancels the old timer of the slug, arms a new one and stores the entry |
| `StsManager.Manager.OnAnswer` | packages/shield-proxy/src/sts-manager.ts:160-226 | The code after an await is the answer event of the protocol |
| `StsManager.Manager.OnSettled` | packages/shield-proxy/src/sts-manager.ts:117-121 | The `finally` block deletes the record of its slug, whichever refresh that is |
| `StsManager.Manager.OnTimer` | packages/shield-proxy/src/sts-manager.ts:240-246 | A timer that fires is no longer armed and, if there is a port, starts a background renewal for its slug |
| `StsManager.Manager.Remove` | packages/shield-proxy/src/sts-manager.ts:127-135 | The method is the removal event of the protocol |
| `StsManager.Manager.DisposeAll` | packages/shield-proxy/src/sts-manager.ts:147-156 | The loop over entries is the disposal event of the protocol |
| `ProxyRequest.Proxy.HandleRequest` | packages/shield-proxy/src/engine.ts:103-279 | By the request and what it finds: the reply of the first check that fails and no call; otherwise a first call with the token found, and by its answer: unreachable, other error, streamed, or refused for a 401 that does not say expired, each after one call; the call is repeated, with the refreshed token, if and only if the answer is a 401 that says expired, the project header is present and non-empty and the refresh gave a non-empty token; no other call carries a token, and those between are a renewal and then an acquisition |
| `ProxyRequest.Proxy.Forward` | packages/shield-proxy/src/engine.ts:140-271 | The exchanges made for a request are a first call, and after an answer that says that the token has expired those of a refresh that gave this result and, if it is usable, one repetition |
| `ProxyRequest.HandledInFull` | packages/shield-proxy/src/engine.ts:103-279 | The same for every log of exchanges that the request handler can make |
| `ProxyRequest.RefreshResult` | packages/shield-proxy/src/sts-manager.ts:100-226 | Where the result of a refresh comes from: less than 2000 ms after the last one the cached token if it has not expired, otherwise the refresh on record if there is one, otherwise a refresh of its own, whose token came in a successful answer to one of its calls |
| `ProxyRequest.Proxy.ForceRefresh` | packages/shield-proxy/src/sts-manager.ts:100-172 | By the state found: the cached token inside the debounce interval, the result of the refresh on record if there is one, and otherwise a refresh that waits for answers in the order of the token manager, sends at most a renewal and then an acquisition, without a project header, and returns the result that the answers give |
| `ProxyRequest.Proxy.AskForToken` | packages/shield-proxy/src/sts-manager.ts:174-226 | A token request goes through the same proxy without a project and makes at most one upstream call; a token needs such a call |
| `RequestWaits.NothingWaitsOnItself` | packages/shield-proxy/src/engine.ts:164-263 | In every reachable state of any number of requests, refreshes and timers, a chain of waiting has at most three parties and never comes back to where it started |
| `RequestWaits.WaitingFallsInRank` | packages/shield-proxy/src/engine.ts:228-263 | Waiting leads strictly down: from requests with a project to refreshes to requests without |
| `RequestWaits.EveryWaitEndsUpstream` | packages/shield-proxy/src/sts-manager.ts:100-226 | Every request waits for the upstream server, or for a refresh that has its result or has itself sent a request that waits for the upstream server |
| `RequestWaits.NestedNeverRefreshes` | packages/shield-proxy/src/engine.ts:164-182 | A request without a project, as a refresh sends it, never waits for a refresh, whatever the upstream answers |
| `RequestWaits.RequestsOnlyAdvance` | packages/shield-proxy/src/engine.ts:228-255 | In every interleaving a request waits for the upstream server at most twice and for a refresh at most once |
| `RequestWaits.WaitersGetTheResult` | packages/shield-proxy/src/sts-manager.ts:108-121 | All waiters of one refresh get its result, which is for their project: repeated with that token, or answered without a repetition |
| `RequestWaits.MoveKeepsSound` | packages/shield-proxy/src/sts-manager.ts:100-226 | Whatever happens, waiting functions and the requests they sent stay paired, and awaited refreshes exist |
| `RequestOutcomes.AdmittedExactly` | packages/shield-proxy/src/engine.ts:164-182 | A request without a project is always admitted; one with a project if and only if a non-empty token for it is cached and has not expired, and then it carries that token |
| `RequestOutcomes.ExpirySoonAfterRefresh` | packages/shield-proxy/src/engine.ts:228-255 | A request whose token is said to have expired less than 2000 ms after the last refresh is repeated with the cached token if that is non-empty and unexpired, and is otherwise answered; the token manager does not change |
| `RequestOutcomes.ExpiryLater` | packages/shield-proxy/src/sts-manager.ts:100-122 | Later it waits for the refresh on record, or for a new one, which sends a request of its own at once if there is a port, in every reachable state |
| `RequestOutcomes.FinalAnswer` | packages/shield-proxy/src/engine.ts:249-271 | Every other answer is the last of its request, and reaches the waiting function that sent it, if one did |
| `RequestOutcomes.SettlingSparesOthers` | packages/shield-proxy/src/sts-manager.ts:114-121 | A refresh that has its result comes off the record and leaves the requests that do not wait for it alone |
| `RequestOutcomes.OthersActOnTokens` | packages/shield-proxy/src/sts-manager.ts:66-246 | Timers, the clock and direct calls change the token manager only; a function that begins to wait sends its request |
| `CanonicalTheorems.CanonicalIsRead` | packages/ellul-crypto/src/canonical.rs:18-60 | Parsing the canonical text of any value gives that value with the members of every object sorted |
| `CanonicalTheorems.CanonicalDecidesSame` | packages/ellul-crypto/src/canonical.rs:5-12 | Two values have the same canonical text if and only if they are equal up to member order at every level |
| `CanonicalTheorems.CanonicalIsStable` | packages/ellul-crypto/src/canonical.rs:18-60 | Printing the re-parsed canonical text gives it back |
| `CanonicalTheorems.TextRead` | packages/ellul-crypto/src/canonical.rs:24-60 | Reading undoes printing for every value in the order given, whatever follows |
| `CanonicalTheorems.StringRead` | packages/ellul-crypto/src/canonical.rs:29-33 | Reading undoes string escaping, over all code points |
| `CanonicalTheorems.NumberRead` | packages/ellul-crypto/src/canonical.rs:28-28 | Reading undoes printing of any integer when no digit follows |
| `CanonicalTheorems.NormalizeIsStable` | packages/ellul-crypto/src/canonical.rs:44-47 | Sorting members at every level twice is sorting them once |
| `CanonicalTheorems.ReadIsWellFormed` | packages/ellul-crypto/src/sign.rs:216-217 | Whatever is parsed has unique keys in every object |
| `JsonReader.KeepLastUnique` | packages/ellul-crypto/src/sign.rs:216-217 | A repeated key leaves one member, whatever the order of arrival |
| `JsonReader.KeepLastOfUnique` | packages/ellul-crypto/src/sign.rs:216-217 | Without repeated keys the members are kept as they come |
| `JsonEquality.SameMeansNormalizeAlike` | packages/ellul-crypto/src/canonical.rs:44-58 | Equality up to member order is equality after sorting at every level |
| `JsonValues.SortIsRight` | packages/ellul-crypto/src/canonical.rs:45-47 | Sorting keeps the members and puts their keys in strictly increasing order |
| `JsonValues.SortedDetermined` | packages/ellul-crypto/src/canonical.rs:45-47 | A sorted member list is determined by which members it has |
| `CanonicalJson.SortedMembers` | packages/ellul-crypto/src/canonical.rs:46-56 | Sorting the keys and looking each value up gives the sorted members |
| `CanonicalJson.WriteCanonical` | packages/ellul-crypto/src/canonical.rs:24-60 | The recursive writer only appends to the buffer, and what it appends is the canonical text, whose spelling is that of `CanonicalSpelling.CanonicalIsShortest` and `CanonicalSpelling.CharacterSpelling` |
| `CanonicalJson.WriteItems` | packages/ellul-crypto/src/canonical.rs:34-43 | The array loop writes the items in order, separated by commas |
| `CanonicalJson.WriteMembers` | packages/ellul-crypto/src/canonical.rs:44-58 | The object loop writes the members in key order, separated by commas |
| `CanonicalJson.CanonicalText` | packages/ellul-crypto/src/canonical.rs:18-22 | The entry point returns the canonical text, in the spelling of `CanonicalSpelling.CanonicalIsShortest` and `CanonicalSpelling.CharacterSpelling` |
| `CanonicalSpelling.CanonicalIsShortest` | packages/ellul-crypto/src/canonical.rs:18-60 | No text that parses to the value, up to member order, is shorter than its canonical text: no whitespace, every character in its shortest spelling |
| `CanonicalSpelling.PrintedStringIsShortest` | packages/ellul-crypto/src/canonical.rs:29-33 | No text of a string up to its closing quotation mark is shorter than the printed one |
| `CanonicalSpelling.CharacterSpelling` | packages/ellul-crypto/src/canonical.rs:29-33 | How each character is printed: quotation mark, reverse solidus, backspace, form feed, line feed, carriage return and tab in two characters, other controls with the four digits of their code in lower case, all others as themselves |
| `CanonicalSpelling.SpelledOneByOne` | packages/ellul-crypto/src/canonical.rs:29-33 | The characters of a string are spelled one by one, each the same wherever it stands |
| `JsonSpellings.PrintedInOrder` | packages/ellul-crypto/src/canonical.rs:45-47 | The members of a printed object are those of the object, in increasing order of the code points of their keys, a key before its extensions |
| `JsonSpellings.LessExactly` | packages/ellul-crypto/src/canonical.rs:45-47 | The order of keys decides at the first code point that differs, and puts a beginning before the whole |
| `JsonSpellings.KeepLastKeepsLast` | packages/ellul-crypto/src/sign.rs:216-217 | Of several members with one key exactly the last is kept |
| `JsonSpellings.RepeatedKeysAreRead` | packages/ellul-crypto/src/sign.rs:216-217 | The text of an object that repeats keys is read as the object with the last value for each key |
| `JsonSpellings.UnitSpelling` | packages/ellul-crypto/src/sign.rs:216-217 | Every character below U+10000 may be written with `u` and four digits of either case, and is read as itself |
| `JsonSpellings.PairSpelling` | packages/ellul-crypto/src/sign.rs:216-217 | Every other character may be written as a surrogate pair |
| `JsonSpellings.LoneSurrogateIsRefused` | packages/ellul-crypto/src/sign.rs:216-217 | A surrogate without its partner is refused |
| `JsonSpellings.WhitespaceAround` | packages/ellul-crypto/src/sign.rs:216-217 | Whitespace around a document changes nothing |
| `ManifestPayload.PayloadCoversTheRest` | packages/ellul-crypto/src/sign.rs:225-237 | Two manifest objects have the same bytes to verify if and only if they agree, up to member order, on everything other than the three top-level signature fields |
| `ManifestPayload.SignatureFieldsAreNotCovered` | packages/ellul-crypto/src/sign.rs:225-230 | Adding, changing or removing a signature field never changes the payload |
| `ManifestPayload.SignedManifestReadsBack` | packages/ellul-crypto/src/sign.rs:216-237 | What a signer puts into a manifest is what the verifier takes out of its text, canonical or in the order given: the signature, and the canonical text of the manifest without it |
| `ManifestPayload.MemberOrderIsIrrelevant` | packages/ellul-crypto/src/sign.rs:216-237 | Manifests equal up to member order at every level are verified alike |
| `ManifestPayload.PayloadToVerify` | packages/ellul-crypto/src/sign.rs:212-237 | Text that does not parse and a manifest without a signature string are errors; otherwise the signature is the one under `signature_mldsa65`, or under `signature` if nothing has that name, and the payload is the canonical text of the members that are none of the three signature fields |
| `ManifestPayload.PayloadExactly` | packages/ellul-crypto/src/sign.rs:212-237 | For every text, member by member: what fails and with which error, which signature is taken, and that the payload is the canonical text of all other members, in whatever order |
| `ManifestPayload.SignatureTakenExactly` | packages/ellul-crypto/src/sign.rs:219-223 | The text of a manifest object gives a signature if and only if that string is the value of `signature_mldsa65`, or nothing has that key and it is the value of `signature` |
| `ManifestPayload.ManifestCell.RemoveField` | packages/ellul-crypto/src/sign.rs:226-230 | Removal in place changes nothing but the named field, and nothing at all unless the value is an object |
| `CivilTime.NextDayIsNextDate` | packages/ellul-crypto/src/kem.rs:194-203 | For every day the computed date is a Gregorian date and the next day has the next date |
| `CivilTime.ClosedFormCounts` | packages/ellul-crypto/src/kem.rs:188-203 | The closed form agrees with counting day by day from 1 January 1970 |
| `CivilTime.DayRoundTrip` | packages/ellul-crypto/src/kem.rs:194-203 | The inverse day count gives every day back |
| `CivilTime.DateRoundTrip` | packages/ellul-crypto/src/kem.rs:194-203 | Every Gregorian date is the computed date of its day count |
| `CivilTime.DatesIncrease` | packages/ellul-crypto/src/kem.rs:194-203 | Later days have later dates |
| `CivilTime.EpochIsRight` | packages/ellul-crypto/src/kem.rs:194-203 | Day 0 is 1 January 1970 |
| `CivilTime.YearOfEraIsRight` | packages/ellul-crypto/src/kem.rs:197-199 | No subtraction underflows, the year of the era is below 400, and the day of the year fits in that year |
| `CivilTime.MonthIndexIsRight` | packages/ellul-crypto/src/kem.rs:201-203 | The month formula finds the month whose range of days holds the day of the year |
| `CivilTime.EraIsFloor` | packages/ellul-crypto/src/kem.rs:195-196 | Truncating division with the shift is floor division, so the day of the era is in range |
| `CivilTime.DateAtIsDate` | packages/ellul-crypto/src/kem.rs:200-204 | Year, month and day computed from any position of an era form a date |
| `Timestamps.TwentyCharacters` | packages/ellul-crypto/src/sign.rs:313-337 | The text has 20 characters if and only if the time is before the year 10000 |
| `Timestamps.TimestampOrder` | packages/ellul-crypto/src/sign.rs:313-337 | Before the year 10000 the order of the texts is the order in time |
| `Timestamps.TextOrderExactly` | packages/ellul-crypto/src/sign.rs:313-337 | For all times before `n` the order of the texts is the order in time if and only if `n` is not beyond the year 10000 |
| `Timestamps.OrderBreaksAtYear10000` | packages/ellul-crypto/src/sign.rs:313-337 | At the turn of the year 10000 the text order breaks |
| `Timestamps.TimestampReadsBack` | packages/ellul-crypto/src/kem.rs:188-205 | Before the year 10000 the text has the RFC 3339 form and reads back as the same second |
| `Timestamps.FourDigitYears` | packages/ellul-crypto/src/sign.rs:324-336 | The year has four digits exactly for times before the year 10000 |
| `Timestamps.ClockOrder` | packages/ellul-crypto/src/sign.rs:319-336 | Within a day the clock texts are ordered as the seconds |
| `ShellStrings.QuotedReadsBack` | packages/i18n-messages/src/shell-strings.ts:59-64 | A shell reader of single quotes and backslashes reads the quoted form of any string without NUL as one word equal to it |
| `ShellStrings.QuotedOneByOne` | packages/i18n-messages/src/shell-strings.ts:63-63 | Characters are quoted one by one: a single quote as four characters, every other character as itself |
| `ShellStrings.BuildMotdShellCase` | packages/i18n-messages/src/shell-strings.ts:102-132 | The builder fails if and only if one of the six English strings, or of the six Japanese ones if they are there, contains NUL, and names such a string; otherwise it returns the case statement of the shipped locales and the default |
| `ShellStrings.QuoteBody` | packages/i18n-messages/src/shell-strings.ts:107-116 | The assignments of a branch are quoted in order; the first string with NUL is the error |
| `ShellCase.EveryLocaleGetsItsStrings` | packages/i18n-messages/src/shell-strings.ts:102-132 | Running the generated statement sets each of the six variables to its translation for a shipped locale, and to the English strings for any other value |
| `ShellCase.GeneratedStringsExactly` | packages/i18n-messages/src/shell-strings.ts:102-132 | Running the generated statement sets exactly the six variables: to the Japanese strings if USER_LOCALE is `ja` and they are there, to the English strings otherwise |
| `ShellCase.ScriptReadsBack` | packages/i18n-messages/src/shell-strings.ts:102-132 | The generated text reads back as the branches it was generated from |
| `ShellCase.SelectsLocale` | packages/i18n-messages/src/shell-strings.ts:104-119 | The first matching branch is that of the locale if it has one, and the default otherwise |
| `ShellCase.PerformsAll` | packages/i18n-messages/src/shell-strings.ts:107-116 | Performing a branch gives exactly the six variables their values |
| `TunnelProtocol.EncodeFrame` | packages/tunnel-protocol/src/index.ts:18-25 | Fails exactly when the id or the length does not fit in 32 bits; otherwise a new buffer holds the type at offset 0, the id at 1 and the length at 5, most significant byte first, and the payload from 9 |
| `TunnelProtocol.WriteUInt32` | packages/tunnel-protocol/src/index.ts:21-22 | Four bytes are written, most significant first, and no other byte changes |
| `TunnelProtocol.DecodeOfEncode` | packages/tunnel-protocol/src/index.ts:18-34 | Decoding an encoded frame followed by any bytes returns that frame |
| `TunnelProtocol.EncodeOfDecode` | packages/tunnel-protocol/src/index.ts:18-34 | Encoding what was decoded gives the bytes that were read |
| `TunnelProtocol.IncompleteFrameFails` | packages/tunnel-protocol/src/index.ts:28-32 | Every proper prefix of a frame is refused, as too short or truncated |
| `TunnelProtocol.DecodedExactly` | packages/tunnel-protocol/src/index.ts:27-34 | What decoding any bytes gives: too short below 9 bytes, truncated if fewer follow than the header announces, and otherwise exactly the frame whose fields stand there |
| `TunnelProtocol.PrefixFree` | packages/tunnel-protocol/src/index.ts:18-34 | No encoded frame is a proper prefix of another |
| `TunnelProtocol.ConcatenationDetermines` | packages/tunnel-protocol/src/index.ts:18-34 | A concatenation of frames determines the list of frames |

## Left out

- The base64, URL and hex encoders, and the length of a value in UTF-16 units: a secret carries its variants as arbitrary byte strings, non-empty for the values that are kept, and its length as a number.
- HaltingTheorems.HaltedExactly: the form in which the tokens alone decide, for dictionaries in which no pattern can stick out of a token, as all without square brackets are; `HaltingOfCuts.SomeCutHaltsExactly` and `HaltingOfCuts.EveryCutHaltsExactly` are for every dictionary.
- HaltingTheorems.HaltingIgnoresChunking: for the same dictionaries; `HaltingOfCuts.CutMattersExactly` is for every dictionary.
- HaltingTheorems.NeverHaltsExactly: for the same dictionaries, where a look at the tokens is enough; `ShortStreams.ShortStreamsDecide` is for every dictionary.
- HaltingTheorems.HaltNeedsPatternInOutput: one direction; a pattern in the redaction of the whole may lie across the last boundary, and then no buffer shows it. `HaltingOfCuts.SomeCutHaltsExactly` has both directions.
- HaltingTheorems.DisjointTokensNeverHalt: one direction, as the source's expectation has it; `ShortStreams.ShortStreamsDecide` has both.
- SecretTheorems.SecretsHaltExactly: for the same dictionaries; `SecretTheorems.AnySecretsHaltExactly` is for any secrets.
- StreamTheorems.AnyTwoChunkingsAgree: for runs that do not halt; `HaltingOfCuts.CutMattersExactly` says when halting is the same for both.
- Timestamps.TimestampOrder: for times before the year 10000; `Timestamps.TextOrderExactly` says that this is exactly where it holds.
- AhoLinks.LinkSuffixes: phase 3 does not assign null to the children of the root again, because nodes are created with null.
- AhoLinks.LinkChildren: children are visited in an arbitrary order, where the original uses insertion order; the links do not depend on it.
- DictionaryEntries.SortKeeps: the library's stable sort is a function here, not a model of its implementation.
- Copying of buffers and views into shared memory: byte strings are values.
- Read errors in the middle of an upstream body, after which the proxy appends its own error text to what was streamed.
- Response and request headers, back-pressure, the limit on request bodies, proof-of-possession signatures, notices to the user, logging and its metrics getter, the vault page and the internal routes.
- What is streamed after a 401 whose body was read and whose refresh gave nothing: `ProxyRequest` reports that the first answer is streamed and says nothing about its bytes.
- ProxyRequest.Proxy.HandleRequest: session, token cache and answers are arbitrary at every point, so the bounds hold whatever other requests do; who waits for whom is the subject of `RequestWaits`, and which token the cache holds of `StsProtocol`. The log is that of the calls made for one request.
- ProxyRequest.Proxy.ForceRefresh: the result of a refresh that another caller started is arbitrary here; `RequestWaits.WaitersGetTheResult` says what it is.
- RequestWaits.MoveKeepsSound: fetching the session, reading a request body and sending a request are one event with its arrival; a nested request that is refused for want of a session is answered like one that went upstream.
- StsProtocol.StepKeepsTimers: a timer may fire at any moment, so the delay of 80 percent of the lifetime with its minimum of 5 s is not modelled.
- StsProtocol.OneForceRefreshInFlight: an answer and the reading of its body are one event, and steps between awaits that resolve at once are merged; the `finally` block is an event of its own.
- CanonicalTheorems.CanonicalIsRead: numbers are integers of any size; how the JSON library prints and parses other numbers, and whether parsing undoes printing there, is not shown in this repository. Its nesting limit is not modelled.
- CanonicalTheorems.CanonicalDecidesSame: integers, for the same reason.
- CanonicalTheorems.CanonicalIsStable: integers, for the same reason.
- CanonicalTheorems.TextRead: integers, for the same reason.
- CanonicalTheorems.NumberRead: integers, for the same reason.
- CanonicalSpelling.CanonicalIsShortest: integers, for the same reason.
- JsonSpellings.WhitespaceAround: whitespace between the tokens of a document is skipped by the reader, but only whitespace around the document is spoken about.
- CanonicalJson.WriteCanonical: integers, for the same reason.
- CanonicalJson.CanonicalText: integers, for the same reason.
- ManifestPayload.SignedManifestReadsBack: integers, for the same reason.
- ManifestPayload.MemberOrderIsIrrelevant: integers, for the same reason.
- JsonSpellings.RepeatedKeysAreRead: the position of a member with a repeated key among the members is that of the first, which canonical text does not show.
- JsonValues.SortIsRight: keys are ordered by code point; that this is the order of their UTF-8 bytes is a property of UTF-8 and not stated.
- Reading the manifest file, decoding the signature and the signature algorithms themselves.
- Times before 1970, which the original turns into second 0, and reading the clock.
- ShellStrings.QuotedReadsBack: the reader knows plain characters, single quotes and backslashes (sections 2.2.1 and 2.2.2 of the POSIX Shell Command Language); `ShellCase` knows the lines of the generated statement. The rest of the shell grammar would not be reached by this text.
- The other builder of shell text and the HTML pages of `shell-strings.ts`; loading of the translation files, which are arbitrary strings here.
- TunnelProtocol.EncodeFrame: any byte may be a frame type, as the decoder accepts any, and buffers too large to allocate are not modelled.
- Scope rules, message overlays, the chat resolver and the gateway, which would only add short case analyses.
- Key encapsulation, key derivation, memory locking, keychain access and all user interface code.
