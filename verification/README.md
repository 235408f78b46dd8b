# Verification model of the governed runtime

A Dafny model of the parts of the repository that everything else rests on, with proofs over all inputs,
all runs and all interleavings. Code that changes state is modelled by classes and methods with the
source's own fields and loops, each proved against a specification function; what the source promises is
then proved about those functions.

| component | files |
|---|---|
| canonical JSON, string literals | `JsonStrings`, `StringGrammar`, `Canonical`, `CanonicalProofs`, `JsonReader` |
| journal, Merkle proofs, receipts | `Journal`, `JournalProofs`, `HeadReceipts` |
| many writers on one table | `SharedTable`, `AuditChain` |
| language front end | `Lexer`, `LexerProofs`, `LexerOutput`, `NumberGrammar`, `Layout`, `LexErrors`, `Parser`, `ParserProofs`, `RoundTrip`, `Acceptance`, `Grammar`, `SourceLayout`, `ParseErrors` |
| decode bridge | `EditDistance`, `Trie`, `Lattice`, `Bridge`, `BridgeExact` |
| identity graph | `Graph`, `GraphProofs`, `LayerProofs` |
| trace store and execution | `StatementKeys`, `TraceStore`, `SelectionProofs`, `Execution`, `ExecutionProofs`, `ReleaseProofs`, `Idempotency`, `ProgramLaws`, `ProgramProofs`, `CounterProofs`, `ReuseProofs`, `ForgettingRuns` |
| hosted API algorithms | `GraphPaths`, `TokenBucket`, `Pagination` |

`dafny verify dfyconfig.toml` checks the whole project.

## Conventions

- **Hashing.** The digest is a parameter with 64-character outputs. No result assumes it injective on all
  strings; each names the finite set of texts on which it must not collide.
- **JSON.** Numbers are integers. Strings are sequences of Unicode scalar values. An object is a list of
  members with distinct keys.
- **Outside answers.** What a disk, a table, a model, a signer or another process does is a parameter of
  the call, so every result holds for every answer. A run is any sequence of such steps.
- **Writers are sequential.** A journal object does not append while its own flush is awaited: an entry
  appended then would be marked durable without being inserted (src/store.js:281-299). In `SharedTable`
  this is the enabling condition of `Append`.

## What the proofs found

Where code and documentation differ the model follows the code.

- The digest of an entry covers `prev`, `type` and `body` but not `seq` (src/store.js:71), and `verify`
  never reads `seq`: any renumbering verifies (`SequenceNumbersUncovered`), although the comment at
  src/store.js:91 says any edit breaks the chain.
- `verifyInclusion` does not check digest lengths. Two proofs that climb through the same positions to one
  root are the same proof of the same leaf exactly when the two leaves have one length (`InclusionBinds`);
  from any proof with a non-empty first step, on either side, a longer leaf and a shorter step climb to the
  same root (`LengthsMatter`). An auditor who checks that the leaf is 64 characters has the binding.
- A writer that lost the race can never land again from the same object: rollback returns to its own
  durable length, not to the table's head, so every later batch meets the primary key (`StaleForever`).
  Two writers that open one table get there without any failure (`StaleHappens`). The comment at
  src/store.js:292-294 says the next append re-chains against the durable head.
- For a lattice dimension without "*", bridge and graph accept the same values (`AgreesWithCovers`);
  elsewhere they can differ (`DisagreementOutside`), and `AgreesExactly` says when.
- A boundary that requires no value is authorised for any actor the graph knows, and an observation makes
  an actor known (`EmptyBoundaryObserved`); with a value required observations never matter
  (`ObservationNeverGrants`). The parser refuses an empty boundary.
- `project` takes an admissible empty string it finds for not found (src/bridge.js:184-185). Where a value
  would broaden the empty string and another admissible value, the order of the set decides between refusing
  and going on (`EmptyHidesHappens`); everywhere else the order is irrelevant (`OrderIrrelevantExactly`).
- A key can commit twice, without any retry. The idempotency check looks only at the first visible trace
  with the key (src/runtime.js:289), so a trace left staged under an intent that required attestation hides
  the committed ones after it (`AnswersExactly`, `StagedTraceHidesCommitted`, and from a fresh start
  `RequirementDropped`). Over any run no key commits twice unless an execution whose trace is staged is
  followed by two committing ones of its key (`OnceUnlessStaged`); where nothing refuses or fails, a key
  commits twice exactly when its first execution is staged and two later ones commit (`OnceExactly`). While
  no intent changes its requirement there is no such triple, because the key settles whether a statement
  commits (`KeySettlesCommit`), so every key commits at most once (`CommittedOnce`).
- On a write-behind journal a reuse event is queued after its statement's flush, and a constructed runtime
  counts durable events only. So a runtime opened right after a statement that read an inference does not
  count the reuse, with every flush landed (`QueuedRun`); when the next flush fails, the event is lost for
  good while the live counter keeps it (`LosingRun`). On any backend and over any run the live counters are
  what a new runtime would count exactly when, since this one was opened, no event that names a trace was
  lost and none is queued (`CountersAgreeExactly`). Synchronous journals neither lose nor queue one
  (`CountersReplay`).
- Decay therefore does not bound how often an inference is inherited across reopenings: calls whose flushes
  all land, each followed by a reopening, inherit the same one any number of times (`DriftUnbounded`). What
  holds is a bound of N, the number of reuses after which full confidence is below the floor (four by
  default), plus N again for each reopening at which reuse was forgotten (`DriftBounded`). A synchronous
  journal that records its reuse has no such reopening (`SyncReopens`).
- A runtime constructed over a journal with a trace still pending is missing that trace from the flush that
  makes it durable (`ReplayMissesPending`, src/runtime.js:203-204).
- The token bucket's window bound is reached exactly when a millisecond refills no more than the bucket holds
  (`WindowBoundReached`). With a refill of zero a refused caller is told to wait without end.
- `appendAudit` makes three attempts; its comment says it retries once (platform/api/src/lib/audit.js:18-22).
- A comment does not advance the column (src/lexer.js:53), which shows only at the end of a text that ends
  inside one: EOF then stands where the comment starts (`LayoutLexes`).
- The lexer reads `1.5x` as the code `1`, a dot and the code `5x`: the number is rejected because of what
  follows it, and the word that starts there is the digit run alone (src/lexer.js:93-121). Such a code would
  not read back alone, but no production accepts a code before a dot, so no accepted program holds one
  (`AcceptedIsGood`).

## Model

| member | source | states |
|---|---|---|
| JsonStrings.ParseQuote | src/lexer.js:66-88 | JSON.parse of JSON.stringify of any string is that string |
| JsonStrings.QuoteUnique | src/store.js:43-48 | quoted strings followed by anything split in one way only |
| StringGrammar.ReadCharExact | src/lexer.js:66-88 | a reader of JSON strings takes some characters for one exactly when they stand for it: as itself, by a short escape, by its code unit in either case, or by a surrogate pair |
| StringGrammar.ReadStringExact | src/lexer.js:66-88 | what follows an opening quote is read as a string exactly when it spells that string up to a quote |
| StringGrammar.EscapeIsShortest | src/store.js:47 | JSON.stringify writes each character in the shortest way there is, with lower-case digits where it takes its code unit |
| CanonicalProofs.UniqueSplit | src/store.js:43-48 | canonical texts are self-delimiting: if two of them start one string, the values are equal up to member order and the remainders are equal |
| CanonicalProofs.CanonicalExact | src/sign.js:23-28 | two JSON values have the same canonical text exactly when they are equal up to object member order, at every depth |
| CanonicalProofs.MemberOrderIrrelevant | src/store.js:43-48 | permuting an object's members leaves its text unchanged |
| JsonReader.CanonicalReads | src/store.js:43-48 | a reader written from RFC 8259 and sharing nothing with the writer gets back from a canonical text, with any delimiter after it, the value up to member order with its keys in ascending UTF-16 order, and exactly what followed |
| JsonReader.ParseCanonical | src/store.js:43-48 | so JSON.parse gives back the value, and what it gives has that canonical text again |
| CanonicalProofs.EnvelopeText | src/store.js:71 | the hashed envelope, to the character |
| CanonicalProofs.EnvelopeExact | src/store.js:71 | the hashed envelope determines the type exactly and the body up to member order, and nothing else |
| Journal.MemoryJournal.Append | src/store.js:66-80 | persist first: a refused write changes nothing; otherwise exactly one chained entry is added, durable or pending by backend, and the object stays consistent |
| Journal.MemoryJournal.Flush | src/store.js:273-300 | a flush lands whole or rolls back whole; which is decided by the select, the head it returned and the insert |
| Journal.MemoryJournal.Rollback | src/store.js:301-305 | pending entries, and only those, leave the chain |
| Journal.MemoryJournal.Entries | src/store.js:84-87 | exactly the durable entries, or all, of the type asked for, in order |
| Journal.MemoryJournal.Verify | src/store.js:94-107 | accepts exactly the valid chains that meet the checkpoint; a refusal names an entry whose link fails while everything before it holds or, the chain being valid, where the checkpoint is not met |
| Journal.MemoryJournal.VerifyCheckpoint | src/store.js:108-116 | accepts exactly when the chain is long enough and has the head at that length |
| JournalProofs.RecordText | src/store.js:66-74 | an appended entry has the next sequence number, the last digest or 64 zeros as prev, and the digest of prev followed by the compact object of type and body |
| Journal.OperationsKeepConsistent | src/store.js:66-80 | append, flush and rollback keep: the chain verifies, seq is index, and what is not durable is exactly what is queued |
| Journal.MemoryJournal.RootOf | src/store.js:131-141 | the level-by-level loop computes the Merkle root, odd levels included |
| Journal.MemoryJournal.InclusionProof | src/store.js:143-160 | the proof for the first entry with a sequence number, or none when there is no such entry |
| Journal.VerifyInclusion | src/store.js:164-171 | accepts exactly when the leaf climbs to the root |
| JournalProofs.ChainBinding | src/store.js:94-107 | two verifying journals with one head and one length hold the same types and bodies throughout |
| JournalProofs.CheckpointExact | src/store.js:108-116 | a checkpoint accepts a verifying journal exactly when its first entries are the records checkpointed: every edit, insertion, deletion, reorder or truncation before it is refused and growth after it is not |
| JournalProofs.TruncationNeedsCheckpoint | src/store.js:90-94 | every proper prefix of a chain verifies, and every one is refused against the chain's checkpoint |
| JournalProofs.SequenceNumbersUncovered | src/store.js:71 | a chain verifies exactly when any renumbering of it does |
| JournalProofs.SameContentSameHead | src/store.js:66-80 | re-chaining the same records gives the same head |
| JournalProofs.InclusionComplete | src/store.js:143-171 | the proof of any entry of any journal climbs to that journal's root |
| JournalProofs.InclusionBinds | src/store.js:164-171 | leaves that reach one root through the same positions are one leaf with one proof exactly when they have one length |
| JournalProofs.LengthsMatter | src/store.js:164-171 | from every proof with a non-empty first step, left or right, a different leaf reaches the same root through the same positions |
| JournalProofs.MerkleBinds | src/store.js:131-142 | over equally many leaves, roots are equal exactly when the leaves are |
| JournalProofs.JournalRootBinds | src/store.js:131-142 | equal roots and lengths of verifying journals mean equal records |
| HeadReceipts.HeadReceipt | src/sign.js:153-163 | a receipt is issued exactly when the journal stands, and names its head and length |
| HeadReceipts.VerifyHeadReceipt | src/sign.js:206-226 | the exact acceptance condition: algorithm, signature, the chain's own verification, head or checkpoint by mode, and an active key |
| HeadReceipts.ExtendedExact | src/sign.js:202-216 | in extended mode a chain agrees with a receipt exactly when it verifies and begins with the records it had when the receipt was issued |
| HeadReceipts.PlainExact | src/sign.js:217-217 | outside extended mode it agrees exactly when it verifies and holds those records and no others |
| HeadReceipts.HeadBinding | src/sign.js:217-217 | equal heads alone force equal records and equal lengths, if no hashed text has the genesis digest |
| SharedTable.Table.Insert | src/store.js:286-297 | one multi-row insert lands all rows or none, and lands exactly when every key is free |
| SharedTable.FlushIsSteps | src/store.js:273-305 | one journal's flush is the writer's steps: it lands exactly when the SELECT lets the INSERT go on and the INSERT is reported as landed, and leaves the journal as they do |
| SharedTable.StepSafe | src/store.js:242-305 | any step of any writer, an unreported landing included, keeps the table one contiguous valid chain and every durable prefix a prefix of it; a batch lands whole or not at all |
| SharedTable.RunSafe | src/store.js:257-305 | in every interleaving of any number of writers every state is safe and every earlier table is where every later one starts |
| SharedTable.LandsExactly | src/store.js:261-271 | the primary key alone admits a batch exactly when its writer still agrees with the table, and the head check then passes: it is only a fast path |
| SharedTable.StaleForever | src/store.js:290-305 | a writer the table has outgrown never lands again |
| SharedTable.StaleHappens | src/store.js:273-305 | a run without failures, two writers opening one table and the first landing, after which the second is outgrown |
| SharedTable.ReplayIsChain | src/store.js:243-254 | rows read in key order are exactly the table's chain |
| AuditChain.AuditTable.AppendAudit | platform/api/src/lib/audit.js:21-38 | the retry loop lands the event of the first attempt whose window was quiet, after everything its rivals landed, and throws with nothing of its own in the table exactly when an attempt before that is cut short by another error or all three windows were busy |
| AuditChain.StepSafe | platform/api/src/lib/audit.js:18-38 | any step of any call keeps the chain valid and append-only, with exactly one row for a call that returned and none otherwise |
| AuditChain.RunSafe | platform/api/src/lib/audit.js:21-72 | in every interleaving a call inserts its event exactly once or throws with none, and every receipt's head stays at its sequence number |
| AuditChain.ReceiptIsCheckpoint | platform/api/src/lib/audit.js:52-72 | a valid chain reproduces a receipt's hash at its sequence number exactly when it begins with the events there were |
| Lexer.Lex | src/lexer.js:40-142 | the scanning loop returns the tokens, with line and column, or the error of the recursive lexical specification |
| NumberGrammar.LongestNumeral | src/lexer.js:42 | the lexer's number is the longest prefix that is a sign, a whole number with no leading zero, a fraction and an exponent; none where there is none |
| Layout.LayoutLexes | src/lexer.js:47-140 | tokens in any spelling, with any mix of blanks, newlines and comments between them, lex to those tokens, each on a line one more than the newlines before it and in a column one more than the characters since the last |
| LexErrors.LayoutFails | src/lexer.js:66-137 | after such tokens an unterminated literal, a newline or a dangling escape in one, a word ending in a hyphen, and a character nothing starts with are each their own error, at their own line and column |
| LexErrors.MisspelledFails | src/lexer.js:85-86 | a closed literal that spells no string is an error at its opening quote |
| LexerProofs.ScanToken | src/lexer.js:54-142 | a printed token, pragmas included, reads back as itself at its own length whatever follows its space |
| LexerProofs.LexPrinted | src/lexer.js:40-142 | any list of lexable tokens printed with a space after each lexes back to itself |
| LexerOutput.TokenShape | src/lexer.js:54-142 | every token the lexer makes reads back as itself, or is a pragma without a version, or is a code right before a dot |
| LexerOutput.LexerReturnsLexed | src/lexer.js:40-142 | so it is for every token list the lexer returns, whatever the source text |
| Parser.Parse | src/parser.js:7-240 | the cursor-based parser returns the syntax tree, or the error code and place, of the grammar specification |
| Parser.Cursor.ReadValue | src/parser.js:25-56 | the value parser with two-token lookahead follows the specification and leaves the cursor where it says |
| Parser.Cursor.ReadStatement | src/parser.js:215-231 | the statement parser follows the specification and leaves the cursor where it says |
| Grammar.Vocabulary | src/lexer.js:14-42 | the keywords, subsystems, handlers and character classes of the language |
| Grammar.AcceptsOnlyWritten | src/parser.js:1-240 | whatever source text parses to a program, its tokens are a writing of that program: those the printer writes, but for empty parentheses, arrow spellings and terminators |
| SourceLayout.LayoutParses | src/parser.js:1-40 | a source text parses as its tokens do wherever they stand, and an error carries the line and column of the token it was raised at |
| SourceLayout.AnyLayout | src/parser.js:1-240 | any layout of the tokens of a well-formed program parses to that program |
| ParseErrors.NoBoundary | src/parser.js:108 | an identity without a boundary is that error at its start |
| ParseErrors.EmptyCompute | src/parser.js:150 | an empty compute block, after a well-formed head and context, is that error at its keyword |
| ParseErrors.EmptyOutput | src/parser.js:190 | an empty output block is that error at its keyword |
| ParseErrors.UnknownSubsystem | src/parser.js:139 | a step of no known subsystem is that error at its first token, after any number of good steps |
| ParseErrors.UnknownHandler | src/parser.js:204 | a handler of no known name is that error at its name, after any number of good ones |
| ParseErrors.ArgumentOrder | src/parser.js:72 | a positional argument after a named one is that error at the argument |
| ParseErrors.StatementFails | src/parser.js:1-40 | a statement that fails fails its program with the same error, after any number of good ones |
| ParserProofs.ValueParses | src/parser.js:25-79 | every well-formed value, lists and calls nested to any depth, parses back from its printed tokens whatever closes it |
| RoundTrip.ProgramParses | src/parser.js:82-240 | every well-formed program parses back from its printed tokens |
| RoundTrip.SourceRoundTrip | src/parser.js:7-240 | lexing and parsing the printed text of any well-formed program gives back that program, with or without terminators |
| Acceptance.AcceptedIsGood | src/parser.js:7-240 | whatever any source text parses to is well-formed: non-empty actor, boundary, steps and outputs, positional before named arguments, lexable names |
| Acceptance.ReprintStable | src/parser.js:7-240 | for every source text that parses, reprinting the program and parsing that gives the same program |
| Acceptance.AcceptedExactly | src/parser.js:7-240 | a program is what some source text parses to exactly when it is well-formed |
| EditDistance.ComputeDistance | src/bridge.js:47-57 | the two-row loop computes the recursive edit distance |
| EditDistance.DistanceReached | src/bridge.js:47-57 | some script of insertions, deletions and substitutions of that cost turns one string into the other |
| EditDistance.DistanceMinimal | src/bridge.js:47-57 | no script costs less |
| EditDistance.DistanceIsLeastCost | src/bridge.js:47-57 | the distance is the least cost of a script |
| EditDistance.DistanceZero | src/bridge.js:47-57 | zero exactly for equal strings |
| EditDistance.DistanceSymmetric | src/bridge.js:47-57 | symmetric |
| EditDistance.DistanceTriangle | src/bridge.js:47-57 | the triangle inequality |
| Trie.BuildAutomaton | src/bridge.js:120-132 | the heap-allocated trie built by the loop recognises exactly the encodings of the admissible values and ABSTAIN |
| Trie.Automaton.Insert | src/bridge.js:124-130 | inserting a word adds that word and its prefixes and nothing else |
| Trie.Automaton.MaskNext | src/bridge.js:153-160 | null exactly when the prefix starts no encoding; otherwise allowed is exactly the continuing tokens and accepting holds exactly for encodings |
| Trie.MaskedDecodeExact | src/bridge.js:153-160 | a sequence can be emitted one allowed token at a time exactly when it is empty or starts an encoding: no recombination gets through and nothing that belongs is shut out |
| Trie.Completable | src/bridge.js:153-160 | a masked prefix is never a dead end |
| Lattice.StepUpExact | src/bridge.js:168 | a step up goes to the parent the map gives, if it gives one that is not empty |
| Lattice.VisitsExact | src/bridge.js:163-170 | the ancestor walk visits exactly the values above, on cyclic parent maps too |
| Lattice.Ancestors | src/bridge.js:163-170 | the loop ends and returns that walk |
| Lattice.Covers | src/graph.js:328-347 | the covering loop ends and decides: wildcard, the value itself, or a granted ancestor on a lattice dimension |
| Bridge.ProjectSound | src/bridge.js:172-210 | at every strictness whatever is accepted is admissible or has an admissible ancestor |
| Bridge.StrictnessMonotone | src/bridge.js:172-210 | stricter settings accept less, and the same way |
| Bridge.OrderIrrelevant | src/bridge.js:172-210 | reordering the admissible set changes neither what is accepted, nor as what, nor why not, unless an empty admissible value hides another |
| Bridge.OrderIrrelevantExactly | src/bridge.js:180-185 | every order gives the same verdict exactly when no empty admissible value hides another |
| Bridge.EmptyHidesHappens | src/bridge.js:180-185 | a plan on which the order decides between refusing a generalisation and not finding the value |
| BridgeExact.LatticeExact | src/bridge.js:172-187 | a value abstains, is an entry, is accepted under its nearest admissible ancestor, or is refused for broadening the first entry under it, each exactly on its condition |
| BridgeExact.RepairsExact | src/bridge.js:189-207 | past that and in fuzzy mode: accepted as the one entry with its normal form; in an enum slot no entry of which has that form, as the one nearest entry within reach, with its distance, and in a code slot never; refused exactly on a tie, naming the entries tied |
| Bridge.AgreesWithCovers | src/bridge.js:172-186 | in lattice mode, on a lattice dimension and a set without "*", the bridge accepts exactly what the graph covers |
| Bridge.AgreesExactly | src/graph.js:328-347 | for every dimension and set, the exact condition under which bridge and graph decide alike on a value |
| Bridge.DisagreementOutside | src/graph.js:328-347 | concrete plans on which they differ |
| Bridge.PlanExact | src/bridge.js:78-111 | the plan has one slot a name, the last one given |
| Bridge.Gamma | src/bridge.js:74-111 | the plan of the slots, unless one has nothing admissible |
| Bridge.Alpha | src/bridge.js:228-330 | the lifting loop puts exactly the accepted set slots of a plan, each as projected, in its output |
| Bridge.RoundTripSound | src/bridge.js:338-351 | for every list of slots, repeated names included, and every model output the check finds no escape |
| Graph.GraphRuntime.Project | src/graph.js:226-286 | the cached projection equals a fresh time-sorted replay, at present and at any time |
| Graph.GraphRuntime.Append | src/graph.js:92-122 | an authority event nobody vouches for is refused and changes nothing; any other is appended and drops the cache |
| Graph.GraphRuntime.Authorize | src/graph.js:350-368 | decides exactly whether every value of the boundary is covered by what is granted |
| Graph.GraphRuntime.ReadKeyStatus | src/graph.js:193-206 | the scan over the key's time-sorted events gives its status at a time |
| GraphProofs.OrderIndependence | src/graph.js:226-286 | any permutation of the log that keeps simultaneous authority events in order gives the same projection, current and past |
| GraphProofs.LastWriterIsLast | src/graph.js:240-262 | no naming event by that time is later than the last writer, nor as late and appended after it |
| GraphProofs.GrantedIffLastWriter | src/graph.js:240-262 | a value is granted at a time exactly when the last grant or revoke naming it by then is a grant |
| LayerProofs.ObservedExact | src/graph.js:262-281 | the observed layer has a value exactly when an observation of the actor by then lists it; count, ai and anchored are how often the log lists it so, altogether and by class, first and last its earliest and latest time |
| LayerProofs.RolesExact | src/graph.js:243-285 | an actor has a role exactly when it is declared or the last grant or revocation of it by then is a grant |
| LayerProofs.KeysExact | src/graph.js:254-261 | a key is bound exactly when its last binding or revocation by then is a binding |
| LayerProofs.StatusExact | src/graph.js:193-206 | a key is compromised exactly when the log has a compromise that reaches back to the time, and active exactly when it is not and the last binding or rotation by then is a binding |
| LayerProofs.DimsExact | src/graph.js:246-252 | the granted layer lists exactly the dimensions some grant or revocation by then names |
| GraphProofs.ObservationNeverGrants | src/graph.js:350-368 | logs that differ only in observations, anywhere and in any number, authorise the same non-empty boundaries at every time |
| GraphProofs.EmptyBoundaryObserved | src/graph.js:350-353 | for the empty boundary one observation turns a refusal into an authorisation |
| GraphProofs.CompromiseIsForever | src/graph.js:193-206 | a recorded compromise makes the key inactive at every time from its effective date, and nothing appended later undoes it |
| GraphProofs.RotationIsProspective | src/graph.js:193-206 | a rotation dated r leaves every status before r as it was |
| GraphProofs.StatusAgreesWithProjection | src/graph.js:207-211 | without compromises a key is active at a time exactly when the projection at that time lists it |
| StatementKeys.KeyExact | src/interpreter.js:109-119 | two statements get one key exactly when actor, intent, boundary, parameters, context, compute steps, pinned models, outputs and runtime agree, objects up to member order |
| StatementKeys.ApprovalKeepsKey | src/interpreter.js:112-112 | giving, changing or dropping an attestation's approval leaves the key unchanged |
| StatementKeys.KeySettlesCommit | src/interpreter.js:254-255 | under one attestation policy statements with the same key commit alike |
| TraceStore.IOSRuntime.constructor | src/runtime.js:199-214 | replay shows exactly the durable traces and the counters the durable reuse events add up to; the store's invariant holds exactly when no trace is pending |
| TraceStore.ReplayMissesPending | src/runtime.js:204-225 | after the flush that lands what was pending at the replay, the traces shown lack exactly the pending ones, and are the durable ones exactly when there were none |
| TraceStore.IOSRuntime.Write | src/runtime.js:275-286 | a trace is visible at once only if its entry is durable; a refused write changes nothing |
| TraceStore.IOSRuntime.Flush | src/runtime.js:219-225 | staged traces become visible exactly when the flush lands, and are discarded otherwise |
| TraceStore.IOSRuntime.MarkReused | src/runtime.js:259-265 | counts each inherited ai trace and journals one event naming them |
| TraceStore.ReuseReadsBack | src/runtime.js:207-208 | a journaled reuse event replays to the ids it was written with |
| TraceStore.ReuseNamesReader | src/runtime.js:263 | and it names the reader and the time |
| SelectionProofs.SelectionExact | src/runtime.js:228-245 | a statement reads the newest traces that may be read, oldest first, as many as asked for or as there are: the asker's own, for its intent and boundary, an inference only within the depth cap and at or above the floor, of the class asked for |
| Execution.Interpreter.ExecStatement | src/interpreter.js:136-319 | the method is the two-phase commit of the specification: idempotency check, trace, flush, reuse event, release |
| Execution.Interpreter.RecordFailure | src/interpreter.js:353-358 | a failure is journaled and flushed; bindings are untouched |
| Execution.Interpreter.Run | src/interpreter.js:361-387 | a program that fails the static check changes nothing; otherwise statements in order, a failure is recorded before its handlers run, and with none nothing after it runs |
| Execution.Interpreter.HandleFailed | src/interpreter.js:325-351 | handlers in order: halt throws, a retry ends the list with its first success |
| ExecutionProofs.ExecuteEffect | src/interpreter.js:288-319 | a statement whose trace does not get down changes no binding, no counter and nothing durable; one whose trace does adds exactly that trace and counts exactly what it inherited |
| ExecutionProofs.FailureLeavesNothing | src/interpreter.js:300-305 | declined, answered and untraced statements leave bindings, visible traces and the durable journal as they were |
| ExecutionProofs.RunTraceFirst | src/runtime.js:219-225 | under every pattern of refusals, disk failures, lost races and reopenings visible traces are exactly the durable trace entries, the chain verifies and nothing durable is lost |
| ExecutionProofs.OutputsTraced | src/interpreter.js:307-313 | in every run whatever is bound was an input, an output of a durable committed trace, or the id of a durable trace |
| ReleaseProofs.StatementReleases | src/interpreter.js:307-313 | a committing statement binds every output to the last value its trace gives, and TurnTrace_ID; a staged one TurnTrace_ID alone; any other nothing; every other name is as it was |
| ReleaseProofs.LaterFinds | src/interpreter.js:312 | over runs, a later statement finds under a name what the last committed statement that gave it left there |
| ReleaseProofs.NobodyGave | src/interpreter.js:312 | and where none gave it, what was there |
| ProgramLaws.ProgramInParts | src/interpreter.js:361-387 | a program in two parts: the second runs where the first leaves off, and only if the first finished |
| ProgramLaws.StatementEnds | src/interpreter.js:366-384 | how each statement of a program ends, and with what recorded |
| ProgramLaws.UnhandledFailureHalts | src/interpreter.js:321-330 | a failure with no handler is recorded and nothing after it runs |
| ProgramLaws.ReportRecorded | src/interpreter.js:353-358 | a failure record whose flush lands is durable after every failure journaled before |
| ProgramLaws.ReadingIsRecorded | src/interpreter.js:310 | the event of what a done statement read is journaled last, naming those traces, its own trace and the time |
| ProgramLaws.HandlersInParts | src/interpreter.js:331-350 | handlers in two parts: the second is tried only if the first neither stopped nor recovered |
| ProgramLaws.OneHandler | src/interpreter.js:339-348 | halt throws, a custom handler carries on, a retry recovers with its first success |
| ProgramLaws.RetriesInParts | src/interpreter.js:343-346 | retries in two parts: the second is tried only if the first did not succeed |
| ProgramLaws.OneRetry | src/interpreter.js:344 | a retry is a forced execution, never answered by an earlier trace |
| Idempotency.OutcomesExact | src/interpreter.js:136-319 | each outcome of a statement, exactly when: declined, answered, not traced, interrupted, done |
| Idempotency.CommitsExactly | src/interpreter.js:254-255 | a statement that is done commits exactly when its intent requires no attestation or some step attests |
| Idempotency.AnswersExactly | src/interpreter.js:171-174 | a statement is answered without running exactly when it is unforced, passes the gates and the first visible trace with its key is committed |
| Idempotency.OnceUnlessStaged | src/interpreter.js:166-174 | without retries, on every backend and whatever is refused or fails, no two committed traces of a run share a key unless an execution whose trace is staged is followed by two committing ones of its key |
| Idempotency.OnceExactly | src/interpreter.js:166-174 | on a memory journal where nothing is refused, two committed traces share a key exactly when the first execution of a key is staged and two later ones commit |
| Idempotency.StandingDecides | src/interpreter.js:166-174 | while no intent changes its attestation requirement and the digest does not collide on the run's identity texts, a key settles whether its statement commits |
| Idempotency.CommittedOnce | src/interpreter.js:166-174 | so under that condition no two committed traces of any run without retries share a key |
| Idempotency.StagedTraceHidesCommitted | src/runtime.js:289-289 | whenever the first visible trace of a key is staged, two committing executions of it both commit |
| Idempotency.RequirementDropped | src/interpreter.js:254-255 | from a fresh start: a statement run while its intent requires an attestation no step gives, and twice after, leaves two committed traces with one key |
| ProgramProofs.ProgramReaches | src/interpreter.js:361-387 | a program's run is a run of steps, each execution among them the program's own |
| ProgramProofs.ProgramKeepsItsWord | src/interpreter.js:361-387 | for every program run from a fresh interpreter: the chain verifies, visible traces are the durable ones, every binding is accounted for, and without retries and under one attestation requirement no key commits twice |
| CounterProofs.CountersReplay | src/runtime.js:203-208 | on a synchronous journal whose reuse events are recorded the live counters equal the replayed ones after every step of every run |
| CounterProofs.FailedFlushLosesReuse | src/runtime.js:219-225 | after a failed flush the two agree exactly when no queued event named a trace |
| CounterProofs.CountersAgreeExactly | src/runtime.js:203-208 | on every backend and over every run, the live counters are what a runtime constructed on the journal now would count exactly when, since this one was, no event that names a trace was dropped by a failed flush or refused by the disk, and none is queued |
| CounterProofs.QueuedRun | src/interpreter.js:298-310 | two calls whose flushes both land, after which a constructed runtime would count less than the live one |
| CounterProofs.LosingRun | src/runtime.js:219-265 | a third call whose flush fails, after which all that is journaled, pending entries included, falls short of the live counters |
| ReuseProofs.AdmittedExactly | src/runtime.js:235-239 | a fully confident inference is at the floor exactly while it has been reused fewer than N times |
| ReuseProofs.DefaultBoundIsFour | src/runtime.js:199-199 | N is four for decay 0.75 and floor 0.4 |
| ReuseProofs.InheritedOnce | src/runtime.js:228-245 | a statement inherits a trace at most once, and only one the selection admitted |
| ReuseProofs.SyncReopens | src/runtime.js:203-208 | on a synchronous journal whose reuse events are recorded no reopening forgets any reuse |
| ReuseProofs.DriftBounded | src/runtime.js:251-265 | on every backend and over every run, reopenings included, no inference is inherited as context more than N times, and N again for each reopening at which an event naming a trace had been lost or was queued |
| ForgettingRuns.DriftUnbounded | src/interpreter.js:298-310 | for every n a run of calls that all succeed and n reopenings in which one inference is inherited at least n times |
| GraphPaths.HopExact | platform/api/src/handlers.js:438-444 | a relationship leads from one node to another exactly when it joins them that way or either way, is of a type asked for, certain enough and in effect |
| GraphPaths.ResultsExact | platform/api/src/handlers.js:437 | a query returns relationships of the node, all of them or the first 200 |
| GraphPaths.FindPaths | platform/api/src/handlers.js:433-450 | every collected path is a walk of admissible relationships within maxHops that passes no node twice, but for a search back to its own source; if no query is cut short, a path is collected exactly when one exists, and the first is a shortest |
| GraphPaths.NothingArrives | platform/api/src/handlers.js:434-449 | until a path is collected, no walk through expanded nodes reaches the target |
| TokenBucket.Limiter.RateLimit | platform/api/src/lib/auth.js:103-112 | one call on the stored row: admitted, and written; or refused with its advice, if the refill gives one, and nothing written |
| TokenBucket.LevelsStayInRange | platform/api/src/lib/auth.js:107-110 | stored tokens stay between nothing and the capacity, whatever the clock does |
| TokenBucket.WindowBound | platform/api/src/lib/auth.js:103-112 | over any history of calls on any buckets with a forward clock, the cost admitted on one bucket in a window is at most the capacity plus what the window refills |
| TokenBucket.WindowBoundReached | platform/api/src/lib/auth.js:103-112 | some history spends the whole bound exactly when the window is an instant or a millisecond refills no more than the capacity |
| TokenBucket.AdviceIsExact | platform/api/src/lib/auth.js:109-109 | a refused call made a whole number of seconds later passes exactly when that is at least the advice and the capacity covers the cost, and never when there is no refill |
| TokenBucket.WaitingAdmits | platform/api/src/lib/auth.js:109-109 | any later time passes too |
| Pagination.Answered | platform/api/src/lib/http.js:84-87 | a limit below one is an error; otherwise a page has at most the limit asked for, 50 if none is, and at most 200 rows, and exactly as many if it names a next cursor |
| Pagination.PastExact | platform/api/src/lib/http.js:96-100 | newest first, past a cursor means an earlier time, or the same time and an earlier id, in the order of text columns; earliest first, later ones |
| Pagination.PageExact | platform/api/src/lib/http.js:96-107 | a page shows in order matching rows after its cursor: all of them on the last page, otherwise all up to its last row, which is the next cursor, and then there are more |
| Pagination.WalkMissesNothing | platform/api/src/handlers.js:104-117 | a finished walk over a growing table, in either direction, shows rows in order, none twice, and every row there was when it began |
| Pagination.WalkIsTheList | platform/api/src/lib/http.js:83-107 | when the rows inserted meanwhile are not past the cursor, the walk shows exactly the list as it stood at the start |
| Pagination.WalkEnds | platform/api/src/handlers.js:209-212 | while the rows inserted are not past the cursor, each request leaves strictly fewer of the first rows ahead, so a walk has at most one request more than there were matching rows |

## Left out

- SHA-256 and Ed25519: a digest function and relations saying what has been signed and which authority events are vouched for.
- File reading, D1 rows as JSON text, fsync: the table, its primary key and one atomic multi-row insert are modelled. The UNIQUE constraint on digests is dropped, which only allows more behaviours.
- Graph events folded from traces, and a graph over a write-behind journal: other events on the same journal are the action `Other`; the graph itself is modelled over its own synchronous log.
- A trace store without a journal, and a trace whose carried reuse count is not zero: `TimesReused` follows the code for the latter, the runs start from a journal.
- Execution.Interpreter.ExecStatement: what the gates, argument evaluation, compute steps, models and approvals decide is given with the call, as a refusal or as the trace body; folding the trace into the graph is left out, and errors that are not the runtime's own are not told apart.
- Execution.Interpreter.HandleFailed: a custom handler has no effect on the machine.
- Execution.Interpreter.Run: the outcome of the static check is given.
- ReuseProofs.DriftBounded: asks for unused trace ids and confidences of at most one, since the default id sequence restarts at 1 (src/interpreter.js:54-55).
- Idempotency.OnceExactly: is about a memory journal; where calls can be refused or fail, which executions show their traces depends on that, and `OnceUnlessStaged` is one-way.
- Idempotency.CommittedOnce: asks that no intent change its attestation requirement; `OnceUnlessStaged` asks less and `RequirementDropped` shows that something must be asked.
- SharedTable.RunSafe: one journal object does not append while its own flush is awaited, as explained above.
- AuditChain.AuditTable.AppendAudit: the id and time of an event are part of the body each attempt is given.
- AuditChain.RunSafe: an insert reported as failed put nothing in the table, and the model is one tenant's chain.
- JsonReader.CanonicalReads: the reader has no optional white space, which no canonical text needs, and no fractions or exponents, since numbers are integers.
- Layout.LayoutLexes: a number or a code is not followed directly by a dot or a plus sign, and no word by a code character; every gap may follow every token.
- Columns and edit distances count Unicode scalars, where the code counts UTF-16 units.
- Lexer.Lex: a string literal with half a surrogate pair is reported as its own error, because a character here is a Unicode scalar; a number token keeps its text rather than its float value.
- Parser.Parse: syntax trees carry no line and column; an error does.
- Parser.Cursor.ReadValue: value nodes carry no line and column.
- Parser.Cursor.ReadStatement: statement nodes carry no line and column.
- Bridge.Alpha: a plan has distinct names, as the object gamma makes has; code and enum slots only; spans, text, numbers, calibrated thresholds and the manifest check are left out, and the text normaliser is a parameter.
- Trie.BuildAutomaton: the tokenizer is a parameter from strings to token sequences.
- Graph.GraphRuntime.Project: timestamps are integers; weights, trace ids of observations and the sorted lists of a footprint (sets here) are left out.
- GraphPaths.FindPaths: the rows a query returns are given as a sequence per node, `RowsFit` saying it was not cut at 200; dates are integers. Scores and the lookup of node records are left out.
- TokenBucket.Limiter.RateLimit: capacity and refill are real numbers; the row is read and written by one call at a time. The theorems ask that neither be negative.
- Pagination.WalkMissesNothing: rows are only inserted while a walk is under way; the base64 form of a cursor and its errors are left out.
- `src/decode.js`, the observation half-life, policies, projections' gates, webhooks, MCP, the CLI, the site and operations code: floating point, foreign calls, or short branch checks.
