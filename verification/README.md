# SPARTA in Dafny

SPARTA runs decisions and access policies over shared, encrypted data inside trusted nodes (CCUs). It compiles
DMN decision tables and ALFA policies to Go, keeps encrypted records in a linked log on a content-addressed store,
shares one seed between two CCUs, records names on a blockchain, and serves clients through a shared queue. This
project models those parts and proves what they promise. Where the code does not keep a promise, a lemma gives the
input, or says exactly when the promise is kept.

## The parts

- **DMN to Go** (`DmnTable`, `DmnCompiler`, `DmnText`, `DmnCells`, `DmnCorrect`, `DmnFunction`, `DmnImports`,
  `DmnLimits`, `DmnReads`, with `GoExpr`, `GoReturn` and `GoCondition` for the generated Go). The emitters work on
  the texts of cells. What they emit is a list of tokens: pasted keys and literals are read where they are pasted,
  as Go's lexer would read them. The tokens are parsed again with Go's precedence, the file is rejected for unused
  or missing imports and for returns that do not fit, and an evaluator runs it in which a failing type assertion is
  a panic. The result is compared with a direct reading of the table (DMN 1.3, clauses 8.2 and 9).
- **The registry of decision functions** (`DecisionRegistry`, `Ordering`).
- **The linked log** (`Encryption`, `LinkedLog`, `LogNode`). A state machine of writers, a store and names, in which
  a resolve may time out and a publish may land late or never. Addresses are collision-free and the cipher is
  correct (AES-GCM, section 7 of NIST SP 800-38D); both are assumptions about function parameters.
- **ALFA** (`AlfaParser`, `AlfaReader`, `AlfaText`, `AlfaRender`, `AlfaInverse`, `AlfaLimits`). The parser's state
  as a value with functions for each block of its loop, the class `Reader` with the source's mutable state, the
  canonical rendering, and the proof that parsing inverts it. Current policy and rule are positions instead of
  pointers.
- **From policies to receivers** (`AlfaGenerator`, `Splice`, and `GoScanner` and `GoComments` for how Go itself
  matches braces).
- **Conditions as text** (`Condition`, `Feel`, `Rewriting`, `Respelling`, `Govaluate`, `Access`). Conditions are
  spelled in a style; every rewriting step changes the style and nothing else.
- **Queues** (`Queue`, `QueueService`, `QueueBroker`) and **framing** (`Framing`).
- **Seed exchange** (`SeedExchange`, `SeedStore`), **on-chain names** (`KeyMap`).
- **Aggregation** (`Requests`, `Aggregation`, `Aggregates`), over real numbers with the two infinities that the
  folds start from.
- **Full and light records** (`Light`, `LightAgrees`).
- `GoStrings`, `Sequences`, `Identifiers` and `Wrappers` are shared.

Methods carry the loops and the updated state of the source; each is proved against a function, and the results
above are lemmas about those functions.

## Where the code falls short

- A dateTime cell with `<=` or `>=` is wrong next to any other cell (`DmnCorrect.RowCorrectIffExact`).
- Timestamps lose their zone, excluded times become the zero time, `=5` and `-` are not unary tests (`DmnLimits`).
- A blank row or a blank output entry makes text that is no Go, and whether `time` is imported depends on a column
  being called "DateTime" and not on its type (`DmnFunction.BuildsIffEntries`, `DmnImports.ImportsMatchIff`).
- An obligation parameter called `policy` starts a new policy (`AlfaLimits.ParseInvertsRenderIff`).
- A client's poll discards the responses of others (`QueueService.PollDecides`).
- A short first read breaks the framing (`Framing.WholePrefixNeeded`).
- Two crossing posts swap the seeds for good, and two lost posts are final: a peer that has no seed yet can still
  send its own, but a written seed is never sent again (`SeedExchange.AgreedIffOneStored`, `CanAgreeIff`).
- A first compiler run without decisions makes every later run fail (`DecisionRegistry.RegistryIsUnion`).
- Plan mode ignores the filter, so it is right only for filters that keep all plans
  (`Aggregates.PlanModeRespectsFilterIff`), and `count` alone is always an error because its result is no float
  (`Aggregates.AnswersIff`).
- The splicer does not know comments and rune literals: a brace or an open quote in one of them makes it cut at the
  wrong brace (`GoComments.ReceiverIff`, `GoComments.CommentedBraceCuts`).
- The light log can be shorter or longer than the full one when only one of two resolves times out
  (`LightAgrees.LightLogDecides`).

## Model

| member | source | states |
|---|---|---|
| `DmnFunction.CompilationPreservesMeaning` | src/dmnparser/parser/parser.go:104-206 | For every well-formed table of exact rows with the right imports, every well-typed input and every order in which the rows' maps are walked, the generated file, re-read with Go precedence, checked for imports and result types and run, returns the results that the entries of the first row whose cells all accept are, else the default tuple |
| `DmnFunction.CompiledNeverPanics` | src/dmnparser/parser/parser.go:104-206 | For every well-formed table with the right imports, exact rows or not, the generated file builds, no type assertion fails on well-typed inputs, and the results are of the declared types |
| `DmnFunction.BuildsIff` | src/dmnparser/parser/parser.go:104-206 | For every table of the supported fragment, the generated file builds if and only if no row is blank, the entries of each row, joined as they are emitted, are one result of the right type for each output column, and the imports are right |
| `DmnFunction.BuildsIffEntries` | src/dmnparser/parser/parser.go:104-206 | Where no entry has a comma outside of quotes: if and only if no row is blank, each row has one entry for each output column, none blank and each of the column's type, and the imports are right |
| `DmnFunction.BlankRowIsNoFunction` | src/dmnparser/parser/parser.go:190-191 | A row of blank cells anywhere in the table makes a file that does not build |
| `DmnFunction.BlankOutputIsNoFunction` | src/dmnparser/parser/parser.go:180-192 | So does a blank output entry |
| `DmnFunction.WrongCountIsNoFunction` | src/dmnparser/parser/parser.go:180-192 | So do entries that hold more or fewer results than there are output columns |
| `GoReturn.ReturnParses` | src/dmnparser/parser/parser.go:180-192 | For all entry texts, Go reads the joined text behind `return` as its results, or not at all |
| `GoReturn.EntriesFitIff` | src/dmnparser/parser/parser.go:180-192 | Entries without commas outside of quotes fit the result types if and only if there is one for each, none blank and each of its type |
| `GoReturn.CommaSplits` | src/dmnparser/parser/parser.go:189-192 | One entry `1, 2` is two results |
| `DmnFunction.BodyBuilds` | src/dmnparser/parser/parser.go:170-206 | The text is a Go function body if and only if every row has a cell that is not blank and entries that are results; then its returns fit the result types if and only if those of all rows do |
| `DmnImports.ImportsMatchIff` | src/dmnparser/parser/parser.go:117-146 | The imported packages are the used ones if and only if (some label is "DateTime") <==> (some dateTime cell is not blank, or an output names time), and an output names math only next to a number output |
| `DmnCompiler.BuildImports` | src/dmnparser/parser/parser.go:117-146 | The scan of labels and outputs imports time exactly for a label "DateTime", and math exactly for a number output |
| `DmnCorrect.RowCorrectIffExact` | src/dmnparser/parser/parser.go:418-428 | A row's emitted condition equals the row's meaning in every map order and on every well-typed input if and only if the row has no dateTime cell with `<=` or `>=`, or only one cell that is not blank: the emitted disjunction is not parenthesised |
| `DmnCorrect.LooseRowFails` | src/dmnparser/parser/parser.go:310-342 | For every inexact row there are an order and well-typed inputs on which the emitted condition has the wrong value |
| `DmnCells.CellCompiles` | src/dmnparser/parser/parser.go:324-336 | The emitters turn the text of every supported cell into the tokens of its boolean groups |
| `DmnCells.CellMeans` | src/dmnparser/parser/parser.go:324-336 | Those groups never panic on a value of the column's type and are true exactly if the cell accepts the value (lists, comparisons, open and closed intervals, times) |
| `DmnFunction.RowOrderIrrelevant` | src/dmnparser/parser/parser.go:170-192 | If at most one row holds for the inputs (hit policy UNIQUE), permuting the rows does not change the decision |
| `DmnFunction.CompiledRowOrderIrrelevant` | src/dmnparser/parser/parser.go:170-192 | Nor does it change the result of the generated function |
| `DmnLimits.TimeIntervalRightIff` | src/dmnparser/parser/parser.go:388-410 | The emitted condition of a time interval has the cell's meaning on every time if and only if each excluded bound has the zero time as its nearest second inside |
| `DmnLimits.TimeIntervalRightIffClosed` | src/dmnparser/parser/parser.go:388-410 | For bounds after the zero time: if and only if the brackets are `[` and `]` |
| `DmnLimits.ExcludedBoundFails` | src/dmnparser/parser/parser.go:388-410 | Times on which the emitted condition of an interval with an excluded bound has the wrong value |
| `DmnLimits.ZoneIsLost` | src/dmnparser/parser/parser.go:374-382 | A timestamp keeps its instant in the emitted `time.Date` if and only if its offset is zero |
| `DmnLimits.EqualsSignIsNoTest` | src/dmnparser/parser/parser.go:436-490 | A number or context cell with a leading `=` is not compiled to a condition |
| `DmnLimits.EqualsIntervalIsNoTest` | src/dmnparser/parser/parser.go:436-490 | Nor is one with `=` in front of an interval |
| `DmnLimits.DashIsALiteral` | src/dmnparser/parser/parser.go:344-356 | A string cell `-` is compiled to a comparison with the text "-" |
| `DmnCompiler.ProcessStringCondition` | src/dmnparser/parser/parser.go:344-356 | The loop over the comma-separated items emits the parenthesised disjunction of the trimmed items |
| `DmnCompiler.GenerateConditions` | src/dmnparser/parser/parser.go:310-342 | Walking the map in any order emits the non-empty conditions of its entries in that order, joined by conjunction |
| `DmnCompiler.BuildConditionsMap` | src/dmnparser/parser/parser.go:171-176 | The map of a rule pairs each label with its cell text and type, later columns winning |
| `DmnCompiler.GenerateDecisionFunction` | src/dmnparser/parser/parser.go:104-206 | The file has the imports and result types of the table, and its body is the chain of the rules' conditions and outputs followed by the default return; called with at most one output per declared column, as the source indexes them |
| `DmnReads.CompiledReadsLabels` | src/dmnparser/parser/parser.go:310-513 | For every table, whatever its cells hold, the generated conditions read only inputs that the table names: labels, and the names inside labels where a cell is an interval |
| `DmnReads.SameDecision` | src/dmnparser/parser/parser.go:170-206 | Two inputs maps that agree on those names give the same decision, or the same panic |
| `DecisionRegistry.EntryReadsBack` | src/dmnparser/parser/parser.go:264-276 | A printed entry is read back if and only if its receiver is an identifier |
| `DecisionRegistry.FileReadsBack` | src/dmnparser/parser/parser.go:271-290 | Parsing the printed registry returns it, except that the empty registry is rejected as damaged |
| `DecisionRegistry.RegistryIsUnion` | src/dmnparser/parser/parser.go:221-268 | After any number of runs the file holds the sorted union of all entries, later runs winning, if and only if the first run had an entry or no run had any |
| `DecisionRegistry.ParseExistingRegistry` | src/dmnparser/parser/parser.go:271-290 | The loop collects the matched entries, and fails exactly if the registry is mentioned and nothing matched |
| `DecisionRegistry.RegistryFile.WriteAccumulating` | src/dmnparser/parser/parser.go:221-268 | A run either leaves an unreadable file alone or writes the merge of what was read with the new entries, sorted |
| `Ordering.SortKeys` | src/dmnparser/parser/parser.go:251-255 | The keys in strictly increasing order, whatever the order of the map |
| `Ordering.SortedUnique` | src/dmnparser/parser/parser.go:251-255 | There is only one such list |
| `LinkedLog.HeadChain` | src/utils/interfaceISGoMiddleware/ISGon.go:747-791 | In every run of writes, timed-out resolves and delayed, reordered or refused publishes, the chain from any head consists of stored batches of that key, strictly from newer to older, none twice, and ends |
| `LinkedLog.RunKeepsInv` | src/utils/interfaceISGoMiddleware/ISGon.go:684-712 | Every reachable state is linked: each batch names an older batch of its own key or none, and every head and every pending publish was written |
| `LinkedLog.WalkDistinct` | src/utils/interfaceISGoMiddleware/ISGon.go:747-791 | No batch is visited twice, even if the same content was stored twice |
| `LinkedLog.ReadsAreStable` | src/utils/interfaceISGoMiddleware/ISGon.go:747-791 | Whatever happens while a reader walks, its chain stays the same |
| `LogNode.LogExact` | src/utils/interfaceISGoMiddleware/ISGon.go:684-798 | With prompt publishes, a key reads as its batches from the newest back to the last whose resolve came back empty, each in its own order; writes to other keys change nothing |
| `LogNode.JunkIsSkipped` | src/utils/interfaceISGoMiddleware/ISGon.go:760-789 | Undecodable entries do not disturb the entries around them |
| `LogNode.DecodeEncoded` | src/utils/interfaceISGoMiddleware/ISGon.go:655-679 | The encrypted records decode to the records, in order |
| `LogNode.ReadIsDecode` | src/utils/interfaceISGoMiddleware/ISGon.go:747-791 | If every batch is reachable, the read is the decoding of the walk |
| `LogNode.Ipfs.EncryptAndUploadLinkedBytes` | src/utils/interfaceISGoMiddleware/ISGon.go:615-712 | The write is one resolve and one commit of the state machine, or changes nothing |
| `LogNode.Ipfs.DecryptLinkedLog` | src/utils/interfaceISGoMiddleware/ISGon.go:715-798 | The read loop returns exactly the decoded walk from the resolved head, with the error cases of the source |
| `Encryption.EntryRoundTrip` | src/utils/encryption/encryption.go:55-92 | An entry decrypts to what was encrypted under the same seed and number, through the nonce in front and hex |
| `Encryption.HexRoundTrip` | src/utils/encryption/encryption.go:55-92 | Hex decoding inverts hex encoding |
| `Encryption.Unseal` | src/utils/sealing/sealing.go:69-87 | On arbitrary bytes every slice is in bounds, and success implies a key description of positive length inside the blob |
| `Encryption.SealRoundTrip` | src/utils/sealing/sealing.go:69-137 | Unsealing returns what was sealed if and only if the key description is not empty |
| `Encryption.Uint32RoundTrip` | src/utils/sealing/sealing.go:89-100 | The little-endian length field holds every length below 2^32 |
| `AlfaInverse.ParseInvertsRender` | src/alfaparser/alfa_parser.go:246-447 | For every well-formed policy set, however its rendered lines are indented and spaced with blank lines, the parser rebuilds declarations, policies, action name and first argument, rules with expanded conditions, and obligations, in order |
| `AlfaParser.Feed` | src/alfaparser/alfa_parser.go:246-447 | On every line each state that satisfies the invariant leads to one that does, so nothing nil is dereferenced |
| `AlfaParser.Lines` | src/alfaparser/alfa_parser.go:246-447 | The same over every sequence of lines |
| `AlfaParser.LinesClean` | src/alfaparser/alfa_parser.go:246-250 | Blank lines and surrounding blanks do not matter |
| `AlfaLimits.ParseInvertsRenderIff` | src/alfaparser/alfa_parser.go:246-447 | For every policy set of identifiers and quotable texts, in every layout, parsing gives back what was rendered if and only if no obligation has a parameter called `policy` |
| `AlfaLimits.LinesCount` | src/alfaparser/alfa_parser.go:309-327 | Whatever the parser is in the middle of, it has as many policies as there were lines with the keyword |
| `AlfaText.PolicyParameter` | src/alfaparser/alfa_parser.go:309-327 | The line of an obligation parameter is taken for the start of a policy if and only if the parameter is called `policy` |
| `AlfaRender.PolicyParameterMisread` | src/alfaparser/alfa_parser.go:309-327 | In that case the parser starts a new policy in the middle of an obligation |
| `AlfaText.ActionParses` | src/alfaparser/alfa_parser.go:635-658 | The action name and all arguments are read back from the target clause |
| `AlfaText.AttributeParses` | src/alfaparser/alfa_parser.go:589-619 | Name and category are read back from an attribute declaration |
| `AlfaText.AssignmentParses` | src/alfaparser/alfa_parser.go:621-633 | Key and value are read back from an assignment |
| `AlfaText.NamedConditionParses` | src/alfaparser/alfa_parser.go:554-563 | Name and expression are read back from a named condition |
| `AlfaReader.Reader.ReadLines` | src/alfaparser/alfa_parser.go:246-450 | The loop with its mutable state does what the line functions say, to the first error |
| `AlfaReader.Reader.Finish` | src/alfaparser/alfa_parser.go:456-504 | The final checks succeed if and only if the namespace and the import are there and all references are consistent |
| `AlfaReader.CheckAttributes` | src/alfaparser/alfa_parser.go:463-471 | Accepts if and only if every attribute's category exists or is `environmentCat`, in any map order |
| `AlfaReader.CheckObligation` | src/alfaparser/alfa_parser.go:475-501 | Accepts if and only if the obligation is declared, a category has its URI, and every parameter is a declared attribute of such a category |
| `AlfaReader.CheckPolicy` | src/alfaparser/alfa_parser.go:473-502 | Accepts if and only if all obligations of the policy are so, in any map order |
| `Splice.PutPut` | src/alfaparser/alfa_parser.go:150-210 | Replace(Replace(s, A), B) = Replace(s, B) for every handler A |
| `Splice.PutTwice` | src/alfaparser/alfa_parser.go:150-210 | Replacing by the same handler twice is the same as once |
| `Splice.PutGet` | src/alfaparser/alfa_parser.go:150-210 | What is put in is what is found afterwards |
| `Splice.GetPut` | src/alfaparser/alfa_parser.go:150-210 | Putting back what was found changes nothing |
| `Splice.ReplacedIsHandler` | src/alfaparser/alfa_parser.go:150-210 | The part that is cut out is itself exactly one handler, so nothing around it is touched |
| `Splice.ExtentIsFirstReturn` | src/alfaparser/alfa_parser.go:164-206 | The matched brace is where the depth, counted outside string literals, returns to zero for the first time |
| `Splice.GeneratedIsHandler` | src/alfaparser/alfa_parser.go:840-845 | For any number of cases the generated function is balanced exactly at its last character |
| `Splice.ReplaceHandleFunction` | src/alfaparser/alfa_parser.go:150-210 | The scan splices the new function in, or fails for the reason the source gives |
| `Splice.MatchBrace` | src/alfaparser/alfa_parser.go:164-209 | The loop with depth, string, raw-string and escape flags finds the matching brace |
| `GoScanner.SplicerAgrees` | src/alfaparser/alfa_parser.go:164-206 | In every text in which all comments and rune literals before the matched brace are harmless (read without closing, and left as they were entered), however many, the scan finds the brace that Go matches |
| `GoComments.ForeignIff` | src/alfaparser/alfa_parser.go:164-206 | With one line comment, block comment or rune literal in front of such text, the scan finds Go's brace if and only if that one is harmless |
| `GoComments.ReceiverIff` | src/alfaparser/alfa_parser.go:150-210 | For whole receivers, with that literal at any depth of the function: exactly Go's function is cut out if and only if it is harmless |
| `GoComments.ChanceAgreement` | src/alfaparser/alfa_parser.go:164-206 | If an open quote is left behind, a later string can undo the harm by chance |
| `GoComments.CommentedBraceCuts` | src/alfaparser/alfa_parser.go:150-210 | A receiver with a brace in a comment, from which the function is cut too early and its rest stays behind the new one |
| `GoComments.QuotedBraceCuts` | src/alfaparser/alfa_parser.go:150-210 | The same for a brace between single quotes |
| `GoScanner.GeneratedMatchesGo` | src/alfaparser/alfa_parser.go:840-845 | Every generated function is matched by Go at its last character as well |
| `AlfaGenerator.Generate` | src/alfaparser/alfa_parser.go:690-838 | Fails exactly if a policy decided with aggregation has no obligation; otherwise one handler per rule in order, and one case per name without repetition |
| `AlfaGenerator.PickAggregationObligation` | src/alfaparser/alfa_parser.go:869-886 | `AggregationSpec` if there is one, or else the first name in order, whatever the map order |
| `AlfaGenerator.PickedUnique` | src/alfaparser/alfa_parser.go:869-886 | There is only one obligation it can pick |
| `AlfaGenerator.AggregationCalls` | src/alfaparser/alfa_parser.go:746-767 | One call per parameter, sorted by parameter |
| `AlfaGenerator.RegenerationIsStable` | src/alfaparser/alfa_parser.go:91-148 | From ALFA text to receiver: for every well-formed policy set the generated switch settles after one splice and replaces any earlier handler |
| `AlfaGenerator.HandlerDecides` | src/alfaparser/alfa_parser.go:704-728 | The generated handler's check decides as the one condition of its rule, given in place or by name |
| `Access.AccessPreserved` | src/alfaparser/alfa_parser.go:537-552 | For every and/or/parenthesised condition whose literals avoid the rewritten substrings, every layout of its text and all attributes, the check on the rewritten text gives the meaning of the condition |
| `Access.FeelOf` | src/alfaparser/alfa_parser.go:537-552 | The FEEL text of a condition is its tokens with one blank where any were, `=` for `==`, perhaps in parentheses |
| `Feel.TranslateConditionToFEEL` | src/alfaparser/alfa_parser.go:537-552 | The loop that halves double blanks squeezes every run of blanks to one |
| `Feel.SqueezeReplaced` | src/alfaparser/alfa_parser.go:543-545 | One round of that loop does not change the squeezed text |
| `Feel.ContextGivesBack` | src/utils/isgonHelper/ISGonHelper.go:234-248 | Extracting a condition from `{accessPolicy: ...}` gives it back, whatever braces and colons it contains |
| `Rewriting.EqualsSpread` | src/alfaparser/alfa_parser.go:541 | Replacing `==` puts blanks around the equals signs of the tokens and touches nothing else |
| `Rewriting.SpellSqueezed` | src/alfaparser/alfa_parser.go:543-546 | Squeezing leaves one blank between tokens wherever there were any |
| `Respelling.EqualsRespelled` | src/utils/isgonHelper/ISGonHelper.go:313-314 | The regular expression respells exactly the equals tokens |
| `Respelling.FilterRespells` | src/utils/isgonHelper/ISGonHelper.go:312-318 | The three steps respell exactly the tokens `=`, `and`, `or` |
| `Govaluate.SpellReads` | src/utils/interfaceISGoMiddleware/ISGon.go:185-193 | Read with conjunction above disjunction, the final text is the condition |
| `Queue.ExactlyOnePlace` | src/queue/request_manager.go:46-133 | In every interleaving of any number of client handlers and workers, each enqueued request is in exactly one place: request queue, one worker, response queue, delivered or discarded |
| `Queue.DeliveredIsOwn` | src/queue/request_manager.go:94-134 | A delivered response is the one answer computed from that client's own request |
| `Queue.AnsweredAtMostOnce` | src/teeserver/receiver/teeserver_receiver.go:258-293 | Every request is handled at most once, by at most one worker |
| `QueueService.PollDecides` | src/queue/request_manager.go:109-133 | The response at the front can still reach its client if and only if that client is the one that polls |
| `QueueService.DiscardedIsLost` | src/queue/request_manager.go:112-133 | What was discarded never reaches its client |
| `QueueService.ResponseArrives` | src/queue/request_manager.go:94-134 | With one polling client and nothing lost, nobody is stuck while it waits, and after as many steps as there is work it has its response |
| `QueueService.ConsumesOnlyAhead` | src/queue/request_manager.go:94-134 | It consumes exactly the responses ahead of its own and then its own |
| `QueueBroker.Broker.AwaitResponse` | src/queue/request_manager.go:94-134 | The polling loop on a queue as it is: the first own response is returned, those ahead are discarded, the rest stays; without one the client times out |
| `QueueBroker.Broker.Serve` | src/tee/receiver/tee_receiver.go:258-293 | The worker loop answers the requests that parse, in order |
| `Framing.Reassembled` | src/queue/request_manager.go:53-77 | For every payload below 2^64 bytes and every way the stream is cut behind the prefix, the middleware reads exactly the payload |
| `Framing.WholePrefixNeeded` | src/queue/request_manager.go:53-60 | A first read of n bytes delivers all payloads if and only if n is 8: the count of the first read is ignored |
| `Framing.CutPartitions` | src/client/client.go:199-211 | The chunks partition the payload in order without gap or overlap, all but the last full |
| `Framing.Send` | src/client/client.go:188-211 | The writes are the prefix and those chunks |
| `Framing.Prefix64` | src/client/client.go:188-190 | Eight big-endian bytes hold every length below 2^64 |
| `Framing.Conn.ReceivePayload` | src/queue/request_manager.go:53-77 | The read loop gathers until the announced length or the end of the stream |
| `SeedExchange.AgreedIffOneStored` | src/teeserver/receiver/teeserver_receiver.go:148-233 | In every run the two CCUs hold the same seed if and only if exactly one post was stored: crossing posts swap the seeds |
| `SeedExchange.AgreementIsStable` | src/utils/seedGenerator/seedGen.go:12-39 | Once both hold equal seeds and no other seed is in flight, that stays so in every run |
| `SeedExchange.OneSeedEach` | src/utils/seedGenerator/seedGen.go:12-30 | Each CCU generates at most one seed |
| `SeedExchange.StoredIsSenders` | src/tee/receiver/tee_receiver.go:148-233 | A stored post leaves the receiver with the seed its peer generated |
| `SeedExchange.CanAgreeIff` | src/tee/sender/teesender.go:30-70 | With nothing in flight the CCUs can still come to agree if and only if they agree already or one has no seed: a written seed whose post was lost is never sent again |
| `SeedExchange.AgreementSharesEntries` | src/utils/encryption/encryption.go:55-92 | CCUs that agree decrypt each other's entries |
| `SeedStore.Ccu.GenerateSeed` | src/utils/seedGenerator/seedGen.go:12-30 | Succeeds exactly if there is no seed file and it can be written; an existing seed stays |
| `SeedStore.Ccu.SendSeed` | src/teeserver/sender/tee_server_sender.go:30-70 | The sender makes the state machine's step |
| `SeedStore.Ccu.HandleKey` | src/teeserver/receiver/teeserver_receiver.go:148-233 | So does the receiver: it stores exactly if exchanging, attested and non-empty, and overwrites |
| `KeyMap.ReadsLast` | src/utils/interaction/block_int.go:184-252 | After any sequence of sets, a name reads as the last accepted value under its first 32 bytes without trailing zeros; all other names are framed |
| `KeyMap.ReadsExactly` | src/utils/interaction/block_int.go:282-301 | The value comes back if and only if it does not end in a zero byte |
| `KeyMap.NamesCollide` | src/utils/interaction/block_int.go:207-208 | Zero-free names share an entry if and only if their first 32 bytes are equal |
| `KeyMap.JoinedHalves` | src/blockchain/contracts/SPARTA.sol:19-29 | Splitting, joining and trimming drops trailing zeros and nothing else |
| `KeyMap.SplitStringTo2xBytes32` | src/utils/interaction/block_int.go:306-316 | The two zero-padded halves, or an error above 64 bytes |
| `KeyMap.SetKey` | src/utils/interaction/block_int.go:184-252 | Empty and long values are rejected without effect |
| `KeyMap.Sparta.SetIPNSKey` | src/blockchain/contracts/SPARTA.sol:13-17 | The three field updates of one entry |
| `KeyMap.Sparta.GetIPNSKey` | src/blockchain/contracts/SPARTA.sol:19-29 | The 64-byte buffer of both parts |
| `Aggregates.OrderIndependent` | src/utils/isgonHelper/ISGonHelper.go:336-360 | For every filter, aggregate and field, permuting the log changes neither answer nor error |
| `Aggregates.BatchesCombine` | src/utils/isgonHelper/ISGonHelper.go:391-470 | The answer over two batches is combined from those over each, also when the filter keeps nothing of one of them |
| `Aggregates.AnswersIff` | src/utils/isgonHelper/ISGonHelper.go:498-501 | A formula of one call has an answer if and only if it is not `count`, a record is kept and the field is a number in all of them: a count is an int and not a float64 |
| `Aggregates.CountOf` | src/utils/isgonHelper/ISGonHelper.go:457-470 | The loop counts the records that have the field |
| `Aggregates.CountIsKept` | src/utils/isgonHelper/ISGonHelper.go:457-470 | That is the number of records a filter for the field would keep |
| `Aggregation.MeanBetween` | src/utils/isgonHelper/ISGonHelper.go:423-441 | min <= mean <= max and mean * count = sum |
| `Aggregation.LargestIsMaximum` | src/utils/isgonHelper/ISGonHelper.go:392-406 | The result of max is one of the values and at least all of them |
| `Aggregation.SmallestIsMinimum` | src/utils/isgonHelper/ISGonHelper.go:407-422 | The result of min is one of the values and at most all of them |
| `Aggregation.EvaluateFilterCondition` | src/utils/isgonHelper/ISGonHelper.go:336-360 | Keeps the records for which the filter is true, and fails if it fails on one |
| `Aggregation.MaxOf` | src/utils/isgonHelper/ISGonHelper.go:392-406 | The fold from minus infinity, or a panic on an unreadable field |
| `Aggregation.MeanOf` | src/utils/isgonHelper/ISGonHelper.go:423-441 | Total over count |
| `Aggregates.MostFrequentPlan` | src/utils/interfaceISGoMiddleware/ISGon.go:1336-1381 | Plan mode returns a plan of maximal count, whatever the map order |
| `Aggregates.PlansOrderIndependent` | src/utils/interfaceISGoMiddleware/ISGon.go:1336-1381 | Which plans it may return does not depend on the order of the log |
| `Aggregates.PlanModeRespectsFilterIff` | src/utils/interfaceISGoMiddleware/ISGon.go:1326-1381 | Plan mode answers as over the kept records, on every log on which the filter does not fail, if and only if it keeps every record with a plan on which it does not fail, or fails on every record whose plan is not the empty text |
| `Aggregates.TotalFilterRespectedIff` | src/utils/interfaceISGoMiddleware/ISGon.go:1326-1381 | For a filter that never fails: if and only if it keeps every record with a plan |
| `Aggregates.PlanModeIgnoresFilter` | src/utils/interfaceISGoMiddleware/ISGon.go:1326-1381 | A log on which plan mode answers a plan that no kept record has |
| `Aggregates.NewPerformAggregation` | src/utils/interfaceISGoMiddleware/ISGon.go:1309-1407 | A request is taken apart into filter and formula; the filter can fail, and then plan mode or the aggregate answers |
| `Requests.RequestReadsBack` | src/utils/isgonHelper/ISGonHelper.go:250-282 | Filter and formula come back from the text of a request, whatever further brackets and colons they contain |
| `LightAgrees.LightDecides` | src/genstruct/json_to_struct_parser.go:203-220 | For every record and every table whose cells read labels (or, in intervals, names inside labels that are labels, too) the decision on the projected record equals the decision on the full record |
| `LightAgrees.LightLogDecides` | src/utils/interfaceISGoMiddleware/ISGon.go:684-712 | After any uploads, each with its own two resolves, readers of the light and of the full key decide alike on the records both get, in the same order; they get the same ones if and only if the uploads line up |
| `LightAgrees.NewestCompared` | src/utils/interfaceISGoMiddleware/ISGon.go:684-712 | What one reader gets is always a beginning of what the other gets, and the two are the same if and only if no record lies between the oldest uploads that they reach |
| `LightAgrees.ProjectionAgrees` | src/utils/isgonHelper/ISGonHelper.go:166-211 | Both structs read a record's labels alike |
| `LightAgrees.FieldsCorrespond` | src/genstruct/json_to_struct_parser.go:54-68 | The fields of the light struct are the full struct's fields of the table's labels |
| `LightAgrees.GenerateStructs` | src/genstruct/json_to_struct_parser.go:157-223 | The generator produces the full struct with its context fields and its projection |
| `Light.DeriveStruct` | src/genstruct/json_to_struct_parser.go:35-51 | One field per key with its title, type and tag, in any map order |
| `Light.ExtendWithContext` | src/genstruct/json_to_struct_parser.go:203-216 | Context inputs that the sample lacks become float fields once |
| `Light.DeriveStructLight` | src/genstruct/json_to_struct_parser.go:54-68 | The labels that have a field, in order |
| `Light.CreateInputsFromDataInput` | src/utils/isgonHelper/ISGonHelper.go:166-211 | Each field is entered under its JSON tag, with dates parsed and lists cut to their first item |

## Left out

- DMN: labels with a colon or a quote, commas and bars inside literals, fractional seconds; the struct
  declaration and the file name of a generated function.
- DmnFunction.BuildsIff: output entries are blanks, literals, `math.NaN()`, `math.Inf(1)`, `math.Inf(-1)`, `math.Pi`,
  `time.RFC3339` and `time.Now()`, one or several with commas between them; other Go expressions, among them
  expressions over the inputs, and line breaks are outside of the supported fragment.
- DMN: Go's rule that integer and string constants of other spellings are literals too; only the spellings that
  the supported cells produce are read.
- DecisionRegistry.ParseExistingRegistry: applies the regular expression line by line, because a printed registry has
  one entry per line; a hand-edited entry broken over lines is not modelled.
- The checked-in decision functions: they are instances of the compilation theorem.
- LogNode.LogExact: assumes prompt publishes; what holds without that is `LinkedLog.HeadChain`.
- Encryption.EntryRoundTrip: the cipher, the hash and the key derivation are functions with their laws.
- AlfaInverse.ParseInvertsRender: one construct per line; identifiers for names.
- AlfaParser.Feed: reads lines without the scanner's limit on their length, and blanks are space, tab, CR and LF.
- AlfaReader.Reader.Finish: reports one error for all failed references, not its text.
- AlfaGenerator.Generate: what each handler is made from, not the Go text of the handlers; deny rules, which the
  generator ignores as well.
- AlfaGenerator.HandlerDecides: a rule with exactly one condition; further conditions are only put next to each
  other by the source.
- Access.AccessPreserved: literals must avoid the substrings that the rewriting looks for, since the replacements
  work inside quotes too; numbers with two points, quoted dates, single quotes, `in`, arithmetic and functions.
- Feel.ContextGivesBack: the evaluator's own regular-expression engine; the one pattern is modelled directly.
- Queue.ExactlyOnePlace: pops are served to one waiting handler at a time; fairness among handlers is not modelled.
- QueueService.ResponseArrives: no request is enqueued during the steps that are counted.
- Framing.Reassembled: the acknowledgement and the client's reading of the response.
- SeedExchange.AgreedIffOneStored: attestation, certificates and the shutdown of the server after a stored seed are
  events that may happen at any time.
- SeedStore.Ccu.HandleKey: the multipart body is decoded already; whether the file can be written is a parameter.
- KeyMap.ReadsLast: transactions are mined in the order of the sets; gas, accounts and the derivation of names from
  environment variables.
- Aggregates.OrderIndependent: real numbers instead of floating point; formulas beyond one aggregate call.
- LightAgrees.LightDecides: JSON keys match tags exactly, although Go also matches other letter case; two keys or
  labels with the same title would not compile and are excluded.
- Network, TLS, HTTP, Redis, IPFS and Ethereum clients, file access, flags and timing.
- Certificates, attestation, key agreement with clients, and user key generation.
