# Mockulus, modelled and verified in Dafny

Mockulus is a WireMock-compatible mock server meant to run in any number of replicas over one
store. This project models its in-memory algorithms and its small protocols and proves what
they promise. `dafny verify dfyconfig.toml` checks everything.

| component | modules |
|---|---|
| JSON texts: grammar, reference reader, round trip, number range | `Bytes`, `JsonGrammar`, `JsonReader`, `JsonReaderSound`, `JsonReaderComplete`, `JsonRoundTrip`, `FloatRange` |
| JSONPath: tree evaluation and the one-pass byte scanner | `JsonPath`, `JsonScan` |
| `equalToJson`: pairing, structural comparison, two precisions | `Pairing`, `JsonComparison`, `Decimals`, `DecimalsInRange`, `NumberFilter`, `ExactNumbers`, `EqualToJson`, `JsonMeaning` |
| Criteria over the values of a key | `KeyCriteria` |
| Snapshot engine: templates, order, indexes, lookup, cache, splices | `PathTemplate`, `Stubs`, `Snapshots`, `SnapshotBuilder`, `Splices` |
| Replicas over one store | `Cluster`, `Convergence`, `CacheApart`, `ReadYourWrites` |
| Scenario transitions, journal writer | `Scenario`, `Journal` |
| Batch import, near-miss scoring | `Import`, `EditDistance` |

Loops and in-place updates of the source are methods with invariants, proved equal to a
function of their input; what the source promises is then proved of that function. The two
concurrent protocols and the replica model are step machines: an action that is not enabled
does nothing, so a run is any sequence of actions and a statement about all runs is a statement
about every interleaving.

## What is assumed

- `unquote`, the decoding of the text between a JSON string's quotes, is any function that
  copies printable ASCII without escapes (`CopiesPlain`).
- A number literal decodes to a float64 unless its exact value is at least (2^54 - 1) * 2^970,
  the midpoint from the largest float64 to 2^1024 (`InRange`). Beyond that, rounding is any
  function of the value (`RoundsValues`) that keeps literals of trusted width apart
  (`SeparatesNarrow`). Written exponents are taken as read in full. Go's `strconv`, which is not
  part of this model, stops reading exponent digits at 10000, so for exponents past 99999 in
  magnitude on literals of thousands of digits this is an assumption about the decoder.
- Documents handed to `equalToJson` are shorter than 2^62 bytes.
- Regex compilation, mapping compilation, JSON validity of a mapping, SHA-256 and UUIDs are
  parameters. A compilation depends on the sequence number only in that it carries it
  (`CarriesSeq`). Results about cache hits assume that a document does not collide in hash with
  another mapping held for its id (`NoneCollides`, `NoCollision`, `Collides`).
- A store read of documents and epoch is atomic, and CAS tokens are never reused. The stub
  compiled from a stored document has that document's id (`Stamped`): the id is written into
  every mapping before it is stored. Only the documents that occur in a run are meant.

## What turned out false, and the exact condition

- **Compile cache.** The key does not include `Seq` or `Persistent`. A hit equals a fresh
  compilation if and only if both are those of the document that filled the entry
  (`HitIsFreshIffSteady`), a whole rebuild equals a fresh one if and only if every hit of a
  readable document is like that (`RebuildIsFreshIffSteady`), and a stub deleted and created
  again keeps its old place in the order (`RecreatedKeepsOldSeq`).
- **Convergence.** One rebuild per pod does not make all pods serve alike. A document deleted
  and written again with the same bytes has a new sequence number; a pod that rebuilt in between
  compiles it afresh, one that did not answers from its cache, and the two differ at equal
  epochs however often they rebuild (`CacheApart.NeverAgree`; `StayApart` for any two such pods).
  With no further write, a pod that has reloaded serves exactly the store if and only if its
  cache holds no stored id's mapping under another sequence number or persistence
  (`OneRebuildEach`), which can be read off the state in which the writes stop (`QuietHeld`).
- **Splice after another pod's delete.** A late splice reinstalls a stub the store no longer
  holds, at the store's own epoch, so polling never notices (`StaleSpliceUnnoticed`).
  `EqualEpochsConverged` gives the condition, both ways: with every write bumped, a pod that has
  loaded and is at the store's epoch serves exactly the store if and only if each id spliced
  since its last rebuild was left as the store has it, and its cache holds no other stored id's
  mapping under another sequence number or persistence.
- **Read-your-writes.** A spliced stub does not always stay until a later write of its id: two
  handlers on one pod may write the same id and splice in the other order, and the older stub
  is then served although the store holds the newer one throughout (`RacingHandlers`); and the
  next rebuild may answer from the cache with the stub as it was before a delete
  (`RebuildEnds`). `ServedWhileStored` gives the condition, both ways, read off the state right
  after the splice: the stub is served for as long as the store keeps the document, in every
  run, if and only if no other handler of that pod has written the id, and not yet spliced it,
  with something else to leave there, and the pod's cache does not hold the same mapping for
  the id under another sequence number or persistence.
- **`canonicalDecimal`.** Equal texts mean equal values exactly for literals whose exponent
  arithmetic fits an int (`CanonicalIffSame`, `CanonicalNeedsFit`); 0 and a zero with a huge
  exponent are told apart (`ZeroToldApart`), although the comment there says only literals no
  decoder produced can reach that branch. Between literals a float64 decode accepts, equal
  texts still mean equal values (`CanonicalSound`).
- **Normalized edit distance.** "0 for identical strings" holds one way only: strings that
  differ past byte 512 score 0 as well (`DifferYetZero`, `ScoreIsShare`).
- **Strict absence.** It fails every criterion but a bare `absent` and a negated JSONPath
  (`StrictAbsence`).
- **Path variables.** They are cleared only when a template candidate is evaluated. A stub
  without a template is served with none if and only if, of the template stubs before it whose
  method agrees with the request, the last one binds nothing on this path, or there is none
  (`LeftoverVars`, `NothingLeftIff`); a failed walk binds the variables among the leading
  segments that fit (`BindsNothing`). `VariableLeftOver` is an input on which a variable of a
  template that failed is left for a stub that has none.
- **Journal drain.** What is promised of entries sent before the stop is promised of no other:
  from any stopped state an entry reserved and not yet sent can be left in the queue for good
  if and only if there is room for it (`LateEntryStranded`).

## Model

| member | source | states |
|---|---|---|
| JsonReaderSound.ReadDocumentSound | internal/jsonpath/scan.go:101-119 | whatever the reference reader accepts is a JSON text of RFC 8259 sections 2 to 7 within the depth limit, spelled byte for byte |
| JsonReaderComplete.ReadDocumentComplete | internal/jsonpath/scan.go:101-119 | and every such text is accepted, with the one derivation it has |
| JsonReaderComplete.ReadNumberComplete | internal/jsonpath/scan.go:349-415 | a number literal followed by what may follow a value is read whole, so a spelling has one reading |
| JsonScan.UnmarshalIffDerivable | internal/jsonpath/scan.go:101-119 | decoding succeeds if and only if the grammar derives the bytes, and its value does not depend on the derivation |
| JsonRoundTrip.ReadsBack | internal/jsonpath/scan.go:101-119 | writing a value out and decoding it gives the value back, whatever the order of its members and the white space around it |
| JsonRoundTrip.LastMemberKept | internal/jsonpath/scan.go:162-232 | of members that decode to one key the last is kept |
| JsonScan.Scanner.SkipString | internal/jsonpath/scan.go:291-330 | the cursor ends where the reference reader ends the string; refused exactly when it refuses |
| JsonScan.SaturatedExact | internal/jsonpath/scan.go:388-398 | the saturating accumulator is the exponent itself, or at least 2^30 and no more than the exponent |
| JsonScan.Scanner.ExpDigits | internal/jsonpath/scan.go:388-398 | the accumulator over exactly the run of exponent digits |
| FloatRange.TenTo308 | internal/jsonpath/scan.go:404-414 | 10^308 lies below the magnitude at which a decode overflows |
| FloatRange.FewDigitsInRange | internal/jsonpath/scan.go:404-414 | integer digits plus exponent at most 308 means the literal does not overflow |
| JsonScan.ShortcutDecides | internal/jsonpath/scan.go:404-414 | the shortcut taken with the saturated exponent never passes a literal that overflows |
| JsonScan.Scanner.SkipNumber | internal/jsonpath/scan.go:349-415 | accepts exactly the literals the decoder accepts, range included, and stops at their end |
| JsonScan.Scanner.KeyIsDecoded | internal/jsonpath/scan.go:463-472 | the raw comparison of a plain key is the comparison of the decoded key |
| JsonScan.Scanner.Value | internal/jsonpath/scan.go:124-158 | a value is valid and ends where the reference reader says, and the selection is the tree's |
| JsonScan.Scanner.Members | internal/jsonpath/scan.go:162-232 | over a run of members the selection is the last one whose decoded key is wanted |
| JsonScan.Scanner.Elements | internal/jsonpath/scan.go:236-284 | over a run of elements the selection is the wanted index |
| JsonScan.Scan | internal/jsonpath/scan.go:101-119 | valid exactly when the whole input decodes; the reported bytes are the text of the node the path selects |
| JsonScan.BlankIffEmpty | internal/jsonpath/scan.go:438-455 | only white space between its brackets means an empty collection, and conversely |
| JsonScan.NonEmptyRaw | internal/jsonpath/scan.go:438-455 | truthiness read off the bytes is truthiness of the decoded node |
| JsonScan.DecodeNode | internal/jsonpath/scan.go:497-511 | decodes a node's bytes to the value it has in the whole document |
| JsonScan.MatchBytes | internal/jsonpath/scan.go:74-83 | for every byte string and path: answered exactly for scannable paths on valid documents, and then as Eval followed by Matches, which is that the steps lead to a value other than null, [] and {} |
| JsonScan.EvalBytes | internal/jsonpath/scan.go:88-97 | the same result, node included, as evaluation over the decoded tree: the node the steps lead to, or none |
| JsonPath.Eval | internal/jsonpath/jsonpath.go:482-503 | the loop with its early exit is the step-by-step walk of the whole path |
| JsonPath.WalkIsInward | internal/jsonpath/jsonpath.go:482-503 | walking all nodes step by step collects, in order, what going inwards from each node does |
| JsonPath.MatchesMeans | internal/jsonpath/jsonpath.go:77-101 | a definite result matches when it is one node other than null, [] and {}, an indefinite one when anything is selected |
| JsonPath.IndexSelects | internal/jsonpath/jsonpath.go:518-530 | an index counts from the front, a negative one from the end, and selects nothing past either |
| JsonPath.LengthCounts | internal/jsonpath/jsonpath.go:578-590 | length() is the number of indexes or names that select something, and selects nothing of a scalar |
| JsonPath.UnionSelects | internal/jsonpath/jsonpath.go:628-652 | a name union selects what its names select in turn; merged, one object with exactly those members |
| JsonPath.MarkMergingUnions | internal/jsonpath/jsonpath.go:222-236 | a name union merges into one object exactly when no step but a length follows it |
| JsonPath.SelectsAtMostOneNode | internal/jsonpath/jsonpath.go:241-255 | true exactly when every step is a child, an index, a length or a merged union |
| JsonPath.StepsTheScannerTakes | internal/jsonpath/jsonpath.go:264-277 | true exactly when every step is a member name or a forward index |
| JsonPath.CompileSteps | internal/jsonpath/jsonpath.go:204-207 | a compiled path carries flags that say of its steps exactly what they should |
| JsonPath.DefiniteSelectsAtMostOne | internal/jsonpath/jsonpath.go:241-255 | a definite path selects at most one node of any document |
| JsonPath.WalkIsSelect | internal/jsonpath/jsonpath.go:482-503 | on a scannable path the list evaluation is the single inward selection |
| JsonPath.SelectReaches | internal/jsonpath/jsonpath.go:505-530 | what a scannable path selects is the end of the one trail of nodes its steps lead along |
| Pairing.AugmentPairing | internal/matchers/matchers.go:545-557 | success adds the new element and keeps every other paired; failure leaves the pairing untouched and what it reached closed |
| Pairing.FindPairing | internal/matchers/matchers.go:527-540 | true exactly when every element can have a place of its own; otherwise a set with fewer places than members |
| Pairing.HallRefutes | internal/matchers/matchers.go:527-540 | a set with fewer places than members rules every pairing out |
| Pairing.TakeOver | internal/matchers/matchers.go:545-557 | re-pairing along an augmenting path keeps the pairing one to one and loses nobody |
| JsonComparison.JsonEqual | internal/matchers/matchers.go:369-451 | decides `Equal`, the unordered case being the existence of a one-to-one assignment; what `Equal` accepts is `JsonMeaning.EqualMeans` |
| JsonComparison.ObjectEqual | internal/matchers/matchers.go:376-403 | members by name: unexpected ones refused unless extras are ignored, missing ones only where optional |
| JsonComparison.ArrayEqualUnordered | internal/matchers/matchers.go:472-502 | greedy with fallback is exact: true if and only if an assignment exists |
| JsonComparison.ArrayMatchable | internal/matchers/matchers.go:513-540 | the fallback alone decides whether an assignment exists |
| JsonComparison.EqualUnordered | internal/matchers/matchers.go:472-502 | unordered equality is cardinality plus an injective assignment of equal elements |
| JsonMeaning.EqualMeans | internal/matchers/matchers.go:369-451 | for all options and placeholders: placeholders filled in, extras taken out and, without order, arrays put in another order at every depth, the document is the one written down |
| JsonMeaning.EqualInOrder | internal/matchers/matchers.go:369-451 | in order and without placeholders, exactly the document read back matches, with ignoreExtraElements once unexpected members and tail elements are taken out at every depth |
| JsonMeaning.AnyOrder | internal/matchers/matchers.go:472-506 | ignoring order is matching in order after some rearrangement of the arrays of the document at every depth |
| JsonMeaning.PlaceholdersAccept | internal/matchers/jsonunit.go:76-101 | the values each placeholder string accepts |
| JsonMeaning.PatternAccepts | internal/matchers/jsonunit.go:94-96 | a regex placeholder accepts the strings its pattern matches, and refuses the operand where that does not compile |
| JsonMeaning.MissingMember | internal/matchers/jsonunit.go:103-105 | only the ignored element lets its member be missing |
| JsonMeaning.MapTellsApart | internal/matchers/jsonunit.go:308-335 | reading numbers otherwise confuses nothing but numbers |
| JsonComparison.OrderIrrelevant | internal/matchers/matchers.go:453-471 | reordering arrays at any depth on either side does not change the answer |
| Decimals.CanonicalDecimal | internal/matchers/jsonunit.go:240-286 | the loops compute the normal form for any text, with 64-bit exponent arithmetic |
| Decimals.CanonicalTextOfNumber | internal/matchers/jsonunit.go:240-286 | on a number literal that text spells sign, significant digits and exponent of its value |
| Decimals.CanonicalIffSame | internal/matchers/jsonunit.go:223-228 | texts are equal if and only if the literals denote one rational, where the exponents fit |
| Decimals.CanonicalNeedsFit | internal/matchers/jsonunit.go:249-263 | every literal that does not fit is told apart from an equal one or confused with another |
| Decimals.ZeroToldApart | internal/matchers/jsonunit.go:252-257 | one number with two texts, both of which decode: 0 and 0 with an exponent past an int |
| Decimals.NormalFormUnique | internal/matchers/jsonunit.go:223-228 | digits without zeros at either end, and an exponent, are determined by the value |
| Decimals.SameNumberIsReal | internal/matchers/jsonunit.go:240-292 | two literals are the same exactly when they denote the same real number |
| DecimalsInRange.CanonicalSound | internal/matchers/jsonunit.go:223-228 | between literals a float64 decode accepts, equal texts mean equal values even where the arithmetic wraps |
| NumberFilter.ScanNumberLiteral | internal/matchers/jsonunit.go:415-446 | end and width of the token, with the exponent that stops growing |
| NumberFilter.DocumentNeedsExactNumbers | internal/matchers/jsonunit.go:392-411 | the index arithmetic visits every token outside strings |
| NumberFilter.FilterIsExact | internal/matchers/jsonunit.go:384-411 | on every valid document: false if and only if every literal has at most 15 digits and an exponent within 300 |
| NumberFilter.TokenOfNumber | internal/matchers/jsonunit.go:415-446 | from a literal's first digit the scan ends with the literal, wide exactly when it is |
| ExactNumbers.EqualCarries | internal/matchers/jsonunit.go:349-370 | if one reading of the numbers tells apart no less than another, equality carries over, through nested unordered pairings |
| ExactNumbers.ResolveNatural | internal/matchers/jsonunit.go:117-156 | placeholders resolve alike whatever carries the numbers |
| ExactNumbers.PairExactIsResolve | internal/matchers/jsonunit.go:475-521 | pairing the two decodes is resolving the exact one, and reports a number exactly when there is one |
| EqualToJson.DocumentNumbers | internal/matchers/jsonunit.go:384-411 | the filter's answer on the bytes bounds every number of the decoded tree |
| EqualToJson.Compile | internal/matchers/compile.go:486-512 | compiled exactly when the operand decodes and its placeholders do, with both documents and the width recorded |
| EqualToJson.ConfirmNumbers | internal/matchers/jsonunit.go:349-370 | when the confirmation may be skipped, and otherwise the exact comparison |
| EqualToJson.MatchOne | internal/matchers/matchers.go:332-346 | for every operand and document the two-precision answer is the exact-decimal answer, said of documents by `JsonMeaning.LiteralOperand` and `JsonMeaning.EqualMeans` |
| JsonMeaning.LiteralOperand | internal/matchers/matchers.go:332-346 | an operand without placeholders matches, with no option set, exactly the documents that are the same but for how numbers are spelled |
| EqualToJson.ExactImpliesRounded | internal/matchers/matchers.go:332-346 | float64 never refuses what exact decimals accept |
| EqualToJson.NarrowRoundedImpliesExact | internal/matchers/jsonunit.go:353-355 | when no literal is wide the float64 answer is already exact |
| EqualToJson.ExactIsRational | internal/matchers/jsonunit.go:223-228 | comparing exact decimals is comparing rationals, where exponents fit |
| KeyCriteria.MatchAnyValue | internal/matchers/matchers.go:72-94 | some value of a present key satisfies the predicate |
| KeyCriteria.MatchNegatedValue | internal/matchers/matchers.go:110-124 | some value fails it; absence counts unless strict |
| KeyCriteria.KeyValues.Json | internal/matchers/subject.go:101-112 | the memo always answers the parse of the first value bound now |
| KeyCriteria.KeyValues.SetStrictAbsence | internal/matchers/subject.go:66-69 | repoints the key, forgets its parse and makes absence strict |
| KeyCriteria.SingleValue.Set | internal/matchers/subject.go:130-133 | repointing drops the previous value's parse |
| KeyCriteria.Match | internal/matchers/matchers.go:605-809 | the whole tree, memo and splits included, holds exactly when some single value satisfies it; JSON, JSON Schema, XML and XPath criteria among its leaves |
| KeyCriteria.MatchCombined | internal/matchers/matchers.go:728-809 | a combinator takes strict absence first, then one value at a time |
| KeyCriteria.Evaluate | internal/matchers/matchers.go:627-670 | a path holds when it selects something non-empty, or a non-null selected value satisfies the inner criterion |
| KeyCriteria.MatchDocument | internal/matchers/xml.go:48-60 | every criterion that reads a value as a document is split over the values of a repeated key |
| KeyCriteria.SelectsNode | internal/matchers/xml.go:108-131 | an expression holds when it selects a node, one whose text the inner criterion holds of where there is one |
| KeyCriteria.SubjectXml | internal/matchers/xml.go:143-156 | a key's XML reading is its first value's, and an absent or empty key has none |
| KeyCriteria.AnyOf | internal/matchers/matchers.go:140-160 | for a present key, matching is some one value alone matching the whole tree |
| KeyCriteria.NotIsComplementIffAgree | internal/matchers/matchers.go:794-809 | `not` is the complement exactly while the values agree |
| KeyCriteria.NegatedIsComplementIffAgree | internal/matchers/matchers.go:96-124 | so are the negated leaves |
| KeyCriteria.StrictAbsence | internal/matchers/matchers.go:126-138 | what an absent cookie satisfies |
| KeyCriteria.OneTruth | internal/matchers/matchers.go:728-809 | one truth table over the leaves: on a key without a value the negated leaves hold and no others, on an absent key also a bare absent |
| KeyCriteria.DocumentLeaf | internal/matchers/matchers.go:315-346 | what each document-reading leaf asks of one value, and that a negated path is the complement there |
| KeyCriteria.InnerPathLeaf | internal/matchers/matchers.go:619-694 | a path with a criterion inside: some selected node other than null has a text the criterion accepts alone |
| KeyCriteria.InnerXPathLeaf | internal/matchers/xml.go:94-132 | an XPath with a criterion inside: some selected node has a text the criterion accepts alone |
| PathTemplate.ParsePathTemplate | internal/stub/pathtemplate.go:41-83 | accepts exactly the sources that spell a template, and spells back to the source |
| PathTemplate.ComputeTemplatePrefix | internal/stub/pathtemplate.go:85-98 | the leading literal text, or a slash |
| PathTemplate.Match | internal/stub/pathtemplate.go:113-153 | the in-place walk fits exactly when the split path fits segment by segment, and binds exactly the parts of the segments it consumed, failed or not |
| PathTemplate.WalkedLongest | internal/stub/pathtemplate.go:119-151 | the segments a walk consumes are the longest leading run that fits |
| PathTemplate.BindsNothing | internal/stub/pathtemplate.go:105-112 | a walk leaves nothing bound exactly when it consumed no variable |
| PathTemplate.PrefixNeverRejects | internal/stub/pathtemplate.go:85-98 | every path a template matches starts with its literal prefix |
| PathTemplate.MatchIsSubstitution | internal/stub/pathtemplate.go:113-153 | the paths matched are those got by giving variables non-empty slash-free values, and the bindings are those values |
| Stubs.SortedStable | internal/match/snapshot.go:142-149 | ties keep their order |
| Stubs.SortedInOrder | internal/match/snapshot.go:142-149 | no stub comes after one it precedes |
| Stubs.SortedContents | internal/match/snapshot.go:142-149 | the sort loses and adds nothing |
| Stubs.SortedOfElements | internal/match/snapshot.go:142-149 | with distinct ids and sequence numbers the order does not depend on the input's |
| Snapshots.BuildSnapshot | internal/match/snapshot.go:73-111 | ordered list, both indexes, pattern list, ids and scenario states of a set of stubs |
| Snapshots.RecordScenario | internal/match/snapshot.go:116-135 | adds the initial, required and new states, empty ones left out |
| Snapshots.FullIndexHolds | internal/match/snapshot.go:96-99 | a list holds, ascending, exactly the positions with that method and URL |
| Snapshots.PathIndexHolds | internal/match/snapshot.go:100-102 | the same of the path index |
| Snapshots.PatternListHolds | internal/match/snapshot.go:103-105 | and of the stubs no index can hold |
| Snapshots.IdsHold | internal/match/snapshot.go:73-111 | a stub is found under its id, and nothing under any other |
| Snapshots.ScenarioStatesHold | internal/match/snapshot.go:116-135 | a scenario is recorded with exactly the states its stubs mention, and Started |
| Snapshots.ParsedRequest.IndexLookup | internal/match/request.go:246-251 | the key assembled in the buffer is method, separator, URL |
| Snapshots.MatchURL | internal/match/snapshot.go:317-351 | the URL criterion, the template prefix notwithstanding |
| Snapshots.FullMatch | internal/match/snapshot.go:246-315 | the method is any or the request's, the URL is met by its kind, for a template by values of its variables, and every check holds for those; and what is left bound, whatever the answer |
| Snapshots.Match | internal/match/snapshot.go:182-234 | the lazy merge of five lists serves the first stub that applies, or none where none does, and leaves bound what a linear scan up to the winner leaves; a winning template leaves exactly its own variables |
| Snapshots.Reached | internal/match/snapshot.go:187-192 | the five lists between them hold every stub that accepts the request |
| Snapshots.ServedIffApplies | internal/match/snapshot.go:137-234 | over the stubs a snapshot is built from: none is served exactly when none applies, and the one served applies with the least priority number, the newest of those |
| Snapshots.SelectedComesFirst | internal/match/snapshot.go:137-149 | no stub that applies has a lower priority number than the one selected, or the same and a higher sequence number |
| Snapshots.LeftoverVars | internal/match/snapshot.go:250-254 | a winner without a template is served with no variables if and only if the last template stub tried before it bound none, or none was |
| Snapshots.NothingLeftIff | internal/match/snapshot.go:250-254 | over any list of candidates, what is left bound is decided by the last template stub whose method agrees |
| Snapshots.VariableLeftOver | internal/match/snapshot.go:250-254 | a built snapshot and a request on which a stub without a template is selected with a failed template's variable still bound |
| SnapshotBuilder.CompileCache.Get | internal/match/cache.go:47-60 | a hit exactly when the id is held with the document's hash |
| SnapshotBuilder.CompileCache.Retain | internal/match/cache.go:71-79 | keeps exactly the live entries |
| SnapshotBuilder.Builder.Compile | internal/match/builder.go:218-293 | quarantine, hit or fresh compilation under the mapping's or the document's id, the body file resolved last, and the entry left behind |
| SnapshotBuilder.Builder.Rebuild | internal/match/builder.go:98-175 | the snapshot holds exactly what the documents give: a stub naming a file is marked missing exactly when the load has no such file, has its data for a body where it has, and is otherwise as compiled or held; a failed read changes nothing; only live ids stay cached |
| SnapshotBuilder.PollOnce | internal/match/poller.go:86-110 | rebuilds exactly when the epoch was read and differs |
| SnapshotBuilder.CacheInvisible | internal/match/builder.go:229-240 | where each hit is of a document with the sequence number and persistence of the one that filled the entry, compiling through the cache is compiling afresh |
| SnapshotBuilder.RunRebuilds | internal/match/builder.go:88-175 | over any sequence of rebuilds with steady hits every snapshot is the fresh one and serves exactly what its own load gives, body files included; an id seen gone may come back with anything |
| SnapshotBuilder.BodyFollowsFile | internal/match/builder.go:218-293 | two rebuilds of one document, the second a cache hit: body and missing flag follow the file each finds |
| SnapshotBuilder.HitIsFreshIffSteady | internal/match/builder.go:229-240 | a hit is the fresh compilation if and only if sequence number and persistence agree |
| SnapshotBuilder.RebuildIsFreshIffSteady | internal/match/builder.go:98-175 | a whole rebuild compiles what a fresh one would if and only if every hit of a readable document agrees in sequence number and persistence |
| SnapshotBuilder.RecreatedKeepsOldSeq | internal/match/builder.go:229-240 | deleting and creating again between rebuilds keeps the old sequence number |
| SnapshotBuilder.Builder.SpliceStub | internal/match/splice.go:39-80 | the stub is there, its body file read or marked missing and nothing else of it changed, and so is every stub of another id; epoch and settings carried forward |
| SnapshotBuilder.Builder.SpliceDelete | internal/match/splice.go:110-129 | removes one id, or leaves the snapshot alone |
| SnapshotBuilder.SplicedBodyIsRebuilt | internal/match/splice.go:88-107 | the point read of a splice resolves the body as the bulk read does |
| Splices.BuildIgnoresOrder | internal/match/snapshot.go:73-111 | a snapshot with distinct ids and sequence numbers is independent of the input order |
| Splices.RunSplices | internal/match/splice.go:39-129 | after any run of splices the snapshot, indexes included, is that of one rebuild of the resulting stubs |
| Splices.PutServes | internal/match/splice.go:52-79 | one splice of the build of a set gives the build of the set with that id replaced or added |
| Splices.DeleteServes | internal/match/splice.go:110-129 | and one delete the build of the set without it |
| Cluster.NextInv | internal/match/builder.go:88-268 | every step keeps epochs bounded and each pod a listing of what it loaded, compiled through what its cache holds, with its splices laid over it, the loaded part being the store at an equal settled epoch |
| Cluster.EpochNeverFalls | internal/match/builder.go:98-175 | over every run no pod's epoch falls or passes the store's |
| Convergence.RebuildIsSwap | internal/match/builder.go:98-175 | what the builder makes of a load through its cache is what a pod of the cluster may swap in, and leaves the cache the cluster says |
| Convergence.SourceIff | internal/match/builder.go:229-240 | what the cache answers for a document is its fresh compilation if and only if the same mapping is not held under another sequence number or persistence |
| Convergence.EqualEpochsConverged | internal/match/poller.go:86-110 | with every write bumped and epochs equal, the pod serves the sorted compilation of the store if and only if each id spliced since its last rebuild was left as the store has it and no other id's mapping is held under another sequence number or persistence |
| Convergence.OneRebuildEach | internal/match/poller.go:60-110 | once writes stop and each pod has rebuilt, a pod serves the store if and only if its cache holds nothing apart from it; if that is so of all, they serve alike |
| Convergence.QuietHeld | internal/match/builder.go:229-240 | without writes, rebuilds keep apart exactly what was held apart, so the condition can be read off the start |
| Convergence.StayApart | internal/match/builder.go:229-240 | two reloaded pods, one holding a document apart and the other not, never serve alike while nothing is written |
| Convergence.OnePollEach | internal/match/poller.go:86-110 | after the last bump one poll of each unspliced pod at rest makes all serve the store, those at the store's epoch without a rebuild |
| CacheApart.NeverAgree | internal/match/builder.go:229-240 | a run of three imports after which two pods at the store's epoch serve differently for as long as nothing is written |
| ReadYourWrites.SpliceServes | internal/match/splice.go:52-79 | right after its splice the pod serves the stub |
| ReadYourWrites.KeepsServing | internal/match/builder.go:88-268 | one step of any kind: the stub stays if and only if the step is neither another splice of the id leaving something else nor a rebuild that compiles the id from a document held apart |
| ReadYourWrites.ServedWhileStored | internal/match/splice.go:52-79 | over all runs from a splice: served while the store keeps the document if and only if, right after the splice, no other handler of the pod still has something else to splice under the id and the cache does not hold the mapping apart |
| ReadYourWrites.ReadYourWrites | internal/match/splice.go:52-79 | of one run that keeps the document: served throughout if and only if no other splice of the id leaves something else and no rebuild compiles it from a document held apart |
| ReadYourWrites.RebuildEnds | internal/match/builder.go:229-240 | the next rebuild of a pod whose cache holds the mapping apart takes the spliced stub away |
| ReadYourWrites.RacingHandlers | internal/admin/mappings_write.go:81-92 | two handlers of one pod and one id, splicing in the other order |
| ReadYourWrites.StaleSpliceUnnoticed | internal/match/splice.go:69-72 | a late splice against another pod's delete, at equal epochs |
| Scenario.Transition | internal/scenario/scenario.go:79-145 | with others writing and errors striking between its steps: at most one write, of this scenario to the new state over the required one, every other scenario as it was, `Moved` only if written, within three attempts; alone it moves if and only if the state is the required one; a gated call is one run of the step machine |
| Scenario.MoveWhen | internal/scenario/scenario.go:102-145 | the gated loop by itself, with the same promises |
| Scenario.State | internal/scenario/scenario.go:49-66 | absent and empty read as Started |
| Scenario.TokenSurvives | internal/store/store.go:152-177 | a token read once names the document read, whatever is written in between |
| Scenario.WritesOnlyWhenRequired | internal/scenario/scenario.go:94-145 | in every interleaving a gated call writes only while the state is the one it requires, its first write, within three attempts |
| Scenario.AtMostOneWrite | internal/scenario/scenario.go:94-145 | over every run each call writes at most once |
| Scenario.StepTouches | internal/store/store.go:152-177 | a step that touches no scenario of that name leaves its state and token; one that does leaves what it wrote under a new token, a reset Started |
| Scenario.UntouchedRun | internal/store/store.go:152-177 | over a run a scenario changes only by a write to it or a reset |
| Scenario.ResetStarts | internal/scenario/scenario.go:160-163 | after a reset every scenario reads as Started |
| Scenario.ExitsWithinEntries | internal/scenario/scenario.go:79-145 | gated moves out of a state never outnumber moves into it, the initial one counted |
| Journal.Accounting | internal/journal/journal.go:119-231 | in every reachable state the byte counter is the payload held, within its cap; each entry is in one place; batches and queue keep their bounds |
| Journal.NextInv | internal/journal/journal.go:119-231 | every step of producers, flushers and stop keeps the books |
| Journal.ReservedIfFits | internal/journal/journal.go:119-130 | an entry is reserved where its payload fits beside all that is held, and dropped where it does not |
| Journal.DroppedIff | internal/journal/journal.go:132-142 | a reserved entry is given up exactly after it has found the queue full, and nothing else drops one |
| Journal.Drain | internal/journal/journal.go:143-183 | when all flushers have exited each entry sent before the stop has been handed over exactly once |
| Journal.LateEntryStranded | internal/journal/journal.go:151-167 | from any stopped state a reserved, unsent entry can be queued for good with every flusher gone, if and only if there is room |
| Journal.WindDown | internal/journal/journal.go:151-167 | after the stop the flushers can always all exit, leaving the queue empty unless all had drained already |
| Import.Validate | internal/admin/mappings_write.go:185-239 | accepts a batch exactly when every element compiles and takes its id, and gives each its own or a minted id, its persistence and its stamped mapping, with one lookup per id |
| Import.ImportMappings | internal/admin/mappings_write.go:149-332 | nothing written for an invalid batch; otherwise the batch applied back to front, and one bump |
| Import.ApplyBatch | internal/admin/mappings_write.go:241-310 | what was there before and what the batch wrote together answer as the store would |
| Import.DeleteStubsNotIn | internal/admin/mappings_write.go:336-352 | removes exactly the ids outside the set, and counts them |
| Import.OverwriteFirstWins | internal/admin/mappings_write.go:241-310 | OVERWRITE leaves each id the whole document of its first occurrence and its prior sequence number |
| Import.IgnoreKeepsPriorOrLast | internal/admin/mappings_write.go:257-281 | IGNORE leaves prior stubs untouched and otherwise keeps the whole document of the last occurrence |
| Import.EarlierIsNewer | internal/admin/mappings_write.go:248-264 | new ids are numbered strictly downwards in order of last occurrence, above all earlier numbers |
| Import.EarlierIsTriedFirst | internal/admin/mappings_write.go:248-256 | of two new elements of equal priority the earlier is tried first |
| Import.EarlierWins | internal/admin/mappings_write.go:248-256 | in the snapshot of the imported table the later of the two never serves a request the earlier applies to |
| Import.CountsAddUp | internal/admin/mappings_write.go:241-310 | imported plus ignored is the batch size |
| Import.CountsMean | internal/admin/mappings_write.go:241-310 | OVERWRITE ignores nothing; IGNORE imports once each id that was not there |
| Import.OnlyTheBatchRemains | internal/admin/mappings_write.go:312-321 | deleteAllNotInImport leaves exactly the batch's ids |
| EditDistance.EditDistance | internal/wmcompat/nearmiss.go:163-187 | the two rows compute the distance |
| EditDistance.LevIsShortest | internal/wmcompat/nearmiss.go:161-187 | the distance is the length of the shortest insert, delete, substitute script |
| EditDistance.Symmetric | internal/wmcompat/nearmiss.go:161-187 | it does not depend on the direction |
| EditDistance.Triangle | internal/wmcompat/nearmiss.go:161-187 | it satisfies the triangle inequality |
| EditDistance.AtMostLonger | internal/wmcompat/nearmiss.go:151-158 | it is at most the longer length |
| EditDistance.NormalizedEditDistance | internal/wmcompat/nearmiss.go:135-159 | the share of the longer operand, over at most 512 bytes of each |
| EditDistance.ScoreIsShare | internal/wmcompat/nearmiss.go:133-159 | a symmetric share within 0 and 1, zero exactly where the compared parts are equal |
| EditDistance.ScoreTimesLonger | internal/wmcompat/nearmiss.go:133-159 | the score times the longer of the compared parts is the length of a shortest script between them |
| EditDistance.DifferYetZero | internal/wmcompat/nearmiss.go:133-159 | different strings that score zero |

## Left out

- JSONPath wildcards, slices, filters and descent: one opaque branching step, since the scanner never takes them; parsing of path expressions is not modelled.
- String decoding beyond `CopiesPlain`, including invalid UTF-8 coercion.
- float64 arithmetic beyond the overflow test: rounding is a parameter with the two hypotheses above; `normalizedEditDistance` is over reals.
- The exact decode (`decodeExactJSON`) is modelled on documents the float64 decode accepts, the only ones it is called with; rewriting numbers in place there, and sharing of placeholder nodes, are values.
- Object keys are visited in some order; the model keeps no order of its own.
- Bodies as subjects (charset decoding, XML, multipart) and the criteria `binaryEqualTo`, `hasExactly` and `includes`, to which the any-of rule does not apply.
- KeyCriteria.Match: an `equalToJson` leaf, a JSONPath or XPath evaluator, a JSON Schema and XML equality are functions of the parsed document there, and XML parsing is a parameter; `equalToJson` and JSONPath are proved in `EqualToJson` and `JsonScan`.
- Snapshots.RecordScenario: the states of a scenario are a set; that the source lists them sorted is not captured.
- A stub's criteria beyond URL, and its response beyond the body file, are opaque; the scenario gate is a pure predicate, so the per-request memo of scenario reads and gate failures are not modelled, nor is the count of candidates evaluated.
- The soundness of a regex's literal prefix, which needs the regex engine.
- Compiled stubs are values: sharing of pointers between cache and snapshots, and the swap as an atomic pointer store, are not captured; rebuild and splice run whole under the mutex, their interleaving being the subject of `Cluster`.
- Settings are an opaque value carried by the snapshot; metrics, logging and tracing are omitted throughout.
- Cluster: body files are fixed over a run; timers are not modelled, a rebuild may start at any time. A pod's cache is told by the documents its entries were compiled from (`Fills`, `RebuildIsSwap`).
- Store drivers: only the contracts of `internal/store/store.go`; a TTL expiry or failed bump is a mutation no bump follows.
- Scenario: request deadlines are store operations that fail, possibly after their write was applied; `UpdatedAt` is dropped.
- Journal: building an entry from a request; an unbuffered queue (a buffer of at least one is required by configuration validation); timeouts of the append.
- Import: `createdAt`, store errors halfway through a batch, concurrent writers, and the rebuild that follows the bump.
- Near-miss criteria scoring, ranking and rendering, HTTP, TLS, listeners, response writing and templating, configuration, admin UI: I/O, formatting, or easy members.
