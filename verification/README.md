# opendatacon: verified models

opendatacon is a SCADA data concentrator: ports talk protocols, connectors route
events between them, and a running process can load a changed configuration without
stopping. This project models the parts of the repository whose behaviour is hardest to
see from the code and proves what they promise. Every theorem is about all inputs, all
runs or all reachable states of its model.

| file | component |
|---|---|
| `CallGraph.dfy`, `Tarjan.dfy`, `Prune.dfy`, `Integrate.dfy`, `Conservation.dfy` | call-graph analysis of `gprof2dot.py`: validation, strongly connected components, pruning to a root and a leaf, call ratios, propagation and conservation of cost (costs are reals) |
| `JsonValue.dfy`, `JsonNumber.dfy`, `JsonString.dfy`, `JsonGrammar.dfy`, `JsonReader.dfy`, `JsonText.dfy`, `JsonLanguage.dfy`, `JsonWriter.dfy`, `JsonPrinted.dfy`, `JsonRoundTrip.dfy`, `DivMod.dfy` | the JSON library: value order, number and string codecs, the legacy `Reader` and the exact language it accepts, `FastWriter` and the exact text it prints, and their round trip |
| `Handlers.dfy`, `Inherits.dfy`, `Reload.dfy`, `Rebuild.dfy`, `ReloadSteps.dfy`, `Wiring.dfy`, `ReloadRun.dfy`, `Concentrator.dfy` | live reload of the configuration: a pointer graph of ports and connectors that is torn down, rebuilt and repaired |
| `Parking.dfy` | parking all worker threads for a reload, as a state machine over atomic steps |
| `Routing.dfy` | `DataConnector::Event`: transform chain, fan-out, combined status callbacks |
| `Http.dfy`, `HttpLanguage.dfy`, `HttpParser.dfy` | the byte-wise HTTP request parser (sections 4.2 and 5.1 of RFC 1945), the exact language it accepts, and the client's printer |
| `Scheduler.dfy` | the periodic scheduler |
| `RingList.dfy`, `Mock.dfy` | the intrusive ring list and the expectation and sequence logic of trompeloeil |
| `Wrappers.dfy` | the option type the others share |

Objects that the source updates in place are classes with the same fields; where many
objects point at each other (the live handlers, the state of a search) the fields are one
record that the methods reassign. Each method is proved against a function or relation on
values, and the theorems are lemmas about those. The order in which an unordered map or
set is iterated is arbitrary in the model, and so is the address of a new object.

## Results that differ from what one might expect

- **Parking is not safe in every interleaving.** A thread that has left the park loop but
  not yet counted itself down is still counted by the next reload. `Parking.SafeIff` gives
  the exact condition under which a request is safe: no thread is in that gap when
  `parking` is set, which is always so when `num_parked_threads` is zero
  (`Parking.SafeWhenNobodyCounted`). `Parking.Race` is a run, for every number of threads
  from two on, that reaches an unsafe request after one complete reload. Parking never
  deadlocks, though (`Parking.NeverStuck`), and after a reload all threads can get back to
  work (`Parking.Resumes`).
- **Cost is conserved exactly when no starved function carries cost.** The ratio of a call
  into a function whose incoming counts sum to zero is 1.0, so a function with several
  counted calls, all counted as zero, passes its cost on several times. Whether a function
  carries cost follows from the calls, counts and own costs alone
  (`Conservation.TotalsSign`), and with all calls counted that decides conservation
  (`Conservation.ConservedIffCounted`); `Conservation.CostCreated` is a profile whose cost
  doubles. Where calls lack a count, cost can also get lost, and `Conservation.ConservedIff`
  covers both.
- **JSON values are totally ordered exactly below 2^31 entries.** `operator<` casts the
  difference of two container sizes to `int` (`JsonValue.TotalOrderIff`); from 2^31 entries
  on two values can each be less than the other (`JsonValue.BothWays`).
- **Strings survive exactly up to U+3FFFF.** `utf8ToCodepoint` shifts the lead byte of a
  four-byte sequence by 24 bits; `JsonString.StringRoundTrip` is an equivalence and
  `JsonString.LostCharacter` gives strings that are lost.
- **A reload misses changes in indirectly inherited files.** Handlers read the files they
  inherit recursively, but the comparison looks one level deep. `Inherits.NotDifferent` says
  exactly which changes are missed, `Inherits.MissedChange` is one, and `Inherits.OneLevel`
  is the case in which none is.
- **The JSON reader takes more than JSON.** `JsonText` is the language: comments between
  tokens, numbers whose digits are missing, a closing brace behind the comma when the last
  name is empty, and behind a comment in an object any token for a comma.
  `JsonLanguage.ParseIff` is an equivalence.
- **JSON nesting.** The round trip succeeds exactly up to a height of 1000; above, the
  reader raises (`JsonRoundTrip.RoundTrip`).
- **A dropped event goes on as null.** The transform chain crashes exactly when a later
  transform dereferences it (`Routing.DroppedEvent`); `Routing.CrashingChain` is one.
- **The scheduler's deadlines can go backwards.** A handler that runs early does not break
  their order by itself; adding a task whose first deadline lies before that of the last run
  does, and that is the exact condition over whole runs (`Scheduler.RunInLine`). It cannot
  happen while every run was due (`Scheduler.AddDue`); `Scheduler.EarlyRun` is a run of the
  scheduler in which it does.
- **An expectation without required calls blocks its sequences.** One with calls outstanding
  may be called exactly when all registered before it are retired (`Mock.CallableIff`), and
  one without required calls never is (`Mock.NeverRetired`); `Mock.BlockedCall` is such a test.
- The source of `IOHandler::Subscribe`, `UnSubscribe`, the constructor and
  `SyncMultiCallback` is `Code/Libs/ODC/IOHandler.cpp`, and the models follow it.

## Model

| member | source | states |
|---|---|---|
| `CallGraph.Validate` | Code/scripts/gprof2dot.py:300-308 | exactly the calls to known functions stay, in a validated profile with the same functions |
| `CallGraph.ExitEdge` | Code/scripts/gprof2dot.py:389-390 | a call path that leaves a set of functions does so over a call edge, with the path split there |
| `CallGraph.SccSame` | Code/scripts/gprof2dot.py:398-404 | members of one strongly connected component have the same component |
| `Tarjan.Profile.AddFunction` | Code/scripts/gprof2dot.py:274-281 | the function is in the cycle afterwards and all other assignments are as before |
| `Tarjan.Profile.Report` | Code/scripts/gprof2dot.py:399-404 | a component of two or more members becomes one new cycle, also when its members already had an equal one from an earlier root |
| `Tarjan.Profile.Visit` | Code/scripts/gprof2dot.py:376-405 | one call of `_tarjan` keeps the search invariant, terminates, and leaves its function off the stack or with a low link that witnesses a path to the stack below |
| `Tarjan.Profile.Scan` | Code/scripts/gprof2dot.py:389-396 | one callee is finished or known, and the low link covers every call scanned so far |
| `Tarjan.Profile.Leave` | Code/scripts/gprof2dot.py:397-404 | pops exactly a component when the low link equals the order, and otherwise nothing |
| `Tarjan.Returned` | Code/scripts/gprof2dot.py:392-394 | the invariant of a frame after a recursive call, with the smaller low link |
| `Tarjan.Known` | Code/scripts/gprof2dot.py:395-396 | the invariant of a frame after a call to a function already numbered, on or off the stack |
| `Tarjan.NoExit` | Code/scripts/gprof2dot.py:397-400 | no call leads from the popped functions to one that stays on the stack |
| `Tarjan.ComponentFound` | Code/scripts/gprof2dot.py:397-399 | the part of the stack from a function whose low link is its order is its strongly connected component |
| `Tarjan.Pop` | Code/scripts/gprof2dot.py:397-400 | the search invariant holds again without the popped component |
| `Tarjan.Keep` | Code/scripts/gprof2dot.py:397-405 | without a pop, the function reaches one below it on the stack |
| `Tarjan.SharedCycleMeaning` | Code/scripts/gprof2dot.py:401-404 | two settled functions have the same cycle exactly when each reaches the other |
| `Tarjan.Profile.FindCycles` | Code/scripts/gprof2dot.py:310-322 | despite fresh numbering for every root: two distinct functions share a cycle exactly when each reaches the other, a function has none exactly when it is alone in its component, and `cycles` lists each cycle in use once |
| `Tarjan.Profile.CollectCycles` | Code/scripts/gprof2dot.py:318-322 | the cycles in use, without duplicates |
| `Prune.Below` | Code/scripts/gprof2dot.py:330-337 | the worklist finds exactly the functions the root reaches |
| `Prune.PruneRoot` | Code/scripts/gprof2dot.py:329-341 | exactly the functions the root reaches stay, with all their calls, and the profile stays validated |
| `Prune.EdgesUp` | Code/scripts/gprof2dot.py:344-347 | exactly the callers of every function |
| `Prune.Above` | Code/scripts/gprof2dot.py:348-354 | the worklist finds exactly the functions that reach the leaf |
| `Prune.PruneLeaf` | Code/scripts/gprof2dot.py:343-367 | exactly the functions that reach the leaf stay, with exactly the calls among them |
| `Prune.OnlyPathsLeft` | Code/scripts/gprof2dot.py:329-367 | after both, exactly the functions on a path from root to leaf are left, and each still lies on such a path in the pruned profile |
| `Integrate.Profile.FunctionTotals` | Code/scripts/gprof2dot.py:412-428 | every function gets the sum of the counts of the calls to it from others, and every cycle that of the calls that enter it; calls without a count are left out |
| `Integrate.Profile.CallRatios` | Code/scripts/gprof2dot.py:407-446 | on any profile: every non-self call, and no other, gets its share of the calls to its callee, or of the calls into the cycle it enters, or 0 when it has no count |
| `Integrate.RatioLaw` | Code/scripts/gprof2dot.py:82-96 | a ratio lies between 0 and 1, is the quotient where that does, and 1 for a zero total |
| `Integrate.ScaledBy` | Code/scripts/gprof2dot.py:433-445 | a call inside a cycle is scaled by all calls to its callee, a call into a cycle by all calls that come into it from outside |
| `Integrate.NoneEnters` | Code/scripts/gprof2dot.py:440-445 | without cycles every call is scaled by the calls to its callee |
| `Integrate.BelowShrinks` | Code/scripts/gprof2dot.py:481-489 | without cycles the functions reachable from a callee are strictly fewer, so the recursion ends |
| `Integrate.Profile.IntegrateFunction` | Code/scripts/gprof2dot.py:481-491 | terminates, keeps all balances, and touches only functions and calls below its function |
| `Integrate.Profile.IntegrateCall` | Code/scripts/gprof2dot.py:493-499 | a call that was not integrated yet gets its ratio of the callee's total, and no other call of the caller changes |
| `Integrate.Profile.Run` | Code/scripts/gprof2dot.py:448-479 | every non-self call is integrated exactly once, every function total is its own cost plus what its calls pay, and the profile total is the sum of all own costs |
| `Conservation.NoCycleFound` | Code/scripts/gprof2dot.py:310-322 | an empty list of cycles means that no two functions reach each other |
| `Conservation.ByCaller` | Code/scripts/gprof2dot.py:485-491 | the totals sum to all own costs plus all that calls pay |
| `Conservation.ByCallee` | Code/scripts/gprof2dot.py:493-499 | what all calls pay is, callee by callee, its total times the ratios of the calls to it |
| `Conservation.RatioSum` | Code/scripts/gprof2dot.py:82-96 | with non-negative counts: the ratios of the calls to a function sum to one, or to the number of counted calls when the counts sum to zero |
| `Conservation.CycleRatioSum` | Code/scripts/gprof2dot.py:407-446 | with non-negative counts: the ratios of the calls that enter a cycle sum to one, or to the number of counted ones when the counts sum to zero |
| `Conservation.Balance` | Code/scripts/gprof2dot.py:407-499 | the totals of functions without callers equal all own costs plus, for every function, its total times what the ratios of its calls exceed or miss one by |
| `Conservation.Conserved` | Code/scripts/gprof2dot.py:407-499 | conservation when every called function has a positive count or exactly one counted call |
| `Conservation.PositiveCountsConserve` | Code/scripts/gprof2dot.py:407-499 | with positive call counts the functions without non-self callers hold the cost of the whole profile |
| `Conservation.TotalsSign` | Code/scripts/gprof2dot.py:481-499 | totals of profiles with non-negative costs and counts are not negative, and positive exactly for functions that carry cost: own cost, or a call that passes on cost its callee carries |
| `Conservation.ConservedIff` | Code/scripts/gprof2dot.py:82-96 | on calls, counts and own costs alone: conserved when no function that carries cost is starved or has only uncounted calls; with starved ones only the roots end with more than the own costs, with uncounted ones only with less, so unless both occur this is an equivalence |
| `Conservation.ConservedIffCounted` | Code/scripts/gprof2dot.py:407-499 | when all calls are counted: conserved exactly when no function that carries cost has several calls all counted as zero |
| `Conservation.CostCreated` | Code/scripts/gprof2dot.py:82-96 | two callers with zero counts: however `integrate` ends, the roots have 2.0 where the own costs are 1.0 |
| `Conservation.TwoCallersIntegrated` | Code/scripts/gprof2dot.py:82-96 | such an end of `integrate` on this profile |
| `Conservation.Analyse` | Code/scripts/gprof2dot.py:310-499 | `find_cycles`, `call_ratios` and `integrate` together: no cycle is found exactly when all components are single functions, and then with positive counts the roots end with the total of the profile |
| `JsonValue.BytesTrichotomy` | Code/Libs/JSON/jsoncpp.cpp:2779-2803 | keys are totally ordered, bytes first and then length |
| `JsonValue.BytesOrder` | Code/Libs/JSON/jsoncpp.cpp:2779-2803 | a key is less exactly when it is a proper prefix or has the smaller byte at the first difference |
| `JsonValue.Trichotomy` | Code/Libs/JSON/jsoncpp.cpp:3035-3080 | two values are equal or ordered; they are ordered both ways exactly when, at the first place where they differ, two container sizes are 2^31 apart modulo 2^32 |
| `JsonValue.Exactly` | Code/Libs/JSON/jsoncpp.cpp:3035-3080 | below 2^31 entries exactly one of less, equal, greater holds |
| `JsonValue.Transitive` | Code/Libs/JSON/jsoncpp.cpp:3035-3080 | the order is transitive on all values whose containers have fewer than 2^31 entries |
| `JsonValue.TotalOrderIff` | Code/Libs/JSON/jsoncpp.cpp:3069-3074 | values whose containers have up to n entries are totally ordered exactly when n is below 2^31 |
| `JsonValue.BothWays` | Code/Libs/JSON/jsoncpp.cpp:3069-3074 | an empty array and one with 2^31 entries are each less than the other |
| `JsonValue.EqualIsIdentity` | Code/Libs/JSON/jsoncpp.cpp:3088-3131 | `operator==` is identity of value trees |
| `JsonValue.EqualIffUnordered` | Code/Libs/JSON/jsoncpp.cpp:3035-3131 | `operator==` holds exactly when neither value is less |
| `JsonValue.KindOrder` | Code/Libs/JSON/jsoncpp.cpp:3035-3041 | values of different kinds are ordered null, signed, unsigned, real, string, boolean, array, object |
| `JsonValue.ScalarOrder` | Code/Libs/JSON/jsoncpp.cpp:3042-3065 | numbers of a kind by value, false before true, strings at their first different byte with a proper prefix first |
| `JsonValue.ContainerOrder` | Code/Libs/JSON/jsoncpp.cpp:3067-3080 | arrays and objects by size and then at their first different entry, objects by key before value; from 2^31 entries on sizes compare by the low 32 bits of their difference |
| `JsonNumber.UIntToString` | Code/Libs/JSON/jsoncpp.cpp:164-170 | the digits and a NUL, ending exactly where the pointer was and starting as many bytes before it as they need |
| `JsonNumber.ValueToStringInt` | Code/Libs/JSON/jsoncpp.cpp:4228-4242 | the decimal text of every signed 64-bit value, inside the 25-byte buffer |
| `JsonNumber.ValueToStringUInt` | Code/Libs/JSON/jsoncpp.cpp:4244-4250 | the decimal text of every unsigned 64-bit value, inside the 25-byte buffer |
| `JsonNumber.DigitsLength` | Code/Libs/JSON/jsoncpp.cpp:150-162 | a number below 10^k has at most k digits, which bounds the buffer |
| `JsonNumber.DecodeNumber` | Code/Libs/JSON/jsoncpp.cpp:780-820 | the accumulator stays inside 64 bits, and a token is an integer exactly when it is digits with an optional minus whose value fits |
| `JsonNumber.PositionalIs` | Code/Libs/JSON/jsoncpp.cpp:792-810 | what the digits accumulate to is their positional value |
| `JsonNumber.IntegerRoundTrip` | Code/Libs/JSON/jsoncpp.cpp:780-820 | decoding the printed text gives the integer back over the whole signed and unsigned range |
| `JsonString.Utf8ToCodepoint` | Code/Libs/JSON/jsoncpp.cpp:4317-4366 | moves on by at least one byte and never beyond the string |
| `JsonString.ValueToQuotedStringN` | Code/Libs/JSON/jsoncpp.cpp:4397-4467 | the loop produces the quoted form of any byte string |
| `JsonString.RequiresQuoting` | Code/Libs/JSON/jsoncpp.cpp:4304-4315 | true exactly when some byte requires quoting |
| `JsonString.DecodeString` | Code/Libs/JSON/jsoncpp.cpp:855-964 | the loop decodes every token, or reports the first error |
| `JsonString.TokenEndsAtQuote` | Code/Libs/JSON/jsoncpp.cpp:664-674 | the scanner stops exactly behind the printed closing quote, whatever follows |
| `JsonString.StepRoundTrip` | Code/Libs/JSON/jsoncpp.cpp:855-964 | one character up to U+3FFFF, as printed, is read back and the reader goes on behind it |
| `JsonString.StepLoses` | Code/Libs/JSON/jsoncpp.cpp:4350-4360 | one character above U+3FFFF is read back as another one |
| `JsonString.BodyRoundTrip` | Code/Libs/JSON/jsoncpp.cpp:4397-4467 | the escaped form decodes to the string exactly when all characters are at most U+3FFFF |
| `JsonString.StringRoundTrip` | Code/Libs/JSON/jsoncpp.cpp:855-964 | a valid UTF-8 string comes back exactly when its characters are at most U+3FFFF or it is printed raw |
| `JsonString.LostCharacter` | Code/Libs/JSON/jsoncpp.cpp:4356-4358 | what is printed for U+40000 where `char` is signed, and for U+40000 followed by an ASCII letter whatever the sign, is not read back as the string |
| `JsonGrammar.ReadToken` | Code/Libs/JSON/jsoncpp.cpp:471-540 | every token lies inside the document behind the cursor, and only the end of the stream is empty |
| `JsonGrammar.ReadSkippingComments` | Code/Libs/JSON/jsoncpp.cpp:461-469 | the next token that is no comment |
| `JsonGrammar.Recover` | Code/Libs/JSON/jsoncpp.cpp:976-987 | recovery never moves backwards nor beyond the document |
| `JsonGrammar.ReadValue` | Code/Libs/JSON/jsoncpp.cpp:380-459 | a value ends behind its start and inside the document, and fails with exactly one error |
| `JsonGrammar.ReadItems` | Code/Libs/JSON/jsoncpp.cpp:732-768 | the same for the elements of an array |
| `JsonGrammar.ReadMembers` | Code/Libs/JSON/jsoncpp.cpp:676-730 | the same for the members of an object |
| `JsonReader.Reader.NextToken` | Code/Libs/JSON/jsoncpp.cpp:471-540 | the mutating tokenizer finds exactly the token of the grammar |
| `JsonReader.Reader.ReadCStyleComment` | Code/Libs/JSON/jsoncpp.cpp:617-624 | ends behind the first `*/`; without one it runs to the end of the document and fails, unless the last byte is `/`, which the code takes for the end |
| `JsonReader.Reader.ReadString` | Code/Libs/JSON/jsoncpp.cpp:664-674 | the cursor ends where the scan of the token ends |
| `JsonReader.Reader.RecoverFromError` | Code/Libs/JSON/jsoncpp.cpp:976-987 | skips to the given token or the end and keeps the errors found so far |
| `JsonReader.Reader.ReadArray` | Code/Libs/JSON/jsoncpp.cpp:732-768 | refines the grammar of elements, cursor, stack and errors included |
| `JsonReader.Reader.ReadObject` | Code/Libs/JSON/jsoncpp.cpp:676-730 | refines the grammar of members, cursor, stack and errors included |
| `JsonReader.Reader.Value` | Code/Libs/JSON/jsoncpp.cpp:380-459 | refines the grammar of values: result, cursor, node stack and errors |
| `JsonReader.Reader.ParseDocument` | Code/Libs/JSON/jsoncpp.cpp:339-378 | on every byte string it ends, or raises exactly at the stack limit; it succeeds exactly when a JSON text of at most 1000 levels begins the document, and then the stack holds what that text means; otherwise there is exactly one error |
| `JsonText.PutLists` | Code/Libs/JSON/jsoncpp.cpp:708 | storing a member keeps the members the sorted list of a map in which that name has the new value |
| `JsonText.ListsOnce` | Code/Libs/JSON/jsoncpp.cpp:708 | a map has one sorted list of members |
| `JsonLanguage.GapSkipped` | Code/Libs/JSON/jsoncpp.cpp:542-637 | spaces, tabs, carriage returns, line feeds and comments of both kinds are passed over, whatever follows |
| `JsonLanguage.PieceDecoded` | Code/Libs/JSON/jsoncpp.cpp:855-964 | bytes, all two-character escapes, four hexadecimal digits of either case and surrogate pairs are read as the UTF-8 of what they mean |
| `JsonLanguage.NumeralEnds` | Code/Libs/JSON/jsoncpp.cpp:642-662 | the scanner ends exactly behind a number that nothing continues |
| `JsonLanguage.NumeralValue` | Code/Libs/JSON/jsoncpp.cpp:780-820 | a number is an integer exactly when it has neither fraction nor exponent and 64 bits, of the kind its size asks for |
| `JsonLanguage.NodeRead` | Code/Libs/JSON/jsoncpp.cpp:380-459 | every text of a value, anywhere in a document at any depth, is read as what it means, or raises exactly when the depth exceeds the limit |
| `JsonLanguage.ItemsRead` | Code/Libs/JSON/jsoncpp.cpp:732-768 | the rest of an array, with gaps around its items, is read behind the elements read so far |
| `JsonLanguage.MembersRead` | Code/Libs/JSON/jsoncpp.cpp:676-730 | the rest of an object, in any order and with repeated names, leaves the sorted list in which the last member of a name counts |
| `JsonLanguage.ValueFound` | Code/Libs/JSON/jsoncpp.cpp:380-459 | whatever is read as a value is the text of one, behind a gap |
| `JsonLanguage.MembersFound` | Code/Libs/JSON/jsoncpp.cpp:676-730 | whatever is read as the rest of an object is the text of one |
| `JsonLanguage.TextParsed` | Code/Libs/JSON/jsoncpp.cpp:339-378 | a document that begins with a JSON text is parsed as what it means up to 1000 levels of nesting, and raises above |
| `JsonLanguage.ParsedText` | Code/Libs/JSON/jsoncpp.cpp:339-378 | a document that is parsed begins with a JSON text |
| `JsonLanguage.ParseIff` | Code/Libs/JSON/jsoncpp.cpp:339-378 | a document is parsed exactly when a JSON text of at most 1000 levels begins it, and the value is what that text means |
| `JsonWriter.FastWriter.WriteValue` | Code/Libs/JSON/jsoncpp.cpp:4498-4550 | appends the text of the value and nothing else |
| `JsonWriter.FastWriter.Write` | Code/Libs/JSON/jsoncpp.cpp:4490-4496 | the text of the value, with or without a line feed |
| `JsonPrinted.StringPrinted` | Code/Libs/JSON/jsoncpp.cpp:4397-4467 | a string is printed between quotes: raw when it has only bytes from 0x80 on and `char` is unsigned, else every character up to U+3FFFF by its short escape, itself, four lower-case hexadecimal digits or a surrogate pair |
| `JsonPrinted.BrokenPrinted` | Code/Libs/JSON/jsoncpp.cpp:4317-4366 | truncated UTF-8 is printed as U+FFFD |
| `JsonPrinted.ScalarPrinted` | Code/Libs/JSON/jsoncpp.cpp:4498-4521 | keywords, and integers in decimal without leading zeros |
| `JsonPrinted.ArrayPrinted` | Code/Libs/JSON/jsoncpp.cpp:4522-4531 | brackets around the texts of the items with commas between them |
| `JsonPrinted.ObjectPrinted` | Code/Libs/JSON/jsoncpp.cpp:4532-4547 | braces around the members with commas between them; a colon, with a space for YAML, behind each name |
| `JsonRoundTrip.ValueBack` | Code/Libs/JSON/jsoncpp.cpp:380-459 | the text of a value, anywhere in a document at any depth, is read back as the value, or raises exactly when the depth exceeds the limit |
| `JsonRoundTrip.ItemsBack` | Code/Libs/JSON/jsoncpp.cpp:732-768 | the rest of a printed array is read back behind the elements read so far |
| `JsonRoundTrip.MembersBack` | Code/Libs/JSON/jsoncpp.cpp:676-730 | the rest of a printed object is read back behind the members read so far |
| `JsonRoundTrip.RoundTrip` | Code/Libs/JSON/jsoncpp.cpp:4490-4550 | parsing the written document gives the value up to integer kind, without errors, exactly up to height 1000 |
| `JsonRoundTrip.NormSame` | Code/Libs/JSON/jsoncpp.cpp:811-818 | the value read back differs from the written one at most in the kind of its integers |
| `Handlers.Find` | Code/opendatacon/DataConcentrator.cpp:1291-1298 | the first old entry of a name, or none exactly when the name is new |
| `Handlers.FindChangedConfs` | Code/opendatacon/DataConcentrator.cpp:1273-1359 | the new, changed and deleted names, exactly, and the entries to build: those of a new or different name, in order; objects without a name are skipped, but an old one without a new one deletes the empty name |
| `Handlers.FindDeleted` | Code/opendatacon/DataConcentrator.cpp:1345-1357 | the old names the new configuration lacks, the missing name included |
| `Handlers.SelectedFirst` | Code/opendatacon/DataConcentrator.cpp:1333-1343 | of the entries to build, the first valid one of a name is the first valid one of the new configuration |
| `Inherits.DifferentIff` | Code/opendatacon/DataConcentrator.cpp:1302-1332 | an entry is found different exactly when its type, library, overrides or own file differ, or a directly inherited file that was cached before |
| `Inherits.NotDifferent` | Code/opendatacon/DataConcentrator.cpp:1302-1332 | an entry not found different reads the same files exactly when nothing changed below the first level of inheritance or in a file not readable before |
| `Inherits.OneLevel` | Code/opendatacon/DataConcentrator.cpp:1302-1332 | without indirect inheritance the comparison is complete |
| `Inherits.MissedChange` | Code/Libs/ODC/ConfigParser.cpp:39-50 | a change two levels down that the comparison misses |
| `Inherits.ReadByParts` | Code/Libs/ODC/ConfigParser.cpp:39-50 | equal files read the same exactly when all they inherit does |
| `Reload.TornDown` | Code/opendatacon/DataConcentrator.cpp:1593-1632 | after tearing down, every connection that stays leads to a live port or is noted for a new address, and the subscribers of every changed port are noted |
| `Reload.StayingConnector` | Code/opendatacon/DataConcentrator.cpp:1608-1622 | a connector that stays has only right or noted connections |
| `Reload.StayingPort` | Code/opendatacon/DataConcentrator.cpp:1593-1599 | a port that stays lists exactly the staying connectors connected to it |
| `Rebuild.PortsKeepMid` | Code/opendatacon/DataConcentrator.cpp:1667 | building ports keeps that; a really new port has no subscriber and nobody is connected to it |
| `Rebuild.ResubscribedLate` | Code/opendatacon/DataConcentrator.cpp:1668-1684 | with the noted subscribers back, every port lists exactly its connectors |
| `Rebuild.ConnectorsKeepLate` | Code/opendatacon/DataConcentrator.cpp:1688 | new connectors keep that: they are listed exactly at the ports they are connected to |
| `Rebuild.Repaired` | Code/opendatacon/DataConcentrator.cpp:1689-1705 | with every noted address replaced, no connection dangles and the invariant holds |
| `ReloadSteps.DisabledDone` | Code/opendatacon/DataConcentrator.cpp:1537-1553 | the ports to enable again are exactly the enabled ones of a changing connector, also when several connectors share a port |
| `ReloadSteps.SubscriberIsPeer` | Code/opendatacon/DataConnector.cpp:74-79 | only connectors are subscribers, and only at their peers |
| `ReloadSteps.LinksRegistered` | Code/opendatacon/DataConnector.cpp:68-76 | every connection made leads to a registered handler, by its address |
| `ReloadRun.FlagBack` | Code/opendatacon/DataConcentrator.cpp:1797-1798 | a port disabled for the reload and enabled again has its old flag |
| `ReloadRun.CheckedDangling` | Code/opendatacon/DataConcentrator.cpp:1525-1535 | when the check passes, every subscriber of a deleted handler goes too |
| `ReloadRun.NamesFitSets` | Code/opendatacon/DataConcentrator.cpp:1479-1501 | handlers that stay, are built or are enabled do not clash in their names |
| `ReloadRun.SameConfig` | Code/opendatacon/DataConcentrator.cpp:1273-1359 | with the same files and the same configuration of distinct names nothing is found different |
| `Wiring.LinksWired` | Code/opendatacon/DataConnector.cpp:48-80 | a new connector has, for each pair of its entry whose ports are live, the connection from the first to the second and back, in order, and no others |
| `Wiring.MadeWired` | Code/opendatacon/DataConnector.cpp:48-80 | and still has them, up to addresses, when the addresses of changed ports are replaced |
| `ReloadRun.WiredRebuilt` | Code/opendatacon/DataConcentrator.cpp:1688-1705 | a rebuilt connector has the connections of the first valid entry of its name in the new configuration |
| `Concentrator.DataConcentrator.constructor` | Code/opendatacon/DataConcentrator.cpp:90-101 | after start-up the invariant holds, all handlers stem from the configuration, and every connector has exactly the connections its entry asks for |
| `Concentrator.DataConcentrator.DisableAll` | Code/opendatacon/DataConcentrator.cpp:1537-1553 | the handlers of the set are disabled, the staying ports of its connectors too, and exactly those that were enabled are returned |
| `Concentrator.DataConcentrator.UnsubscribeAll` | Code/opendatacon/DataConcentrator.cpp:1593-1599 | no connector of the set is a subscriber anywhere, all other subscriptions stay |
| `Concentrator.DataConcentrator.RemoveAll` | Code/opendatacon/DataConcentrator.cpp:1601-1632 | exactly the handlers of the set are gone from all tables, and the subscribers of the changed ones are noted with the connectors that need a new address |
| `Concentrator.DataConcentrator.ProcessPorts` | Code/opendatacon/DataConcentrator.cpp:835-962 | exactly the valid entries of names not yet taken become ports with fresh addresses, disabled and without subscribers; nothing else changes |
| `Concentrator.DataConcentrator.Resubscribe` | Code/opendatacon/DataConcentrator.cpp:1668-1679 | the replaced ports get their old subscribers, no other table changes |
| `Concentrator.DataConcentrator.Connect` | Code/opendatacon/DataConnector.cpp:74-79 | a connection both ways and the connector as subscriber at both ends |
| `Concentrator.DataConcentrator.ProcessElements` | Code/opendatacon/DataConnector.cpp:48-80 | the connections of all pairs of registered handlers, in order, and the subscriptions at exactly their peers |
| `Concentrator.DataConcentrator.ProcessConnectors` | Code/opendatacon/DataConcentrator.cpp:967-985 | exactly the valid entries of names not yet taken become connectors with the connections of their entry |
| `Concentrator.DataConcentrator.ReplaceAddress` | Code/opendatacon/DataConnector.cpp:228-235 | every connection to that port, and no other, has the new address |
| `Concentrator.DataConcentrator.ReplaceAddresses` | Code/opendatacon/DataConcentrator.cpp:1689-1705 | all noted addresses are replaced, or it fails exactly when a noted port was not built again |
| `Concentrator.DataConcentrator.EnableAll` | Code/opendatacon/DataConcentrator.cpp:1797-1798 | exactly the named handlers are enabled |
| `Concentrator.DataConcentrator.TearDown` | Code/opendatacon/DataConcentrator.cpp:1593-1632 | the intermediate invariant, with every handler outside the set untouched; a connector waits for a changed port exactly when a staying one was subscribed to it |
| `Concentrator.DataConcentrator.BuildNew` | Code/opendatacon/DataConcentrator.cpp:1667-1705 | the invariant again, with exactly the buildable names added, every new connector wired as its entry says, every new handler disabled and all others untouched with their connections, unless an awaited port is missing |
| `Concentrator.DataConcentrator.Apply` | Code/opendatacon/DataConcentrator.cpp:1593-1798 | the invariant, the identity, flag and connections of every staying handler, the connections and flag of every new one, the exact new name sets, and exactly when it fails |
| `Concentrator.DataConcentrator.Change` | Code/opendatacon/DataConcentrator.cpp:1593-1808 | the part after parking: terminal exactly when an awaited port is missing, otherwise the invariant and exactly the expected handlers with their connections and flags |
| `Concentrator.DataConcentrator.ReloadConfig` | Code/opendatacon/DataConcentrator.cpp:1361-1808 | the exact outcome by its inputs: rejected when the new file has no objects or a staying connector would dangle, terminal exactly when a changed port with staying subscribers has no valid entry; all but a terminal failure keep the invariant; a rejection changes nothing, nor does a reload of the same configuration; success leaves untouched handlers with address, flag and connections, makes exactly the expected names live, and wires every rebuilt connector as the first valid entry of its name says |
| `Concentrator.Serve` | Code/opendatacon/DataConcentrator.cpp:1361-1808 | from start-up through any sequence of reloads: the configuration in use is that of the last request that was loaded, only a shutdown or a terminal failure ends the sequence, and unless it ended in a terminal failure nothing dangles, subscribers match connections, live handlers stem from the configuration in use, and every live connector has exactly the connections of an entry of its name in a configuration that was loaded |
| `Parking.StepCounters` | Code/opendatacon/DataConcentrator.cpp:1243-1246 | every step keeps `num_parked_threads` equal to the number of threads between counting up and down, and the startup count equal to the outstanding start handlers |
| `Parking.RunCounters` | Code/opendatacon/DataConcentrator.cpp:1228-1271 | the same in every state of every run |
| `Parking.StepServing` | Code/opendatacon/DataConcentrator.cpp:1252-1271 | every step keeps: while a request is served no thread is leaving, and when `ParkThreads` has returned all are in the park loop |
| `Parking.ParkedSafely` | Code/opendatacon/DataConcentrator.cpp:1228-1271 | in every run whose requests find no leaving thread, from the return of `ParkThreads` until `parking` is cleared all threads are in the park loop |
| `Parking.StepGoing` | Code/opendatacon/DataConcentrator.cpp:1228-1249 | every step keeps: while the reload waits, a parking task is queued or a thread will post one |
| `Parking.Fill` | Code/opendatacon/DataConcentrator.cpp:1228-1249 | from every state in which the reload waits and a parking task is queued or a thread will post one, all threads can still get into the counted section, and no leaving thread need leave |
| `Parking.Completes` | Code/opendatacon/DataConcentrator.cpp:1252-1262 | from every such state there is a run to the return of `ParkThreads` |
| `Parking.NeverStuck` | Code/opendatacon/DataConcentrator.cpp:1228-1271 | no deadlock: from every reachable state in which a reload waits, `ParkThreads` can still return |
| `Parking.Resumes` | Code/opendatacon/DataConcentrator.cpp:1228-1271 | outside of a reload, from every state there is a run in which all threads get back to waiting for tasks, with no parking task left and nobody counted |
| `Parking.Unsafe` | Code/opendatacon/DataConcentrator.cpp:1243-1262 | with a leaving thread at the request there is a run in which `ParkThreads` returns while that thread is not in the loop |
| `Parking.SafeIff` | Code/opendatacon/DataConcentrator.cpp:1252-1271 | a request is safe in every continuation exactly when it finds no leaving thread |
| `Parking.SafeWhenNobodyCounted` | Code/opendatacon/DataConcentrator.cpp:1252-1271 | a request is safe when `num_parked_threads` is zero |
| `Parking.Race` | Code/opendatacon/DataConcentrator.cpp:1569-1580 | for any number of threads from two on, a run through one reload to an unsafe request |
| `Routing.DataConnector.BuildChain` | Code/opendatacon/DataConnector.cpp:280-301 | the closures built backwards compute the nested calls from the first transform on |
| `Routing.ChainFrom` | Code/opendatacon/DataConnector.cpp:280-301 | from any point of the chain: a crash exactly when a dropped event meets a transform that dereferences it, otherwise the fold |
| `Routing.ChainIsFold` | Code/opendatacon/DataConnector.cpp:280-301 | for events that no transform before the last drops, the chain is the left-to-right fold and every transform steps exactly once |
| `Routing.ChainOfOne` | Code/opendatacon/DataConnector.cpp:280-301 | a chain of one transform is its step; a dropped event is handed on or dereferenced |
| `Routing.ChainOfTwo` | Code/opendatacon/DataConnector.cpp:280-301 | a chain hands its event on to the chain behind it, and keeps its own memories |
| `Routing.DroppedEvent` | Code/opendatacon/DataConnector.cpp:287-296 | after a drop: a crash exactly when a later transform dereferences null, otherwise nothing is delivered and the later transforms keep their state |
| `Routing.CrashingChain` | Code/opendatacon/DataConnector.cpp:287-296 | a transform that drops everything before one that dereferences crashes on every event |
| `Routing.DataConnector.Deliver` | Code/opendatacon/DataConnector.cpp:271-278 | one delivery for every connection of the sender, in order |
| `Routing.OnePerConnection` | Code/opendatacon/DataConnector.cpp:271-278 | the connections of a sender, each as often as it is in the table |
| `Routing.DeliveriesAre` | Code/opendatacon/DataConnector.cpp:271-278 | each connection of the sender gets the event in its turn, at its address, and nobody else does |
| `Routing.DataConnector.Event` | Code/opendatacon/DataConnector.cpp:248-309 | either one UNDEFINED status and no delivery, or exactly one delivery per connection with the event of the chain; only the memories of the sender's transforms change |
| `Routing.DataConnector.Exchange` | Code/opendatacon/DataConnector.cpp:248-309 | an event with the answers of its receivers: unless a transform crashed, the sender gets exactly one status, UNDEFINED without a delivery and the combined one otherwise |
| `Routing.MultiCallback.Call` | Code/Libs/ODC/IOHandler.cpp:100-142 | when all receivers have answered, the sender has got exactly one status: the common one, or UNDEFINED when they differ |
| `Routing.Collect` | Code/Libs/ODC/IOHandler.cpp:100-142 | for any number of receivers, one included, the sender gets exactly one status: one other than UNDEFINED exactly when all answered it |
| `Routing.AnyOrder` | Code/Libs/ODC/IOHandler.cpp:100-142 | the order in which receivers answer does not matter |
| `Http.Step` | Code/Libs/HTTP/request_parser.cpp:26-310 | after every byte there is a header wherever `headers.back()` may be taken next |
| `Http.FeedJoin` | Code/Libs/HTTP/request_parser.hpp:38-48 | feeding two parts is feeding their concatenation, up to the first verdict |
| `Http.AnyChunking` | Code/Libs/HTTP/connection.cpp:36-61 | the chunks do not matter: same parser, same verdict at the same byte |
| `Http.RoundTrip` | Code/Libs/HTTP/request_parser.cpp:26-310 | a printed request gives `good` exactly at its last byte, with the same method, URI, version, headers and body |
| `Http.RoundTripChunks` | Code/Libs/HTTP/connection.cpp:36-61 | the same in any chunking |
| `Http.GoesBody` | Code/Libs/HTTP/request_parser.cpp:277-305 | the empty line and a body of the announced length, verdict at the last byte |
| `Http.GoesFolded` | Code/Libs/HTTP/request_parser.cpp:191-226 | a folded header line, also one of blanks only, appends what follows its blanks to the value of the last header |
| `Http.AccurateLength` | Code/Libs/HTTP/request_parser.cpp:281-286 | a last header with the printed length of the body makes the request accurate |
| `Http.ClientGet` | Code/Libs/HTTP/clientrequest.cpp:39-42 | the client's own request, in any chunking, is accepted with its path and three headers |
| `Http.Accepted` | Code/Libs/HTTP/request_parser.cpp:26-310 | whatever is accepted is a well-formed request with a body of the announced length |
| `Http.Normalises` | Code/Libs/HTTP/request_parser.cpp:26-310 | printing an accepted request gives a text that is accepted as the same request |
| `HttpLanguage.TextAccepted` | Code/Libs/HTTP/request_parser.cpp:26-310 | every request text, with leading zeros in its version, folded lines and a body of the announced length, gives `good` at its last byte as the request it means |
| `HttpLanguage.AcceptedText` | Code/Libs/HTTP/request_parser.cpp:26-310 | whatever gives `good` at its last byte is a request text |
| `HttpLanguage.LinesRest` | Code/Libs/HTTP/request_parser.cpp:166-276 | the header lines of an accepted input are folded lines, but not before the first header, and headers |
| `HttpLanguage.StoulIff` | Code/Libs/HTTP/request_parser.cpp:281-286 | what a Content-Length announces: blanks, a sign and digits, then anything, as the positional value of the digits in 64 bits |
| `HttpLanguage.LengthsIff` | Code/Libs/HTTP/request_parser.cpp:281-286 | the body length is what the last Content-Length header announces, and none when there is no such header |
| `HttpLanguage.TextIs` | Code/Libs/HTTP/request_parser.cpp:312-340 | the request texts, with the bytes of words, names and lines listed one by one |
| `HttpLanguage.Language` | Code/Libs/HTTP/request_parser.cpp:26-310 | a byte string gives `good` at its last byte exactly when it is a request text, in terms of literal bytes |
| `HttpLanguage.GoodIff` | Code/Libs/HTTP/request_parser.hpp:38-48 | any input gives `good` exactly when a request text begins it; the parser stops behind that text with the request it means |
| `HttpLanguage.PrefixFree` | Code/Libs/HTTP/request_parser.cpp:26-310 | no request text begins with another one, and equal texts mean the same |
| `HttpParser.RequestParser.Reset` | Code/Libs/HTTP/request_parser.cpp:21-24 | only the state is reset |
| `HttpParser.RequestParser.Consume` | Code/Libs/HTTP/request_parser.cpp:26-310 | one byte changes parser and request as the state machine says |
| `HttpParser.RequestParser.ScanLengths` | Code/Libs/HTTP/request_parser.cpp:281-286 | the last Content-Length wins, and an unreadable one raises with the value so far |
| `HttpParser.RequestParser.Parse` | Code/Libs/HTTP/request_parser.hpp:38-48 | stops behind the byte of the first verdict |
| `HttpParser.ReadRequest` | Code/Libs/HTTP/connection.cpp:36-61 | reading chunk by chunk until a verdict |
| `Scheduler.AddPeriodic` | include/opendatacon/ASIOScheduler.h:116-124 | adding a task keeps every task on its periods |
| `Scheduler.AddInLine` | include/opendatacon/ASIOScheduler.h:116-124 | adding a task keeps the deadlines of runs and tasks in line exactly when its first one does not lie before that of the last run |
| `Scheduler.AddDue` | include/opendatacon/ASIOScheduler.h:116-124 | as long as every run was due, a task may be added with any period |
| `Scheduler.Overtakes` | include/opendatacon/ASIOScheduler.h:116-124 | a task added too early is the only one to run next, for a smaller deadline than the run before |
| `Scheduler.FirePeriodic` | include/opendatacon/ASIOScheduler.h:141-149 | running a task, early or not, keeps that |
| `Scheduler.FireInLine` | include/opendatacon/ASIOScheduler.h:141-149 | running the earliest task, due or not, keeps deadlines in line, and never mends them |
| `Scheduler.RunInLine` | include/opendatacon/ASIOScheduler.h:116-149 | over any run, deadlines stay in line exactly when every task is added with a deadline not before that of the last run |
| `Scheduler.RunPeriodic` | include/opendatacon/ASIOScheduler.h:116-149 | over any run every task stays on its periods |
| `Scheduler.EarlyRun` | include/opendatacon/ASIOScheduler.h:141-149 | a run of the scheduler, through its methods, whose second execution has a smaller deadline than the first |
| `Scheduler.KthDeadline` | include/opendatacon/ASIOScheduler.h:57-65 | the k-th deadline of a task is its first plus k periods |
| `Scheduler.Fairness` | include/opendatacon/ASIOScheduler.h:141-149 | when deadlines are in line: between consecutive runs of one task another with a positive period runs at most floor(p_i/p_j)+1 times |
| `Scheduler.RunFair` | include/opendatacon/ASIOScheduler.h:116-149 | the same in every run from start-up in which tasks are added in time |
| `Scheduler.ASIOScheduler.Top` | include/opendatacon/ASIOScheduler.h:72-85 | some task with the earliest deadline |
| `Scheduler.ASIOScheduler.Start` | include/opendatacon/ASIOScheduler.h:100-114 | the timer is set to the earliest deadline |
| `Scheduler.ASIOScheduler.TimerDue` | include/opendatacon/ASIOScheduler.h:105-113 | when the timer is due, a task is |
| `Scheduler.ASIOScheduler.Add` | include/opendatacon/ASIOScheduler.h:116-124 | a new task is due one period from now and everything else stays; deadlines stay in line exactly when that is not before the deadline of the last run, which holds when all runs were due |
| `Scheduler.ASIOScheduler.DoScheduledTask` | include/opendatacon/ASIOScheduler.h:141-149 | runs a task with the earliest deadline, due or not, and moves it on by one period; deadlines are in line afterwards exactly when they were before, and all runs were due exactly when this one was too |
| `RingList.ListElem.Unlink` | include/trompeloeil.hpp:830-842 | the others stay a ring in their order, and the element is a ring of its own |
| `RingList.ListElem.Move` | include/trompeloeil.hpp:794-819 | the target takes exactly the place of the source, which is a ring of its own |
| `RingList.List.PushFront` | include/trompeloeil.hpp:1048-1062 | the ring of the list is the new element followed by the old ones |
| `RingList.List.PushBack` | include/trompeloeil.hpp:1064-1078 | the ring of the list is the old elements followed by the new one |
| `RingList.List.Remove` | include/trompeloeil.hpp:830-842 | removes only that element |
| `RingList.List.MoveFrom` | include/trompeloeil.hpp:1011-1012 | the whole sequence moves to the new head and the old list is empty; elements the target had form no ring with its head any more |
| `RingList.List.Traverse` | include/trompeloeil.hpp:1028-1046 | iteration visits exactly the elements, in order |
| `Mock.ExpectInv` | include/trompeloeil.hpp:2912-2919 | registering with any bounds min <= max keeps the invariant |
| `Mock.ExpectIs` | include/trompeloeil.hpp:2912-2919 | what registering does to every list |
| `Mock.PendingFirst` | include/trompeloeil.hpp:1202-1211 | all members before the first pending one are complete |
| `Mock.PendingFirstBack` | include/trompeloeil.hpp:1202-1211 | a pending member behind complete ones is the first pending one |
| `Mock.CountedInv` | include/trompeloeil.hpp:2965-2993 | taking a call keeps the invariant: lists, limits, and the order along every sequence |
| `Mock.CountedLists` | include/trompeloeil.hpp:2965-2993 | what taking a call does to every list: with the last required call an expectation leaves its sequences, with the last allowed one it moves to the end of the saturated list |
| `Mock.LatestTakes` | include/trompeloeil.hpp:2369-2392 | of all matching active expectations that may be called now, exactly the latest registered one is found |
| `Mock.ExactlyOne` | include/trompeloeil.hpp:2986-2990 | every expectation is in exactly one of its function's active and saturated lists and in no other, within its limit |
| `Mock.RegistrationOrder` | include/trompeloeil.hpp:1213-1234 | along a sequence an expectation with required calls is called only after all registered before it have required calls and have had them |
| `Mock.CallableIff` | include/trompeloeil.hpp:1202-1211 | an expectation may be called exactly when it has had its required calls or all registered before it in its sequences are retired |
| `Mock.NeverRetired` | include/trompeloeil.hpp:2979-2985 | behind an expectation without required calls, none with required calls was ever called nor may be |
| `Mock.BlockedCall` | include/trompeloeil.hpp:2979-2985 | a test in which the required call of the second expectation of a sequence is reported, because the first has no required calls |
| `Mock.Mocks.Register` | include/trompeloeil.hpp:2912-2919 | for any bounds min <= max the new expectation is first in the active list of its function and last in its sequences, and no other list changes |
| `Mock.Mocks.Find` | include/trompeloeil.hpp:2369-2392 | the first matching expectation that may be called now, or else the first matching one |
| `Mock.Mocks.Call` | include/trompeloeil.hpp:2965-2993 | a call is taken exactly when the latest registered matching active expectation that may be called now does not forbid calls; it is counted, retired and saturated, and a report changes nothing |

## Left out

- Sockets, timers, dynamic libraries, signals, daemon code, log sinks, UI commands, Lua and Python glue: I/O and foreign code.
- `EventConversion.h`, `RateLimitTransform`, `IOTypes.h` tables, `EventDB`, `TCPSocketManager` and the bodies of the single transforms.
- gprof2dot's format parsers, `DotWriter`, themes and the integration inside a cycle; profiles with cycles are covered up to `call_ratios`.
- Integrate.Profile.Run: requires that no cycle was found, because the integration inside cycles is not modelled; floats are reals.
- Integrate.Profile.IntegrateFunction: the same.
- Integrate.Profile.IntegrateCall: the same.
- Conservation.ConservedIff: counts and own costs are not negative; when starved and lost cost occur together they can cancel, and only the exact balance of `Conservation.Balance` is stated.
- JsonValue.EqualIsIdentity: reals are without NaN.
- JSON comments as stored data, source offsets, styled writers, `OurReader`, and real numbers: `decodeDouble` is a parameter of the reader, and the writer model has no reals.
- JsonNumber.ValueToStringInt: the smallest integer, which the source prints in a branch of its own, goes through the common path.
- JsonReader.Reader.ParseDocument: the features `strictRoot`, `allowDroppedNullPlaceholders` and `allowNumericKeys` are off, as in `Features::all`.
- JsonLanguage.ParseIff: a number that is no 64-bit integer means what `decodeDouble` makes of it; which error is reported on other documents, and the partial value left then, is stated by the grammar only.
- JsonPrinted.StringPrinted: what is printed for characters above U+3FFFF is in `JsonString.StepLoses`.
- JsonWriter.FastWriter.WriteValue: `dropNullPlaceholders` is off and arrays are dense.
- Concentrator.DataConcentrator.ReloadConfig: requires that ports and connectors have different names, that live handlers stem from the old configuration and that links name ports only, as the source takes for granted; a handler whose `Build` failed is one that is not in `started`; plugins are compared but their interfaces, the file cache, demands and the lock against a second reload are not modelled; entries without a name are modelled in `FindChangedConfs` only; enabling is the set of handlers whose posted enabling has run.
- Concentrator.DataConcentrator.constructor: the same requirements on names and links as `ReloadConfig`.
- Concentrator.DataConcentrator.RemoveAll: the old objects are deleted at once, not by another thread.
- Parking.RunCounters: `shutting_down` stays false, and a delayed start counts as a queued one.
- Routing.DataConnector.Event: a transform calls its continuation exactly once before it returns.
- Http.Step: the version numbers are unbounded integers, so the overflow of `int` is not modelled.
- Scheduler.ASIOScheduler.DoScheduledTask: actions do not touch the scheduler, and the schedule is not empty, which the source takes for granted when it takes the top.
- Mock.Mocks.Call: reporting, tracing, actions and the destruction of expectations are not modelled.
