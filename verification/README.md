# bitkit-core: what its stores, wire format and decoder guarantee

A Dafny model of four parts of bitkit-core, with proofs about whole runs and all inputs.

**The activity database** (`Activity*.dfy`, `Sql*.dfy`, `RelationalAlgebra.dfy`). Payments are kept in four
tables: a parent, an onchain and a lightning detail table, and tags. `ActivityTables` gives each SQL statement
as a function on the tables with its binding limits, CHECKs, primary keys, triggers, foreign keys and cascade.
The class `ActivityDB` runs them over a scratch copy that is committed at the end or dropped on an early return.
`ActivityStore` is the meaning: a map from id to an activity with its tags. Every operation is proved to be one
step on that map, for every outcome, and so is every run. The schema does not force a parent to have one detail
row and of the right type; the methods keep that, and the queries rely on it.

`get_activities` is followed from its arguments to its result: the SQL text it grows, SQL's reading of that text,
three-valued WHERE conditions over left joins, DISTINCT, the type-guarded join back, ORDER BY and LIMIT, and the
row mapper. For every filter combination and every order the engine may scan in, the result is what a plain
filter over the map gives; `ActivityAnswers` says what that is in terms of the timestamps alone, and `ActivityOutcomes`
what every call leaves to be read. `ActivityLookups` adds lookup by id and by tag and paging without ties,
`ActivityPaging` paging with them.

**The UniFFI wire format and handles** (`Uniffi*.dfy`). Types are described once (integers, booleans, strings,
data, options, sequences, dictionaries, records, enumerations), and writing and reading are defined over the
descriptions. `UniffiFormat` gives the format a third time, as which byte of a buffer carries what, and `UniffiUtf8`
what a string is: what is written is spelled so, and what is spelled so is read. Reading undoes writing in place for every type and every dictionary order; truncated and
over-long buffers are refused. In the other direction, accepted bytes can have been written exactly when their
booleans are 0 or 1 and no dictionary repeats a key, and exactly the types without booleans and dictionaries accept
nothing else. The classes `Writer`, `Reader` and `UniffiHandleMap` are proved against these functions. The handle
protocol is a state machine over polls and callbacks in any interleaving, with duplicate, late and unknown handles.

**The Blocktank mirror** (`Blocktank*.dfy`). The server's answers are arguments, nothing is assumed about them
except where a lemma says so. The tables are the replay of what was stored, and refreshing the active rows is
enough when finished orders never change. The filtered queries are followed from their text with `?` marks and
their parameters to the rows, the newest first.

**The scanner** (`Scanner*.dfy`). `decode` with its priority list, deep-link unwrapping and payment-URI parser, and
which texts give which kind of result.

## Where the code and the reading of it differ

- A search for text holding `%` or `_` is not a substring search: `SearchFindsOwnText` gives the exact condition.
- A field is searched only up to its first NUL: what a stored message holds behind one is not found
  (`TextBehindNulIsMissed`; `SearchReadsUpToNul` says what is).
- A tag or search text holding a NUL makes `get_activities` fail to prepare its statement;
  `QueryPlanMeansFilter` shows it is the only way it fails.
- The constraints of the schema admit a parent with rows in both detail tables (`SchemaAllowsTwoDetails`); that no
  state reached through the methods has one is `ReachableIsSound`.
- `upsert_info` clears the current row before it inserts, outside a transaction; when the insert fails no info is
  current any more: `UpsertInfoEffect`.
- A boolean is read from any byte and a dictionary from repeated keys. `LiftedIsLowered` says of every buffer whether
  it could have been written; `OneSpellingIsCanonical` says which types accept no other.
- Decoding a printed payment URI does not always give it back: a message that names a treasure hunt is taken for one
  (`MessageIsTakenForTreasure`), and white space at the end of the last value is lost. `DecodeUndoesPrint` gives the
  exact condition.
- A Lightning address whose user name starts like an invoice, a ticket or an LNURL code is taken for that
  (`LightningAddressDecodes`).
- Wrapping a text in the deep link also removes the links inside it (`DeepLinkIsTakenOut`, `DeepLinkInsideTicket`).
- Paging by time loses an activity whose time is that of the last one on the page before (`TiedActivityIsLost`);
  `PagesListUnlessTied` says from the times alone when it loses none.
- A tag with a NUL is found by `get_activities_by_tag`, where it is bound, but not by `get_activities`
  (`TagLookupAgrees`).
- `get_activity_by_id` answers a parent without its detail row with nothing for onchain but with an error for
  lightning; `GetByIdIsLookup` shows neither can happen.

## Assumptions

Foreign keys are enforced, as in the SQLite build that `Cargo.toml:28` bundles. SQLite's statement semantics
are the ones written out in `ActivityTables`, `ActivityQueryPlan` and `SqlLike`. Scan orders, dictionary orders, clocks,
server answers and storage faults are arguments. Address validation, amount parsing, lower-casing, URL parsing and
Lightning decoding are arguments of `decode`; of the last it is assumed, where stated, that it yields no on-chain
result, as `src/modules/scanner/implementation.rs:248-285` shows.

## Model

| member | source | states |
|---|---|---|
| ActivityTables.InvariantAfterChange | src/modules/activity/implementation.rs:7-62 | when only one id's rows change and they fit, the relational invariant (one detail row of the parent's type, none of the other, tags and details with a parent, checks and confirmation order) holds of the whole state |
| ActivityStore.AbsAfterChange | src/modules/activity/implementation.rs:7-62 | rows of one id determine one entry of the store and touch no other |
| ActivityTransactions.InsertRefines | src/modules/activity/implementation.rs:228-348 | parent and detail INSERT in one transaction add one stamped, untagged entry or fail with the first violated constraint's error |
| ActivityTransactions.UpdateRefines | src/modules/activity/implementation.rs:659-790 | the two UPDATEs replace one entry of the same type, keep id, created_at and tags, and otherwise fail with the exact error and no change |
| ActivityTransactions.UpsertRefines | src/modules/activity/implementation.rs:204-225 | update, then insert only on "no activity found", is one step on the store |
| ActivityTransactions.DeleteRefines | src/modules/activity/implementation.rs:793-817 | the cascade removes exactly one entry with its detail row and tags, and reports whether there was one |
| ActivityTransactions.InsertTagsEffect | src/modules/activity/implementation.rs:840-847 | the loop of INSERT OR IGNORE adds exactly the listed pairs, repeated or not |
| ActivityTransactions.AddTagsRefines | src/modules/activity/implementation.rs:820-854 | tags are united with the entry's, or the id does not exist and nothing changes |
| ActivityTransactions.RemoveTagsEffect | src/modules/activity/implementation.rs:862-869 | the loop of DELETEs removes exactly the listed pairs |
| ActivityTransactions.RemoveTagsRefines | src/modules/activity/implementation.rs:857-876 | tags are taken from the entry; an unknown id is no error |
| ActivityHistory.ExecRefines | src/modules/activity/implementation.rs:204-876 | every mutating call, failed or not, keeps the relational invariant and is one step on the store |
| ActivityHistory.RunRefines | src/modules/activity/implementation.rs:204-876 | any sequence of calls on the four tables is a run of the one map |
| ActivityHistory.ReachableIsSound | src/modules/activity/implementation.rs:7-117 | every state reached from empty tables satisfies the relational invariant, and every entry passes the checks with confirmation no earlier than the activity |
| ActivityHistory.EntriesAreStorable | src/modules/activity/implementation.rs:12-50 | an entry sits under its own id, passes every CHECK, has a creation time and keeps confirmation order |
| ActivityHistory.AbsIsInjective | src/modules/activity/implementation.rs:7-62 | tables that keep the invariant are determined by the store they stand for |
| ActivityHistory.TypeIsKeptUntilDeletion | src/modules/activity/implementation.rs:664-668 | an id keeps its type and creation time under all calls until it is deleted |
| ActivityHistory.ParentKeepsType | src/modules/activity/implementation.rs:664-668 | the same of the parent row in the tables |
| ActivityHistory.UpsertOutcome | src/modules/activity/implementation.rs:204-225 | exactly when upsert succeeds, its uniqueness error when the id has the other type, and what it leaves alone |
| ActivityOutcomes.StorableMeansAcceptable | src/modules/activity/implementation.rs:12-116 | what bindings, CHECKs and triggers demand of an activity, column by column |
| ActivityOutcomes.InsertOutcome | src/modules/activity/implementation.rs:228-348 | exactly when an insert succeeds; it then holds the activity as given, created and updated now, untagged, and every other entry as before |
| ActivityOutcomes.UpdateOutcome | src/modules/activity/implementation.rs:659-790 | exactly when an update succeeds; the entry then holds the new values with the old id, creation time and tags |
| ActivityOutcomes.UpsertRecords | src/modules/activity/implementation.rs:204-225 | an upsert leaves the given activity, created when the entry was if there was one |
| ActivityOutcomes.DeleteOutcome | src/modules/activity/implementation.rs:793-817 | the id is gone, every other entry is as before |
| ActivityOutcomes.TagsOutcome | src/modules/activity/implementation.rs:820-876 | adding and removing moves the listed tags and nothing else; adding to an unknown id fails |
| ActivityOutcomes.InsertedIsReadBack | src/modules/activity/implementation.rs:548-656 | through the tables: lookup by id returns what was inserted, field by field, stamped |
| ActivityOutcomes.UpdatedIsReadBack | src/modules/activity/implementation.rs:548-656 | and what an update wrote, with the creation time that was read before it |
| ActivityOutcomes.OthersAreReadAsBefore | src/modules/activity/implementation.rs:548-656 | a deleted id reads as none, and no call changes what another id reads as |
| ActivityHistory.SchemaAllowsTwoDetails | src/modules/activity/implementation.rs:17-53 | the constraints alone admit a parent with rows in both detail tables |
| ActivityHistory.ConfirmOrderInsideUpdate | src/modules/activity/implementation.rs:92-116 | between the two UPDATEs confirmation order is broken exactly when the new timestamp passes the old confirmation; at the end it holds or the call failed |
| ActivityDatabase.ActivityDB.InsertOnchainActivity | src/modules/activity/implementation.rs:228-295 | result and committed tables are the store's insert step; a failure leaves the tables as they were |
| ActivityDatabase.ActivityDB.InsertLightningActivity | src/modules/activity/implementation.rs:298-348 | the same for lightning, where an empty id is not refused |
| ActivityDatabase.ActivityDB.UpdateOnchainActivityById | src/modules/activity/implementation.rs:659-729 | result and committed tables are the store's update step |
| ActivityDatabase.ActivityDB.UpdateLightningActivityById | src/modules/activity/implementation.rs:732-790 | the same for lightning |
| ActivityDatabase.ActivityDB.UpsertActivity | src/modules/activity/implementation.rs:204-225 | result and committed tables are the store's upsert step |
| ActivityDatabase.ActivityDB.DeleteActivityById | src/modules/activity/implementation.rs:793-817 | the entry is gone, everything else stays, and the result says whether it was there |
| ActivityDatabase.ActivityDB.AddTags | src/modules/activity/implementation.rs:820-854 | result and committed tables are the store's tag union |
| ActivityDatabase.ActivityDB.RemoveTags | src/modules/activity/implementation.rs:857-876 | result and committed tables are the store's tag difference |
| ActivityDatabase.ActivityDB.GetActivities | src/modules/activity/implementation.rs:350-545 | for any scans, the limit-prefix of a sorted list of exactly the entries the arguments describe: ascending by timestamp for Asc, descending otherwise, and no match left out stands before one returned; an error only for a NUL |
| ActivityDatabase.ActivityDB.MapRows | src/modules/activity/implementation.rs:536-544 | the row loop maps all rows in order or stops with the first row's error |
| ActivityDatabase.ActivityDB.BuildQuery | src/modules/activity/implementation.rs:374-467 | the text pushed piece by piece is the text whose meaning TextMeansQuery gives |
| ActivityDatabase.ActivityDB.AppendRest | src/modules/activity/implementation.rs:387-421 | the tag, date and search clauses in the order they are pushed |
| ActivityDatabase.ActivityDB.GetActivityById | src/modules/activity/implementation.rs:548-656 | the store's entry under the id, or none; never an error |
| ActivityDatabase.ActivityDB.GetActivitiesByTag | src/modules/activity/implementation.rs:912-949 | the loop of lookups answers the request for that one tag, in the same order and with the same limit, and never fails |
| SqlText.LiteralReadBack | src/modules/activity/implementation.rs:391-395 | SQL reads an escaped, quoted text back as the text and stops at its closing quote, for every text without a NUL; with one it stops inside |
| SqlText.DecimalReadBack | src/modules/activity/implementation.rs:401-406 | a printed number is read back as itself |
| SqlText.FirstDigitWeighsMost | src/modules/activity/implementation.rs:401-406 | the first digit weighs most, so with DecimalReadBack a number has one decimal text |
| SqlText.TokenizeRendered | src/modules/activity/implementation.rs:374-421 | tokenizing spaced pieces gives back their tokens, whatever quotes or brackets the literals hold, exactly when no literal holds a NUL |
| ActivityQueryRendering.EscapePattern | src/modules/activity/implementation.rs:411 | escaping before or after putting the `%` around is the same |
| ActivityQueryRendering.QueryRendered | src/modules/activity/implementation.rs:374-467 | the pushed text is the rendering of the clause's pieces |
| ActivityQueryReading.TagListParsed | src/modules/activity/implementation.rs:389-396 | SQL reads the list as the original tags in order and stops at its bracket |
| ActivityQueryReading.PiecesParsed | src/modules/activity/implementation.rs:374-467 | the tokens parse to exactly the intended conditions, direction and limit |
| ActivityQueryReading.TextMeansQuery | src/modules/activity/implementation.rs:374-471 | the text means what the arguments ask for, for all tags and searches; only a NUL makes it unreadable |
| ActivityQueryReading.WordsSpelled | src/modules/activity/implementation.rs:374-384 | kinds, payment types and directions are named by the words the schema and SQL know |
| ActivityQueryReading.PlainRequestMeans | src/modules/activity/implementation.rs:463-471 | the default request's text ends in DESC and is read so |
| SqlLike.SearchOfLiteral | src/modules/activity/implementation.rs:409-421 | LIKE on `%text%` is substring search up to ASCII case when the text has no wildcard |
| SqlLike.WildcardFindsMore | src/modules/activity/implementation.rs:409-421 | with `%` or `_` in the text something is found that does not contain it |
| SqlLike.SearchIsSubstringSearch | src/modules/activity/implementation.rs:409-421 | it is substring search on all strings if and only if the text has neither wildcard |
| SqlLike.LikeIsAlignment | src/modules/activity/implementation.rs:409-421 | LIKE with wildcards anywhere: the text can be cut so that each pattern character covers its piece, `%` any, `_` one character, others one of the same letter |
| SqlLike.FoldMeans | src/modules/activity/implementation.rs:409-421 | letters compare equal exactly when they are the same or the two cases of one ASCII letter |
| RelationalAlgebra.LeftJoinMember | src/modules/activity/implementation.rs:368-370 | a row is in a left join iff it pairs two joining rows, or a row with NULLs that joins with none |
| RelationalAlgebra.InnerJoinMember | src/modules/activity/implementation.rs:458 | a row is in an inner join iff it pairs two joining rows |
| RelationalAlgebra.Distinct | src/modules/activity/implementation.rs:366 | the same elements, each once |
| RelationalAlgebra.LeftJoinNoDuplicates | src/modules/activity/implementation.rs:459-460 | joining duplicate-free rows makes no duplicates |
| RelationalAlgebra.SortByCorrect | src/modules/activity/implementation.rs:461 | ORDER BY gives a sorted permutation |
| ActivityQueryProofs.SearchHolds | src/modules/activity/implementation.rs:412-419 | under three-valued logic the OR is true exactly when an existing column matches; NULLs never make it true |
| ActivityQueryProofs.ConditionsMean | src/modules/activity/implementation.rs:371-421 | the WHERE clause is true, not unknown, exactly of the rows the arguments describe |
| ActivityQueryProofs.SearchFindsOwnText | src/modules/activity/implementation.rs:409-421 | among the activities the database can hold whose searched fields have no NUL, a search selects those whose own fields contain the text if and only if the text has no wildcard |
| ActivityQueryProofs.SearchReadsUpToNul | src/modules/activity/implementation.rs:409-421 | for fields with NULs: a wildcard-free text is found if and only if it stands before the first NUL of one of the activity's own fields |
| ActivityQueryProofs.UpToNulIsPrefix | src/modules/activity/implementation.rs:409-421 | what LIKE reads is the text up to its first NUL |
| ActivityQueryProofs.TextBehindNulIsMissed | src/modules/activity/implementation.rs:409-421 | a storable message with the text behind a NUL contains it and is not found, for every wildcard-free text |
| ActivityQueryProofs.FoundIsContained | src/modules/activity/implementation.rs:409-421 | without wildcards nothing is found that does not contain the text, NULs or not |
| ActivityQueryProofs.CandidateMember | src/modules/activity/implementation.rs:367-370 | the three left joins give each parent its tags, or one NULL, with its detail rows |
| ActivityQueryProofs.EntryMatchesWhenARowDoes | src/modules/activity/implementation.rs:365-421 | some joined row of an id matches exactly when its entry does; this needs the relational invariant |
| ActivityQueryProofs.FilteredIdsMean | src/modules/activity/implementation.rs:365-423 | the common table expression holds exactly the ids of matching entries |
| ActivityQueryProofs.OuterMember | src/modules/activity/implementation.rs:457-460 | a row of the outer query is its activity's one row with the detail of its type |
| ActivityQueryProofs.SortedRowsHold | src/modules/activity/implementation.rs:426-461 | before LIMIT: sorted, each matching activity once, no others |
| ActivityQueryProofs.QueryPlanMeansFilter | src/modules/activity/implementation.rs:350-545 | for every state that keeps the invariant, every argument combination and every scan order, get_activities is the limit-prefix of a sorted listing of exactly the matching activities |
| ActivityAnswers.AnswerIsFirstMatches | src/modules/activity/implementation.rs:461-465 | every answer runs oldest first for Asc and newest first for Desc; a match is missing only when the limit is reached, and then it stands behind everything returned |
| ActivityAnswers.AnswersAreFirstMatches | src/modules/activity/implementation.rs:461-465 | and the answers are exactly the sequences of matches of that kind |
| ActivityLookups.GetByIdIsLookup | src/modules/activity/implementation.rs:548-656 | lookup by id is lookup in the store, and no parent misses its detail row |
| ActivityLookups.TagLookupAnswers | src/modules/activity/implementation.rs:912-949 | lookup by tag never fails or drops a row, answers the one-tag request, and each element is what lookup by its id gives |
| ActivityLookups.ListingIsUnique | src/modules/activity/implementation.rs:461 | without equal timestamps a listing is determined |
| ActivityLookups.AnswerIsUnique | src/modules/activity/implementation.rs:461-467 | and so is what the limit leaves of it |
| ActivityLookups.TagLookupAgrees | src/modules/activity/implementation.rs:912-949 | lookup by tag and get_activities with that tag: the same set without a limit, the same sequence without ties; for a tag with a NUL only the first succeeds |
| ActivityLookups.RestIsListing | src/modules/activity/tests.rs:1234-1245 | asking from the last timestamp plus one lists exactly the rest |
| ActivityLookups.PagesConcatenate | src/modules/activity/tests.rs:1221-1248 | ascending pages concatenate to the unlimited result, all full but the last, at most one more than there are activities |
| ActivityLookups.PagesExist | src/modules/activity/tests.rs:1221-1248 | such pages exist for every store the database can hold |
| ActivityPaging.PagesAreWanted | src/modules/activity/tests.rs:1221-1248 | whatever the ties, the pages hold only what was asked for, each activity once, in the order of time |
| ActivityPaging.PagesListUnlessTieIsCut | src/modules/activity/tests.rs:1221-1248 | the pages together hold everything asked for if and only if no page but the last ends between activities of equal time |
| ActivityPaging.SameTimes | src/modules/activity/tests.rs:1221-1248 | all listings of one request have the same times in the same places, so the next condition depends on the request only |
| ActivityPaging.PagesListUnlessTied | src/modules/activity/tests.rs:1221-1248 | pages of n hold everything asked for if and only if, counting through the times of the whole listing, no n-th time is also the next one |
| ActivityPaging.TiedActivityIsLost | src/modules/activity/tests.rs:1221-1248 | two storable activities of one time, asked for one at a time: the second is on no page |
| UniffiRoundTrip.RoundTrip | bindings/ios/bitkitcore.swift:80-153 | reading where a value's encoding stands gives the value and ends right behind it, for every type, surroundings and dictionary order |
| UniffiRoundTrip.DictBack | bindings/ios/bitkitcore.swift:11806-11827 | a dictionary written in any order is read back |
| UniffiRoundTrip.Truncated | bindings/ios/bitkitcore.swift:80-109 | a buffer that ends inside an encoding overflows, wherever it ends |
| UniffiRoundTrip.LiftLower | bindings/ios/bitkitcore.swift:184-200 | for the types that cross as an encoded buffer, lift of a lowered value and extra bytes: the value, or incompleteData when there are any |
| UniffiRoundTrip.LiftTruncated | bindings/ios/bitkitcore.swift:184-200 | for those types, lift of a lowered value with its tail missing throws bufferOverflow |
| UniffiRoundTrip.StringLiftLower | bindings/ios/bitkitcore.swift:461-481 | a string crosses without a length: bytes behind it become part of it, or trap when they are no text |
| UniffiRoundTrip.UniquelyReadable | bindings/ios/bitkitcore.swift:80-153 | two values whose encodings start the same bytes are the same value |
| UniffiRoundTrip.DecodeSound | bindings/ios/bitkitcore.swift:80-109 | any accepted bytes lie inside the buffer, are at least the type's least size and give a value of the type |
| UniffiRoundTrip.OversizedCountFails | bindings/ios/bitkitcore.swift:11289-11297 | a declared count the remaining bytes cannot hold is never read successfully |
| UniffiCanonical.EncodeUndoesDecode | bindings/ios/bitkitcore.swift:80-153 | where booleans are 0 or 1 and dictionaries stand in the writer's order, writing what was read gives the bytes it was read from |
| UniffiCanonical.PairsForth | bindings/ios/bitkitcore.swift:11816-11826 | pairs without a repeated key are written back as they stand |
| UniffiCanonical.WrittenInOrder | bindings/ios/bitkitcore.swift:80-153 | whatever was written has booleans 0 or 1 and dictionaries in the writer's order |
| UniffiCanonical.AcceptedIsWritable | bindings/ios/bitkitcore.swift:80-153 | accepted bytes could have been written by some writer if and only if every boolean among them is 0 or 1 and no dictionary repeats a key |
| UniffiCanonical.LiftedIsLowered | bindings/ios/bitkitcore.swift:184-200 | the same of a whole buffer that lifts |
| UniffiCanonical.AnotherSpelling | bindings/ios/bitkitcore.swift:436-455 | every inhabited type with a boolean or a dictionary in it has a buffer that lifts to a value no writer writes so |
| UniffiCanonical.OneSpellingIsCanonical | bindings/ios/bitkitcore.swift:184-200 | every accepted buffer is its value lowered if and only if the type has no boolean and no dictionary in it |
| UniffiCanonical.LiftIsInverseOfLower | bindings/ios/bitkitcore.swift:184-200 | for a type without booleans and dictionaries a buffer lifts to a value if and only if it is that value lowered |
| UniffiFormat.BigEndianAt | bindings/ios/bitkitcore.swift:142-145 | the i-th of w bytes carries the digit of weight 256^(w-1-i) |
| UniffiFormat.FirstByteWeighsMost | bindings/ios/bitkitcore.swift:80-94 | in a number that is read the first byte weighs most |
| UniffiFormat.SignIsFirstBit | bindings/ios/bitkitcore.swift:80-94 | an Int32 is negative if and only if its first byte is at least 0x80 |
| UniffiFormat.WrittenIsSpelled | bindings/ios/bitkitcore.swift:134-153 | wherever a value is written, byte after byte carries what the format says: counts and case numbers in four bytes, elements, fields and pairs in their order |
| UniffiFormat.SpelledIsRead | bindings/ios/bitkitcore.swift:80-119 | whatever bytes spell a value of the type in that format are read as it, up to their end |
| UniffiFormat.RecordIsCut | bindings/ios/bitkitcore.swift:4794-4813 | a record is its fields one behind the other, in their order |
| UniffiFormat.BuffersAreSpelled | bindings/ios/bitkitcore.swift:184-200 | a lowered value spells it from the first byte to the last, and a buffer that does lifts to it |
| UniffiFormat.WrongBytesFault | bindings/ios/bitkitcore.swift:80-109 | missing bytes, a presence byte above 1, a number no case has and a negative count each end in their own fault |
| UniffiFormat.NoStringFaults | bindings/ios/bitkitcore.swift:483-486 | counted bytes that are no UTF-8 trap as a string and are read as data |
| UniffiCanonical.LiftedIsSpelled | bindings/ios/bitkitcore.swift:184-200 | for types without booleans and dictionaries a buffer lifts to a value if and only if it spells it |
| UniffiUtf8.StringsAreSpelled | bindings/ios/bitkitcore.swift:457-494 | the bytes taken for a string are exactly the UTF-8 spellings of Unicode scalar values (section 3 of RFC 3629) |
| UniffiCanonical.BoolAcceptsMore | bindings/ios/bitkitcore.swift:436-455 | an optional boolean lifts from any second byte, and is lowered as 0 or 1 only |
| UniffiCanonical.DictionaryAcceptsMore | bindings/ios/bitkitcore.swift:11816-11826 | a repeated pair is read as one, so such bytes are never written |
| UniffiTypes.MultisigBytesAreUnique | bindings/ios/bitkitcore.swift:4794-4813 | a buffer lifts to a multisig script if and only if it is that script lowered |
| UniffiTypes.MultisigLayout | bindings/ios/bitkitcore.swift:4794-4813 | the five parts of the script by name, each in its place |
| UniffiTypes.NodePathLayout | bindings/ios/bitkitcore.swift:2151-2164 | a path is its node and then its address |
| UniffiTypes.NodeOrStringCases | bindings/ios/bitkitcore.swift:8977-9006 | case 1 is a text, case 2 a whole node |
| UniffiTypes.HdNodeLayout | bindings/ios/bitkitcore.swift:2283-2306 | the seven parts of a node by name, in their order |
| UniffiTypes.OrdersFitTheirBytes | bindings/ios/bitkitcore.swift:3400-3455 | a list of orders that is read takes at least 147 bytes an order |
| UniffiTypes.ScannerReadIsSound | bindings/ios/bitkitcore.swift:9488-9593 | an accepted scan result is one of eleven well-formed cases and survives being written again |
| UniffiTypes.ScannerCases | bindings/ios/bitkitcore.swift:9488-9593 | which number stands for which kind of result, and what follows it |
| UniffiTypes.NodeIdCase | bindings/ios/bitkitcore.swift:9488-9593 | number 9 is a node: its text, then its network |
| UniffiTypes.OnChainInvoiceLayout | bindings/ios/bitkitcore.swift:4875-4895 | the five parts of a payment request by name, in their order |
| UniffiTypes.LightningInvoiceLayout | bindings/ios/bitkitcore.swift:4195-4222 | the nine parts of a Lightning invoice by name, in their order |
| UniffiBuffers.Writer.WriteInt | bindings/ios/bitkitcore.swift:142-145 | appends as many bytes as asked, the most significant first, from which the number is read back where it was written |
| UniffiBuffers.Writer.Write | bindings/ios/bitkitcore.swift:134-153 | appends exactly the encoding at its position and touches nothing before it |
| UniffiBuffers.Writer.WriteElements | bindings/ios/bitkitcore.swift:11281-11287 | the count, then each element, by a loop |
| UniffiBuffers.Writer.WriteDictionary | bindings/ios/bitkitcore.swift:11807-11814 | the count, then the pairs in the order the dictionary is iterated |
| UniffiBuffers.Reader.ReadInt | bindings/ios/bitkitcore.swift:80-94 | the weighted sum of the bytes, the first weighing most, and an advanced offset, or bufferOverflow |
| UniffiBuffers.Reader.ReadRaw | bindings/ios/bitkitcore.swift:98-109 | the counted bytes, or bufferOverflow, or a trap for a negative count |
| UniffiBuffers.Reader.Read | bindings/ios/bitkitcore.swift:80-119 | value and offset, or fault, are those of the decoding function |
| UniffiBuffers.Reader.ReadElements | bindings/ios/bitkitcore.swift:11289-11297 | the loop appends exactly the decoded elements and stops at the first fault |
| UniffiBuffers.Reader.ReadDictionary | bindings/ios/bitkitcore.swift:11816-11826 | the loop assigns pair after pair, later ones over earlier ones |
| UniffiBuffers.LiftBuffer | bindings/ios/bitkitcore.swift:185-193 | read one value, refuse remaining bytes; bytes that spell a value in the format give it |
| UniffiBuffers.LowerValue | bindings/ios/bitkitcore.swift:195-199 | write into an empty buffer; the bytes spell the value in the format |
| UniffiHandles.UniffiHandleMap.Insert | bindings/ios/bitkitcore.swift:345-352 | a handle never given out before, the other entries kept |
| UniffiHandles.UniffiHandleMap.Get | bindings/ios/bitkitcore.swift:354-361 | the object the handle was given out for; stale exactly when it was never given out or has been taken back |
| UniffiHandles.UniffiHandleMap.Remove | bindings/ios/bitkitcore.swift:364-371 | the object once, stale for ever after; other entries kept |
| UniffiHandles.UniffiHandleMap.CallAsync | bindings/ios/bitkitcore.swift:11848-11857 | with one callback per poll the loop stops at the first ready result and leaves the map as it found it |
| UniffiHandles.RunConsistent | bindings/ios/bitkitcore.swift:11833-11873 | every event keeps the map holding exactly the continuations of the waiting calls, each under its call's handle |
| UniffiHandles.NothingIsUsedTwice | bindings/ios/bitkitcore.swift:11833-11873 | from the start, over any interleaving, no handle is given out twice, no await is resumed twice, and a call waits exactly when its continuation is in the map |
| UniffiHandles.FinishedWhenReady | bindings/ios/bitkitcore.swift:11849-11857 | over any run a call is finished if and only if a callback that resumed one of its awaits delivered ready |
| UniffiHandles.FinishedForGood | bindings/ios/bitkitcore.swift:11849-11857 | from then on its continuation is under no handle and nothing resumes it |
| UniffiHandles.PollsAgain | bindings/ios/bitkitcore.swift:11849-11857 | a begun call that waits for nothing and was last told it is not ready polls: its continuation goes under a handle never given out before, and it waits for that |
| UniffiHandles.OutOfTurnIsIgnored | bindings/ios/bitkitcore.swift:11867-11873 | any other poll, a repeated begin and a callback with a stale handle change nothing |
| UniffiHandles.StaleForever | bindings/ios/bitkitcore.swift:364-371 | a removed handle stays stale, and calling it back changes nothing |
| UniffiHandles.OthersAreKept | bindings/ios/bitkitcore.swift:11867-11873 | an entry leaves the map if and only if its own handle is called back |
| UniffiHandles.AwaitsAreConserved | bindings/ios/bitkitcore.swift:11850-11856 | every await is either still in the map or was resumed, and none is counted twice |
| UniffiHandles.EntriesAre | bindings/ios/bitkitcore.swift:340-378 | after any events the map holds the old handles and those given out meanwhile, less the ones called back since |
| UniffiHandles.AnsweredAt | bindings/ios/bitkitcore.swift:11867-11873 | called back since means: some callback event with the handle stands behind the poll that gave it out |
| UniffiHandles.MapIsRestored | bindings/ios/bitkitcore.swift:11833-11863 | the map is what it was if and only if every handle given out meanwhile has been called back and no older one has |
| UniffiHandles.NoneWaitsWhenAllAnswered | bindings/ios/bitkitcore.swift:11849-11857 | no call waits on a new handle if and only if every new handle has been called back |
| BlocktankCache.RowIsLastVersion | src/modules/blocktank/db.rs:254-296 | the row of an id is the last version in the log that names it |
| BlocktankCache.LastVersionFound | src/modules/blocktank/db.rs:254-296 | the last version of an id is the entry of the log behind which no other names it |
| BlocktankCache.AppliedRows | src/modules/blocktank/db.rs:254-296 | an id that stored rows name has one of them, any other keeps its row |
| BlocktankCache.CacheIsLog | src/modules/blocktank/api.rs:27-207 | after any calls, failures among them, the table is the replay of everything successfully stored |
| BlocktankCache.ReachedRowsAreKeyed | src/modules/blocktank/models.rs:28 | every row of a reachable table sits under its own id |
| BlocktankCache.AllStorable | src/modules/blocktank/api.rs:73-75 | what a refresh stores is the longest storable prefix of the answer |
| BlocktankCache.OutcomeIsRefreshed | src/modules/blocktank/api.rs:66-78 | a refresh succeeds if and only if the server answered and every row can be stored; without an answer it is a DataError and changes nothing, and a row that cannot be stored is an InsertError with exactly the rows before it applied |
| BlocktankCache.StorableMeans | src/modules/blocktank/models.rs:28-76 | the amounts fit 64 signed bits and the positive columns are positive |
| BlocktankCache.ReachedRowsAreVersions | src/modules/blocktank/api.rs:27-207 | a mirror filled from a truthful server holds versions the server had |
| BlocktankCache.ActiveRefreshSuffices | src/modules/blocktank/api.rs:81-94 | storing answers for the active rows only makes every local row's state the server's |
| BlocktankCache.ActiveOrderRefreshSuffices | src/modules/blocktank/api.rs:81-94 | a successful refresh_active_orders does so for state2, active being Created or Paid |
| BlocktankCache.MirrorIsCurrentAfterRefresh | src/modules/blocktank/api.rs:27-94 | and that from any reachable mirror |
| BlocktankCache.ActiveCJitRefreshSuffices | src/modules/blocktank/api.rs:181-207 | the same for CJIT entries when every active entry was fetched and stored |
| BlocktankCache.TriggersKeepOneCurrent | src/modules/blocktank/models.rs:87-104 | the two triggers keep at most one row current under any single write, which is made and leaves the other rows their contents |
| BlocktankCache.UpsertInfoEffect | src/modules/blocktank/db.rs:141-165 | success makes the new info current, a failed UPDATE changes nothing, a failed INSERT leaves none current; the errors, and older versions keep their contents |
| BlocktankCache.InfoRunKeepsOneCurrent | src/modules/blocktank/db.rs:122-166 | at most one row is current after any calls and faults |
| BlocktankDatabase.BlocktankDB.UpsertOrder | src/modules/blocktank/db.rs:227-299 | the row is replaced, or a constraint fails and the old row stays |
| BlocktankDatabase.BlocktankDB.StoreAnsweredOrder | src/modules/blocktank/api.rs:41-63 | the answered order is stored and returned, or the table is unchanged |
| BlocktankDatabase.BlocktankDB.RefreshOrders | src/modules/blocktank/api.rs:66-78 | succeeds if and only if the server answered and all rows can be stored; no answer is a DataError and changes nothing; failing at the k-th row is an InsertError and leaves exactly the first k-1 stored |
| BlocktankQuery.SelectMeans | src/modules/blocktank/db.rs:317-331 | the text with its `?` marks and the parameters, bound by position, mean exactly the ids and the state asked for, whatever characters they hold |
| BlocktankQuery.BindMarks | src/modules/blocktank/db.rs:319-324 | the k-th mark of the list takes the k-th id |
| BlocktankDatabase.InsertedNewestFirst | src/modules/blocktank/db.rs:331 | ORDER BY created_at DESC keeps the rows with the newest first |
| BlocktankQuery.TextOrderIsLexical | src/modules/blocktank/db.rs:331 | texts are ordered by the first character in which they differ, and a text comes before those it starts |
| BlocktankDatabase.SelectRows | src/modules/blocktank/db.rs:333-416 | exactly the rows wanted, each once, the newest first |
| BlocktankDatabase.BlocktankDB.BuildSelect | src/modules/blocktank/db.rs:308-331 | the text and the parameters pushed clause by clause mean the ids and the state |
| BlocktankDatabase.BlocktankDB.GetOrders | src/modules/blocktank/db.rs:301-419 | exactly the orders with one of the ids and in the state2 asked for, each once, the newest first; an empty id list gives none |
| BlocktankDatabase.BlocktankDB.GetCJitEntries | src/modules/blocktank/db.rs:591-708 | the same of the CJIT entries and their state |
| BlocktankDatabase.BlocktankDB.GetActiveOrders | src/modules/blocktank/db.rs:421-521 | exactly the orders in state Created or Paid, each once, the newest first |
| BlocktankDatabase.BlocktankDB.RefreshActiveOrders | src/modules/blocktank/api.rs:81-94 | asks for exactly the orders in state Created or Paid and refreshes with the answer, errors as for RefreshOrders, for nothing when there are none; after a success with truthful answers for the active orders every stored state2 is the server's |
| BlocktankDatabase.BlocktankDB.UpsertCJitEntry | src/modules/blocktank/db.rs:523-589 | the row is replaced, or a constraint fails and the old row stays |
| BlocktankDatabase.BlocktankDB.RefreshCJitEntry | src/modules/blocktank/api.rs:169-178 | the answered entry is stored and returned, or the table is unchanged |
| BlocktankDatabase.BlocktankDB.GetActiveCJitEntries | src/modules/blocktank/db.rs:710-722 | exactly the entries in state Created or Failed, each once, the newest first |
| BlocktankDatabase.BlocktankDB.RefreshActiveCJitEntries | src/modules/blocktank/api.rs:181-207 | asks for exactly the entries in state Created or Failed; what is returned are the storable answers, they replace their rows, and all other rows stay; when what is returned covers the active entries truthfully, every stored state is the server's |
| BlocktankDatabase.BlocktankDB.UpsertInfo | src/modules/blocktank/db.rs:122-166 | the two statements with a fault at either; success makes the info the one that is read |
| BlocktankDatabase.BlocktankDB.GetInfo | src/modules/blocktank/db.rs:169-225 | the one current info, if any |
| ScannerProofs.ParseUndoesPrint | src/modules/scanner/implementation.rs:294-335 | parsing a printed payment URI recovers the address and for every key the value printed last; label and message are those of the keys of that name, the amount is the read value of `amount`, 0 when missing or unreadable |
| ScannerProofs.JoinSplits | src/modules/scanner/implementation.rs:303-310 | splitting the query at `&` gives back the printed segments |
| ScannerProofs.CollectMeans | src/modules/scanner/implementation.rs:303-310 | segments without `=` are dropped and the last value of a key counts |
| ScannerProofs.ParamsAreLastValues | src/modules/scanner/implementation.rs:303-310 | the parameters hold for every key the value of the last pair with it, and only keys that were printed |
| ScannerProofs.CarriedIsUnique | src/modules/scanner/implementation.rs:315-331 | the printed segments determine every field of the invoice |
| ScannerProofs.UriClassified | src/modules/scanner/implementation.rs:54-120 | a payment URI is classified by its address alone unless an earlier format claims it, and then it is no payment |
| ScannerProofs.UriIsDecoded | src/modules/scanner/implementation.rs:41-120 | any text behind `bitcoin:` decodes to a payment if and only if no earlier format claims it and its address validates, and then to its parse |
| ScannerProofs.QueryTrimmed | src/modules/scanner/implementation.rs:42 | trimming a printed URI trims its last segment only |
| ScannerProofs.DecodeUndoesPrint | src/modules/scanner/implementation.rs:41-120 | decoding a printed payment URI gives back what was printed if and only if the address validates, no earlier format claims the text, and the last value does not end in white space |
| ScannerProofs.MessageIsTakenForTreasure | src/modules/scanner/implementation.rs:63-67 | a printed URI whose message names a treasure hunt decodes to one, for every address |
| ScannerProofs.AlphanumericUriIsFree | src/modules/scanner/implementation.rs:54-100 | no earlier format claims the URI of an alphanumeric address |
| ScannerProofs.AddressIsNoInvoice | src/modules/scanner/implementation.rs:96-129 | nor is an accepted address taken for an invoice, an LNURL or a key request |
| ScannerProofs.AddressDecodes | src/modules/scanner/implementation.rs:41-138 | an accepted alphanumeric address reaches the last branch |
| ScannerProofs.AddressAndUriAgree | src/modules/scanner/implementation.rs:41-138 | the address and its `bitcoin:` URI decode to the same: that address, amount 0, no parameters |
| ScannerFormats.NetworkByPrefix | src/modules/onchain/implementation.rs:134-152 | each network's prefixes, whatever order they are tried in |
| ScannerFormats.EarlyKinds | src/modules/scanner/implementation.rs:54-98 | exactly which texts give a ticket, a treasure hunt or a node and what each carries; an onion node is unsupported, a hunt link that is no URL invalid; everything else is left to the payment formats |
| ScannerFormats.LateKinds | src/modules/scanner/implementation.rs:100-137 | exactly which of the other texts give a key request, an invoice and an on-chain payment, and where an LNURL result is looked up; a text no format takes is an invalid address |
| ScannerFormats.LnurlFound | src/modules/scanner/implementation.rs:140-152 | the regular expression: a link's last `lightning` parameter on its first line, or the code the text starts with, taken whole |
| ScannerFormats.InvoiceDecodes | src/modules/scanner/implementation.rs:100-107 | an alphanumeric invoice, in either case and with or without `lightning:`, goes to the Lightning decoder as it stands |
| ScannerFormats.LnurlDecodes | src/modules/scanner/implementation.rs:126-127 | a bare LNURL code is looked up in lower case |
| ScannerFormats.LightningAddressDecodes | src/modules/scanner/implementation.rs:128-129 | what every Lightning address decodes to, with the three beginnings that are taken for something else |
| ScannerDecoding.RemoveAll | src/modules/scanner/implementation.rs:49-52 | removing the deep link from a text that starts with it shortens it, so decode comes to an end |
| ScannerProofs.DecodeClassifiesUnwrapped | src/modules/scanner/implementation.rs:41-52 | decoding is classifying what is left when no link leads the text, however removal joins its surroundings |
| ScannerProofs.DeepLinkIsTakenOut | src/modules/scanner/implementation.rs:42-52 | any text wrapped in the deep link decodes as the text with the link taken out wherever it stands |
| ScannerProofs.DeepLinkIsTransparent | src/modules/scanner/implementation.rs:42-52 | so a text that does not contain the link decodes the same when it is wrapped |
| ScannerProofs.WrappingChangesLinked | src/modules/scanner/implementation.rs:42-52 | of a text that does not itself unwrap, what is classified stays the same under wrapping if and only if the text has no link in it |
| ScannerProofs.WrappedTwice | src/modules/scanner/implementation.rs:42-52 | a text that starts with the link can be wrapped again without changing what is classified |
| ScannerProofs.DeepLinkInsideTicket | src/modules/scanner/implementation.rs:49-61 | a ticket that contains the link decodes differently when wrapped |

## Left out

- get_tags and get_all_unique_tags: plain projections of the tag table.
- The fixed SELECT text and the outer join text of get_activities are read as the plan in `ActivityQueryPlan`; only the text that depends on arguments is modelled character by character. A qualified column name is one token, and SQL comments, operators and keywords the text cannot contain are not tokenized.
- SQLite's limits on statement size, pattern length and number of expressions.
- The order of rows with equal sort keys: it comes from an arbitrary scan, and nothing more is claimed.
- Indexes, file creation, database paths, mutexes, runtimes, printing: no effect on the modelled meaning.
- Texts of error messages: an error is its constructor, the table and the violated constraint.
- Activity and payment types and the states of orders (`state2`) and CJIT entries are modelled with the texts the queries compare; serde JSON columns and the texts of the other enumerations are opaque values. The states are the seeded ones, so the foreign keys to the state tables are met, and a serialization error does not occur.
- Orders and CJIT entries keep their id, state, checked amounts, creation time and one opaque rest; column grouping within `Row` is the model's. The fixed SELECT texts over them are not modelled character by character.
- The HTTP client, its retries and the methods that store nothing.
- Swift strings are their UTF-8 bytes; canonical equivalence of dictionary keys, reserveCapacity's memory, a nil buffer for empty data and handle overflow after 2^64 inserts (a trap) are not modelled.
- Swift's `inout` byte array and offset are fields of `Writer` and `Reader`, sequences being values there.
- Floating point on the wire is its 64-bit pattern.
- UniFFI error converters, callbacks from Rust other than the future continuation, and the generated types other than the three in `UniffiTypes`.
- decode_lightning, LNURL requests, bech32 and base58 checksums, BOLT 11, key derivation, parse_amount_as_satoshis: arguments of `decode`.
- Unicode lower-casing is an argument; the address lemmas ask of it only that it is the ASCII one on ASCII text.
- The address type by length, the `From` conversions, the FFI exports, Trezor.
