# RIHA-Publisher harvest, modelled in Dafny

This project models the harvester of RIHA-Publisher, the service that collects
information-system descriptions ("infosystems") from producers and publishes
them. One scheduled run works as follows:

1. It reads the legacy producer, without an owner restriction, if its URL is
   not blank.
2. It reads every producer listed in `producers.db`. From each, it keeps only
   the records whose owner appears in that producer's comma-separated owner
   list.
3. It merges all records by id (`meta.URI`). The record with the latest
   `status.timestamp` is kept, and on an exact tie the earlier one. A
   replacing record moves to the end of the list.
4. It fetches the approvals list and attaches each approval, without its
   `id` key, to the record with that id.
5. It hands the resulting list to storage.

The model has these modules:

- `Outcomes`: `Option`, `Result` and the exceptions the run can throw.
  These are org.json's `JSONException`, java.time's
  `DateTimeParseException`, and an unchecked exception out of the HTTP
  client, which `getDataAsJsonArray` does not catch.
- `Json`: a record's JSON document as a map from keys to values. It also
  holds the three string paths the harvester reads (`meta.URI`, `owner`,
  `status.timestamp`) and `put("approval", …)`.
- `Records`: the `Infosystem` class. It is a mutable wrapper whose `json`
  field `setApproval` updates in place.
- `Sources`: the fetched text of one source.
  - A fetch that throws an `IOException` reads as `"[]"`; an unchecked
    exception from the HTTP client is not caught and ends the run.
  - The owner filter of `getInfosystems(url, allowedOwners)`.
  - Java's `String.split(",")`, which drops trailing empty pieces.
  - `StringUtils.isNotBlank`.
- `Dedup`: `merge(List)` stated on values, as a left fold over the positions
  of the candidates.
  - A reference definition says which candidate wins for each id.
  - The main theorem `MergeCharacterised` says the fold throws exactly when
    a `getId` or a needed `getUpdated` would throw. When it does not throw,
    it yields exactly the winners, in input order.
- `Approvals`: `getApprovals` (the id → approval map) and `merge(List, Map)`
  (enrichment), stated on values.
- `HarvestService`: the run itself, written imperatively.
  - Its methods loop, append and search as the Java code does. They update
    the records' documents in place; removing or appending a record rebuilds
    the sequence of records.
  - Each method is proved against the value-level definitions above.
  - The lemmas at its end state what the whole run saves.

Exceptions are modelled as `Err` results, and a run that throws saves
nothing (`None`). The HTTP fetch and the ISO date-time parser are function
parameters (`Fetcher`, `Parser`).

Three behaviours of the code are easy to miss:

- An approvals fetch that throws an `IOException` is not fatal.
  `getDataAsJsonArray` returns `"[]"` for every URL, so the run goes on
  without approvals (`UnreachableApprovalsSaveMerged`).
- A producer that answers with something other than a JSON array of objects
  aborts the whole run. The JSON exception is not caught.
- All producers are read and merged before the approvals are fetched.

## Model

| member | source | states |
|---|---|---|
| Records.Infosystem.constructor | src/main/java/ee/ria/riha/models/Infosystem.java:12-14 | the wrapped document is the given one, unchanged; getJson returns it, and getId and the owner read it |
| Records.Infosystem.Id | src/main/java/ee/ria/riha/models/Infosystem.java:16-18 | getId, as the reading of the wrapped document; definition, properties in Json.IdOfWrittenUri and Json.IdOfFailsWithoutMetaUri |
| Records.Infosystem.Updated | src/main/java/ee/ria/riha/models/Infosystem.java:20-22 | getUpdated on the wrapped document; definition, properties in Json.UpdatedOfWrittenTimestamp and Json.UpdatedOfFailsWithoutStatus |
| Records.Infosystem.Json | src/main/java/ee/ria/riha/models/Infosystem.java:28-30 | getJson: the wrapped document itself; definition, its value after construction and setApproval is stated by the constructor and SetApproval |
| Records.Infosystem.Owner | src/main/java/ee/ria/riha/service/HarvestService.java:74 | getOwner on the wrapped document: present exactly when the document has a top-level "owner" string, and then that string; a document without one has no owner |
| Records.Infosystem.SetApproval | src/main/java/ee/ria/riha/models/Infosystem.java:24-26 | the new document is the old one with "approval" set to the given object; the id, owner and timestamp read from it are unchanged |
| Json.WithApproval | src/main/java/ee/ria/riha/models/Infosystem.java:24-26 | after put("approval", a) the key "approval" holds exactly a; every other key is present iff it was before, with the same value |
| Json.IdOf | src/main/java/ee/ria/riha/models/Infosystem.java:16-18 | getJSONObject("meta").getString("URI"), None where either throws; definition, properties in Json.IdOfWrittenUri and Json.IdOfFailsWithoutMetaUri |
| Json.OwnerOf | src/main/java/ee/ria/riha/service/HarvestService.java:74 | the owner read from a document is its top-level "owner" string when that key holds a string, and absent otherwise |
| Json.UpdatedOf | src/main/java/ee/ria/riha/models/Infosystem.java:20-22 | status.timestamp parsed, JSONException or DateTimeParseException where getUpdated throws; definition, properties in Json.UpdatedOfWrittenTimestamp and Json.UpdatedOfFailsWithoutStatus |
| Json.ApprovalOverwrites | src/main/java/ee/ria/riha/models/Infosystem.java:24-26 | a second setApproval replaces the first: only the last approval remains |
| Json.ApprovalKeepsReadFields | src/main/java/ee/ria/riha/models/Infosystem.java:16-26 | setApproval changes neither getId, nor the owner, nor getUpdated |
| Json.IdOfWrittenUri | src/main/java/ee/ria/riha/models/Infosystem.java:16-18 | getId returns the string stored at meta.URI |
| Json.IdOfFailsWithoutMetaUri | src/main/java/ee/ria/riha/models/Infosystem.java:16-18 | getId throws when meta is absent or not an object, or URI is absent or not a string |
| Json.UpdatedOfWrittenTimestamp | src/main/java/ee/ria/riha/models/Infosystem.java:20-22 | getUpdated is the parse of the text at status.timestamp, or DateTimeParseException when it does not parse |
| Json.UpdatedOfFailsWithoutStatus | src/main/java/ee/ria/riha/models/Infosystem.java:20-22 | getUpdated throws JSONException when status or its timestamp is missing |
| Sources.UnreachableSourceIsEmpty | src/main/java/ee/ria/riha/service/HarvestService.java:145-153 | a source whose fetch throws an IOException reads as "[]": no records and no exception, with or without an owner list |
| Sources.DataAsJsonArray | src/main/java/ee/ria/riha/service/HarvestService.java:145-153 | only an unchecked exception from the fetch makes getDataAsJsonArray throw, and then with that exception; properties in Sources.UnreachableSourceIsEmpty and Sources.BrokenSourceThrows |
| Sources.BrokenSourceThrows | src/main/java/ee/ria/riha/service/HarvestService.java:145-153 | a fetch that throws an unchecked exception is not caught: reading the source throws it, with or without an owner list |
| Sources.Kept | src/main/java/ee/ria/riha/service/HarvestService.java:71-78 | the loop over the array's elements; definition, properties in Sources.KeptFailsExactly, Sources.KeptSelectsAllowed, Sources.KeptOne and Sources.KeptAppend |
| Sources.Allowed | src/main/java/ee/ria/riha/service/HarvestService.java:74 | `allowedOwners == null \|\| allowedOwners.contains(owner)`: with no list every document passes; with a list, a document passes iff it has an "owner" string and that string is in the list, so a document without an owner never passes |
| Sources.SourceDocs | src/main/java/ee/ria/riha/service/HarvestService.java:67-79 | getInfosystems(url, allowedOwners) on the fetched text; definition, properties in Sources.UnreachableSourceIsEmpty, Sources.BrokenSourceThrows and the Kept lemmas |
| Sources.SplitComma | src/main/java/ee/ria/riha/service/HarvestService.java:56 | String.split(","); definition, properties in Sources.SplitAllJoins, Sources.DropTrailingEmptyKeeps and Sources.OwnerListMembership |
| Sources.IsNotBlank | src/main/java/ee/ria/riha/service/HarvestService.java:49 | StringUtils.isNotBlank with Java 8's Character.isWhitespace; definition, used by HarvestService.CollectCandidates and HarvestService.LegacyDocs |
| Sources.KeptFailsExactly | src/main/java/ee/ria/riha/service/HarvestService.java:72-77 | the loop over the parsed array throws exactly when some element is not an object |
| Sources.KeptSelectsAllowed | src/main/java/ee/ria/riha/service/HarvestService.java:72-78 | a document is kept iff it is one of the array's objects and its owner is allowed (null list, or the owner is in the list) |
| Sources.KeptUnrestricted | src/main/java/ee/ria/riha/service/HarvestService.java:63-65 | without an owner list every object is kept, in array order |
| Sources.KeptOne | src/main/java/ee/ria/riha/service/HarvestService.java:73-76 | one element: an object is kept iff its owner is allowed; a non-object throws |
| Sources.KeptAppend | src/main/java/ee/ria/riha/service/HarvestService.java:72-78 | the filter over two arrays one after the other is the filter of each, concatenated in order |
| Sources.KeptStep | src/main/java/ee/ria/riha/service/HarvestService.java:72-77 | one more loop turn: a non-object throws, an allowed object is appended, any other object is skipped |
| Sources.Concat | src/main/java/ee/ria/riha/service/HarvestService.java:48-57 | addAll of two reads succeeds iff both do, and gives the first's records before the second's (legacy records precede producer records) |
| Sources.ConcatAssoc | src/main/java/ee/ria/riha/service/HarvestService.java:55-58 | reading sources in sequence does not depend on how they are grouped |
| Sources.SplitAllJoins | src/main/java/ee/ria/riha/service/HarvestService.java:56 | splitting at commas loses nothing: no piece holds a comma and joining the pieces with commas gives the text back |
| Sources.SplitAllNoComma | src/main/java/ee/ria/riha/service/HarvestService.java:56 | text without a comma is a single owner code |
| Sources.DropTrailingEmptyKeeps | src/main/java/ee/ria/riha/service/HarvestService.java:56 | dropping trailing empty pieces keeps exactly the non-empty pieces |
| Sources.OwnerListMembership | src/main/java/ee/ria/riha/service/HarvestService.java:56 | a non-empty owner code is in split(",") iff it is one of the comma-separated pieces |
| Dedup.FindFrom | src/main/java/ee/ria/riha/service/HarvestService.java:85 | a found position is the first record with the candidate's id; None means no record has it; with every id present it does not throw; a candidate without an id throws on a non-empty list |
| Dedup.RemoveAt | src/main/java/ee/ria/riha/service/HarvestService.java:90 | result.remove(existing) shifts every later record down by one and keeps the earlier ones |
| Dedup.Step | src/main/java/ee/ria/riha/service/HarvestService.java:84-92 | one turn of the merge loop on positions; its result stays within the candidates seen; properties in Dedup.StepNewId, Dedup.StepKnownId and Dedup.StepKeepsWinners |
| Dedup.MergePrefix | src/main/java/ee/ria/riha/service/HarvestService.java:81-95 | the loop after the first n candidates; its positions are among them; properties in Dedup.MergeCharacterised and Dedup.PrefixOnePerId |
| Dedup.Merge | src/main/java/ee/ria/riha/service/HarvestService.java:81-95 | merge(List) on positions; definition, properties in Dedup.MergeFailsExactly, Dedup.MergeOnePerId, Dedup.MergeKeepsNewest and Dedup.MergeKeepsInputOrder |
| Dedup.MergeFirst | src/main/java/ee/ria/riha/service/HarvestService.java:84-88 | the first candidate is kept without any getId call, and it is the winner of a one-record list |
| Dedup.StepNewId | src/main/java/ee/ria/riha/service/HarvestService.java:85-88 | a candidate with an id not yet held is appended, and the list still holds exactly the winners in order |
| Dedup.StepReplaces | src/main/java/ee/ria/riha/service/HarvestService.java:89-91 | a strictly newer candidate removes the holder of its id and is appended at the end; the list still holds exactly the winners |
| Dedup.StepDiscards | src/main/java/ee/ria/riha/service/HarvestService.java:89 | a candidate that is not strictly newer is dropped and the list is unchanged; it still holds exactly the winners |
| Dedup.StepKnownId | src/main/java/ee/ria/riha/service/HarvestService.java:85-92 | for a candidate whose id is already held, the step succeeds iff the longer prefix is mergeable, and then the list is exactly its winners in input order |
| Dedup.StepKeepsWinners | src/main/java/ee/ria/riha/service/HarvestService.java:84-92 | one loop turn succeeds iff the longer prefix is mergeable, and then yields exactly its winners in input order |
| Dedup.MergeErrSticks | src/main/java/ee/ria/riha/service/HarvestService.java:84-93 | once an exception is thrown the merge ends with it |
| Dedup.MergeStopsAt | src/main/java/ee/ria/riha/service/HarvestService.java:84-93 | an exception thrown at one candidate is the outcome of the whole merge |
| Dedup.MergeCharacterised | src/main/java/ee/ria/riha/service/HarvestService.java:81-95 | the merge of a prefix succeeds iff every id is present (two or more records) and every duplicate has a readable timestamp; it then yields exactly the winners (newest, first on a tie), in input order, one for each id met |
| Dedup.MergeFailsExactly | src/main/java/ee/ria/riha/service/HarvestService.java:81-95 | merge(List) throws exactly when the candidates are not mergeable |
| Dedup.MergeOnePerId | src/main/java/ee/ria/riha/service/HarvestService.java:81-95 | the surviving positions have pairwise distinct ids, and every input id is among them |
| Dedup.PrefixOnePerId | src/main/java/ee/ria/riha/service/HarvestService.java:81-95 | after any number of candidates the kept positions are in input order and hold pairwise distinct ids |
| Dedup.MergedRecordsOnePerId | src/main/java/ee/ria/riha/service/HarvestService.java:81-95 | the merged records have pairwise distinct ids, and every candidate's id is the id of one of them |
| Dedup.MergeKeepsNewest | src/main/java/ee/ria/riha/service/HarvestService.java:89-92 | a surviving record's timestamp is at least that of every other candidate with its id, and on an exact tie the survivor came first |
| Dedup.MergeKeepsInputOrder | src/main/java/ee/ria/riha/service/HarvestService.java:84-92 | survivors are listed in strictly increasing input position |
| Dedup.MergeDistinctIds | src/main/java/ee/ria/riha/service/HarvestService.java:84-88 | with all ids present and distinct, the merge returns every record, in the same order |
| Dedup.MergeReplaceMovesToEnd | src/main/java/ee/ria/riha/service/HarvestService.java:89-92 | a strictly newer duplicate removes the old holder and becomes the last record; an equal or older one leaves the list unchanged |
| Approvals.Entry | src/main/java/ee/ria/riha/service/HarvestService.java:128-131 | an entry is accepted iff it is an object with a string "id"; it is filed under that id with exactly the other keys and values |
| Approvals.ApprovalsById | src/main/java/ee/ria/riha/service/HarvestService.java:127-132 | the loop of getApprovals; definition, properties in Approvals.ApprovalsFailExactly, Approvals.ApprovalsKeys and Approvals.ApprovalsLastWins |
| Approvals.ApprovalsFromText | src/main/java/ee/ria/riha/service/HarvestService.java:124-134 | getApprovals on the fetched text: JSONException when it is not an array; definition, properties as for ApprovalsById |
| Approvals.ApprovalsFrom | src/main/java/ee/ria/riha/service/HarvestService.java:124-134 | getApprovals(getApprovalData()); definition, properties in Approvals.UnreachableApprovalsAreEmpty and Approvals.BrokenApprovalsThrow |
| Approvals.BrokenApprovalsThrow | src/main/java/ee/ria/riha/service/HarvestService.java:145-157 | an approvals fetch that throws an unchecked exception makes getApprovals throw it |
| Approvals.ApprovalsFailExactly | src/main/java/ee/ria/riha/service/HarvestService.java:127-132 | the loop over the parsed approvals array throws (JSONException) exactly when some entry is not an object with a string id |
| Approvals.ApprovalsKeys | src/main/java/ee/ria/riha/service/HarvestService.java:127-132 | the map's keys are exactly the ids of the entries |
| Approvals.ApprovalsLastWins | src/main/java/ee/ria/riha/service/HarvestService.java:127-132 | the approval filed under an id is the last entry with that id, without its "id" key |
| Approvals.ApprovalsWithoutId | src/main/java/ee/ria/riha/service/HarvestService.java:130 | no approval in the map keeps an "id" key |
| Approvals.UnreachableApprovalsAreEmpty | src/main/java/ee/ria/riha/service/HarvestService.java:145-157 | an approvals fetch that throws an IOException gives an empty map, not an exception |
| Approvals.Enrich | src/main/java/ee/ria/riha/service/HarvestService.java:136-143 | enrichment throws exactly when some record has no id |
| Approvals.EnrichAttachesMatching | src/main/java/ee/ria/riha/service/HarvestService.java:136-143 | length and order are kept; a record whose id is a key gets exactly that approval, others are unchanged; no other key changes |
| Approvals.EnrichKeepsIds | src/main/java/ee/ria/riha/service/HarvestService.java:136-143 | every record keeps its id and position |
| Approvals.EnrichDocKeepsId | src/main/java/ee/ria/riha/service/HarvestService.java:138-141 | enriching a record keeps its id and its timestamp |
| Approvals.EnrichDocIdempotent | src/main/java/ee/ria/riha/service/HarvestService.java:139-140 | enriching the same record twice (it occurs twice in the list) is the same as once |
| Approvals.EnrichWithoutApprovals | src/main/java/ee/ria/riha/service/HarvestService.java:136-143 | with an empty map and every id present, the list is saved unchanged |
| Approvals.EnrichDoc | src/main/java/ee/ria/riha/service/HarvestService.java:138-141 | one turn of merge(List, Map): the approval under the record's id is attached if there is one; definition, properties in Approvals.EnrichDocKeepsId and Approvals.EnrichDocIdempotent |
| HarvestService.GetInfosystems | src/main/java/ee/ria/riha/service/HarvestService.java:67-79 | the loop builds fresh records wrapping exactly the filtered documents, in array order; it throws exactly when the filter specification throws |
| HarvestService.FindExisting | src/main/java/ee/ria/riha/service/HarvestService.java:85 | the stream search over the result list finds what FindFrom specifies, with the same exceptions |
| HarvestService.IndexOf | src/main/java/ee/ria/riha/service/HarvestService.java:90 | remove(Object) finds the first position holding that very object |
| HarvestService.MergeOne | src/main/java/ee/ria/riha/service/HarvestService.java:84-92 | one turn of the merge loop on records does what one fold step does on positions, exceptions included |
| HarvestService.MergeInfosystems | src/main/java/ee/ria/riha/service/HarvestService.java:81-95 | merge(List) throws exactly when the specification does, and otherwise returns the very candidate objects the specification selects, in its order |
| HarvestService.CollectCandidates | src/main/java/ee/ria/riha/service/HarvestService.java:47-58 | allInfosystems is the legacy records (when the URL is not blank) followed by each producer's filtered records; any read that throws ends the run |
| HarvestService.GetAllInfosystems | src/main/java/ee/ria/riha/service/HarvestService.java:47-61 | getInfosystems() yields fresh records holding exactly the merged candidate documents |
| HarvestService.GetApprovals | src/main/java/ee/ria/riha/service/HarvestService.java:124-134 | the loop builds exactly the id → approval map of the specification, or throws where it does |
| HarvestService.MergeApprovals | src/main/java/ee/ria/riha/service/HarvestService.java:136-143 | in-place enrichment succeeds iff every record has an id, and then each record's document is its enriched old document, even when a record occurs twice |
| HarvestService.AddApprovals | src/main/java/ee/ria/riha/service/HarvestService.java:119-122 | addApprovals succeeds iff the approvals and the enrichment do, and the records then hold the enriched documents |
| HarvestService.HarvestInfosystems | src/main/java/ee/ria/riha/service/HarvestService.java:39-45 | the list storage receives is exactly the run's specification; nothing is saved when the run throws |
| HarvestService.CandidateDocs | src/main/java/ee/ria/riha/service/HarvestService.java:47-58 | allInfosystems before the merge; definition, properties in HarvestService.CandidatesStep, HarvestService.CandidatesErrSticks and HarvestService.UnreachableProducerIgnored |
| HarvestService.LegacyDocs | src/main/java/ee/ria/riha/service/HarvestService.java:49-51 | the legacy producer's records, read without an owner restriction (lines 63-65): a blank URL contributes no records and never throws, and only a non-blank URL can throw |
| HarvestService.ProducerSource | src/main/java/ee/ria/riha/service/HarvestService.java:56-57 | one producer's records, restricted to its split owner list: an IOException-failing fetch contributes none, an unchecked fetch failure is thrown |
| HarvestService.ProducerDocs | src/main/java/ee/ria/riha/service/HarvestService.java:55-58 | the producers' records in producer order: reading them succeeds iff every single producer's source can be read |
| HarvestService.ProducerRecordsOwned | src/main/java/ee/ria/riha/service/HarvestService.java:56-57 | every record a producer contributes has an owner, and that owner is one of the producer's comma-separated owner codes |
| HarvestService.MergedDocs | src/main/java/ee/ria/riha/service/HarvestService.java:47-61 | getInfosystems(): the candidates after merge(List); definition, proved equal to HarvestService.GetAllInfosystems |
| HarvestService.HarvestSpec | src/main/java/ee/ria/riha/service/HarvestService.java:39-45 | what storage receives, None when the run throws; definition, properties in HarvestService.HarvestSavesOnePerId, HarvestService.HarvestSavesNewest and the Unreachable/Broken lemmas |
| HarvestService.ProducerDocsAppend | src/main/java/ee/ria/riha/service/HarvestService.java:55-58 | reading two groups of producers in sequence gives the first group's records before the second's |
| HarvestService.CandidatesStep | src/main/java/ee/ria/riha/service/HarvestService.java:55-58 | one more producer appends its filtered records to the candidates |
| HarvestService.CandidatesErrSticks | src/main/java/ee/ria/riha/service/HarvestService.java:55-58 | an exception while reading producers ends the run |
| HarvestService.CandidatesStopAt | src/main/java/ee/ria/riha/service/HarvestService.java:55-58 | a producer whose records cannot be read makes the whole candidate collection fail |
| HarvestService.UnreachableProducerIgnored | src/main/java/ee/ria/riha/service/HarvestService.java:145-153 | a producer that cannot be reached changes neither the candidates nor what is saved |
| HarvestService.UnreachableLegacyIgnored | src/main/java/ee/ria/riha/service/HarvestService.java:49-51 | an unreachable legacy producer is the same as none |
| HarvestService.UnreachableApprovalsSaveMerged | src/main/java/ee/ria/riha/service/HarvestService.java:145-157 | with the approvals source unreachable the merged records are saved unchanged, provided each has an id |
| HarvestService.BrokenProducerSavesNothing | src/main/java/ee/ria/riha/service/HarvestService.java:55-58 | a producer whose fetch throws an unchecked exception makes the candidate collection throw, and nothing is saved |
| HarvestService.BrokenApprovalsSaveNothing | src/main/java/ee/ria/riha/service/HarvestService.java:119-122 | an approvals fetch that throws an unchecked exception ends the run before storage, and nothing is saved |
| HarvestService.HarvestSavesOnePerId | src/main/java/ee/ria/riha/service/HarvestService.java:40-43 | storage receives records with present, pairwise distinct ids, one for every candidate's id |
| HarvestService.HarvestSavesNewest | src/main/java/ee/ria/riha/service/HarvestService.java:40-43 | every candidate with a saved record's id is that record (before its approval) or has a timestamp no later than the saved one |

## Left out

- The HTTP transport (`Request.Get(url).execute()`). It is the `Fetcher`
  parameter, which gives each URL's body, an `IOException` (`Unreachable`)
  or an unchecked exception (`Broken`). Which unchecked exceptions the client
  raises, for instance `IllegalArgumentException` on a malformed URL, is not
  modelled: all of them are the one `FetchRuntimeException`.
- org.json text parsing and serialisation. A body is either a JSON array of
  values or text that `new JSONArray` rejects. Key order inside a document
  is not modelled, because a document is a map.
- Numbers, booleans and null inside documents. They are kept by their
  literal text, since the harvester never reads them.
- java.time's ISO_LOCAL_DATE_TIME parsing. It is the `Parser` parameter,
  and a local date-time is an integer, since only its order is used.
- Loading `producers.db` from disk and the lazy `getProducers`/`initProducers`
  (HarvestService.java:97-117). The producers are given as the sequence
  `Config.producers`.
  - The order of `stringPropertyNames()` is unspecified in Java.
  - The model takes the sequence's order, and the merge result (order, and
    the winner of an exact tie) depends on it.
- Spring wiring (`@Scheduled`, `@Value`, `@Autowired`) and logging.
  - `approvals.url` and `legacyProducer.url` are fields of `Config`.
  - A null `legacyProducer.url` is `None`.
- InfosystemStorageService.java is not part of this model. `save` is the
  value `HarvestInfosystems` returns.
- `Infosystem.getOwner`, which HarvestService.java:74 calls, does not
  appear in Infosystem.java. The owner is modelled as the top-level
  `"owner"` string that the records carry. A record without one is not kept
  by a restricted source.
- Sources.IsWhitespace follows Java 8's `Character.isWhitespace` (Unicode
  6.2, where U+180E is a space separator). Later JDKs no longer count U+180E
  as whitespace; the JDK version is not fixed by the repository.
- The `Fetcher` is a function of the URL, so two fetches of the same URL in
  one run give the same outcome (for instance when `approvals.url` or the
  legacy URL is also listed as a producer). Java makes two independent
  requests, which may differ. No lemma relies on this.
- `findAny` on a sequential stream is modelled as the first match.
- HarvestService.MergeApprovals: when `getId` throws part-way, the records
  before the failing one have already been enriched in place. The contract
  says only that `ok` is false, not what that partial state is. The run
  saves nothing in that case.
- HarvestService.AddApprovals: the same partial in-place update is left
  unstated when the enrichment throws.
- `getApprovals` removes `"id"` from each entry in place with
  `jsonObject.remove("id")`, and `setApproval` later attaches that very
  object to a record (HarvestService.java:140). The model builds the map
  from values with the key removed: when `remove("id")` runs no record holds
  the object yet, and nothing changes it once it is attached, so sharing
  makes no observable difference.
- HarvestServiceTest.java stubs a `getData` method that HarvestService.java
  does not have. Its scenarios are stated as general lemmas rather than as
  the tests' concrete records:
  - distinct ids kept in order: `MergeDistinctIds`;
  - the newest record wins and the first wins a tie: `MergeKeepsNewest`;
  - legacy records come first, with owner filtering: `Concat`,
    `KeptSelectsAllowed`;
  - an approval is attached without its id: `EnrichAttachesMatching`,
    `ApprovalsLastWins`.
