# citizens: a verified model of the validation engine and the request logic

The citizens service accepts imports of town residents as JSON, lets a client
patch one resident, and answers how many birthday presents each resident buys
in each month. It is built on aiohttp and MongoDB. This project models its core
in Dafny and proves what that core does.

- **Field validators** in `citizens/schema.py`: `Field._check_type`,
  `PositiveInteger`, `String`, `BirthDate` and `List`. Each is a function from a
  JSON value to `Pass` or `Fail(reason)`. The model keeps two Python details.
  - A bool is an int: `isinstance(True, int)` holds, and `True == 1` inside a set.
  - The regex `$` also matches just before one trailing `"\n"`.
- **`CitizenSchema.validate`** walks a record's items in insertion order. It
  stops at the first unknown key or failing value. When `partial` is false it
  then requires all nine fields. It exists as a function (`ValidateRecord`)
  and as the loop the source runs (`Validate`), and the two are proved equal.
  A record is a value, so validation cannot change its input.
- **`validate_citizens`** is the batch check. It is modelled as the source's
  method (`Batch.ValidateCitizens`):
  - one loop builds the `relatives_by_cid` map and the `non_existent_relatives`
    set in place;
  - a second loop checks that every link is answered.

  The method is proved equal to a declarative verdict, `BatchVerdict`. The
  lemmas about that verdict give the accepted batches exactly, which error
  wins, the count of missing relatives, and the first asymmetric citizen. They
  also prove that acceptance does not depend on record order.
- **The request handlers** in `citizens/api.py`: `new_import`,
  `update_citizen` and `get_presents_by_month`. They run against `Store.Storage`,
  a class that holds the import counter, the stored imports and a log of every
  storage call made. The log lets the contracts state the order of storage
  calls. For example, nothing is written when validation fails, and the one
  write of an update comes after all relative lookups. `get_presents_by_month`
  fills its twelve-month table with nested loops; these are proved to compute
  `Api.PresentsByMonth`. Lemmas about that function prove:
  - the keys are exactly 1..12;
  - every entry names a citizen of the import and has `presents >= 1`;
  - the presents in the whole table add up to the number of relatives listed;
  - a failure is the exception of the first citizen that raises.

Where other parts of the repository disagree with the code, the model follows
the code.
- `citizens/api.py:10` imports `CitizenValidator`, `validate_import_data` and
  `DataValidationError` from `citizens/data.py`, which defines none of them.
  They are read as `CitizenSchema().validate(..., partial=True)`,
  `validate_citizens` and `DataValidationError` of `citizens/schema.py`.
- `tests/test_update_citizen.py` expects an update of `relatives` to change the
  other side of each link. `update_citizen` does not do that: it checks that the
  relatives exist and writes the body with `$set`. The model writes the body
  only.
- The handlers call a storage that is not in `citizens/storage.py`.
  - `citizens/app.py:17` imports `AsyncMongoStorage` and `ImportNotFound`, and
    `citizens/api.py:11` imports `CitizenNotFoundError`. `citizens/storage.py`
    defines none of them.
  - `new_import` in `citizens/api.py:22-23` calls `generate_import_id()` and
    then `new_import(import_id, data)`. `MongoStorage` has a private
    `_generate_import_id` (`citizens/storage.py:25-39`), and its
    `new_import(data)` draws its own id (`citizens/storage.py:41-46`).
  - The model follows the calls `citizens/api.py` makes. `Store.Storage` gives
    each call the behaviour of the `MongoStorage` code nearest to it: the
    `$inc` counter, `insert_many` into the import's collection, and
    `find_one_and_update` with `$set`.
- `MongoStorage.get_citizens` (`citizens/storage.py:58-59`) has no body, and
  `get_one_citizen` is not defined in `citizens/storage.py` at all. Both are
  modelled as reads of the stored import.
  - `get_citizens` returns the import's records in insertion order. For an
    import that was never stored it raises `ImportNotFound`, which
    `citizens/app.py:37` answers with status 400.
  - `get_one_citizen` returns the first record whose `citizen_id` equals the
    requested value, or raises `CitizenNotFoundError`.
- The regex `$` lets a stored birth date end in `"\n"`, but
  `datetime.strptime` refuses that string. Such an import is accepted.
  `get_presents_by_month` parses only relatives' birth dates
  (`citizens/api.py:57-59`). So it raises `ValueError` for that import exactly
  when some citizen lists the one with that date as a relative. The model keeps
  both behaviours (`FieldExamples.TrailingNewline`,
  `Api.TrailingNewlineBirthDateRefused`).

Files: `json.dfy` (JSON values and records), `dates.dfy` (calendar and the
date pattern), `fields.dfy`, `field_examples.dfy`, `schema.dfy`, `batch.dfy`,
`batch_examples.dfy`, `storage.dfy`, `presents.dfy` (grouping into runs and
the month table) and `api.dfy`.

## Model

| member | source | states |
|---|---|---|
| Json.Lookup | citizens/schema.py:132 | `record[key]` finds a value iff some item has that key, and the value found is that item's |
| Json.LookupAt | citizens/schema.py:115 | in a dict, each item's key looks up that item's own value |
| Dates.DaysInMonth | citizens/schema.py:71 | every month has 28 to 31 days |
| Dates.LeapDay | citizens/schema.py:71 | 29 February is a valid date exactly in leap years |
| Dates.BeforeIsStrictTotalOrder | citizens/schema.py:75 | date comparison is irreflexive, transitive, total and asymmetric |
| Dates.GroupBeforeDot | citizens/schema.py:64 | a `\d\d?` group before a dot has one or two digits, followed by `.` |
| Dates.FullMatchSound | citizens/schema.py:64 | a match splits the text into 1-2 digits, dot, 1-2 digits, dot, 4 digits |
| Dates.FullMatchComplete | citizens/schema.py:64 | every text of that shape matches, with those three groups |
| Dates.FullMatchEndsInDigit | citizens/schema.py:64 | a full match ends in a digit |
| Dates.MatchDateCorrect | citizens/schema.py:64-65 | `regex.match` succeeds with groups (d, m, y) iff the text is `d.m.y` of that shape, optionally followed by one `"\n"` |
| Dates.MatchDateFinds | citizens/schema.py:64-65 | every way the pattern can match is the one `regex.match` reports |
| Dates.DigitsValueExpand | citizens/schema.py:69 | `int()` of a group of one, two or four digits is its decimal value |
| Fields.PositiveIntegerAccepts | citizens/schema.py:28-32 | accepts exactly an int above zero or `True`; a non-int is a type error and an int up to zero a "must be > 0" error |
| Fields.StringFirstFailureWins | citizens/schema.py:42-58 | a string passes iff it violates none of the five checks, and a failure names the earliest violated one in the order type, min length, max length, letter or digit, values |
| Fields.BirthDateAccepts | citizens/schema.py:61-76 | a birth date passes iff it is a string matching the pattern whose day, month and year form a valid date strictly before today |
| Fields.BirthDateFailures | citizens/schema.py:62-76 | which error each failing birth date raises: type, format, invalid date, or not earlier than today |
| Fields.FirstBadElement | citizens/schema.py:87 | `map(validate, values)` stops at the first element that fails `PositiveInteger`, or finds none iff all pass |
| Fields.RelativesListAccepts | citizens/schema.py:84-91 | the relatives list passes iff it is a list of positive integers without duplicates, and an element failure is the first failing element's error |
| FieldExamples.Judged | citizens/schema.py:64-76 | a date of the right shape is judged by its calendar validity first and by today second |
| FieldExamples.ThirtyFirstFebruary | tests/test_data.py:220 | "31.02.1997" is an invalid date |
| FieldExamples.LeapDayOfCommonYear | tests/test_data.py:220 | "29.02.2019" is an invalid date |
| FieldExamples.YearZero | tests/test_data.py:220 | "00.00.0000" is an invalid date |
| FieldExamples.ThreeDigitDay | tests/test_data.py:221 | "001.02.1997" does not match the pattern |
| FieldExamples.FiveDigitYear | tests/test_data.py:221 | "01.02.01997" does not match the pattern |
| FieldExamples.SlashSeparators | tests/test_data.py:222 | "11/02/1997" does not match the pattern |
| FieldExamples.DateInFuture | tests/test_data.py:224 | "01.01.5020" is not earlier than today |
| FieldExamples.TrailingSpace | tests/test_data.py:227 | "21.02.2019 " does not match the pattern |
| FieldExamples.LeadingSpace | tests/test_data.py:228 | " 1.2.2001" does not match the pattern |
| FieldExamples.MissingDay | tests/test_data.py:229 | ".04.2019" does not match the pattern |
| FieldExamples.OneDigitDay | tests/test_data.py:250 | "1.02.1997" is accepted |
| FieldExamples.YearOne | tests/test_data.py:252 | "1.1.0001" is accepted |
| FieldExamples.LeapDayOfLeapYear | tests/test_data.py:253 | "29.02.2016" is accepted |
| FieldExamples.TrailingNewline | citizens/schema.py:64 | "21.02.2019\n" is accepted, because `$` matches before a final newline |
| FieldExamples.TodayRefused | citizens/schema.py:74-76 | a birth date equal to today is refused |
| FieldExamples.DayBeforeTodayAccepted | citizens/schema.py:74-76 | the day before today is accepted |
| FieldExamples.PositiveIntegerExamples | tests/test_data.py:45-61 | None, "365", -1 and 1.0 are refused, and `True` and 7 are accepted |
| FieldExamples.RelativesListExamples | tests/test_data.py:189-205 | [1, True] and [2, 2] are duplicates, ["2"] is a type error, [2, 0] is not positive, 2 is not a list, and [] passes |
| Schema.FindKind | citizens/schema.py:116 | a name is found in the field table iff some entry has it |
| Schema.FindKindAt | citizens/schema.py:118 | each declared name finds its own validator |
| Schema.DeclaredNamesAreTheTable | citizens/schema.py:94-103 | a key is known to the schema iff it is one of the nine declared names |
| Schema.DeclaredStringRules | citizens/schema.py:96-102 | town, street and building need a letter or digit and at most 256 characters (an empty one is refused for lack of a letter or digit); a name needs 1 to 256 characters (an empty one is too short); a gender is exactly "male" or "female" |
| Schema.FieldCountIsNumberOfNames | citizens/schema.py:105-110 | `fields_cnt` is the number of distinct declared names, nine |
| Schema.DistinctKeysCard | citizens/schema.py:109 | a table without repeated names has as many names as entries |
| Schema.Validate | citizens/schema.py:112-123 | the loop over `data.items()` returns the outcome of `ValidateRecord` |
| Schema.CheckItemsPassIff | citizens/schema.py:115-118 | the item loop completes iff every key is declared and its value passes |
| Schema.CheckItemsFirstFailure | citizens/schema.py:115-118 | a failure of the item loop is the failure of the first item that fails |
| Schema.KeySetSize | citizens/schema.py:119 | a record has as many distinct keys as items, so `len(data)` counts its keys |
| Schema.PartialValidation | citizens/schema.py:112-123 | with `partial=True` a record passes iff every key is declared and its value passes |
| Schema.FullValidation | citizens/schema.py:112-123 | with `partial=False` a record passes iff its key set is exactly the nine declared names and every value passes |
| Schema.UnknownKeyRejected | citizens/schema.py:116-117 | a record with an undeclared key fails in both modes, and not for missing fields |
| Schema.UnknownFieldIsFirst | citizens/schema.py:115-117 | an "unknown field" failure comes from an undeclared key, with every earlier item valid |
| Schema.InvalidFieldIsFirst | citizens/schema.py:118-123 | a "field is invalid" failure names the first failing key in insertion order and its reason |
| Schema.MissingFieldsMeansAbsentField | citizens/schema.py:119-120 | "all fields required" is raised only in full mode, when every item is valid and some declared field is absent |
| Schema.FullValidationFieldPresent | citizens/schema.py:119-120 | after full validation every declared field is present and valid |
| Schema.PartialValidationFieldValid | citizens/schema.py:115-118 | after partial validation every present field is declared and valid |
| Batch.RelativesOf | citizens/schema.py:136 | a citizen's relatives as ids: one per list element, in list order, each the integer value of that element (`True` counting as 1) |
| Batch.KindOfIdAndRelatives | citizens/schema.py:95-103 | `citizen_id` is a positive integer and `relatives` a unique list of positive integers |
| Batch.ValidRecordIsCitizen | citizens/schema.py:131-136 | a fully valid record has a positive `citizen_id` and distinct positive relatives |
| Batch.IdsMembers | citizens/schema.py:134 | the ids of a batch are exactly the `citizen_id`s of its records |
| Batch.ReferencedMembers | citizens/schema.py:139-141 | the referenced ids are exactly the relatives listed by some record |
| Batch.RelativesById | citizens/schema.py:136 | `relatives_by_cid` has exactly the batch's ids as keys |
| Batch.RelativesByIdOfUnique | citizens/schema.py:136 | with unique ids, `relatives_by_cid[cid]` is that citizen's set of relatives |
| Batch.RecordPassFacts | citizens/schema.py:130-135 | a per-record pass that succeeds saw only valid records with unique ids not seen before |
| Batch.RecordPassOfValid | citizens/schema.py:130-135 | valid records with unique, unseen ids pass the per-record pass |
| Batch.FirstPassIff | citizens/schema.py:130-135 | the per-record pass succeeds iff every record is valid and the ids are unique |
| Batch.RecordPassErrors | citizens/schema.py:130-135 | the per-record pass fails only with a record error or a repeated id |
| Batch.FirstPassFailure | citizens/schema.py:130-135 | a per-record failure is raised at the first record that is invalid or repeats an earlier id, every record before it having passed |
| Batch.ValidateCitizens | citizens/schema.py:126-155 | the two loops of `validate_citizens` return exactly `BatchVerdict` |
| Batch.FindUnanswered | citizens/schema.py:152-155 | the nested symmetry loop returns the first citizen, in record order, with an unanswered link |
| Batch.MissingMembers | citizens/schema.py:137-145 | the ids left in `non_existent_relatives` are those referenced and never a `citizen_id`, whichever record comes first |
| Batch.MissingRelatives | citizens/schema.py:147-149 | the batch fails with count N iff the per-record pass succeeds and N > 0 is the number of distinct referenced ids missing from the batch |
| Batch.MissingIgnoresOrder | citizens/schema.py:137-145 | the set of missing relatives does not depend on record order |
| Batch.LinkFailsIffUnanswered | citizens/schema.py:153-154 | a citizen's inner loop raises iff some relative does not list that citizen back |
| Batch.FirstAsymmetricChar | citizens/schema.py:152-155 | the symmetry check finds nobody iff no link fails, and otherwise names the first record, in order, whose link fails |
| Batch.SymmetricIffNoFailure | citizens/schema.py:152-155 | the symmetry check passes iff the relatives relation is symmetric over the batch |
| Batch.BatchAccepted | citizens/schema.py:126-155 | a batch is accepted iff every record is valid, the ids are unique, every relative is in the batch and the relation is symmetric |
| Batch.InvalidRelativesNamesFirst | citizens/schema.py:152-155 | "invalid relatives for A" names the first citizen, in record order, with an unanswered link, after every earlier check passed |
| Batch.UniqueIdsCard | citizens/schema.py:134-135 | a batch has at most as many ids as records, and exactly as many iff the ids are unique |
| Batch.SameRecords | citizens/schema.py:130 | a reordered batch has the same length and the same records |
| Batch.AcceptanceIgnoresOrder | citizens/schema.py:126-155 | reordering the records does not change whether a batch is accepted |
| BatchExamples.SelfReferenceAccepted | citizens/schema.py:152-155 | a citizen listing only itself is accepted |
| BatchExamples.MutualPairAccepted | citizens/schema.py:152-155 | two citizens listing each other are accepted |
| BatchExamples.OneSidedLinkRejected | citizens/schema.py:152-155 | 1 lists 2 but 2 lists nobody: invalid relatives for 1 |
| BatchExamples.LinkCheckDecides | citizens/schema.py:147-155 | with the first two checks passed, the first asymmetric citizen is the error |
| BatchExamples.DanglingRelativeCounted | tests/test_data.py:26-42 | a lone citizen listing relative 2 fails with one non-existent relative |
| BatchExamples.RepeatedRecordRejected | citizens/schema.py:134-135 | the same record twice fails with a non-unique id |
| Store.FindFirst | citizens/storage.py:51-55 | the filter `{'citizen_id': id}` selects the first record with that id, or none iff no record has it |
| Store.FindByValueFinds | citizens/api.py:38 | `get_one_citizen` finds a record iff the requested value is an int that some record has as `citizen_id`, and returns such a record |
| Store.KeyIndex | citizens/storage.py:53 | a key is located iff the record has it |
| Store.LookupIff | citizens/storage.py:53 | a lookup gives x iff the record has the item (key, x) |
| Store.SetFieldLookup | citizens/storage.py:53 | after setting one field, that key reads the new value and every other key is unchanged |
| Store.SetFieldKeys | citizens/storage.py:53 | setting a field keeps the existing keys in place and adds the key if it was absent |
| Store.SetFieldsLookup | citizens/storage.py:53 | after `$set`, a key of the body reads the body's value and any other key keeps the stored value |
| Store.SetFieldsKeys | citizens/storage.py:53 | `$set` keeps the existing keys in order and adds the body's new keys |
| Store.SetFieldsIdempotent | citizens/storage.py:53 | applying the same `$set` twice reads the same as applying it once |
| Store.Storage.constructor | citizens/storage.py:21-23 | a new storage has counter 0, no imports and no calls |
| Store.Storage.GenerateImportId | citizens/storage.py:25-39 | increments the counter and returns its new value, which is positive |
| Store.Storage.NewImport | citizens/storage.py:41-46 | appends the records to the import's collection and changes nothing else |
| Store.Storage.GetCitizens | citizens/storage.py:58-59 | returns the import's records in storage order, or `ImportNotFound` exactly when no import has that id, and changes nothing |
| Store.Storage.GetOneCitizen | citizens/api.py:38 | returns the first record with the requested `citizen_id`, or raises not-found, and changes nothing |
| Store.Storage.UpdateCitizen | citizens/storage.py:48-56 | applies `$set` to the first record with that `citizen_id` and returns the updated record; with no such record it returns null and changes nothing |
| Presents.Repeat | citizens/api.py:62 | n copies of a month |
| Presents.RunsExpand | citizens/api.py:62 | `groupby` loses nothing (expanding the runs gives back the months), its runs are maximal, and the first run has the first month |
| Presents.RunsMaximal | citizens/api.py:62 | every run has length at least 1 and neighbouring runs have different months |
| Presents.RunsLoseNothing | citizens/api.py:62 | the runs expand back to the input months |
| Presents.RunsOfExpand | citizens/api.py:62 | maximal runs are regrouped into themselves, so the grouping is unique |
| Presents.RunsOfRepeat | citizens/api.py:62 | a block of one month followed by a different month makes one run |
| Presents.ExpandLength | citizens/api.py:65 | the counts of the runs add up to the number of months |
| Presents.RunKeysFromInput | citizens/api.py:62 | every run's month occurs among the relatives' months |
| Presents.ExpandContains | citizens/api.py:62 | every non-empty run's month occurs in the expansion |
| Presents.EmptyTable | citizens/api.py:54 | the initial table has exactly the keys 1..12, each an empty list |
| Presents.MonthListAppend | citizens/api.py:55-66 | the entries of a month for two groups of citizens are the first group's followed by the second's |
| Presents.ContributionEntries | citizens/api.py:63-66 | every entry names its citizen and has `presents >= 1` |
| Presents.PresentsSumAppend | citizens/api.py:63-66 | presents add up over concatenated lists |
| Presents.SumMonthsIsTotal | citizens/api.py:62-66 | over months 1..n, a citizen's presents add up to its runs' counts in those months |
| Presents.RunsTotalInAll | citizens/api.py:62-66 | when every run is a month, the runs' counts in months 1..12 are all the runs' counts |
| Presents.PresentsAddUpToRelatives | citizens/api.py:56-66 | a citizen's presents over the twelve months add up to its number of relatives |
| Presents.ListsTotalIsEntriesTotal | citizens/api.py:55-66 | counting the presents month by month gives the same total as counting them citizen by citizen |
| Presents.TablePresents | citizens/api.py:54-66 | each month 1..n is in the table, and the table's presents up to n are the month lists' total |
| Presents.TableTotal | citizens/api.py:54-66 | the presents in the whole table add up to the per-citizen totals |
| Presents.MonthListOfThree | citizens/api.py:55-66 | a month's list for three citizens is their entries in iteration order |
| Presents.ExampleMonth | tests/test_get_presents_by_month.py:62-84 | the month table of the three-citizen example, month by month |
| Presents.BirthdayExample | tests/test_get_presents_by_month.py:62-84 | in the three-citizen example, months 1 and 5 hold citizen 1 once, month 4 holds citizens 2 and 3 in that order, and the other months are empty |
| Api.NewImport | citizens/api.py:18-25 | a batch that fails validation is refused before any storage call; an accepted batch draws one id, stores the batch under it, and gets a 201 response with exactly that id |
| Api.StoreImport | citizens/api.py:22-23 | draws the next id, then stores the records under it |
| Api.StoredImportIsAccepted | citizens/api.py:21-23 | whatever is stored is valid, has unique ids, names only present relatives and is symmetric |
| Api.FirstMissing | citizens/api.py:36-41 | the first requested relative that storage cannot find, or none iff all are found |
| Api.UpdateCitizen | citizens/api.py:28-42 | refuses a body with `citizen_id`, then an invalid partial body, before any storage call; looks the relatives up in order and stops at the first missing one without writing; otherwise issues one update, for the target citizen only, and returns its result |
| Api.LookUpAll | citizens/api.py:36-38 | looks the relatives up in order, stopping at the first missing one, and changes no data |
| Api.LookUpOne | citizens/api.py:38 | one `get_one_citizen` call, which reports whether the relative exists |
| Api.UpdateRelativesAreAList | citizens/api.py:36-37 | after partial validation, the relatives of a body are a list of distinct positive ints |
| Api.UpdateKeepsRecordValid | citizens/api.py:34-39 | a valid stored record updated with a valid partial body is still a valid full record |
| Api.UpdatedItemValid | citizens/api.py:34-39 | every item of such an updated record is valid |
| Api.StrptimeMonth | citizens/api.py:59 | a birth date `strptime` accepts has a month from 1 to 12 |
| Api.ValidatedBirthDateHasMonth | citizens/api.py:59 | a validated birth date without a trailing newline is accepted by `strptime`, and its month is the pattern's month group |
| Api.TrailingNewlineBirthDateRefused | citizens/api.py:59 | a validated birth date ending in a newline makes `strptime` raise `ValueError` |
| Api.RelativeMonth | citizens/api.py:58-59 | a relative's birth month is a month, and a relative storage cannot find raises not-found |
| Api.RelativeMonths | citizens/api.py:57-60 | on success, one month for each relative, in order |
| Api.RelativeMonthsFirstError | citizens/api.py:57-60 | a failure is the exception of the first relative that raises |
| Api.CitizenEntryTotal | citizens/api.py:56-66 | a citizen that raises nothing has a relatives list and a `citizen_id`; its runs are maximal and its presents add up to its number of relatives |
| Api.CitizenWithoutRelatives | citizens/api.py:56-66 | a citizen with an empty relatives list looks nothing up, has no runs, and leaves every month of the table as it was |
| Api.CitizenRunsEntries | citizens/api.py:55-66 | on success, one entry per citizen, in iteration order |
| Api.CitizenRunsTotal | citizens/api.py:55-66 | on success, all citizens' presents add up to the relatives listed in the import |
| Api.CitizenRunsFirstError | citizens/api.py:55-60 | a failure is the exception of the first citizen that raises |
| Api.PresentsCountRelatives | citizens/api.py:54-66 | the answer has exactly the keys 1..12, and its presents add up to the number of relatives listed in the import |
| Api.PresentsEntries | citizens/api.py:61-66 | every entry in the answer has `presents >= 1` and names a citizen of the import |
| Api.PresentsEntry | citizens/api.py:61-66 | an entry of a month's list has `presents >= 1` and names a citizen of the import |
| Api.MonthListEntry | citizens/api.py:55-66 | each entry of a month's list comes from one citizen's contribution |
| Api.PresentsByMonthFailure | citizens/api.py:55-60 | the request fails iff some citizen raises, and then with the first such citizen's exception |
| Api.GetPresentsByMonth | citizens/api.py:51-67 | an import that was never stored is refused with `ImportNotFound` after the one `get_citizens` call; otherwise the nested loops return `PresentsByMonth` of its records; only reads are issued |
| Api.ReadCitizen | citizens/api.py:56-66 | one citizen's iteration returns that citizen's entry and issues only reads |
| Api.BirthMonths | citizens/api.py:57-60 | the loop over a citizen's relatives returns their birth months and issues only reads |
| Api.ReadBirthMonth | citizens/api.py:58-59 | one lookup returns that relative's birth month or the exception it raises |
| Api.AddRuns | citizens/api.py:62-66 | appending one citizen's runs gives the table of all citizens so far, that one included |

## Left out

- I/O and the web layer: aiohttp request parsing, JSON decoding, response
  serialisation, status handling in middleware (`citizens/app.py`,
  `citizens/main.py`, `citizens/__main__.py`). A request body arrives as an
  already-decoded value. Not modelled: an import body that is not a list of
  objects (an object body, or a list with a non-object element such as `[1]`),
  an update body that is not an object, and a path parameter that `int()`
  refuses.
- Concurrency: the handlers are `async` and storage calls may interleave with
  other requests. Each handler is modelled as running alone.
- MongoDB: driver calls, the `_id` field Mongo adds to stored documents, and
  whether a query on `citizen_id` treats `True` and `1` alike. Storage is a map
  from import id to a list of records.
- `MemoryStorage` (`citizens/storage.py:62-86`) is not part of this model.
  Its `update_citizen` does not run as written.
- `citizens/cache.py` (file-system cache) and `citizens/data.py` (an unused
  duplicate of the batch check) are not part of this model. `tests/scripts/`
  and `tests/run.py` are not either.
- `get_age_percentiles` and `get_citizens` in `citizens/api.py`. The first
  needs numpy floating-point percentiles and the wall clock. The second passes
  records through.
- Store.Storage.NewImport: an empty batch is accepted, stored as an import
  with no citizens, and answered with 201. What the handlers' storage does with
  an empty list is not in the sources. `insert_many`, which `MongoStorage`
  uses, refuses one.
- Store.Storage.GetOneCitizen: an import that was never stored is read as one
  with no citizens, so every lookup in it raises `CitizenNotFoundError`.
  Whether the storage raises `ImportNotFound` instead is not in the sources.
- Store.Storage.UpdateCitizen: for an import that was never stored it returns
  null, so `update_citizen` answers `{'data': null}`. Whether the storage
  raises `ImportNotFound` instead is not in the sources.
- Propagating relatives to the other side on update, and rolling back an
  import. The code does neither.
- Error message texts: errors are modelled by category and by field name.
- The clock: `datetime.utcnow().date()` is the parameter `today`.
- Fields.IsAlpha: `str.isalpha` holds for every Unicode letter. The model
  accepts only the Latin and Russian alphabets, and `isdigit` and `\d` only
  ASCII digits.
- Fields.ValidateList: only the branch the schema uses is modelled, where the
  element type is a `Field`. The other branch checks element types with
  `isinstance` (`citizens/schema.py:88-89`).
- Api.StrptimeMonth: `strptime('%d.%m.%Y')` also accepts forms the birth-date
  pattern never lets through, such as space-padded fields. The model accepts
  only strings of the pattern's shape, and only those without a trailing
  newline.
- Api.CitizenEntry: iterating a stored `relatives` value that is not a list
  is modelled as a `TypeError`. Python would iterate a string or a dict.
  Stored records passed validation, so they always hold a list.
