# Security-Database-Enrichment in Dafny

This project models the two core stages of the Security-Database-Enrichment pipeline and
proves their properties.

- **The Java filter** (`filter_java_vulnerabilities`) reads a decoded NIST feed. It keeps
  items whose `publishedDate` parses with the format `%Y-%m-%dT%H:%M%z` and lies in the
  inclusive window 2023-01-01T00:00Z to 2024-12-31T23:59Z. From those items it builds one
  normalised record per description whose lower-cased text contains `java` but not
  `javascript`.
- **The store** (`store_vulnerabilities` / `update_vulnerabilities`) upserts each record into
  the vulnerability collection by `cve_id`. It `$set`s six fields and supplies defaults for the
  optional ones.

Layout, one module per file:

- `wrappers.dfy`: `Option`, with the `:-` failure protocol.
- `json.dfy`: the JSON values the records carry.
- `text.dfy`: ASCII lower-casing and Python's substring test `p in s`.
- `timestamp.dfy`: `datetime.strptime(s, '%Y-%m-%dT%H:%M%z')`, following the directive grammar of
  CPython 3.12's `_strptime`, plus a formatter, the round trip between them, and the absolute instant
  of an aware timestamp, measured in microseconds since 0001-01-01T00:00 UTC.
- `preprocess.dfy`: the filter. It is an imperative method whose `for` loop over the items calls
  a second method, `CollectJavaDescriptions`, for the source's inner loop over one item's
  descriptions. Both are proved equal to recursive specifications: `Filtered` and
  `DescriptionRecords`. The lemmas about `Filtered` give the promises of the
  filter.
- `database.dfy`: the collection is a class whose field `docs` maps a `cve_id` to the stored
  document. `StoreVulnerabilities` and `UpdateVulnerabilities` are its loops, proved equal to
  the specification `StoreAll`. A record missing a required key ends the loop with a
  `KeyError` outcome.
- `pipeline.dfy`: the hand-off in `main.py`, where the filter's output is stored. It also holds
  two end-to-end scenarios.

Inputs the model takes as parameters:

- The clock: the filter's created-date text `now` and the store's current time `now`, one
  reading per call.
- The filter's input: an already-decoded feed.

## Model

| member | source | states |
|---|---|---|
| Preprocess.FilterJavaVulnerabilities | preprocess.py:32-73 | the nested loop, with its `continue` skips, returns exactly `Filtered(feed, now)`, the specification every lemma below is about |
| Preprocess.CollectJavaDescriptions | preprocess.py:60-71 | the inner loop returns one record per matching description of an item, in order |
| Preprocess.NoItemListNoRecords | preprocess.py:37-40 | a feed whose `CVE_Items` is absent or not a list yields `[]` |
| Preprocess.SkippedItemContributesNothing | preprocess.py:43-58 | an item with an absent or empty date, a date that does not parse, a date outside the window, or a non-list `description_data` yields no records |
| Preprocess.QualifyingItemRecords | preprocess.py:54-71 | an item passing every skip rule yields the records of its description list, where an absent list counts as empty |
| Preprocess.SkippedItemIsTransparent | preprocess.py:42-58 | removing a skipped item from anywhere in the feed leaves the output unchanged |
| Preprocess.ItemsRecordsAppend | preprocess.py:42-71 | items are processed independently and in order: the output for `a + b` is the output for `a` followed by the output for `b` |
| Preprocess.DescriptionRecordsAppend | preprocess.py:60-71 | descriptions are processed independently and in order, in the same sense |
| Preprocess.DescriptionRecordsBound | preprocess.py:60-71 | an item yields at most one record per description |
| Preprocess.OutputBound | preprocess.py:42-71 | the output is no longer than the number of descriptions of the items that pass the skip rules |
| Preprocess.DescriptionRecordShape | preprocess.py:60-71 | every record of an item is built from one of its matching descriptions |
| Preprocess.ItemsRecordsProvenance | preprocess.py:42-71 | every record of the output comes from one item of the feed |
| Preprocess.EmittedRecordShape | preprocess.py:60-71 | every emitted record has `package_name` "Java", `created_by` "admin" and the call's created date; its description is lower-cased and mentions java but not javascript; its `cve_id`, unparsed `published_date` and version data (or "") come from a qualifying item, and its description is the lowered value of one of that item's descriptions |
| Preprocess.EmittedAtPosition | preprocess.py:42-71 | every matching description of every qualifying item is emitted, at the position counted by the records of the earlier items and earlier descriptions; nothing is lost and input order is kept |
| Preprocess.MissingValueNeverMatches | preprocess.py:61-62 | a description without `value` is read as "" and never matches |
| Preprocess.WindowStartParses | preprocess.py:34 | the literal lower bound parses to 2023-01-01 00:00 UTC |
| Preprocess.WindowEndParses | preprocess.py:35 | the literal upper bound parses to 2024-12-31 23:59 UTC |
| Preprocess.WindowIsYears2023And2024 | preprocess.py:54 | for a UTC date, the inclusive window test holds exactly when the year is 2023 or 2024 |
| Text.Lower | preprocess.py:61 | lower-casing keeps the length and lowers each character |
| Text.LowerIsLower | preprocess.py:61 | lower-cased text holds no upper-case letter, and lower-casing it again changes nothing |
| Text.OccursContains | preprocess.py:62 | an occurrence of `p` at any index makes `p in s` true |
| Text.ContainsOccurs | preprocess.py:62 | when `p in s` is true, `p` occurs at some index |
| Text.ContainsIff | preprocess.py:62 | `p in s` holds exactly when `p` occurs in `s` at some index |
| Text.JavascriptContainsJava | preprocess.py:62 | any text containing "javascript" contains "java", so the second test only removes texts the first admits |
| Timestamp.Parse | preprocess.py:49-52 | a successful parse gives a real calendar date (years 1 to 9999, the day within the month) with an hour, a minute and an offset under 24 hours; `None` stands for the `ValueError` strptime raises, and `ParseFields` says which full-width texts give it |
| Timestamp.YearField | preprocess.py:49 | `%Y` accepts four digits, giving 0 to 9999 |
| Timestamp.MonthField | preprocess.py:49 | `%m` gives 1 to 12 |
| Timestamp.DayField | preprocess.py:49 | `%d` gives 1 to 31 |
| Timestamp.HourField | preprocess.py:49 | `%H` gives 0 to 23 |
| Timestamp.MinuteField | preprocess.py:49 | `%M` gives 0 to 59 |
| Timestamp.ZoneField | preprocess.py:49 | `%z` gives an offset strictly under one day in magnitude |
| Timestamp.ParseClock | preprocess.py:49 | the `%H:%M%z` part gives an hour, a minute and an offset within their ranges |
| Timestamp.ParseMonthDay | preprocess.py:49 | the `%m-%dT%H:%M%z` part gives a month, a day and a clock part within their ranges |
| Timestamp.ZoneRoundTrip | preprocess.py:49 | every offset under a day, written as `Z` or `±HHMM[SS[.ffffff]]`, parses back to itself |
| Timestamp.ParseFields | preprocess.py:49-52 | text of the format's shape, with each field written at full width, parses to its fields exactly when they name a valid timestamp, and to `None` otherwise: year 0000, month 13, day 32, February 29th outside a leap year, hour 24 and minute 60 are rejected |
| Timestamp.ParseFormat | preprocess.py:49 | every valid timestamp, once formatted, parses back to itself |
| Timestamp.LeapDay | preprocess.py:49-52 | February 29th of a year parses exactly when the year is a leap year |
| Timestamp.ZoneRejectsFullDay | preprocess.py:49-52 | `%z` rejects `±HHMM` text of 24 hours or more, with or without seconds and a fraction, which is the layout `FormatZone` writes |
| Timestamp.ZoneRejectsFullDayColon | preprocess.py:49-52 | `%z` rejects `±HH:MM` text of 24 hours or more |
| Timestamp.Pad2Fields | preprocess.py:49 | each two-digit field reader accepts exactly the numbers of its range: 1-12 for `%m`, 1-31 for `%d`, 0-23 for `%H`, 0-59 for `%M` |
| Timestamp.DaysInMonth | preprocess.py:49 | every month has 28 to 31 days |
| Timestamp.InstantOrder | preprocess.py:54 | for two timestamps with the same offset, comparing instants is the same as comparing the wall-clock fields lexicographically |
| Database.Collection.UpsertOne | Database.py:44-57 | one `update_one` with `upsert=True`: a record lacking a key read with `[]` raises `KeyError` and changes nothing; otherwise the document for its `cve_id` is replaced by the six `$set` fields |
| Database.Collection.StoreVulnerabilities | Database.py:43-57 | the loop upserts the records before the first one missing a required key, in order; the new store is `StoreAll` of the old store over that prefix, and the outcome is `KeyError` at that record or `Completed` |
| Database.Collection.UpdateVulnerabilities | Database.py:79-93 | the same effect and outcome as `store_vulnerabilities` on every input |
| Database.MissingKey | Database.py:45-49 | the key reported missing is the first of `cve_id`, `package_name`, `vulnerable_versions` the record lacks; none is reported exactly when all three are present |
| Database.Processed | Database.py:43-49 | the number of records upserted before a `KeyError`: every earlier record is complete and the record at that index is not |
| Database.CompleteBatchCompletes | Database.py:43-57 | a batch of complete records is stored to the end without error |
| Database.StoreAllKeys | Database.py:43-57 | after the batch, the store's keys are the old keys plus every `cve_id` of the batch: upsert creates documents that were missing and never duplicates one |
| Database.StoreAllUntouched | Database.py:44-45 | a document whose key is no `cve_id` of the batch keeps its value, or stays absent |
| Database.StoreAllLastWins | Database.py:43-57 | the document for a `cve_id` holds the fields of the last record with that id; `description` and `published_date` default to "", `created_date` to the current time, and `created_by` to "unknown" |
| Database.StoreAllFromBatch | Database.py:43-57 | every document written for an id of the batch was built from some record of the batch with that id |
| Database.StoreAllForgetsOld | Database.py:47-54 | a document written by the batch does not depend on what the store held before, because `$set` rewrites all six fields |
| Database.StoreAllIdempotent | Database.py:43-57 | with the clock held fixed, storing a batch twice gives the same store as storing it once |
| Database.StoreAllIgnoresClock | Database.py:52 | when every record carries `created_date`, the store does not depend on the clock |
| Database.StoreAllIdempotentStamped | Database.py:52 | when every record carries `created_date`, a second run at another time changes nothing |
| Pipeline.AsRecord | preprocess.py:63-71 | the dict the filter appends holds every key the store reads with `[]`, plus `created_date` and `created_by` |
| Pipeline.AsRecords | preprocess.py:63-71 | the list of appended dicts maps the records one to one, and every dict is complete |
| Pipeline.StoredRecordFields | Database.py:47-54 | for a record built by the filter, the stored document carries all of its fields and no default applies |
| Pipeline.FilterOutputCompletes | main.py:26-28 | storing the filter's output never raises `KeyError` |
| Pipeline.FilterOutputDocs | main.py:26-28 | every document written from the filter's output carries "Java", "admin", the filter's created date (not the store's clock) and a lower-cased java-but-not-javascript description |
| Pipeline.ScenarioDateParses | preprocess.py:49-54 | the date 2023-06-15T10:00Z parses and lies in the window |
| Pipeline.OneItemFeed | preprocess.py:42-71 | a feed with one qualifying item and one description yields that description's record exactly when it matches |
| Pipeline.ScenarioRecords | preprocess.py:42-71 | the scenario item, dated 2023-06-15, yields a record with the lowered description exactly when that description passes the java test |
| Pipeline.JavaScenario | preprocess.py:60-71 | for a java description, the filter gives one complete record, and storing it into an empty collection gives one document with every field fixed |
| Pipeline.JavaScriptScenario | preprocess.py:62 | for a description that mentions javascript, the filter gives nothing and the store is unchanged |

## Left out

- `NISTFetch.py` is not part of this model. It makes HTTP requests and decodes JSON, so the filter takes a feed that is already decoded. When the fetch fails it returns `None`, which main.py:25-26 passes on to the filter; `None.get` at preprocess.py:37 then raises `AttributeError`. The model's feed is always a decoded object, so this crash is not modelled.
- `main.py` is modelled only as the composition filter-then-store (`Pipeline`). Its `print` of the count and its commented-out `update_vulnerabilities` call are not modelled.
- The connection setup in Database.py (lines 6-21) is left out: environment variables, `MongoClient` and the exception it re-raises.
- The `print` diagnostics are left out. Those at preprocess.py:45 and :57 evaluate `cve_data.get('cve', {}).get('CVE_data_meta', {}).get('ID')`. That raises `AttributeError` when `cve` or `CVE_data_meta` is present but `null`, so an item skipped for its date can crash the run through its message. The model's types cannot express a `null` there (see the crash line below). Otherwise the messages do not affect the results.
- Preprocess.FilterJavaVulnerabilities: the source reads `datetime.now()` once for every record it emits. The model instead takes one created-date text per call. Reading the clock, and its `strftime('%Y-%m-%dT%H:%M:%SZ')` formatting, are not modelled.
- Database.Collection.StoreVulnerabilities: the default `created_date` is `datetime.utcnow()`, read once for every record. The model takes one reading per call. `UpdateVulnerabilities` is modelled the same way.
- Text.Lower: only ASCII letters are lower-cased. Python's full Unicode `str.lower()`, including case changes that alter the length, is not modelled.
- Timestamp.Parse: `\d` is read as an ASCII digit. Python also accepts other Unicode decimal digits there.
- Timestamp.Parse: the contracts describe only text in the full-width layout `YYYY-MM-DDTHH:MM` followed by the zone `FormatZone` writes (`ParseFields`, `ParseFormat`). The body also handles other text, but no contract states what it does there. That covers the lenient forms it accepts: one-digit and space-padded fields, a lower-case `t`, offsets with a colon and with seconds or a fraction. It also covers the badly shaped text it rejects: a missing zone, trailing characters, a colon used in only one place of the offset.
- Inputs that make the source crash rather than skip are left out. Examples are a non-dict item, a `publishedDate` that is neither a string nor falsy, a JSON `null` or non-string description `value`, and a `null` `cve`, `CVE_data_meta`, `description` or `configurations` object. The model's types cannot express these inputs.
- JSON numbers are integers only. Floating-point values are not modelled.
- Mongo behaviour beyond a keyed map with `$set` is left out. This covers fields outside the six `$set` ones that an existing document keeps, the `_id` field, and query matching for `null`, array or non-scalar `cve_id` values. A stored document is exactly the six `$set` fields.
- Concurrency and database failures during a batch are left out.
