# Inmate tracker: identity keys and new-inmate detection

A Dafny model of the two pure parts of the inmate tracker's `main.py`, with
proofs of what they promise.

- The **identity normaliser**. `normalize_name` upper-cases a scraped
  display name, deletes commas, turns spaces into `_`, and then deletes every
  character outside `[A-Z0-9_]`. `generate_inmate_id` appends `_` and the
  county tag (`crawford` or `sebastian`). Both live in `identity.dfy`
  (module `Identity`).
- The **listing record** `{inmateId, name, imageUrl, county}` that each
  county scraper builds. It carries the photo URL or the `"No Image"`
  sentinel. The run's batch is Crawford's listings followed by Sebastian's.
  These are in `inmates.dfy` (module `Inmates`).
- **New-inmate detection**, the loop of the main block. It walks the batch
  in order. Each record whose id is not yet a key of the master database is
  appended to `newly_added` and stored under its id. Known ids change
  nothing. Because the database is updated inside the loop, a repeated id
  is reported only once. This is in `reconcile.dfy` (module
  `Reconciliation`): `Reconcile` is the pure function and
  `DetectNewInmates` is the loop.
- **A run**. It loads the database, scrapes both counties, detects new
  inmates, and writes both files, the new-inmates list and the whole
  database, unless one of the earlier steps raises first. This is in
  `run.dfy` (module `Run`). Loading, scraping and writing are I/O. A run is modelled as a function from two inputs to the
  contents of the two files:
  - the loaded database, given as its entries and the order of its keys in
    the file;
  - the two scrapes.

  The written database is a Python dict, so `json.dump` writes its keys in
  insertion order: the loaded keys in file order, then each new id in the
  order it was reported. The model carries that order explicitly.

Strings are `seq<char>` and the database entries are an immutable
`map<string, Inmate>`. Upper-casing is modelled as the ASCII mapping
`a-z` to `A-Z` (see "Left out").

Some consequences of the code are worth stating directly:
- A run writes both files even when both scrapes are empty
  (`Run.EmptyScrapeStillWrites`).
- Only the newly added records go into the new-inmates file. No record
  carries a flag saying whether it is new or already known.
- A database file that is missing loads as empty. A malformed one raises
  an error and ends the run.
- `John Smith` in Crawford County gets the id `JOHN_SMITH_crawford`,
  because spaces become `_`.

## Model

| member | source | states |
|---|---|---|
| Identity.NormalizeName | main.py:18-20 | every character of a normalised name is in A-Z, 0-9 or `_` |
| Identity.NormalizeIsCharwise | main.py:20 | the four-pass pipeline (upper, delete `,`, space to `_`, keep `[A-Z0-9_]`) equals a character-by-character reference: a comma gives nothing, a space gives `_`, any other character gives its upper case if that is in the key alphabet and nothing otherwise |
| Identity.NormalizeConcat | main.py:20 | normalising a concatenation is concatenating the normalised parts: no character's treatment depends on its neighbours |
| Identity.NormalizedHasNoCommaOrSpace | main.py:20 | no comma, no space and no lower-case ASCII letter survives normalisation |
| Identity.NormalizeFixedPoints | main.py:20 | a string is left unchanged by normalisation if and only if all its characters are in the key alphabet |
| Identity.NormalizeIdempotent | main.py:18-20 | normalising an already normalised name returns it unchanged |
| Identity.NormalizePunctuatedName | main.py:20 | `"John Smith, Jr."` normalises to `"JOHN_SMITH_JR"` |
| Identity.NormalizeUpperCaseName | main.py:20 | `"JOHN SMITH JR"` normalises to `"JOHN_SMITH_JR"` |
| Identity.NormalizeCollapsesVariants | main.py:22-24 | in any county, `"John Smith, Jr."` and `"JOHN SMITH JR"` get the same id |
| Identity.EmptyNameId | main.py:18-24 | an empty name gives an empty fragment and the id `"_crawford"` in Crawford County |
| Identity.InmateId | main.py:22-24 | an id is as long as the normalised name plus `_` plus the county; it ends with `"_" + county`, and everything before that suffix is in the key alphabet. `InmateIdParts` and `InmateIdInjective` carry the rest |
| Identity.InmateIdParts | main.py:22-24 | an id is the normalised name, then `_`, then the county: it ends with `"_" + county` |
| Identity.InmateIdInjective | main.py:22-24 | for county tags without `_`, two ids are equal if and only if the normalised names are equal and the counties are equal |
| Identity.CountiesNeverCollide | main.py:22-24 | an id built with `crawford` never equals an id built with `sebastian`, whatever the names |
| Identity.UnderscoreCountyCollides | main.py:24 | the restriction on `_` is needed: name `"A"` in county `"B_C"` and name `"A B"` in county `"C"` get the same id |
| Inmates.CrawfordRecord | main.py:50-58 | a Crawford record has county `crawford`, the given name, the id generated from that name and `crawford`, and `imageUrl` equal to `"No Image"` exactly when the page had no photo and otherwise to `https://inmates.crawfordcountysheriff.org` followed by the photo's `src` |
| Inmates.SebastianRecord | main.py:82-90 | the same for a Sebastian record, with county `sebastian` and the base `https://inmate.sebastiancountyar.gov/NewWorld.InmateInquiry/` |
| Inmates.ImageUrl | main.py:50 | with no photo the URL is `"No Image"`; with one it is the base followed by the photo's `src`; for a base longer than the sentinel, the URL is `"No Image"` exactly when there is no photo |
| Inmates.ScrapedBatch | main.py:125 | the batch is the Crawford listings in order followed by the Sebastian listings in order, and holds exactly the records of both, with multiplicity |
| Inmates.ScrapedBatchIds | main.py:125 | the ids of the concatenated batch are the ids of the Crawford part and of the Sebastian part |
| Inmates.CountyIdsDisjoint | main.py:125 | in a batch built by the two scrapers, no Crawford id equals a Sebastian id |
| Reconciliation.Reconcile | main.py:128-134 | after the pass the database's keys are the old keys plus the batch's ids, every old entry keeps its record, and each reported record was unknown before and is what the database now stores under its id |
| Reconciliation.DetectNewInmates | main.py:128-134 | the loop, with its list accumulator and in-place database update, ends with exactly the outcome of `Reconcile` |
| Reconciliation.ReconcileConcat | main.py:130-133 | reconciling `a + b` is reconciling `a`, then reconciling `b` against the database `a` left behind, and concatenating the reports |
| Reconciliation.NewlyAddedAreFirstOccurrences | main.py:129-133 | the report equals an independent definition: the records whose id is neither in the old database nor seen earlier in the batch, in batch order |
| Reconciliation.NewlyAddedIsSubsequence | main.py:129-132 | the report is an order-preserving subsequence of the scraped batch |
| Reconciliation.NewlyAddedIdsDistinct | main.py:131-133 | no id is reported twice, even when the batch repeats it |
| Reconciliation.NewlyAddedIds | main.py:130-133 | the reported ids are exactly the batch's ids minus the old database's keys |
| Reconciliation.DbGrowsByNewlyAdded | main.py:130-133 | the database grows by exactly one entry per reported record |
| Reconciliation.NothingNewIffAllKnown | main.py:128-134 | nothing is reported if and only if every scraped id is already a key, and then the database is unchanged |
| Reconciliation.UnknownDistinctBatchReportedInFull | main.py:128-134 | against a database that knows none of them, a batch without repeated ids is reported in full and in order |
| Reconciliation.NewlyAddedDependsOnBatchIdsOnly | main.py:131 | the report depends only on which of the batch's ids the database knows |
| Run.KeyOrderAppend | main.py:129-133 | inserting records with fresh, pairwise distinct ids into a dict whose key order lists each key once appends their ids, in insertion order, and the result again lists each key once |
| Run.RunOnce | main.py:117-140 | the written database is the loaded one grown by both scrapes' ids, with every loaded entry unchanged; the written new-inmates list names each previously unknown scraped id exactly once; in the database file the loaded keys keep their order and the new ids follow in report order, so every key appears exactly once. Which records are written, and in what order, is stated by `RunOnceWritesFirstOccurrences` |
| Run.RunOnceWritesFirstOccurrences | main.py:129-133 | which records a run writes: the new-inmates file is the first scraped record of each id the loaded database did not know, in scrape order (an order-preserving subsequence of the batch), and the database file stores each of those records under its id |
| Run.EmptyScrapeStillWrites | main.py:125-140 | when both scrapes are empty, both files are still written: an empty list and the loaded database unchanged, in its loaded key order |
| Run.AllKnownRunChangesNothing | main.py:128-140 | when every scraped id is known, the run writes an empty list and the loaded database unchanged, in its loaded key order |
| Run.NewlyAddedIsSourceMajor | main.py:125-134 | the written list is Crawford's new inmates followed by Sebastian's, each as if that county were reconciled alone against the loaded database |
| Run.KnownAndNewInmateRun | main.py:121-140 | with one stored Crawford inmate scraped again with a different photo, plus one Sebastian inmate, only the Sebastian inmate is reported, and the database holds the original Crawford record and then the new one |

## Left out

- Identity.UpperChar: Python's `str.upper()` is full Unicode, and this model upper-cases only ASCII `a-z`. The two differ only on characters whose Unicode upper case contains ASCII letters, such as `ß` (`SS`), dotless `ı` (`I`), long `ſ` (`S`) and ligatures like `ﬁ`. Python keeps those letters in the key; this model drops them. Every other non-ASCII character is deleted by both.
- HTTP fetching (`requests.get`, `raise_for_status`, main.py:33-34, 47, 72-73) is network I/O and is not modelled. The code sets no timeouts.
- HTML extraction (main.py:35-50, 74-82) relies on a foreign library and each site's markup. Each scraper's output is an input sequence of records. Its per-record construction is modelled as `CrawfordRecord`/`SebastianRecord`, with the photo's `src` given as an `Option`. Several scraper behaviours are not modelled:
  - skipping a Crawford inmate whose detail page raises a request error (main.py:59-61);
  - catching a request error for a whole county, which gives an empty list (main.py:63-64, 92-93);
  - errors that are not request errors, such as a detail page without an `inmate-photo` element, which propagate and end the run.
- JSON persistence (`load_database`, `save_database`, `save_newly_added`, main.py:98-113) is file I/O. The database is an in-memory map plus its key order, and a run returns the two files' contents. Three details are not modelled:
  - a missing file loads as an empty map, and a malformed file raises an error;
  - loaded entries are taken to have the record shape. Only their keys affect detection;
  - the JSON text itself: indentation, escaping, and the order of fields inside each record.
- Run.RunOnce: the loaded key order is an input, standing for the file order that `json.load` keeps. The model promises that the written order lists every key exactly once only when the loaded order does; a dict built by `json.load` always meets that.
- `print` logging has no effect on any result and is left out.
- Each file is written by opening it for writing and dumping into it (main.py:107-108, 112-113). A run that fails part-way can leave a file truncated, and the model does not represent partial writes.
