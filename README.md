# scraper-panel core, modelled in Dafny

scraper-panel harvests rental advertisements from several classified-ad
sites. Each site is covered by a scraper: slando, irr, real.nn.ru,
posrednikov, avito, and a legacy avito scraper. A scheduler runs every
source on its own timer. A socket façade shows the scheduler's tasks and
lets an operator start a source at once. A small web front-end formats
the stored records.

This project models the bookkeeping and decision logic around the
scrapers:

- **`Scheduler`** (`scheduler.dfy`): each source's task spec as a class.
  It covers:
  - the `idle`/`working`/`error` states;
  - `last`, `next`, `message` and the `_tm` timer handle;
  - the three lifecycle handlers, `runNow`, and the `copy` used for
    broadcasts.
- **`ControllerIo`** (`controller_io.dfy`): the `scheduler:tasks`
  snapshot, the `scheduler:run-now` command, and the rebroadcast of
  `exec:*` events.
- **`Pipeline`** (`pipeline.dfy`): one run of a scraper. It models:
  - the stages of the run: the empty-list check, order-preserving
    deduplication, the site filter, the in-place reverse, and the
    sequential item loop;
  - the single terminal event;
  - `tryParseJson` and the array form of `runCode`.
- **`ListFilter`** (`list_filter.dfy`): the two `filterList` algorithms.
  One splices every stored URL out of the list. The other cuts the list
  at the newest stored URL. Both then keep the `limit` tail.
- **`Persistence`** (`persistence.dfy`): the `execution:error` and
  `execution:finished` handlers. It covers error normalisation, the
  execution row, one advertisement row per result entry, and the
  checksum preimage of each site.
- **`Extraction`** (`extraction.dfy`): the post-processing loop over a
  parsed record, the legacy scraper's trim pass, the mapping of links to
  absolute URLs, and the advertisement id read from a URL.
- **`SiteFields`** (`site_fields.dfy`): text parsing inside the page
  scripts. It covers phones (the 7→8 rule), prices, real.nn.ru's contact
  line, and posrednikov's keyword cells and description.
- **`Enrichment`** (`enrichment.dfy`): the once-only guard of the detail
  callback, slando's OCR and blacklist waterfall, and avito's OCR and
  blacklist drop.
- **`Phones`** (`phones.dfy`): the OCR request, reading the number the
  OCR service returns, and the blacklist decision.
- **`Shutdown`** (`shutdown.dfy`): the `stop:wait`/`stop:done`
  graceful-shutdown counter.
- **`UiFilters`** (`ui_filters.dfy`): the Angular filters `i18n`,
  `landlord_type` (English and Russian), `na` and `fixed`.
- **Shared building blocks:** `Values` (JavaScript values, truthiness and
  errors), `Text` (the string built-ins used: trim, split, join, replace,
  indexOf) and `Wrappers` (`Option`, `Result`).

Time, the browser, the HTTP services and the database are abstracted:

- Clocks are passed in as `now`.
- A `setTimeout` is a `Timer` value entered into a task's set of
  pending timers.
- What a page, the OCR service or the blacklist service answered is a
  parameter.
- SHA-1 is a function parameter, and the model states the string it is
  given.
- The database tables are sequences. Whether the database accepts an
  insert is a predicate parameter.

Two behaviours of the code are easy to misread; the model follows the
code:

- The `execution:start` handler does not clear `next`
  (models/scheduler.js:66-72). `Scheduler.Task.Run` keeps it.
- The first delayed-start timer is not stored in `_tm`
  (models/scheduler.js:107). So `runNow` cannot cancel it. When it fires,
  the source is started a second time although the first run is still
  working: `Scheduler.StartTimerSurvivesRunNow`. Each armed timer also
  starts a run whatever the status of its task.
- irr and nn leave the error out of the checksum
  (models/scrapers/irr.js:85, models/scrapers/nn.js:84). A failed fetch
  and a successful fetch of the same URL therefore get the same checksum:
  `Persistence.ChecksumIgnoresError`. The other sites keep them apart:
  `Persistence.ChecksumSeparatesError`.
- `filterList` compares URLs (`ad_url`) against stored rows, not
  checksums. avito and the splice filters ignore rows that recorded an
  error. The legacy scraper does not: `ListFilter.ErrorRowOnlyStopsLegacy`.

## Model

| member | source | states |
|---|---|---|
| Scheduler.StatusName | models/scheduler.js:66-85 | The three statuses are spelled 'idle', 'working' and 'error', and each spelling belongs to exactly one status. |
| Scheduler.FetchedNote | models/scheduler.js:86 | The finished message starts with 'Fetched ' and ends with ' records', with the count between them. |
| Scheduler.Names | models/scheduler.js:20-24 | `copy` reads the trimmed comma-separated names up to the first empty segment, where `keys.shift()` is falsy and the loop stops. |
| Scheduler.Copy | models/scheduler.js:18-29 | The copy holds exactly the named keys, each with the source's value (`undefined` where the source has none). |
| Scheduler.NamesOfPlain | models/scheduler.js:20-24 | Names that are non-empty, comma-free and untrimmed are read back unchanged. |
| Scheduler.CopiedKeysFive | models/scheduler.js:18-29 | Five plain names joined by commas are exactly the keys `copy` reads. |
| Scheduler.SnapshotPropsKeys | models/scheduler.js:70 | The property list 'sid,status,last,next,message' yields these five keys in this order. |
| Scheduler.CopyOmitsHandles | models/scheduler.js:70-90 | Every broadcast copy has exactly the keys sid, status, last, next and message. It never includes `run` or `_tm`. |
| Scheduler.Task.View | models/scheduler.js:70 | The snapshot of a task is its sid, status, last, next and message. |
| Scheduler.Task.constructor | models/scheduler.js:52-109 | A new spec has its config's sid and a 'working' status. Without a timeout it has run once, next = now, and no timer. With a timeout it is 'idle' with null last, one start timer of `timeout` ms that `_tm` does not hold, and next = now + timeout. |
| Scheduler.Task.Run | models/scheduler.js:61-72 | Running records the start time, sets status 'working' and message 'Scraping around...', leaves last, next and the timers alone, and broadcasts `exec:start` with the new snapshot. |
| Scheduler.Task.ArmTimer | models/scheduler.js:80 | A fresh timer of `delay` ms joins the pending timers and becomes `_tm`. |
| Scheduler.Task.OnError | models/scheduler.js:73-83 | On error: status 'error', message = the error, last = the run's start, next = now + interval. A new interval timer is stored in `_tm`, and `exec:error` is broadcast with the error and the snapshot. |
| Scheduler.Task.OnFinished | models/scheduler.js:84-94 | On finish: status 'idle', message 'Fetched N records' with N the number of entries, last = the run's start, next = now + interval. A new interval timer is stored in `_tm`, and `exec:finished` is broadcast. |
| Scheduler.Task.RunNow | models/scheduler.js:118-124 | A working task is left unchanged. Otherwise (`Restarted`) the timer in `_tm` leaves the queue while other pending timers stay. The run starts now with 'Scraping around...', one `execution:start` is broadcast, `runs` grows by one, and `last`, `next` and `_tm` keep their values. |
| Scheduler.Task.Fire | models/scheduler.js:61-63 | A pending timer leaves the queue and starts a run, whatever the status. |
| Scheduler.StartTimerSurvivesRunNow | models/scheduler.js:103-124 | With a start timeout, `runNow` followed by the start timer firing runs the source twice. The first run is still working when the second starts. |
| Scheduler.Scheduler.constructor | models/scheduler.js:47-115 | Every configured SID is a key of `tasks`. Each task is fresh and comes from a configuration entry, and the last entry with each SID initialises its task. |
| Scheduler.Scheduler.RunNow | models/scheduler.js:118-124 | An unknown SID or a working task changes nothing. Otherwise that task is `Restarted`: its `_tm` timer leaves the queue, it starts now with 'Scraping around...' and broadcasts `execution:start`, and `last`, `next` and `_tm` keep their values. No other task changes. |
| ControllerIo.EntryOf | controller/io.js:21-26 | A task entry carries its status, last, message and next. |
| ControllerIo.TasksSnapshot | controller/io.js:12-30 | The answer has exactly one entry per SID in `scheduler.tasks`, and each entry equals that task's four fields. |
| ControllerIo.EventName | controller/io.js:33-46 | Each scheduler event is forwarded under its own name, and the mapping is one-to-one. |
| ControllerIo.Io.constructor | controller/io.js:6-7 | The façade serves the given scheduler and has sent nothing yet. |
| ControllerIo.Io.Rebroadcast | controller/io.js:33-46 | A scheduler event is sent to the sockets once, under its own name, with its payload unchanged. |
| ControllerIo.Io.RunNow | controller/io.js:8-10 | `scheduler:run-now` has the scheduler's `runNow` effect for the given SID: none for an unknown or working task. Otherwise that task is `Restarted`: `_tm` leaves the queue, the run starts now with 'Scraping around...' and `execution:start`, and `last`, `next` and `_tm` are kept. |
| Pipeline.DedupSameSet | models/scrapers/base-scraper.js:109-114 | `nodups` holds exactly the URLs of the list. |
| Pipeline.Dedup | models/scrapers/base-scraper.js:109-114 | `nodups` is never longer than the list; its contents and order are stated by the lemmas below. |
| Pipeline.DedupDistinct | models/scrapers/base-scraper.js:109-114 | `nodups` has no repeats. |
| Pipeline.DedupOfDistinct | models/scrapers/base-scraper.js:109-114 | A list without repeats passes deduplication unchanged. |
| Pipeline.DedupIdempotent | models/scrapers/base-scraper.js:109-114 | Deduplicating twice is the same as deduplicating once. |
| Pipeline.DedupKeepsFirstOrder | models/scrapers/base-scraper.js:109-114 | One URL precedes another in `nodups` exactly when its first occurrence in the list comes earlier. |
| ListFilter.FindUnique | models/scrapers/base-scraper.js:111 | A position holding the URL with no earlier occurrence is what `indexOf` returns. |
| ListFilter.FindAppend | models/scrapers/base-scraper.js:111-112 | Pushing a URL does not move the first occurrence of a URL already present. |
| Pipeline.Nodups | models/scrapers/base-scraper.js:109-114 | The forEach that pushes a URL unless `indexOf` finds it computes `Dedup`. |
| Pipeline.Reversed | models/scrapers/base-scraper.js:138 | The i-th URL of the result is the i-th from the end of the input. |
| Pipeline.ReversedTwice | models/scrapers/base-scraper.js:138 | Reversing twice gives the list back. |
| Pipeline.ReversedSameMultiset | models/scrapers/base-scraper.js:138 | Reversing keeps every URL, as often as it occurs. |
| Pipeline.ReverseInPlace | models/scrapers/base-scraper.js:138 | `filtered.reverse()` leaves the array holding `Reversed` of its old contents. |
| Pipeline.EntryFor | models/scrapers/base-scraper.js:141-148 | A truthy error gives `[url, err]`. Otherwise a truthy item gives the item. Otherwise (e.g. a blacklisted avito ad) there is no entry. |
| Pipeline.Collect | models/scrapers/base-scraper.js:139-151 | The result has at most one entry per URL. |
| Pipeline.CollectEntries | models/scrapers/base-scraper.js:139-151 | Every entry is a truthy item or a failure with a truthy error, and each failure names a visited URL. |
| Pipeline.CollectConcat | models/scrapers/base-scraper.js:140-148 | Items are independent: the entries for a list are those for its first part followed by those for the rest. |
| Pipeline.CollectAllFailing | models/scrapers/base-scraper.js:142-143 | When every fetch fails, each URL contributes its own `[url, err]`, in order. |
| Pipeline.TryParseJson | models/scrapers/base-scraper.js:320-337 | The value is returned, without calling back, exactly when it parsed and is truthy. Otherwise the callback gets one error: a parse error or 'No data', with the blocked-page hint appended to its message. Then `null` is returned. |
| Pipeline.FirstTruthyAt | models/scrapers/base-scraper.js:275-289 | The index of the first truthy result, or -1 exactly when none is truthy. |
| Pipeline.RunCodeSeries | models/scrapers/base-scraper.js:261-302 | The array form of `runCode` calls back at most once: with the first truthy result, and not at all when no result is truthy. |
| Pipeline.Outcome | models/scrapers/base-scraper.js:164-170 | A run ends in exactly one terminal event, `execution:error` or `execution:finished`, never a second start. Which one, and with what, is stated by `Pipeline.StageErrorsFail`, `Pipeline.EmptyListFails` and `Pipeline.ItemStageNeverFails`. |
| Pipeline.StageErrorsFail | models/scrapers/base-scraper.js:164-167 | A failing listing or filter stage ends the run in `execution:error` with that stage's error, and nothing is fetched. |
| Pipeline.EmptyListFails | models/scrapers/base-scraper.js:105-107 | An empty enumeration fails the run with 'Empty URL list', and nothing is fetched. |
| Pipeline.ItemStageNeverFails | models/scrapers/base-scraper.js:132-151 | Once the filter answers, the run finishes. The result has at most one entry per filtered URL, and failures name filtered URLs. An empty filtered list gives `[]`. |
| Pipeline.DefaultFilterFetchesEach | models/scrapers/base-scraper.js:362-364 | With the default `filterList`, a run fetches each enumerated URL exactly once. |
| Pipeline.Scraper.constructor | models/scrapers/base-scraper.js:45-49 | A new scraper has no timestamps, has emitted nothing and has fetched nothing. |
| Pipeline.Scraper.ProcessItems | models/scrapers/base-scraper.js:139-151 | The sequential loop fetches the URLs in order and returns `Collect` of them. |
| Pipeline.Scraper.Run | models/scrapers/base-scraper.js:56-174 | `started` and `finished` are set. The events are `execution:start` followed by exactly the run's outcome. The fetched URLs are the reversed filtered list. |
| ListFilter.KnownGood | models/scrapers/db-writer.js:126-130 | The query returns exactly the URLs of the list that have an error-free stored row. |
| ListFilter.KnownGoodNewest | models/scrapers/avito.js:385-389 | With `order('id DESC')`, the first URL returned is that of the newest error-free row whose URL is in the list: no later row is both error-free and listed. |
| ListFilter.KnownAny | models/scrapers.js:205-209 | The legacy query returns exactly the URLs of the list that have any stored row. |
| ListFilter.KnownAnyNewest | models/scrapers.js:205-209 | The first URL of the legacy query is that of the newest row whose URL is in the list, whatever its error column. |
| ListFilter.LimitTail | models/scrapers/db-writer.js:140-142 | With a limit below the length, the result is the last `limit` URLs. Otherwise the list is unchanged. |
| ListFilter.LimitTailIdempotent | models/scrapers/db-writer.js:140-142 | Applying the limit twice is the same as once, and the result never exceeds the limit. |
| ListFilter.Find | models/scrapers/db-writer.js:133 | `indexOf` finds the first occurrence, or -1 exactly when the URL is absent. |
| ListFilter.RemoveAbsent | models/scrapers/db-writer.js:134-136 | Splicing a URL that is absent leaves the list alone. |
| ListFilter.RemoveFirst | models/scrapers/db-writer.js:133-136 | One splice shortens the list by one exactly when the URL occurs, and brings in no new URL. |
| ListFilter.CutAtFirst | models/scrapers/db-writer.js:135 | Splicing at the first occurrence removes that occurrence. |
| ListFilter.SpliceRemovesFirst | models/scrapers/db-writer.js:133-136 | The guarded `splice(indexOf(u), 1)` removes the first occurrence of `u` and nothing else. |
| ListFilter.Without | models/scrapers/db-writer.js:132-138 | The reference filter keeps exactly the URLs not dropped. |
| ListFilter.RemoveEach | models/scrapers/db-writer.js:132-137 | Splicing out each known URL in turn never lengthens the list and brings in no new URL. |
| ListFilter.RemoveFirstDistinct | models/scrapers/db-writer.js:132-137 | On a list without repeats, one splice removes the URL entirely and keeps the list repeat-free. |
| ListFilter.RemoveEachDistinct | models/scrapers/db-writer.js:132-138 | On a list without repeats, splicing out each known URL keeps the unknown URLs, in order. |
| ListFilter.WithoutDistinct | models/scrapers/db-writer.js:132-138 | Filtering keeps a list free of repeats. |
| ListFilter.SpliceKnown | models/scrapers/db-writer.js:132-137 | The forEach of in-place splices computes `RemoveEach`. |
| ListFilter.SpliceFilter | models/scrapers/db-writer.js:122-145 | The table is queried unless the guard applies (empty list on a guarded site). The result is the list without known URLs, cut to the limit tail; unqueried, it is the list itself. |
| ListFilter.SpliceFilterKeepsUnknown | models/scrapers/db-writer.js:130-143 | For a deduplicated list, the result holds only URLs with no error-free stored row, in list order, at most `limit` of them, and the newest when the limit cuts. |
| ListFilter.SpliceFilterIdempotent | models/scrapers/db-writer.js:130-138 | Filtering an already filtered list against the same table changes nothing. |
| ListFilter.SliceTo | models/scrapers/avito.js:394-395 | `slice(0, idx)` follows JavaScript's rules: clamping, and a negative end counted from the back. |
| ListFilter.CutAtNewest | models/scrapers/avito.js:391-400 | The cut keeps only URLs of the list, at most `limit` of them, and never the newest known URL when the list holds it. |
| ListFilter.AvitoFilter | models/scrapers/avito.js:382-403 | avito's filter keeps only URLs of the list, at most `limit`, and never the URL of the newest error-free listed row. |
| ListFilter.LegacyFilter | models/scrapers.js:202-223 | The legacy filter keeps only URLs of the list, at most `limit`, and never the URL of the newest listed row of any kind. |
| ListFilter.CutNeverMissesIndex | models/scrapers/avito.js:389-396 | Because the query only returns URLs of the list, `indexOf` finds the newest one, and the cut stops right before it. |
| ListFilter.AvitoFilterStopsAtNewest | models/scrapers/avito.js:382-403 | avito keeps the whole list (then the limit tail) when no error-free listed row is stored. Otherwise the URL the query returns is that of the newest error-free listed row, and avito keeps the prefix of the list before its first occurrence, then the limit tail. |
| ListFilter.LegacyFilterStopsAtNewest | models/scrapers.js:202-223 | The legacy cut does the same with the newest listed row of any kind: the URL returned is that row's, and the prefix before it is kept, then the limit tail. |
| ListFilter.ErrorRowOnlyStopsLegacy | models/scrapers.js:205-216 | A newest row that recorded an error stops the legacy cut but not avito's. |
| Persistence.ErrorText | models/scrapers/db-writer.js:48-53 | A missing or falsy error is stored as 'Unknown error'. Otherwise the error's stack, or the error text itself, is stored. The result is never empty. |
| Persistence.ErrorColumnText | models/scrapers/db-writer.js:83-88 | The stored error ends with the error's stack (or the error itself). db-writer puts the decimal `Date.now()` first (so the column is never empty there); on the other sites the column is empty exactly for a falsy error. |
| Persistence.FailedRecord | models/scrapers/db-writer.js:86-89 | A `[url, err]` entry becomes a record with exactly `ad_url` (the URL) and `error` (the site's error column). |
| Persistence.PreimageShape | models/scrapers/db-writer.js:93 | The checksum's input starts with the sid and ':'. It is exactly sid, ':' and the URL on irr and nn (irr.js:85), and longer (':' and the error follow) on every other site. |
| Persistence.Sign | models/scrapers/db-writer.js:91-97 | A signed record carries the execution's sid and eid. |
| Persistence.SignColumns | models/scrapers/db-writer.js:91-97 | Except on avito, signing writes the checksum of the site's preimage of the unsigned record. db-writer's record without phone or error gets the phone 'empty'; any other record keeps its phone. |
| Persistence.SignKeeps | models/scrapers/db-writer.js:91-97 | Signing removes no column and changes none but sid, eid, checksum and phone. |
| Persistence.RecordFor | models/scrapers/db-writer.js:80-97 | Every row carries the execution's sid and eid. |
| Persistence.Records | models/scrapers/db-writer.js:80-97 | One row per result entry, each carrying the execution's sid and eid. |
| Persistence.Accepted | models/scrapers/db-writer.js:99-106 | Never more rows are stored than the result has; which ones is stated by `AcceptedMembers`. |
| Persistence.FailedColumns | models/scrapers/db-writer.js:80-97 | A `[url, err]` entry becomes a row with its URL, the site's error column, no phone, and a checksum except on avito. |
| Persistence.FailedKeepsNoPhone | models/scrapers/db-writer.js:93-95 | db-writer's phone rule never fires on a failed fetch, because its error column is never empty. |
| Persistence.ItemColumns | models/scrapers/db-writer.js:87-97 | An object entry keeps every field that signing does not write, and carries its checksum except on avito. |
| Persistence.AcceptedMembers | models/scrapers/db-writer.js:99-106 | The stored rows are exactly the rows the database accepted. A refused row does not stop the loop. |
| Persistence.AcceptedAll | models/scrapers/db-writer.js:99-106 | When every insert succeeds, every row is stored. |
| Persistence.ChecksumIgnoresError | models/scrapers/irr.js:83-85 | On irr and nn, a failed fetch and a successful fetch of the same URL in the same source get the same checksum. |
| Persistence.ChecksumSeparatesError | models/scrapers/slando.js:83-85 | On db-writer, slando and posrednikov, a failed fetch and an error-free row for the same URL hash different strings. |
| Persistence.Store.RecordError | models/scrapers/db-writer.js:48-68 | `execution:error` appends exactly one execution row with the next id, the normalised error and no record count. |
| Persistence.Store.RecordFinished | models/scrapers/db-writer.js:70-110 | `execution:finished` appends one execution row with records = the number of entries and no error, then the accepted signed rows, in order, under that row's id. |
| Persistence.Store.RecordLegacyFinished | models/scrapers.js:46-80 | The legacy handler does the same with its own entry conversion and no checksum. |
| Persistence.FinishedStoresEveryEntry | models/scrapers/db-writer.js:70-108 | When every insert succeeds, the stored rows number exactly the record count, and each carries the execution id. |
| Persistence.LegacyRecord | models/scrapers.js:56-68 | An Error or a string becomes `{error}`, and an object keeps its fields. Each then gets sid and eid only. |
| Phones.PrepareOcr | models/phones.js:35-38 | The query defaults to '' and the body to `{type: 'png', lang: 'eng'}`. Then `image` is set, and no other key is added. |
| Phones.CleanOcr | models/phones.js:58-59 | Only digits and commas are kept. |
| Phones.CleanOcrKeepsInOrder | models/phones.js:58-59 | The cleaning works character by character: the cleaning of a concatenation is that of each part in turn, a digit or comma is kept and anything else dropped. So every digit and comma is kept, in order, and nothing else. |
| Phones.ReadOcr | models/phones.js:58-66 | An empty reading is reported as not identified and is still returned. A reading with a comma is split on commas. Otherwise it is one number. |
| Phones.ReadOcrDigits | models/phones.js:58-66 | Every number handed on is digits only, and a comma gives at least two numbers. |
| Phones.ReadOcrIdempotent | models/phones.js:58-66 | Reading an already cleaned text gives the same result. |
| Phones.Ocr | models/phones.js:53-69 | A transport error is passed through unchanged. Otherwise the result is `ReadOcr` of the service's answer, marked not identified exactly when the cleaned answer is empty. |
| Phones.Query | models/phones.js:84-89 | A single number is wrapped in a one-element query, and an array is sent as it is. |
| Phones.Listed | models/phones.js:116-122 | Blocked exactly when some queried number is in the reply. |
| Phones.IsBlocked | models/phones.js:104-125 | A transport error is passed through. A reply that is not an array is an error. Otherwise blocked iff some queried number is listed. |
| Phones.NotListedWhenAbsent | models/phones.js:116-124 | A number absent from the reply is not blocked. |
| Phones.StrictComparison | models/phones.js:117 | `indexOf` compares strictly: a numeric entry does not match the same digits as text. |
| Extraction.CleanField | models/scrapers/slando.js:235-239 | Only a truthy string field changes, and it stays a string. What it becomes for `<p>` paragraphs is stated by `Extraction.CleanParagraphs`. |
| Extraction.CleanParagraphs | models/scrapers/slando.js:235-239 | A field that trims to paragraphs `<p>p</p>…` without markup inside comes out as each paragraph preceded by a line break. |
| Extraction.OpenTagsStep | models/scrapers/slando.js:237 | Replacing every `<p>` in such paragraphs puts a line break in place of each opening tag and keeps the closing tags. |
| Extraction.CloseTagsStep | models/scrapers/slando.js:238 | Removing every `</p>` then leaves the line breaks and the paragraph texts alone. |
| Extraction.CloseTagSkipped | models/scrapers/slando.js:237 | A `</p>` is not mistaken for a `<p>`: the `<p>` replacement passes over it. |
| Text.ReplaceSkip | models/scrapers/slando.js:237-238 | A global `replace` leaves untouched a stretch that cannot start the pattern, and carries on after it. |
| Text.ReplaceStep | models/scrapers/slando.js:237-238 | A global `replace` substitutes the first occurrence after such a stretch and carries on after it. |
| Extraction.CleanPlainField | models/scrapers/slando.js:235-239 | A field without markup is only trimmed. |
| Extraction.PostProcessFields | models/scrapers/slando.js:232-241 | Post-processing adds `create_time` and no other key. Other values are kept, except truthy strings, which are cleaned. |
| Extraction.PostProcessed | models/scrapers/slando.js:232-241 | The keys are the record's plus `create_time`, which holds the cleaned start stamp. Every other field is its own value cleaned. |
| Extraction.PostProcessParagraphs | models/scrapers/slando.js:232-241 | In the post-processed record, a field of `<p>` paragraphs holds those paragraphs, each after a line break. |
| Extraction.PostProcessIdempotent | models/scrapers/slando.js:232-241 | A record without markup is left as it is by a second pass. |
| Extraction.PostProcess | models/scrapers/irr.js:252-261 | The for-in loop over the record's keys computes `PostProcessed`. |
| Extraction.PrefixPicture | models/scrapers.js:178-180 | A truthy picture gets the site root in front. Every other field and the key set are unchanged. |
| Extraction.TrimFields | models/scrapers.js:182-186 | The trim pass throws exactly when some truthy field is not a string. |
| Extraction.LegacyCleanedFields | models/scrapers.js:178-186 | The legacy pass fails exactly on a truthy non-string other than the picture. Otherwise it keeps the keys, trims every string, prefixes a truthy picture, and leaves falsy fields alone. |
| Extraction.LegacyCleaned | models/scrapers.js:178-186 | When the pass succeeds, the record keeps exactly its keys. |
| Extraction.DropFirst | models/scrapers/nn.js:131 | `substring(1)` is the link without its first character. |
| Extraction.NnUrls | models/scrapers/nn.js:130-132 | Each link becomes 'http://real.nn.ru/ad2' plus the link without its first character. |
| Extraction.AvitoUrls | models/scrapers/avito.js:113-115 | Each link gets 'http://www.avito.ru' in front. |
| Extraction.AvitoUrlsInjective | models/scrapers/avito.js:113-115 | Prefixing maps links apart exactly when they differ. |
| Extraction.NnUrlsInjective | models/scrapers/nn.js:130-132 | Links sharing their leading character are mapped apart exactly when they differ. |
| Extraction.AdId | models/scrapers/nn.js:171-174 | The id is a non-empty run of digits after a final '='. It is null when no '=' is followed by digits alone up to the end. |
| Extraction.TrailingDigits | models/scrapers/nn.js:171-174 | The run counted is all digits, ends the string, and is preceded by a non-digit when it is not the whole string: the longest digit run `[0-9]+$` can match. |
| Extraction.AdIdOfQuery | models/scrapers/posrednikov.js:178-181 | A URL ending in '=' and digits yields exactly those digits. |
| Enrichment.StepAsWritten | models/scrapers/slando.js:149-230 | As written, the callback fires at most once per event and never after `exited` is set. |
| Enrichment.Step | models/scrapers/slando.js:149-230 | With the intended guard, every callback also sets `exited`. |
| Enrichment.AsWrittenCallsTwice | models/scrapers/slando.js:225-230 | A rejected answer followed by a truthy page error calls back twice as written. |
| Enrichment.RunSettled | models/scrapers/irr.js:245-250 | With the intended guard, `exited` holds exactly when the callback has fired once. |
| Enrichment.CalledAtMostOnce | models/scrapers/slando.js:149-156 | With the intended guard, the detail callback fires at most once, whatever the events. |
| Enrichment.GuardsAgree | models/scrapers/avito.js:219-224 | Both guards agree on every run without a rejected answer. |
| Enrichment.DetailGuard.constructor | models/scrapers/slando.js:146-156 | A fresh call is not exited, has its listener attached, and has not called back. |
| Enrichment.DetailGuard.OnPageError | models/scrapers/slando.js:149-156 | The error listener performs one guard step and keeps the callback count at most one. |
| Enrichment.DetailGuard.OnAnswer | models/scrapers/slando.js:225-230 | The final function performs one step of the corrected guard (`Step`, see Findings), not the guard as written, and keeps the callback count at most one. |
| Enrichment.SlandoOcrRequest | models/scrapers/slando.js:258-262 | slando sends '/run-ocr?modify=-resize,250x&png8=true' and a body with lang 'rus', type 'png' and the image. |
| Enrichment.PhoneText | models/scrapers/slando.js:266-270 | Several numbers are stored joined with ', ', and one number as it is. |
| Enrichment.SlandoEnrich | models/scrapers/slando.js:243-280 | Without a phone image, `blocked = false` and there is no error. A render or OCR error travels with the record. Otherwise the phone is the reading. After an array reply from the blacklist, `blocked` is true exactly when one of the queried phones is listed, false otherwise, and there is no error. A non-array reply gives the 'Bad answer' error and leaves `blocked` undefined. Other fields are kept. |
| Enrichment.SlandoKeepsBlocked | models/scrapers/slando.js:276-279 | A blacklisted slando ad is kept as an item with `blocked = true`. |
| Enrichment.SlandoFailureEntry | models/scrapers/slando.js:276-279 | A failing waterfall step makes the ad a `[url, err]` entry. |
| Enrichment.AvitoEnrich | models/scrapers/avito.js:237-368 | Never an error. The ad is dropped exactly when it had a phone, its OCR digits are non-empty, and the blacklist reply starts with them. Otherwise the keys are kept, the phone becomes the OCR digits, and a truthy picture becomes its rendering. |
| Enrichment.AvitoDropLeavesNoEntry | models/scrapers/avito.js:362-368 | A dropped avito ad leaves no entry in the run's results, and a kept one leaves exactly one. |
| Enrichment.AvitoChecksFirstOnly | models/scrapers/avito.js:326-333 | avito keeps an ad whose phone is listed second in the reply, where `isBlocked` calls it blocked. |
| SiteFields.FirstRun | models/scrapers/irr.js:178 | `match(/[X]+/)` is the first maximal run of accepted characters, or null exactly when there is none. |
| SiteFields.FirstRunWhole | models/scrapers/irr.js:178 | A text made only of accepted characters is its own first run. |
| SiteFields.NormalPhone | models/scrapers/irr.js:192-200 | The phone is the digits of the text. Only the first digit can change, only from 7 to 8, and only for 11 digits. No result is 11 digits starting with 7. |
| SiteFields.NormalPhoneIdempotent | models/scrapers/irr.js:197-199 | Normalising twice is the same as normalising once. |
| SiteFields.IrrPhone | models/scrapers/irr.js:178-200 | The phone is null exactly when the block holds no phone character. Otherwise it is `NormalPhone` of the first run of phone characters: digits only, never 11 digits starting with 7. |
| SiteFields.IrrPhoneWhole | models/scrapers/irr.js:178-200 | A contact block that is a bare phone number is normalised as a whole. |
| SiteFields.PosrednikovPhone | models/scrapers/posrednikov.js:234-237 | The phone has one digit per digit of the text and agrees with them after the first. The first changes only from 7 to 8 in an 11-digit number, so no result is 11 digits starting with 7. |
| SiteFields.CountryCodeRewritten | models/scrapers/posrednikov.js:235-237 | '7' plus ten digits becomes '8' plus the same ten digits. |
| SiteFields.IrrPrice | models/scrapers/irr.js:171 | The price is null exactly when the text has no digit. Otherwise it is the text's digits. |
| SiteFields.NnPrice | models/scrapers/nn.js:155-184 | The price is null exactly when no digit or blank occurs. Otherwise it is the digits of the first run of digits and blanks. |
| SiteFields.NnPriceOfAmount | models/scrapers/nn.js:155-184 | A price text of digits and blanks only is read as all its digits. |
| SiteFields.NnPriceType | models/scrapers/nn.js:156-187 | The price type is null exactly when the trimmed text is digits and blanks only. Otherwise it is the first run of price-type characters in the trimmed text, non-empty and free of both. |
| SiteFields.PriceKind | models/scrapers/posrednikov.js:199 | A price type has no digit and no white-space margin, and its white space is single blanks (`Collapsed`). |
| SiteFields.CollapsedTrim | models/scrapers/posrednikov.js:199 | Trimming keeps white space collapsed. |
| SiteFields.CollapseCollapsed | models/scrapers/posrednikov.js:199 | `replace(/\s+/g, ' ')` leaves a collapsed string unchanged. |
| SiteFields.PriceKindSkipsDigit | models/scrapers/posrednikov.js:199 | A digit anywhere in the token is dropped and changes nothing else. |
| SiteFields.PriceKindOfPlain | models/scrapers/posrednikov.js:199 | A digit-free, collapsed, margin-free token is its own price type: every other character is kept, in order. |
| SiteFields.Lines | models/scrapers/posrednikov.js:159 | A trimmed cell split on newlines has at least one line. |
| SiteFields.PosrednikovPrice | models/scrapers/posrednikov.js:196-204 | The price is the digits of the last line, and the type is that line's kind. A non-empty first line of a multi-line cell is appended after ', '. |
| SiteFields.OneLinePrice | models/scrapers/posrednikov.js:196-204 | In a one-line cell, the price is every digit of the cell and the type holds no digit. |
| SiteFields.NnContact | models/scrapers/nn.js:162-169 | The phone is null exactly when the line is all white space, and the name is null exactly when the phone is. The phone is the line's digits. The name is the line with brackets, digits, `+` and `-` removed, then trimmed, so it holds none of them. |
| SiteFields.NnContactOfNameAndNumber | models/scrapers/nn.js:162-169 | A line "name number" with a margin-free name comes back as that name and that number. |
| SiteFields.NameOfContactLine | models/scrapers/nn.js:167 | Removing the phone characters from "name number" leaves the name and the blank. |
| SiteFields.PhoneOfContactLine | models/scrapers/nn.js:162-168 | Dropping the blanks from "name number" and keeping the digits gives the number. |
| SiteFields.NonEmptyTrimmed | models/scrapers/posrednikov.js:210-216 | Pieces are trimmed and non-empty, and there are no more of them than lines. |
| SiteFields.NonEmptyTrimmedInOrder | models/scrapers/posrednikov.js:210-216 | The pieces of concatenated line lists are the pieces of each in turn, and one line gives its trim unless that is empty: the pieces are the lines' non-empty trims, in line order. |
| SiteFields.NonEmptyTrimmedMembers | models/scrapers/posrednikov.js:210-216 | A piece comes out exactly when it is the non-empty trim of some line. |
| SiteFields.Tokens | models/scrapers/posrednikov.js:209-216 | The tokens of a cell are non-empty and carry no white-space margin. |
| SiteFields.TokensByLine | models/scrapers/posrednikov.js:209-216 | The tokens come from the cell's '\n'-separated lines in order: a first line gives its non-empty trim before the tokens of the rest, and a token is exactly the non-empty trim of one of the lines. |
| SiteFields.Slot | models/scrapers/posrednikov.js:218-222 | A cell is dropped exactly when it has no token, or its tokens joined with ',' are all en dashes. Otherwise it reads 'Label: t1, t2'. |
| SiteFields.Present | models/scrapers/posrednikov.js:225-227 | The truthiness filter keeps exactly the present slots, and nothing remains exactly when all are dropped. |
| SiteFields.PresentInOrder | models/scrapers/posrednikov.js:225-227 | `filter` keeps the order: the present values of a concatenation are those of each part in turn, and one slot gives its value when present. |
| SiteFields.Slots | models/scrapers/posrednikov.js:207-223 | The slot of cell i is computed under label i ('Этажность', 'Площадь', 'Быт'). |
| SiteFields.KeywordLines | models/scrapers/posrednikov.js:207-227 | There are at most three keyword lines, and they are exactly the present slots. |
| SiteFields.KeywordLinesInOrder | models/scrapers/posrednikov.js:207-227 | The keyword lines follow the page order of the cells: the storey slot, then area, then amenities, each when present. |
| SiteFields.Keywords | models/scrapers/posrednikov.js:207-227 | The `while (i++ < 3)` loop and the filter compute `KeywordLines`. |
| SiteFields.DashCellsDropped | models/scrapers/posrednikov.js:218-227 | When each of the three cells is dropped, no keyword line remains. |
| SiteFields.DescriptionAsWritten | models/scrapers/posrednikov.js:229-231 | As written, the description is a prefix of the text. Without the contacts marker it is one character short. |
| SiteFields.DescriptionLosesLastChar | models/scrapers/posrednikov.js:230-231 | As written, the description 'ab' comes out as something other than 'ab'. |
| SiteFields.Description | models/scrapers/posrednikov.js:229-231 | The description is a prefix without the marker. It is the whole text when the marker is absent, and otherwise ends where the marker begins. |
| SiteFields.DescriptionAgrees | models/scrapers/posrednikov.js:229-231 | Both readings agree whenever the page has a contact block. |
| Shutdown.Exits | app.js:44-48 | Each signal yields one exit decision. |
| Shutdown.WaitsNeverExit | app.js:40-42 | Wait signals never exit, and each adds one pending job. |
| Shutdown.DonesExitAtLast | app.js:44-48 | With c jobs pending, c done signals exit exactly once, at the last one, leaving 0 pending. |
| Shutdown.WaitsThenDones | app.js:39-48 | n waits followed by n dones exit exactly once, at the very last signal. |
| Shutdown.DoneWithNothingPending | app.js:44-48 | A done with nothing pending drives the counter to -1 and does not exit. |
| Shutdown.StopJobs.constructor | app.js:39 | The counter starts at 0. |
| Shutdown.StopJobs.OnWait | app.js:40-42 | `stop:wait` adds one to the counter. |
| Shutdown.StopJobs.OnDone | app.js:44-48 | `stop:done` subtracts one, and the process exits exactly when the counter reaches 0. |
| UiFilters.Translate | public/js/services.js:47-53 | A known string is translated, and an unknown one is returned as it is. |
| UiFilters.TranslateUntranslated | public/js/services.js:47-53 | Translating an unknown string twice gives it back. |
| UiFilters.LandlordType | public/js/filters.js:6-16 | 'agency' gives t('Agency'), 'private' gives t('Private'), and anything else gives t('N/A'). |
| UiFilters.LandlordTypeEnglish | public/js/filters.js:6-16 | Without translations, the result is one of 'Agency', 'Private' and 'N/A'. |
| UiFilters.Na | public/js/filters.js:22-30 | A truthy value is returned unchanged, and a falsy one gives 'N/A'. The result is always truthy. |
| UiFilters.NaIdempotent | public/js/filters.js:22-30 | Applying `na` twice is the same as applying it once. |
| UiFilters.Prefix | public/js/filters.js:38 | `substring(0, end)` is a prefix of the value, of length `end` when in range. |
| UiFilters.Fixed | public/js/filters.js:31-40 | A falsy value gives ''. A value shorter than length - 3 is returned as it is. Otherwise the result ends in '...' and is at most `length` long when length ≥ 3. |
| UiFilters.FixedKeepsHead | public/js/filters.js:37-38 | A long value is cut to its first length - 3 characters, trimmed, and '...' is appended. |
| UiFilters.LandlordTypeRu | public/app/js/filters.js:7-17 | The result is always one of 'Агенство', 'Частник' and 'N/A'. It is 'Агенство' exactly for 'agency' and 'Частник' exactly for 'private'. |
| Values.Get | models/scrapers/db-writer.js:91-93 | Reading an absent property gives `undefined`. A present one gives its value. |
| Values.Truthy | models/scrapers/db-writer.js:95 | A value is falsy exactly when it is `undefined`, `null`, `false`, `0` or ''. |
| Values.IntText | models/scrapers/db-writer.js:87 | A number's text is non-empty, its decimal digits when not negative, and starts with '-' when negative. |
| Values.NewError | models/scrapers/base-scraper.js:325 | `new Error(m)` has message m and a stack that starts with 'Error: ' + m. |
| Values.StackOrSelf | models/scrapers/slando.js:79 | `err.stack ? err.stack : err` is non-empty exactly for a truthy error. A plain error value is kept. |
| Values.JoinPart | models/scrapers/db-writer.js:16-22 | In `join('')`, a string is itself and `undefined` or `null` contributes ''. |

## Left out

- PhantomJS and the browser are not modelled: `openAndRun`, `page.open`, `includeJs`, `renderBase64`, `_renderImage` and `clipRect`. These are foreign calls. The renderer's answers are parameters.
- The randomised wait before opening a page is not modelled. It is random and uses floating point.
- The DOM selector code inside the page scripts is not modelled. This covers irr's landlord name and keyword rows, nn's keyword cells and city, posrednikov's address, and slando's and avito's prices, keywords and coordinates. Only the text handling of already-extracted strings is modelled.
- The `ad_description` concatenation of keywords and description is not modelled. It is string glue over DOM output.
- avito's clip-rect padding (±2.5, +5) is not modelled. It is floating-point arithmetic on page coordinates.
- HTTP is not modelled: `_httpRequest`, avito's raw `http.request` and the Tor control tools. `JSON.parse` is abstract: `tryParseJson` receives its outcome.
- Enrichment.AvitoEnrich: `JSON.parse` throwing on the services' replies is not modelled, and the blacklist reply is taken to be an array. A non-array reply makes `shift` throw in the source.
- `saveNotIdentified` is not modelled because it writes a file. `Phones.ReadOcr` only reports when it would be called.
- SHA-1 itself is not modelled: it is a parameter, and the preimage string is modelled.
- The database is not modelled beyond the tables: the executions row insert is taken to succeed, and rows are inserted in entry order. `async.forEach` may interleave the inserts, so the order of rows in the table is not part of the source's promise.
- Persistence.RecordFor: entries are `[url, err]` pairs or objects (`Storable`). A falsy item is not stored by the model, and the legacy TypeError of a non-object entry is not modelled.
- The logger, Express, socket.io transport and the Angular controllers are not modelled. They are I/O and presentation.
- `hooks.emit` calls are not modelled. The optional hooks module is not part of this model.
- Timers and asynchrony are modelled as sequential calls. Timers are `Timer` values, and firing one is an explicit `Fire` call. No two handlers interleave.
- The `list.shift()` drain after deduplication is not modelled. It only empties the enumerated array, which nothing reads afterwards.
- The for-in order over `tasks` and over record keys is not modelled as such. It is taken as given by a parameter (`order`) or a sequence of keys.
- `delete self.started` after the error row is written is not modelled. It only affects the next run's row, which always sets `started` again first.
- In a `[url, err]` entry of the shared result array, db-writer replaces the error element with its stack string (models/scrapers/db-writer.js:83). That change to the array is not modelled. Only the stored error text is modelled.
- Strings are sequences of Unicode scalar values, not UTF-16 code units. `length`, `substring`, `slice` and `indexOf` therefore differ from JavaScript's on characters outside the Basic Multilingual Plane. This affects `UiFilters.Fixed`, `SiteFields.DescriptionAsWritten` and `Extraction.DropFirst`.
- Numbers are integers. Timestamps are integers of milliseconds, and `Date.toJSON` strings are parameters.
- SiteFields.PriceKind: the contract states that no digit and no margin remain and that white space is single blanks. That the other characters are kept in order is proved for a digit anywhere in the token (`PriceKindSkipsDigit`) and for a token already in final form (`PriceKindOfPlain`). No lemma maps a run of several white-space characters to its blank in general.
- Pipeline.Collect / Pipeline.Outcome / Pipeline.Scraper.Run: `detail` stands for an item callback that answers exactly once, as the corrected `Enrichment.Step` guard does. Two cases are not modelled at the pipeline level. The first is the double callback as written: a stale `once('error')` listener (slando.js:225-230, irr.js:245-250, avito.js:219-224) calls back twice, which re-runs base-scraper.js:143-147 and can emit base-scraper.js:169 twice. The second is a page that never answers: a runCode series with no truthy result (base-scraper.js:264-286, where `Pipeline.RunCodeSeries` proves no callback is made).

## Findings

| source | as written | input that shows it | evidently intended | confidence | as-written member | corrected member |
|---|---|---|---|---|---|---|
| models/scrapers/slando.js:225-230 | When `tryParseJson` rejects the page's answer it calls back with the error, but `exited` stays false and the `once('error')` listener stays attached. A later truthy page error calls the detail callback a second time. The same code is in irr.js:245-250 and avito.js:219-224. | A rejected answer, then a page error `"x"`: two callbacks | The detail callback fires at most once per item | not executed | Enrichment.AsWrittenCallsTwice | Enrichment.CalledAtMostOnce |
| models/scrapers/posrednikov.js:229-231 | `description.slice(0, description.indexOf('Контакты: '))`: without the marker the index is -1, and `slice(0, -1)` drops the description's last character | A description "ab" without contacts becomes "a" | Without the marker the whole description is kept | not executed | SiteFields.DescriptionLosesLastChar | SiteFields.Description |
