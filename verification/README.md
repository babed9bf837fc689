# police-bot: the scrape-and-dedup run, modelled in Dafny

police-bot polls the Georgian police fines portal for one document/vehicle
pair. It announces each fine it has not seen before to a Telegram chat, then
appends that fine to a JSON file of fines already announced. This project
models one run of `fetchFines` as a fold over the result rows:

- the state is the store file;
- the output is a trace of external effects (detail fetches, sent messages,
  offered photos, deleted temporary files);
- the fold also returns the fines it started to announce and how the run
  ended.

Everything outside the process is an input:
- the search response (it threw, or it gave a body text and rows);
- for each row, its anchors' `href`s, the detail page it would fetch, and
  how the chat channel answers the sends for that fine;
- the temporary directory.

Modules, leaf first:

- `Optional`, `Sequences`, `Strings` (base.dfy): `undefined` as `None`, an
  order-preserving filter, `includes`, decimal rendering of numbers, and
  line splitting and joining.
- `Fines` (fines.dfy): the `Fine` record and the `some` membership test on
  protocol numbers.
- `Effects` (effects.dfy): the event type of the trace.
- `Store` (store.dfy): the store file, which is unreadable or holds a list;
  `loadSavedFines` and `saveFines`.
- `Listing` (listing.dfy): the "no violations" sentinel and the choice of a
  row's detail link.
- `Detail` (detail.dfy): `getDetailedFine`. This covers the labelled fields
  (empty when missing), the evidence-image selection, and the temporary file
  names.
- `Notifier` (notifier.dfy): the announcement text and the send/delete trace.
- `Orchestrator` (orchestrator.dfy): one row step, the row fold, and
  `fetchFines`.
- `RunProperties` (properties.dfy): properties across rows and across runs.
- `RowLoop` (loop.dfy): the row loop written as the source writes it, as a
  `for` loop that leaves early when a send throws. It is proved equal to the
  fold.
- `Scenarios` (scenarios.dfy): concrete runs. They cover a new fine, the
  same fine again, and a failed detail fetch followed by a good row.

Behaviour of the code that the model keeps:

- A rejected `bot.sendMessage` is not caught inside the notifier. It
  reaches the outer `catch` of `fetchFines`. That ends the whole run before
  the fine is saved, so later rows are not processed. The model's outcome is
  then `Aborted`. A rejected `sendPhoto` is caught, and the loop goes on.
- The stored record keeps its `images` paths, although those files have
  been deleted.
- An empty protocol number (label not found) is an ordinary dedup key.
- The evidence images of a fine that is already stored are downloaded and
  never deleted. `KnownFineIsSilent` states that such a row's trace deletes
  nothing.

## Model

| member | source | states |
|---|---|---|
| Strings.Contains | index.ts:89-91 | `includes` holds exactly when the searched text starts some suffix of the body text (also used for `href*=`) |
| Fines.AlreadyExists | index.ts:112-114 | the `some` scan is true exactly when some stored fine has that protocol number, the empty string included |
| Fines.AppendFreshKeepsUnique | index.ts:116-118 | appending fines with distinct keys that are not yet stored keeps the stored keys pairwise distinct |
| Store.LoadAfterSave | index.ts:171-184 | what `saveFines` writes is what the next `loadSavedFines` reads back |
| Listing.DetailLink | index.ts:101-106 | a row is kept iff some anchor's href contains `mpi.gc.ge` and the first anchor has a non-empty href; that href (not the payment link) is the detail link |
| Detail.TempPathsDiffer | index.ts:159-161 | two images with different loop indices get different temporary paths, whatever `Date.now()` returned |
| Detail.SaveImages | index.ts:152-163 | the image loop fails iff some download throws; otherwise the k-th path is the temp name built from that image's clock stamp and index k |
| Sequences.FilterConcat | index.ts:152-153 | a selector keeps document order and multiplicity: matches from two consecutive stretches are the first stretch's matches followed by the second's, so the k-th evidence image gets index k |
| Detail.GetDetailedFine | index.ts:126-169 | `undefined` iff the page or an evidence image cannot be fetched; otherwise each field is its label's value ("" if absent), there is one temp path per `jpgimage.php` image, and the paths are pairwise distinct |
| Detail.MissingLabelGivesEmptyField | index.ts:133-143 | a page without the "Protocol number:" label still yields a fine, whose protocol number is "" |
| Notifier.MessageRoundTrip | index.ts:187-194 | the announcement holds the six fields in order, one labelled line each: parsing the text gives them back exactly (when no field has a line break) |
| Notifier.PhotoEvents | index.ts:199-211 | for each image in order, a send-photo attempt and then the deletion of that same path, whether the channel accepts or rejects it |
| Notifier.Notify | index.ts:186-211 | first the text message, then the bare protocol number, then the photo/delete pairs; a rejected message ends the trace at that send and the notification does not return normally |
| Notifier.NotifyDeletesEveryImage | index.ts:199-211 | a notification whose messages are accepted deletes exactly the fine's image paths, in order, whatever photos were rejected |
| Orchestrator.ProcessRow | index.ts:99-119 | one row either leaves the store as it was or sets it to the old list plus exactly this row's fine, which was not stored before; a skipped row fetches nothing, and a row with a failed detail or a known fine only fetches the detail; a rejected message aborts with the store unchanged |
| Orchestrator.ProcessRows | index.ts:99-123 | over a run, the stored list grows by exactly the announced fines (all but the last when a send aborted); announced keys are pairwise distinct and none was stored before |
| Orchestrator.FetchFines | index.ts:62-124 | a throwing search or the sentinel phrase ends the run with the store unchanged and nothing sent; the store only grows; distinct stored keys stay distinct |
| RunProperties.RowKeepsKeysUnique | index.ts:111-119 | pairwise distinct stored protocol numbers stay distinct after a row |
| RunProperties.KnownFineIsSilent | index.ts:111-116 | a row whose fine is already stored costs one detail fetch: no message, no save, no file deleted |
| RunProperties.AnnouncedFinesComeFromRows | index.ts:108-118 | every fine a run starts to announce is the fine some row's detail page yields, aborted runs included |
| RunProperties.SkippedRowsContributeNothing | index.ts:101-109 | dropping the rows with no payment link, no detail link or a failed detail leaves the final store, the announcements and the outcome unchanged, so later rows are still processed |
| RunProperties.CompletedRunStoresEveryKey | index.ts:111-119 | after a run over all its rows, every fine those rows yield has its protocol number stored |
| RunProperties.KnownRowsChangeNothing | index.ts:111-116 | a run whose rows only yield stored fines leaves the store file unchanged and sends nothing; its only traced effects are detail fetches (the downloaded images are not traced) |
| RunProperties.RerunIsIdempotent | index.ts:99-120 | a second pass over the same rows after a completed pass changes nothing and announces nothing |
| RunProperties.FetchFinesTwiceChangesNothing | index.ts:62-124 | running `fetchFines` again on the same search result after a run that was not aborted changes nothing, sends nothing and ends the same way |
| RunProperties.EachNewKeyAnnouncedOnce | index.ts:111-119 | a new protocol number that several rows of one completed run yield is announced exactly once |
| RunProperties.AbortedRunIgnoresLaterRows | index.ts:116-123 | once a send has aborted the loop, no row after it is looked at |
| RunProperties.CompletedRunContinues | index.ts:99-120 | a completed pass over some rows continues with the next rows from the store it left |
| RowLoop.RunRows | index.ts:99-123 | the `for` loop over the rows computes the fold exactly: same store, same effects in order, same announcements, same ending |
| Scenarios.NewFineIsAnnouncedAndStored | index.ts:108-119 | empty store, one row with fine P1 and no images: two messages are sent and the store becomes exactly [P1] |
| Scenarios.StoredFineIsNotAnnouncedAgain | index.ts:111-116 | the store already holds P1: only the detail fetch happens and the store is unchanged |
| Scenarios.FailedDetailSkipsOnlyItsRow | index.ts:108-109 | a row whose detail fetch throws is skipped, and the next row's new fine is still announced and stored |

## Left out

- HTTP: the landing-page GET, the CSRF token, the form POST, headers and the
  cookie jar. Only the outcome of the search is an input. A throw in either
  request is the one case `SearchThrew`.
- HTML querying: the `:contains`/`.parent().contents().eq(1)` chain is not
  modelled. The detail page is a map from label to the trimmed value text,
  and a result row is the list of its anchors' `href`s. How cheerio behaves
  when a label matches several blocks is not modelled.
- Image fetches are not modelled one by one. Each image carries one outcome
  for its GET and file write: written at a clock reading, or threw.
  `Date.now()` and `os.tmpdir()` are inputs. The path is the directory, "/",
  and the file name, without `path.join` normalisation. The
  `if (!src) continue` in the image loop cannot fire, because a selected
  `src` starts with `jpgimage.php`, so it is not modelled.
- Files on disk: the model does not track disk contents. Temporary images
  written before a later download throws stay on disk. So do the images of
  a known fine and of an aborted notification. A failed `unlinkSync` is
  caught and only logged, so a `DeleteFile` event records the attempt.
- The store file is either a readable list of fines or unreadable (read
  error or JSON parse error, which loads as []). A file that parses to
  something other than an array makes `.some` throw into the outer `catch`.
  That case is not modelled.
- A throwing `saveFines` (failed `writeFileSync`) would also reach the outer
  `catch`. It is not modelled: a save always succeeds.
- Logging, the environment-variable check with `process.exit`, and the
  construction of the Telegram bot are left out.
- `async`/`await`: the code is sequential and is modelled as sequential.
