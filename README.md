# Media migration and agenda validation, modelled in Dafny

This project models two parts of a Strapi-based theatre company site:

- **The one-off media migration script** (`scripts/migrate-media.mjs`). It reads every spectacle and podcast from the legacy Strapi v3 store and matches each with its entry in the new Strapi v5 store: spectacles by slug, podcasts by normalised title. Where the new entry lacks a media field, it downloads the legacy file and uploads it to the new store. It then updates the entry.
- **The agenda lifecycle hooks** (`src/api/agenda/content-types/agenda/lifecycles.ts`). Before an agenda entry is created or updated, these hooks check that exactly one of the relations `spectacle` and `plus_qu_une_piece` ends up filled, the one named by the entry's `type`.

The network is a value, `Network.Net`:
- **Replies.** It has one queue of replies per kind of call: the legacy listing, target pages, downloads, uploads and updates. A reply that is not there is a rejected `fetch`.
- **Requests.** It keeps a log of every request sent.
- **Pauses.** Timers appear as a log of the pauses requested, in milliseconds.

Every call takes a `Net` and returns the `Net` after it together with its result or the error it threw (`Network.Outcome`).

Each loop of the script is a Dafny `method` with a `while` or `for` loop. The method is proved equal to a recursive specification function, and the properties are lemmas about those functions:
- the retry loops of `fetchWithRetry` and `uploadToStrapi`
- the paging loop of `fetchV5AllPages`
- the lookup-building loop
- the gallery loop
- the loops over legacy entries

The single-step calls (download, legacy listing, update) are functions. So is the agenda validation, which the source writes as pure conditionals.

The modules follow the script:
- `Text`: `normalize`, `split('/').pop()`, `slice(0, 200)`
- `Content`: the entries and the per-field diff
- `Network`: fetch/upload/download/update
- `Pagination`
- `Lookup`
- `Migrator`: `migrateMediaFile`
- `Spectacles`
- `Podcasts`
- `Migration`: `main`
- `AgendaLifecycle`

### Behaviour of the script worth knowing

- **Duplicate keys.** The lookup is built by plain assignment in listing order. When two target entries share a key, the **last** one is found.
- **Listing failures.** A failure reading either listing of a category is not caught inside `migrateSpectacles`/`migratePodcasts`. It reaches `main`'s top-level handler, which ends the whole run with exit code 1. A spectacles listing failure therefore means podcasts are never processed.
- **Updates.** `updateEntry` makes a single attempt, with no retry.
- **Fetch rejections.** A rejected `fetch` is never retried, in either retry loop.
- **Upload bodies.** An upload whose body is not JSON is not retried.
- **Dry runs.** A dry run still downloads every legacy file. Only uploads and updates are replaced.
- **Endless paging.** When every page has truthy `data` and no `pageCount`, the `while (true)` loop of `fetchV5AllPages` never ends on its own. In the model the reply queue is finite, so such a listing ends when the queue runs out: the next fetch is rejected and the listing fails with a network error.

## Model

| member | source | states |
|---|---|---|
| Text.TrimStart | scripts/migrate-media.mjs:268 | the result is the longest suffix not starting with an ECMAScript white-space or line-terminator character |
| Text.TrimEnd | scripts/migrate-media.mjs:268 | the result is the longest prefix not ending with such a character |
| Text.Trim | scripts/migrate-media.mjs:268 | `trim` is TrimEnd after TrimStart; its properties are Text.TrimUnchanged and Text.TrimLeadingSpace, with the two ends characterised by Text.TrimStart and Text.TrimEnd |
| Text.Lower | scripts/migrate-media.mjs:268 | `toLowerCase` keeps the length and lowers each code point |
| Text.Normalize | scripts/migrate-media.mjs:267-269 | `normalize` strips the markers, trims, then lower-cases; its properties are Text.NormalizeWrapped, Text.NormalizeSpaced, Text.LesOmbresMatch, Text.StripKeepsPrefix, Text.StripOpenMarker, Text.StripCloseMarker, Text.TrimUnchanged and Text.LowerIdempotent |
| Text.StripMarkers | scripts/migrate-media.mjs:268 | removing `<<`/`>>` never lengthens a title and leaves a marker-free title unchanged |
| Text.StripKeepsPrefix | scripts/migrate-media.mjs:268 | a marker-free prefix is kept as it is, and only the rest is stripped |
| Text.StripOpenMarker | scripts/migrate-media.mjs:268 | the first `<<` after a marker-free prefix is removed, whatever follows it |
| Text.StripCloseMarker | scripts/migrate-media.mjs:268 | the first `>>` after a marker-free prefix is removed, whatever follows it |
| Text.StripWrapped | scripts/migrate-media.mjs:268 | a `<<…>>` decoration around a marker-free title disappears |
| Text.LowerIdempotent | scripts/migrate-media.mjs:268 | lower-casing twice is lower-casing once |
| Text.TrimUnchanged | scripts/migrate-media.mjs:268 | a title with non-blank ends is left unchanged by `trim` |
| Text.StripAppendedClose | scripts/migrate-media.mjs:268 | a trailing `>>` after a marker-free title is removed and nothing else is |
| Text.TrimLeadingSpace | scripts/migrate-media.mjs:268 | a leading blank is trimmed away and nothing else is |
| Text.LesOmbresMatch | scripts/migrate-media.mjs:267-269 | a decorated legacy title and a blank-prefixed lower-case target title normalise to the same key |
| Text.NormalizeWrapped | scripts/migrate-media.mjs:267-269 | for every marker-free title whose ends are not blanks, the `<<…>>`-decorated title's key is the lower-cased title |
| Text.NormalizeSpaced | scripts/migrate-media.mjs:267-269 | for every such title, a blank in front of it leaves the key the lower-cased title |
| Text.LesOmbresDecorated | scripts/migrate-media.mjs:267-269 | `<<Les Ombres>>` normalises to `les ombres` |
| Text.LesOmbresSpaced | scripts/migrate-media.mjs:267-269 | ` les ombres` normalises to `les ombres` |
| Text.LastSegment | scripts/migrate-media.mjs:142 | `url.split('/').pop()` is the longest slash-free suffix, preceded by a slash when shorter than the URL |
| Text.Truncate | scripts/migrate-media.mjs:108-119 | an error body is replaced by its prefix of length min(length, 200): kept whole when it is at most 200 characters long, cut to exactly 200 otherwise |
| Content.Keys | scripts/migrate-media.mjs:241 | the update's keys are exactly the fields that were set |
| Content.FileName | scripts/migrate-media.mjs:142 | the media name when truthy, otherwise the URL's last segment |
| Content.MimeType | scripts/migrate-media.mjs:143 | the media MIME type when truthy, otherwise `application/octet-stream` |
| Content.LegacyPdf | scripts/migrate-media.mjs:230 | a legacy `pdf` array is reduced to its first element, and a single one is kept |
| Content.NamesOf | scripts/migrate-media.mjs:197 | the name set holds exactly the target gallery's names |
| Content.IdsOf | scripts/migrate-media.mjs:204 | the existing ids are the target gallery's ids, in order |
| Content.MissingItems | scripts/migrate-media.mjs:198-201 | the missing items are, in legacy order, exactly the legacy items whose file name the target lacks, each as often as in the legacy gallery |
| Content.GalleryCandidates | scripts/migrate-media.mjs:193-201 | the candidate list of the gallery step; its properties are Content.GalleryCandidatesSpec and Content.RerunSkipsUploaded |
| Content.GalleryCandidatesSpec | scripts/migrate-media.mjs:193-201 | items are candidates only when the legacy gallery is non-empty and the target one shorter; then they are exactly the legacy items missing by name, each as often as in the legacy gallery |
| Content.RerunSkipsUploaded | scripts/migrate-media.mjs:195-201 | once the target carries each missing item under its file name, a re-run finds nothing missing |
| Network.Backoff | scripts/migrate-media.mjs:105 | the pauses after attempts lo..hi-1 are base·(attempt+1) each, in order |
| Network.FetchFrom | scripts/migrate-media.mjs:98-122 | the request and pause logs only grow; a success consumes a reply |
| Network.FetchWithRetry | scripts/migrate-media.mjs:98-122 | the loop computes what FetchFrom specifies |
| Network.FetchWithRetrySpec | scripts/migrate-media.mjs:98-122 | one to three requests for the same page; every failed attempt but the last is followed by a 2000·(i+1) ms pause; the last reply decides (rejection, parsed body, or the truncated status/body error after the third) |
| Network.FetchRequests | scripts/migrate-media.mjs:99-100 | at least one request is sent, all for the same page |
| Network.FetchFailuresAlike | scripts/migrate-media.mjs:101-120 | before the last attempt, a non-ok status and a non-JSON body lead to the same continuation |
| Network.FetchFailure | scripts/migrate-media.mjs:98-122 | fetchWithRetry throws only one of three failures: a rejected `fetch`, the HTTP failure after the third attempt, or the non-JSON failure after the third attempt |
| Network.FirstAsset | scripts/migrate-media.mjs:65 | `result[0]`: defined iff the response array is non-empty, and then its first element |
| Network.UploadFrom | scripts/migrate-media.mjs:43-66 | the logs only grow |
| Network.UploadSpec | scripts/migrate-media.mjs:37-41 | a dry run sends nothing and returns the placeholder id |
| Network.UploadToStrapi | scripts/migrate-media.mjs:37-67 | the loop computes what UploadSpec specifies |
| Network.UploadToStrapiSpec | scripts/migrate-media.mjs:43-66 | one to three uploads of the same file; only non-ok statuses are retried, each followed by a 3000·(attempt+1) ms pause; the last reply decides (rejection, non-JSON error, first asset, or the truncated failure after the third) |
| Network.UploadAssets | scripts/migrate-media.mjs:43-66 | the upload loop takes a run of upload replies, and the asset it returns is the only one those replies hand out; a failure or an empty array means they hand out none |
| Network.UploadedAssets | scripts/migrate-media.mjs:54-65 | the independent account of the assets a run of upload replies hands out: the first element of each ok, non-empty JSON array, in order; its property is Network.UploadAssets |
| Network.UploadSucceedsThirdTime | scripts/migrate-media.mjs:54-65 | two 503 answers then a success give three uploads, pauses of 3 s and 6 s, and the third answer's asset |
| Network.DownloadSpec | scripts/migrate-media.mjs:30-35 | one request with no retry, succeeding iff the answer is ok |
| Network.FetchLegacySpec | scripts/migrate-media.mjs:92-96 | one request with no retry, succeeding iff the answer is ok and JSON; it returns that JSON |
| Network.UpdateSpec | scripts/migrate-media.mjs:69-90 | a dry run sends nothing; otherwise exactly one PUT carrying the patch, succeeding iff ok and JSON |
| Pagination.PagesFrom | scripts/migrate-media.mjs:124-136 | the listing only grows what was accumulated, and the logs only grow |
| Pagination.FetchAccepted | scripts/migrate-media.mjs:98-122 | a successful fetchWithRetry takes a run of page replies whose only accepted reply is the last one, and it returns that reply's data |
| Pagination.AcceptedDataRetried | scripts/migrate-media.mjs:101-112 | retried page replies contribute no data |
| Pagination.AcceptedData | scripts/migrate-media.mjs:124-136 | the independent account of what the listing keeps: the data of the accepted page replies, in order; its properties are Pagination.PagesData and Pagination.AcceptedDataRetried |
| Pagination.PagesData | scripts/migrate-media.mjs:124-136 | a successful listing returns what was accumulated, followed by the data of every accepted reply among the page replies it took, in order |
| Pagination.FetchV5AllPages | scripts/migrate-media.mjs:124-136 | the `while (true)` loop computes what PagesFrom specifies |
| Pagination.AllPagesAnswered | scripts/migrate-media.mjs:124-136 | when every page answers at once, the result is the pages' data concatenated in page order, with one request per page in order and no pause |
| Pagination.StopsWithoutData | scripts/migrate-media.mjs:130 | a page with falsy `data` ends the listing and is not added |
| Pagination.PagesRequestedInOrder | scripts/migrate-media.mjs:125-133 | pages are requested starting at the first, each request for the same page as the one before (a retry) or the next |
| Pagination.PagesReadOnly | scripts/migrate-media.mjs:124-136 | reading the listing never uploads or updates |
| Pagination.PagesFailure | scripts/migrate-media.mjs:129-132 | reading the listing throws only listing failures, including a missing `meta.pagination` |
| Lookup.LookupOf | scripts/migrate-media.mjs:162-165 | the dictionary the lookup loop builds; its property is Lookup.LookupLastWins |
| Lookup.SlugKey | scripts/migrate-media.mjs:164 | spectacles are filed under their slug; its property is Lookup.SlugMatchIsExact |
| Lookup.TitleKey | scripts/migrate-media.mjs:273 | podcasts are filed under their normalised title; its property is Podcasts.GuillemetTitleMatches |
| Lookup.LookupLastWins | scripts/migrate-media.mjs:162-165 | the lookup's keys are exactly the entries' keys, and each maps to the last entry carrying it |
| Lookup.LookupKeys | scripts/migrate-media.mjs:162-165 | a key is in the lookup iff some entry carries it |
| Lookup.LookupValues | scripts/migrate-media.mjs:162-165 | each key maps to an entry carrying it that no later entry with that key follows |
| Lookup.BuildLookup | scripts/migrate-media.mjs:162-165 | the loop computes the dictionary LookupOf specifies |
| Lookup.Find | scripts/migrate-media.mjs:170 | a lookup finds an entry iff the key is present, and then the stored entry |
| Lookup.SlugMatchIsExact | scripts/migrate-media.mjs:170-175 | a slug finds an entry iff some target entry has exactly that slug, and the entry found has it |
| Lookup.DuplicateKeyLastWins | scripts/migrate-media.mjs:271-274 | of two target entries sharing a key, the later one is found |
| Migrator.MigrateMediaSpec | scripts/migrate-media.mjs:140-151 | the logs only grow; a dry run that succeeds yields the placeholder id |
| Migrator.MigrateMediaFile | scripts/migrate-media.mjs:140-151 | the method computes what MigrateMediaSpec specifies |
| Migrator.MigrateMediaRequests | scripts/migrate-media.mjs:140-151 | one download of the URL, then zero to three uploads under the file name and MIME type (none in a dry run); never an update; a success ends with the 500 ms pause |
| Migrator.MigrateMediaAssets | scripts/migrate-media.mjs:140-151 | a dry run takes no upload reply; otherwise the replies taken hand out exactly the asset returned, or none |
| Migrator.MigrateMediaDownloads | scripts/migrate-media.mjs:146 | one media migration downloads exactly its own URL, once |
| Spectacles.MigrateGallery | scripts/migrate-media.mjs:206-215 | the gallery loop computes what GalleryLoop specifies |
| Spectacles.GalleryStep | scripts/migrate-media.mjs:207-214 | one item of the gallery loop; its properties are Spectacles.GalleryStepSpec, Spectacles.GalleryStepOutcome and Spectacles.GalleryStepAssets |
| Spectacles.GalleryStepSpec | scripts/migrate-media.mjs:207-214 | one item either appends one id and counts in `gallery`, or counts in `errors`; it downloads its URL and never updates |
| Spectacles.GalleryStepOutcome | scripts/migrate-media.mjs:207-214 | the id appended is the migrated asset's id, appended exactly when the migration returned an asset |
| Spectacles.GalleryStepAssets | scripts/migrate-media.mjs:207-214 | outside a dry run, the id appended is the asset handed out by the upload replies the item takes, if any |
| Spectacles.GalleryLoopSpec | scripts/migrate-media.mjs:206-215 | every missing item is attempted; successes append ids in order and count in `gallery`, failures count in `errors` (ids + errors = items); no update; a dry run uploads nothing and appends only placeholder ids |
| Spectacles.GalleryLoop | scripts/migrate-media.mjs:206-215 | the gallery loop; its properties are Spectacles.GalleryLoopSpec, Spectacles.GalleryLoopDownloads and Spectacles.GalleryLoopAssets |
| Spectacles.GalleryLoopDownloads | scripts/migrate-media.mjs:206-208 | the loop downloads exactly the missing items' URLs, in order |
| Spectacles.GalleryLoopAssets | scripts/migrate-media.mjs:206-215 | outside a dry run, the ids appended are exactly the assets handed out by the upload replies the loop takes, in order |
| Spectacles.MigrateImage | scripts/migrate-media.mjs:182-190 | the image step computes what ImageStage specifies |
| Spectacles.MigrateGalleryField | scripts/migrate-media.mjs:193-226 | the gallery step computes what GalleryStage specifies |
| Spectacles.MigratePdf | scripts/migrate-media.mjs:229-238 | the document step computes what PdfStage specifies |
| Spectacles.ImageStage | scripts/migrate-media.mjs:182-190 | step 1 of an entry; its properties are Spectacles.ImageStageFacts, Spectacles.ImageStageRuns, Spectacles.ImageStageAssets and Spectacles.ImageStageKeeps |
| Spectacles.ImageStageFacts | scripts/migrate-media.mjs:182-187 | only the image field is written, only when the target lacks one; it is counted |
| Spectacles.ImageStageRuns | scripts/migrate-media.mjs:182-190 | the step does nothing once something was thrown or when no image is to be migrated; otherwise it throws the migration's failure, throws on a response without an asset, or writes the uploaded asset's id |
| Spectacles.ImageStageAssets | scripts/migrate-media.mjs:182-190 | the step downloads the legacy image's URL exactly when it runs; outside a dry run, the image written is the one asset the upload replies it takes hand out |
| Spectacles.ImageStageKeeps | scripts/migrate-media.mjs:182-190 | the step leaves the other fields as they are, and keeps an error thrown before it |
| Spectacles.GalleryStage | scripts/migrate-media.mjs:193-226 | step 2 of an entry; its properties are Spectacles.GalleryStageFacts, Spectacles.GalleryStageAssets, Spectacles.GalleryStageDownloads and Spectacles.GalleryStageKeeps |
| Spectacles.NewGallery | scripts/migrate-media.mjs:216-217 | the new gallery is the existing target ids followed by the uploaded ones; its properties are Spectacles.GalleryStageFacts and Spectacles.GalleryStageAssets |
| Spectacles.GalleryStageFacts | scripts/migrate-media.mjs:202-218 | only the gallery is written, only from missing items, as the existing ids followed by the new ones; each new id counts once |
| Spectacles.GalleryStageAssets | scripts/migrate-media.mjs:202-218 | outside a dry run, the gallery is set exactly when the upload replies the step takes hand out an asset, to the existing ids followed by all those assets in order |
| Spectacles.GalleryStageDownloads | scripts/migrate-media.mjs:193-208 | the step downloads the candidates' URLs, in order, unless something was thrown before it |
| Spectacles.GalleryStageKeeps | scripts/migrate-media.mjs:193-226 | the step leaves the other fields and the thrown error as they are |
| Spectacles.PdfStage | scripts/migrate-media.mjs:229-238 | step 3 of an entry; its properties are Spectacles.PdfStageFacts, Spectacles.PdfStageRuns, Spectacles.PdfStageAssets, Spectacles.PdfStageKeeps and Spectacles.PdfStageNet |
| Spectacles.PdfStageFacts | scripts/migrate-media.mjs:229-235 | only `dossier_de_diffusion` is written, only when the target lacks one, and it is counted |
| Spectacles.PdfStageRuns | scripts/migrate-media.mjs:229-238 | the step does nothing once something was thrown or when no document is to be migrated; otherwise it throws the migration's failure, throws on a response without an asset, or writes the uploaded asset's id |
| Spectacles.PdfStageAssets | scripts/migrate-media.mjs:229-238 | the step downloads the first legacy document's URL exactly when it runs; outside a dry run, the document written is the one asset the upload replies it takes hand out |
| Spectacles.PdfStageKeeps | scripts/migrate-media.mjs:229-238 | the step leaves the other fields as they are, and keeps an error thrown before it |
| Spectacles.PdfStageNet | scripts/migrate-media.mjs:229-235 | the document step never updates, and uploads nothing in a dry run |
| Spectacles.StagesSpec | scripts/migrate-media.mjs:180-238 | the three steps never update; only absent target fields are written; when nothing was thrown, `image` and `dossier_de_diffusion` are set whenever the target lacks them and the legacy entry has them (the gallery is set only when some upload succeeded, by Spectacles.GalleryStageAssets); the counters agree with the patch |
| Spectacles.StagesDownloads | scripts/migrate-media.mjs:180-238 | the steps download a prefix of the image URL (if migrated), the candidates' URLs and the document URL (if migrated), in that order, and all of it when nothing was thrown |
| Spectacles.ImageGalleryAssets | scripts/migrate-media.mjs:180-226 | outside a dry run and when nothing was thrown, the upload replies of steps 1 and 2 hand out the patch's image, then its new gallery ids |
| Spectacles.StagesAssets | scripts/migrate-media.mjs:180-238 | outside a dry run and when nothing was thrown, the upload replies of the three steps hand out exactly the ids the patch adds, in order: image, new gallery ids, document |
| Spectacles.Stages | scripts/migrate-media.mjs:180-238 | the three media steps of one spectacle; its properties are Spectacles.StagesSpec, Spectacles.StagesDownloads and Spectacles.StagesAssets |
| Spectacles.SpectacleEntry | scripts/migrate-media.mjs:178-252 | one matched spectacle; its properties are Spectacles.EntryUpdatesOnce, Spectacles.EntryUpdateCounters and Spectacles.EntryCounters |
| Spectacles.SpectacleStep | scripts/migrate-media.mjs:169-176 | one legacy spectacle, looked up by slug; its properties are Spectacles.UnmatchedSkipped and, for a matched one, those of Spectacles.SpectacleEntry |
| Spectacles.MigrateSpectacleEntry | scripts/migrate-media.mjs:178-252 | the `try`/`catch` of one matched spectacle computes what SpectacleEntry specifies |
| Spectacles.EntryUpdatesOnce | scripts/migrate-media.mjs:240-252 | at most one PUT per spectacle, as the last request, carrying exactly the assembled fields, sent iff not dry-run, nothing thrown and a key set; a thrown error counts once and sends nothing more |
| Spectacles.EntryUpdateCounters | scripts/migrate-media.mjs:240-252 | without a thrown error, an empty patch or a dry run leaves the counters as they are; otherwise the update adds one error exactly when its reply is not an ok JSON answer |
| Spectacles.EntryCounters | scripts/migrate-media.mjs:167-252 | a matched spectacle's counters only grow and `skipped` stays |
| Spectacles.UnmatchedSkipped | scripts/migrate-media.mjs:170-175 | a spectacle whose slug finds no target is counted in `skipped` and sends nothing |
| Spectacles.RunCounts | scripts/migrate-media.mjs:169-253 | over a run, `skipped` equals the number of unmatched spectacles, counters only grow, and a dry run writes nothing |
| Spectacles.SpectacleRun | scripts/migrate-media.mjs:169-253 | the loop over legacy spectacles; its properties are Spectacles.RunCounts and Spectacles.SpectaclesDryRunReadOnly |
| Spectacles.MigrateSpectacles | scripts/migrate-media.mjs:153-256 | migrateSpectacles computes what MigrateSpectaclesSpec specifies |
| Spectacles.MigrateSpectaclesSpec | scripts/migrate-media.mjs:153-256 | migrateSpectacles; its properties are Spectacles.RunCounts, Spectacles.SpectaclesDryRunReadOnly and Spectacles.ListingFailureTouchesNothing |
| Spectacles.SpectaclesDryRunReadOnly | scripts/migrate-media.mjs:153-256 | a dry run of spectacles uploads nothing and updates nothing |
| Spectacles.ListingFailureTouchesNothing | scripts/migrate-media.mjs:156-157 | migrateSpectacles throws only listing failures, after sending only spectacles listing requests |
| Podcasts.ImagePatch | scripts/migrate-media.mjs:293 | a podcast update carries the image and no other key |
| Podcasts.MigratePodcastEntry | scripts/migrate-media.mjs:288-302 | the `try`/`catch` of one matched podcast computes what PodcastEntry specifies |
| Podcasts.MigrateMatchedPodcast | scripts/migrate-media.mjs:279-302 | the loop body, once looked up, computes what PodcastMatched specifies |
| Podcasts.MigratePodcast | scripts/migrate-media.mjs:278-303 | the loop body computes what PodcastStep specifies |
| Podcasts.RunPodcasts | scripts/migrate-media.mjs:278-303 | the loop computes what PodcastRun specifies |
| Podcasts.MigratePodcasts | scripts/migrate-media.mjs:258-306 | migratePodcasts computes what MigratePodcastsSpec specifies |
| Podcasts.PodcastEntry | scripts/migrate-media.mjs:288-302 | one matched podcast; its properties are Podcasts.PodcastEntrySpec, Podcasts.PodcastEntryUpdate and Podcasts.PodcastEntryCounts |
| Podcasts.PodcastEntrySpec | scripts/migrate-media.mjs:288-302 | nothing is sent unless the legacy image is truthy and the target lacks one; otherwise the first request downloads the legacy image; no update before the last request; a dry run writes nothing |
| Podcasts.PodcastEntryUpdate | scripts/migrate-media.mjs:290-293 | a podcast whose image is migrated ends with a PUT exactly when it is not a dry run and the upload returned an asset, and that PUT sets this entry's image to the asset's id |
| Podcasts.PodcastEntryCounts | scripts/migrate-media.mjs:288-302 | an attempted podcast counts in `image` exactly when the upload returned an asset and the update succeeded (always in a dry run), and in `errors` otherwise; a podcast not attempted counts nothing |
| Podcasts.PodcastMatchedCounters | scripts/migrate-media.mjs:279-302 | `skipped` grows by one iff no target was found, and then nothing is sent and no other counter moves; counters only grow; a dry run writes nothing |
| Podcasts.PodcastMatched | scripts/migrate-media.mjs:279-302 | one legacy podcast once looked up; its property is Podcasts.PodcastMatchedCounters |
| Podcasts.PodcastStep | scripts/migrate-media.mjs:278-302 | one legacy podcast, looked up by its normalised title; its properties are Podcasts.PodcastMatchedCounters and Podcasts.GuillemetTitleMatches |
| Podcasts.PodcastRunCounts | scripts/migrate-media.mjs:278-303 | `skipped` equals the number of podcasts whose normalised title finds nothing; counters only grow; a dry run writes nothing |
| Podcasts.PodcastsDryRunReadOnly | scripts/migrate-media.mjs:258-306 | a dry run of podcasts uploads nothing and updates nothing |
| Podcasts.GuillemetTitleMatches | scripts/migrate-media.mjs:271-279 | a legacy `<<Les Ombres>>` finds the target titled ` les ombres` |
| Podcasts.PodcastRun | scripts/migrate-media.mjs:278-303 | the loop over legacy podcasts; its properties are Podcasts.PodcastRunCounts and Podcasts.PodcastsDryRunReadOnly |
| Podcasts.MigratePodcastsSpec | scripts/migrate-media.mjs:258-306 | migratePodcasts; its properties are Podcasts.PodcastsFailure and Podcasts.PodcastsDryRunReadOnly |
| Podcasts.PodcastsFailure | scripts/migrate-media.mjs:261-262 | migratePodcasts throws only listing failures, after sending only podcasts listing requests |
| Migration.RunMigration | scripts/migrate-media.mjs:310-325 | main computes what MainSpec specifies |
| Migration.DryRunReadOnly | scripts/migrate-media.mjs:310-320 | a dry run, end to end, uploads nothing and updates nothing |
| Migration.MainSpec | scripts/migrate-media.mjs:310-325 | main; its properties are Migration.DryRunReadOnly and Migration.FatalOnlyFromListings |
| Migration.FatalOnlyFromListings | scripts/migrate-media.mjs:316-325 | the run only ends at the top-level handler because of a listing failure; when the spectacles listings fail, only spectacles listing requests were sent and podcasts never run; when the podcasts listings fail, the run is fatal and that category sent only podcasts listing requests |
| AgendaLifecycle.BeforeCreate | src/api/agenda/content-types/agenda/lifecycles.ts:4-7 | the create hook validates with nothing stored; its property is AgendaLifecycle.CreateWithoutSpectacleRejected |
| AgendaLifecycle.BeforeUpdate | src/api/agenda/content-types/agenda/lifecycles.ts:9-20 | the update hook validates over the stored entry; its property is AgendaLifecycle.UpdateKeepsStored |
| AgendaLifecycle.ValidateAgenda | src/api/agenda/content-types/agenda/lifecycles.ts:23-144 | validateAgenda; its properties are AgendaLifecycle.NoTypeAccepted, AgendaLifecycle.SpectacleTypeRule, AgendaLifecycle.PlusQuUnePieceTypeRule, AgendaLifecycle.OtherTypeAccepted and AgendaLifecycle.AcceptedIsExclusive |
| AgendaLifecycle.GetFinalState | src/api/agenda/content-types/agenda/lifecycles.ts:60-104 | getFinalState; its properties are AgendaLifecycle.SetPayloadDecides, AgendaLifecycle.ConnectPayload, AgendaLifecycle.ConnectWithoutDisconnectEmpty, AgendaLifecycle.PrimitivePayload, AgendaLifecycle.OtherObjectEmpty and AgendaLifecycle.StoredValueMatters |
| AgendaLifecycle.IsEmpty | src/api/agenda/content-types/agenda/lifecycles.ts:38-57 | isEmpty; its properties are AgendaLifecycle.IsEmptyCases and AgendaLifecycle.IsEmptyVersusFinalState |
| AgendaLifecycle.NoTypeAccepted | src/api/agenda/content-types/agenda/lifecycles.ts:33-35 | without a truthy type, any write is accepted |
| AgendaLifecycle.SetPayloadDecides | src/api/agenda/content-types/agenda/lifecycles.ts:64-66 | a `set` array decides alone: filled iff non-empty, whatever is stored |
| AgendaLifecycle.ConnectPayload | src/api/agenda/content-types/agenda/lifecycles.ts:69-90 | a non-empty `connect` is filled even with a non-empty `disconnect`; else a non-empty `disconnect` is empty; both empty keep the stored state; else empty |
| AgendaLifecycle.ConnectWithoutDisconnectEmpty | src/api/agenda/content-types/agenda/lifecycles.ts:82-103 | `connect: []` without a `disconnect` array is empty even over a stored relation |
| AgendaLifecycle.PrimitivePayload | src/api/agenda/content-types/agenda/lifecycles.ts:93-103 | an id is filled; null or undefined keeps the stored state; a string, boolean or array is empty |
| AgendaLifecycle.OtherObjectEmpty | src/api/agenda/content-types/agenda/lifecycles.ts:62-103 | an object with neither a `set` array nor `connect` is empty |
| AgendaLifecycle.StoredValueMatters | src/api/agenda/content-types/agenda/lifecycles.ts:60-104 | the stored value matters exactly for null, undefined and both-empty connect payloads (filled iff it is truthy); every other payload decides on its own |
| AgendaLifecycle.SpectacleTypeRule | src/api/agenda/content-types/agenda/lifecycles.ts:117-129 | a `spectacle` agenda is accepted iff spectacle ends filled and plus_qu_une_piece does not, with the rejection named by the first failing check |
| AgendaLifecycle.PlusQuUnePieceTypeRule | src/api/agenda/content-types/agenda/lifecycles.ts:130-142 | the same rule, roles swapped |
| AgendaLifecycle.OtherTypeAccepted | src/api/agenda/content-types/agenda/lifecycles.ts:116-143 | any other type is accepted |
| AgendaLifecycle.AcceptedIsExclusive | src/api/agenda/content-types/agenda/lifecycles.ts:106-143 | an accepted typed agenda ends with exactly one relation filled, the one its type names |
| AgendaLifecycle.CreateWithoutSpectacleRejected | src/api/agenda/content-types/agenda/lifecycles.ts:4-7 | on create nothing is stored, so a `spectacle` agenda without a spectacle is rejected |
| AgendaLifecycle.UpdateKeepsStored | src/api/agenda/content-types/agenda/lifecycles.ts:9-20 | an update that leaves both relations out is judged on the stored relations |
| AgendaLifecycle.IsEmptyCases | src/api/agenda/content-types/agenda/lifecycles.ts:38-57 | isEmpty never holds of a truthy primitive; of the falsy values it holds for all but `false` and `0`; an array is empty iff it has no items; an object is empty iff its `connect` and `disconnect` are both empty arrays, or, when it lacks one of them, iff it has no keys |
| AgendaLifecycle.IsEmptyVersusFinalState | src/api/agenda/content-types/agenda/lifecycles.ts:38-57 | the unused isEmpty agrees with getFinalState on plain empty values but not in general (a `set` with empty connect/disconnect, an array of ids) |

## Left out

- Console output is not modelled: progress lines, summaries and the kilobyte formatting of file sizes.
- Command-line setup is not modelled. The token check at start-up and the `DRY_RUN` environment variable are left out; dry-run mode is a parameter. `process.exit(1)` is the `Fatal` exit.
- Requests are recorded abstractly. URLs, query strings, headers, bearer tokens and the multipart `Blob`/`FormData`/`Buffer` construction are not modelled. Downloaded bytes are not modelled either; a download only succeeds or fails.
- JSON parsing is an oracle: each reply says whether its body parsed and to what. A body that parses to `null` or to a non-object is not modelled, nor is an upload element without an `id`. A failure of `res.text()` is not modelled either.
- Non-termination is not modelled: `fetchV5AllPages` over pages that never report a `pageCount` is bounded by the finite reply queue, as described under "Endless paging" above.
- Timers are not run. Each `delay(ms)` is recorded in the pause log instead.
- Legacy entries are assumed to have a string slug and media a string URL. A missing slug, which becomes the key `"undefined"`, is not modelled. Neither is `url.split` on an undefined URL.
- The lookups are plain dictionaries. JavaScript's inherited object keys (`constructor`, `__proto__`) are not modelled.
- `toLowerCase` covers ASCII, Latin-1 and Latin Extended-A, which is what French titles use. U+0130 and other scripts are not modelled.
- Strings are sequences of code points. `slice(0, 200)` counts UTF-16 code units, and that difference is not modelled.
- Agenda payload numbers are integers. Floating-point ids and `NaN` are not modelled; every number is filled in any case.
- The `strapi.entityService.findOne` lookup in `beforeUpdate` is a call into the platform, so the stored entry is an input. `ApplicationError` is modelled by its four variants, without their message texts.
- `Lookup.BuildLookup`: its contract ties the dictionary to `LookupOf` only. What that dictionary holds (last entry wins) is the separate lemma `Lookup.LookupLastWins`, so that callers keyed by the normalised title stay cheap to verify.
- The controllers under `src/api/*/controllers/`, `config/database.ts` and the import scripts (`scripts/import.mjs`, `scripts/import.js`, `scripts/generateDataJson.js`) are not part of this model. They only hand declarative configuration to the platform or run one-off I/O loops.
