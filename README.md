# Alumni directory: ingestion, enrichment and the small web-app rules

This project is a Dafny model of a school's alumni directory.

- **Ingestion.** Alumni profiles arrive by three paths, all writing to one `alumni` table keyed by the LinkedIn profile URL:
  - a browser extension scrapes LinkedIn search result pages and posts each page's batch to an HTTP endpoint;
  - a command-line script imports a JSON file;
  - an administrator uploads a spreadsheet.
- **Enrichment.** A robot then visits each profile that still lacks a current company or job title, and fills in the photo, title, company and logo.
- **Progress.** The admin pages show how far that work has gone, measured on the `degree` column.
- **Web app.** The model also covers the web app's event and job form schemas, the events calendar's month grid, and the optimistic "interested" button.

The table is a `map<string, Row>` from `linkedin_url` to a row. An upsert on `linkedin_url` inserts a fresh row, or updates only the columns it supplies. Everything the code receives from outside becomes an input of the model:

- the database's reply to each write;
- what each LinkedIn page shows;
- the signed-in user's role;
- whether a file exists or parses;
- the weekday of the first of the month.

One module per source file:

| module | source |
|---|---|
| `AlumniSync` | src/lib/alumni-sync-utils.ts |
| `ImportAlumni` | scripts/import-alumni.ts |
| `AdminActions` | src/app/admin/actions.ts |
| `ImportRoute` | src/app/api/alumni/import/route.ts |
| `Scraper` | alumni-scraper-extension/popup.js |
| `TimeRemaining` | the countdown shared by the popup and the two admin pages |
| `EnrichProfiles` | scripts/enrich-profiles.ts |
| `AlumniPage` | src/app/alumni/page.tsx |
| `EventForm` | src/types/events.ts |
| `JobForm` | src/types/jobs.ts |
| `Validation` | the issue list both schemas share |
| `EventCalendar` | src/components/features/events/EventCalendar.tsx |
| `InterestedButton` | src/components/features/events/InterestedButton.tsx |

Four support modules complete the project:

- `AlumniStore` holds the table and its three kinds of write.
- `Text` models JavaScript's string functions, including `trim` with the full white-space set.
- `JsNumbers` models `toString` on integers and `parseInt` without a radix, including its `0x` prefix.
- `Wrappers` holds `Option`.

The two copies of `parseName` and `parseYear` are the same text. The model defines them once, in `AlumniSync`, and the import script uses those.

Facts about the code that the model makes explicit:

- **URLs are normalised on one path only.** The spreadsheet import cuts the query string and appends a `/` when one is missing (src/app/admin/actions.ts:58-59); a URL already ending in `//` keeps both. The ingestion sink stores the URL it is given (src/lib/alumni-sync-utils.ts:101), and the extension only cuts the query string (alumni-scraper-extension/popup.js:96). `AdminActions.SameProfileTwoKeys` shows the consequence: one profile stored under two keys.
- **No CORS handling.** The import route exports a `POST` handler only (src/app/api/alumni/import/route.ts:9); a preflight `OPTIONS` request gets no handler of its own.
- **No degree deduplicator.** The unit tests import `deduplicateDegrees` from src/lib/alumni-sync-utils.ts (src/__tests__/utils.test.ts:2, 25-40), but that file defines no such function, and no ingestion path applies one.
- **The enrichment robot never writes `degree`.** It therefore cannot move the progress figures, which are counted on `degree`. `EnrichProfiles.EnrichedKeepsProgress` proves this.

## Model

| member | source | states |
|---|---|---|
| AlumniSync.ParseName | src/lib/alumni-sync-utils.ts:6-14 | The first name is the first white-space-separated word of the name; the last name is the remaining words joined by single spaces, or empty when there is at most one word. |
| AlumniSync.ParseNameSingleToken | src/lib/alumni-sync-utils.ts:8 | A name that is a single token gives that token as first name and an empty last name. |
| AlumniSync.ParseNameTrims | scripts/import-alumni.ts:28-29 | Surrounding white space does not change the result: the name is trimmed before it is split. |
| AlumniSync.ParseNameRecombines | src/lib/alumni-sync-utils.ts:7-13 | First name, then a space and the last name when it is non-empty, equals the trimmed input with every white-space run collapsed to one space. |
| AlumniSync.ParseNameOfTokens | src/lib/alumni-sync-utils.ts:6-14 | Words joined by single spaces split back into the first word and the rest joined again. |
| AlumniSync.ParseNameExampleTwoWords | src/__tests__/utils.test.ts:6-10 | "Jean Dupont" gives Jean / Dupont. |
| AlumniSync.ParseNameExampleMiddleNames | src/__tests__/utils.test.ts:12-16 | "Jean-Baptiste de La Salle" gives Jean-Baptiste / de La Salle. |
| AlumniSync.ParseNameExampleSingle | src/__tests__/utils.test.ts:18-22 | "Cher" gives Cher and an empty last name. |
| AlumniSync.ParseYear | src/lib/alumni-sync-utils.ts:19-23 | Undefined and null give null. A number gives itself back, through `parseInt` of its printed form. A string gives the value of the prefix `parseInt` reads, as an exact integer: the empty string and an unreadable prefix give null. |
| AlumniSync.ParseYearOfPrinted | src/lib/alumni-sync-utils.ts:21-22 | A printed year followed by any text that does not continue the digits reads back as that year. |
| AlumniSync.ParseYearNoDigit | scripts/import-alumni.ts:43-44 | Text with no digit at all is no year (null). |
| AlumniSync.ParseYearExamples | src/__tests__/import-logic.test.ts:36-44 | `''`, null and undefined give null; the number 2021 gives 2021. |
| AlumniSync.ParseYearExample2023 | src/__tests__/import-logic.test.ts:32-34 | "2023" gives 2023. |
| AlumniSync.ParseYearExample2024 | src/__tests__/utils.test.ts:47-49 | "2024" gives 2024. |
| AlumniSync.ParseYearExampleLetters | src/__tests__/import-logic.test.ts:37 | "abcd" gives null. |
| AlumniSync.ParseYearExampleRange | src/lib/alumni-sync-utils.ts:21 | "2020-2023" gives 2020: only the leading digits are read. |
| AlumniSync.ParseYearExampleHex | src/lib/alumni-sync-utils.ts:21 | "0x7E8" gives 2024: `parseInt` without a radix reads a `0x` prefix as hexadecimal. |
| JsNumbers.ParseIntRoundTrip | src/lib/alumni-sync-utils.ts:21 | `parseInt` of an integer's printed form is that integer. |
| JsNumbers.ParseIntNoDigit | src/lib/alumni-sync-utils.ts:21-22 | `parseInt` of text without digits is NaN. |
| AlumniSync.Reached | src/lib/alumni-sync-utils.ts:95-121 | The loop gets exactly up to the first upsert that throws: every earlier reply returned, and that one threw, or the batch ended. |
| AlumniSync.ToProfileWrite | src/lib/alumni-sync-utils.ts:98-108 | The row the sink writes for a record: parsed names, URL as given, photo, degree with its fallback, parsed years and e-mail. AlumniSync.ProfileWriteDefaults states its columns. |
| AlumniSync.ProfileWriteDefaults | src/lib/alumni-sync-utils.ts:98-108 | The row carries the parsed names and years and the URL exactly as given. The degree is the supplied one, or "Non spécifié" when absent or empty, and is never empty. Photo and e-mail are null when absent or empty, else as given. |
| AlumniSync.SyncAlumniData | src/lib/alumni-sync-utils.ts:90-124 | The table is the rows of the records whose upsert succeeded, applied in order, up to a throwing upsert. The throw and its message propagate. Otherwise successes plus errors equal the batch size, errors equal the error replies, and there is exactly one log line per record, in order, `[ERROR] name: message` or `[SUCCESS] name synchronisé.`. |
| AlumniSync.SyncLoop | src/lib/alumni-sync-utils.ts:95-121 | The loop stops at the end of the batch or at the first upsert that throws. Up to there the table is the rows of the stored records applied in order, the error count is the number of rejections, successes plus errors is the number of records visited, and line j of the log is the line for record j. |
| AlumniSync.SyncRecord | src/lib/alumni-sync-utils.ts:96-120 | A record whose upsert returned: stored means its row is upserted and one success is counted, rejected means the table is unchanged and one error is counted; the line logged is `[SUCCESS] name synchronisé.` or `[ERROR] name: message`. |
| AlumniSync.FailuresAndStores | src/lib/alumni-sync-utils.ts:114-120 | When no upsert throws, the rows written plus the error count account for every record. |
| AlumniSync.StoredRecordIsKept | src/lib/alumni-sync-utils.ts:110-120 | A record whose upsert succeeded is in the table afterwards under its URL, whatever the other records' replies were. |
| AlumniSync.RejectedRecordSkipped | src/lib/alumni-sync-utils.ts:114-116 | A rejected record adds no row; the rows written are those of the other records. |
| AlumniSync.SyncTwiceSameRows | src/lib/alumni-sync-utils.ts:110-112 | After the batch there is one row per URL, and applying the same batch again leaves the table unchanged. |
| AlumniStore.UpsertProfileFrame | src/lib/alumni-sync-utils.ts:110-112 | An upsert adds the written URL to the keys and changes no other row. |
| AlumniStore.UpsertProfileWellKeyed | src/lib/alumni-sync-utils.ts:110-112 | An upsert keeps every row stored under its own URL. |
| AlumniStore.UpsertProfile | src/lib/alumni-sync-utils.ts:110-112 | The upsert on `linkedin_url`: the write laid over the row stored under its URL, or over an empty row. UpsertProfileFrame, UpsertProfileWellKeyed and WriteProfileAbsorbs state its properties. |
| AlumniStore.ApplyProfiles | scripts/import-alumni.ts:96-98 | The writes upserted one after the other. ApplyProfilesAt, ApplyProfilesIdempotent and ApplyProfilesWellKeyed state its properties. |
| AlumniStore.WriteProfileAbsorbs | src/lib/alumni-sync-utils.ts:98-112 | A later write of the same row covers every column an earlier write set. |
| AlumniStore.ApplyProfilesAt | src/lib/alumni-sync-utils.ts:95-112 | After a batch, a URL has a row exactly when it had one before or some write named it. That row is the last such write laid over the old row: the last write wins. |
| AlumniStore.ApplyProfilesIdempotent | scripts/import-alumni.ts:96-98 | Upserting the same batch twice gives the table that upserting it once gives. |
| AlumniStore.ApplyProfilesWellKeyed | scripts/import-alumni.ts:96-98 | A batch of upserts keeps one row per URL. |
| AlumniStore.ApplySheet | src/app/admin/actions.ts:75-77 | The spreadsheet upsert, one statement that went through: it keeps one row per URL, and the keys afterwards are the old keys plus the URLs of the rows written. |
| AlumniStore.ApplySheetFrame | src/app/admin/actions.ts:75-77 | A stored row whose URL no row of the sheet names is left exactly as it was. |
| AlumniStore.ApplySheetAt | src/app/admin/actions.ts:62-77 | When no URL is named twice, each written row ends with that row's first name, last name, URL and the import sentinel over the row stored under its URL before, or over a blank row; its other columns are kept. |
| AlumniStore.UpdateRow | scripts/enrich-profiles.ts:87-93 | An update by key adds no row and changes no other row. |
| ImportAlumni.ImportAlumni | scripts/import-alumni.ts:57-113 | Missing database settings, a missing data file or unparsable JSON end the run before any write. Otherwise every record is upserted as the sink does: errors counted, the loop going on, one `[ERROR]/[SUCCESS] [i/n]` line per record. Successes plus errors equal the number of records, and a throwing upsert ends the run with its message. |
| ImportAlumni.ImportLoop | scripts/import-alumni.ts:80-107 | The loop stops at the end of the file or at the first upsert that throws. Up to there the table is the rows of the stored records applied in order, errors count the rejections, successes plus errors count the records visited, and line j is the progress line of record j. |
| ImportAlumni.ImportRecord | scripts/import-alumni.ts:81-106 | Record i of n whose upsert returned: a stored row is upserted and counted as a success, a rejection leaves the table and counts an error; the line names `[i+1/n]`, the record and, on a rejection, the message. |
| ImportAlumni.ProgressLine | scripts/import-alumni.ts:100-106 | A rejection gives a line starting `[ERROR] [` and ending with the database's message; a stored row gives a line starting `[SUCCESS] [`. |
| ImportRoute.Post | src/app/api/alumni/import/route.ts:9-34 | A missing or wrong `x-api-key` gets 401 and writes nothing, and 401 is returned only then. A body that fails to parse gets 500 with the message. Otherwise the posted records go to the sink unchanged and the reply is 200 with `count` = successes and `errors` = error replies, or 500 with the message of a throwing upsert. |
| ImportRoute.Authorized | src/app/api/alumni/import/route.ts:10-13 | A request passes exactly when it carries an `x-api-key` header and the server has a key, and the two are equal; without a server key every request is refused. ImportRoute.Post states the 401 reply. |
| AdminActions.Gate | src/app/admin/actions.ts:16-27 | The action proceeds exactly for a signed-in user whose role is ADMIN or SUPER_ADMIN. Otherwise it answers "Non authentifié" to an anonymous caller and the action's refusal to anyone else. |
| AdminActions.FirstFilled | src/app/admin/actions.ts:49-51 | The `a \|\| b \|\| … \|\| ''` chain gives the empty string or the cell of one of the headers. |
| AdminActions.FirstFilledIsFirst | src/app/admin/actions.ts:49-51 | The `a \|\| b \|\| … \|\| ''` chain is empty exactly when every header's cell is empty or absent; otherwise it is the cell of the first header that has one. |
| AdminActions.NormaliseUrl | src/app/admin/actions.ts:57-60 | The URL has no `?`, ends in `/`, and starts with the part of the input before the first `?`. |
| AdminActions.NormaliseUrlShape | src/app/admin/actions.ts:57-60 | The result is the part before the first `?`, or that part with one `/` appended; it is that part unchanged exactly when it already ends in `/`. |
| AdminActions.NormaliseUrlIdempotent | src/app/admin/actions.ts:57-60 | Normalising twice is normalising once. |
| AdminActions.MapRow | src/app/admin/actions.ts:48-66 | A sheet row gives a write exactly when both names are non-empty. The names are carried over, an absent URL becomes the generated one, and a supplied URL becomes its normalised form: no `?`, ending in `/`, starting with its part before the first `?`. |
| AdminActions.MapRows | src/app/admin/actions.ts:48-69 | At most one write per sheet row, and each write is that of some row of the sheet. |
| AdminActions.MapRowsConcat | src/app/admin/actions.ts:48-69 | Mapping a sheet maps each part of it in turn, so the writes keep sheet order. |
| AdminActions.MapRowsCons | src/app/admin/actions.ts:48-69 | A non-empty sheet gives its first row's write, when it has one, followed by the writes of the other rows. |
| AdminActions.MapRowsSingle | src/app/admin/actions.ts:48-69 | A single row gives its write exactly when it has both names, and nothing otherwise. |
| AdminActions.MapRowsComplete | src/app/admin/actions.ts:48-69 | Every sheet row with both names has its write in the batch. |
| AdminActions.MapRowsAround | src/app/admin/actions.ts:48-69 | The batch is the writes of the rows before any row, that row's write if any, then the writes of the rows after it. |
| AdminActions.MapRowsCount | src/app/admin/actions.ts:48-69 | One row survives per sheet row that has both names. |
| AdminActions.MapRowsFacts | src/app/admin/actions.ts:48-69 | Each surviving row carries non-empty names and either the generated URL or a normalised one. |
| AdminActions.ImportExcelData | src/app/admin/actions.ts:12-88 | Only an import reported as done changes the table. It needs an administrator, a readable sheet, at least one row with both names, no URL named twice and an upsert that stored; the table is then the sheet upsert of the mapped rows and `count` their number. A batch naming a URL twice is refused by the database as "Erreur : ON CONFLICT DO UPDATE command cannot affect row a second time" and writes nothing. Every other outcome is a failure. |
| AdminActions.ImportRepeatedUrlRefused | src/app/admin/actions.ts:75-79 | Two sheet rows with both names that give the same URL make the single upsert statement fail: the action answers with the database's refusal and the table is unchanged. |
| AdminActions.RepeatedUrl | src/app/admin/actions.ts:48-77 | Two rows with both names that give the same URL put that URL into the batch twice. |
| AdminActions.ImportRequiresAdmin | src/app/admin/actions.ts:16-27 | A non-administrator's import leaves the table unchanged and returns the gate's message. |
| AdminActions.ImportNothingValid | src/app/admin/actions.ts:71-73 | A sheet without a row that has both names gives "Aucune donnée valide trouvée dans le fichier" and writes nothing. |
| AdminActions.ImportRejected | src/app/admin/actions.ts:75-86 | An upsert error is reported as a failure, and the table is unchanged: the batch is one statement. |
| AdminActions.ImportSucceeded | src/app/admin/actions.ts:62-82 | A successful import of a sheet with named rows and no repeated URL reports as `count` the number of rows with both names. Each mapped row is then stored under its URL with degree "Importé via Excel". |
| AdminActions.ApplySheetDegree | src/app/admin/actions.ts:62-77 | Every URL the batch wrote ends with the import sentinel as degree. |
| AdminActions.ScanRequiresAdmin | src/app/admin/actions.ts:92-118 | The robot is launched exactly for an administrator whose launch raised nothing. Others get "Non authentifié" or "Accès refusé". |
| AdminActions.StartEnrichmentScan | src/app/admin/actions.ts:92-118 | The robot is launched exactly when the reply says the scan was launched, and every other reply is a failure. |
| AdminActions.Percentage | src/app/admin/actions.ts:139 | 0 for an empty table. Otherwise `processed / total * 100` rounded half up: `2·total·r ≤ 200·processed + total < 2·total·(r+1)`. It lies in 0..100 when processed ≤ total. |
| AdminActions.PercentageEnds | src/app/admin/actions.ts:139 | Nothing processed gives 0; everything processed gives 100. |
| AdminActions.PercentageMonotone | src/app/admin/actions.ts:139 | More rows processed of the same total never lowers the percentage. |
| AdminActions.EnrichmentProgress | src/app/admin/actions.ts:123-141 | Over the table: total is the number of rows, processed is the number of rows the filter counts as processed, and percentage is `Percentage(processed, total)`. Hence processed ≤ total, and the percentage is in 0..100, 0 when nothing is processed and 100 when everything is. |
| AdminActions.ImportedRowsNotProcessed | src/app/admin/actions.ts:130-134 | A row just written by the spreadsheet import is never counted as processed, whatever it held before. |
| AdminActions.SameProfileTwoKeys | src/app/admin/actions.ts:57-60 | A supplied URL without `?` and without a trailing `/` is stored with a `/` by the spreadsheet import, but as given by the sink. The same profile then sits under two different keys. |
| TimeRemaining.Countdown | alumni-scraper-extension/popup.js:48-51 | Seconds are below 60, and minutes·60 + seconds = the remaining units (clamped at 0) times the seconds per unit. |
| TimeRemaining.Display | alumni-scraper-extension/popup.js:52 | The text `mins:ss`: the minutes, a colon and the seconds padded to two digits. DisplayReadsBack and DisplayInjective state what it shows. |
| TimeRemaining.DisplayReadsBack | alumni-scraper-extension/popup.js:52 | `mins:ss` is the minutes in full, a colon, and exactly two digits whose value is the seconds. |
| TimeRemaining.DisplayInjective | alumni-scraper-extension/popup.js:52 | Two countdowns that display alike are equal. |
| TimeRemaining.NothingLeft | alumni-scraper-extension/popup.js:48-59 | No units left displays `0:00`. |
| TimeRemaining.ShowsZeroIff | alumni-scraper-extension/popup.js:48-52 | A countdown shows `0:00` exactly when no unit is left. |
| TimeRemaining.Remaining | alumni-scraper-extension/popup.js:48-52 | The countdown text of the units left reads `0:00` exactly when none is left; the popup and both admin pages show it. |
| TimeRemaining.PopupEstimate | alumni-scraper-extension/popup.js:48-52 | The popup shows `0:00` exactly from the estimated last page on. |
| TimeRemaining.AdminEstimate | src/app/admin/alumni/page.tsx:53-60 | The admin pages show `0:00` exactly when no profile is left to process. |
| TimeRemaining.AdminEstimateIsCountdown | src/app/admin/alumni/page.tsx:53-60 | The admin pages' estimate, 6 s per profile with an explicit `0:00` branch, is the clamped countdown. The same code is at src/app/admin/import-excel/page.tsx:30-37. |
| Scraper.StartScan | alumni-scraper-extension/popup.js:15-35 | A key that is blank after trimming is refused with "Erreur : Entrez votre clé."; otherwise the trimmed key and the page limit go to the scraper. Both directions are stated. |
| Scraper.FirstJobLine | alumni-scraper-extension/popup.js:107 | `find` picks the first card line trimmed to more than 5 characters that contains neither the name nor "Se connecter". |
| Scraper.ExtractPage | alumni-scraper-extension/popup.js:91-111 | The `forEach` over the links builds exactly the page's harvest: the records of the kept links, in page order. |
| Scraper.Harvest | alumni-scraper-extension/popup.js:91-111 | The page's batch as a function: the acceptable links in page order, each URL only at its first acceptable link, mapped to records. Its properties are HarvestSound, HarvestDistinct, HarvestComplete, HarvestFirstWins and HarvestShape below. |
| Scraper.HarvestSound | alumni-scraper-extension/popup.js:95-111 | Every emitted record is the record of an acceptable link of the page. |
| Scraper.HarvestDistinct | alumni-scraper-extension/popup.js:95-110 | Within a page no profile URL is emitted twice. |
| Scraper.HarvestComplete | alumni-scraper-extension/popup.js:95-111 | The URL of every acceptable link is emitted. |
| Scraper.HarvestFirstWins | alumni-scraper-extension/popup.js:103-110 | The record emitted for a URL is that of the first acceptable link carrying it. A link turned down does not claim its URL. |
| Scraper.HarvestShape | alumni-scraper-extension/popup.js:96-108 | Each record: a URL without `?` and without `/company/`; a trimmed name longer than 2 without "LinkedIn" or "relation"; a real photo. Also a degree of 6..150 characters, grad year 2024, no entry year and no e-mail. |
| Scraper.DegreeNotEmpty | alumni-scraper-extension/popup.js:107-108 | The degree has more than five characters: a job line does, and so does "Alumni MyDigitalSchool". |
| Scraper.HarvestedRowKeepsDegree | alumni-scraper-extension/popup.js:108 | The sink stores a harvested record's degree unchanged (never the "Non spécifié" fallback), its photo, grad year 2024 and its URL. |
| Scraper.PollForChange | alumni-scraper-extension/popup.js:138-149 | The poll reports a change exactly when one of the first 15 observations shows a first link whose URL differs from the last posted first URL. It stops at the first such poll, and after 15 misses otherwise. |
| Scraper.DigitsOnly | alumni-scraper-extension/popup.js:77 | `replace(/\D/g, '')` gives only digits, and every digit of the text is among them. |
| Scraper.DigitsOnlyConcat | alumni-scraper-extension/popup.js:77 | Stripping the non-digits of a concatenation strips each part, and one character is kept exactly when it is a digit: the digits keep their order and their number. |
| Scraper.CeilTenth | alumni-scraper-extension/popup.js:77 | `Math.ceil(v / 10)`: `10q - 10 < v ≤ 10q`. |
| Scraper.EstimatedPages | alumni-scraper-extension/popup.js:76-77 | The estimate never exceeds the page limit, and is at least 1 when the limit is. |
| Scraper.EstimatedPagesOfCount | alumni-scraper-extension/popup.js:77 | A shown count `v > 0` gives `ceil(v/10)` pages, or the limit when that is smaller. |
| Scraper.EstimatedPagesFallback | alumni-scraper-extension/popup.js:77 | A count of zero, or no digits, gives 10 pages, or the limit when that is smaller. |
| Scraper.EstimatedPagesMissing | alumni-scraper-extension/popup.js:76 | No count on the page reads as "100": 10 pages, or the limit when that is smaller. |
| Scraper.PostedFacts | alumni-scraper-extension/popup.js:113-128 | Posted batches are batches of the scan and never empty. None starts with the URL the previous posted one started with, and the first does not start with the empty initial URL. |
| Scraper.ScanPage | alumni-scraper-extension/popup.js:91-129 | A page posts exactly when its batch is non-empty and starts with a URL other than the last posted first URL. A page that does not post changes neither posts nor messages. A page that posts either aborts (its post rejects), changing nothing, or appends its batch to the posts and exactly one message, `Progress(page, estimate, new total)`. The last first URL and the running total stay in step with the posts. Every progress message names a page that posted. |
| Scraper.ScrapeLinkedInInfinite | alumni-scraper-extension/popup.js:64-157 | The scan visits 1..maxPages pages, or none when the limit is below 1. A rejected data post ends the scan: the posts are those of the pages before it, and no `FINISHED` follows their progress messages. Otherwise the posts are the posting rule over the pages scanned, the stop is explained by no enabled button, the limit, or a poll that saw no change, and `FINISHED` closes the list. Each post has its progress message (page, estimate, running total), in increasing page order, each naming a page that posted, and the estimate is at least 1 once something was posted. |
| Scraper.ScanPages | alumni-scraper-extension/popup.js:82-153 | The page loop visits 1..maxPages pages (none when the limit is below 1), each page after the first reached through a change seen after a click. A rejected data post ends the loop on that page, with the posts of the pages before it. Otherwise the posts are the posting rule over the pages visited, and a stop below the limit is a disabled or missing next button or a poll that saw no change. The messages report every post, each naming a page that posted, in increasing page order. |
| Scraper.VisitPage | alumni-scraper-extension/popup.js:91-152 | One turn of the loop posts and aborts exactly as the page does, and appends exactly its one progress message when it posts. An aborted turn never goes on. Otherwise it keeps the last first URL and the total found, and goes on exactly when the next button is enabled, the page is below the limit and the poll sees the results change. Every progress message names a page that posted. |
| Scraper.NextPage | alumni-scraper-extension/popup.js:131-152 | The scan goes on exactly when the next button is enabled, the page is below the limit and one of the polls sees a first profile URL other than the last posted one. |
| Scraper.ProgressPercent | alumni-scraper-extension/popup.js:42 | The bar is at most 100, non-negative for a non-negative page, either 100 or exactly `page / total · 100`, and 100 from the last page on. |
| Scraper.ProgressPercentMonotone | alumni-scraper-extension/popup.js:42 | A later page never shows a shorter bar. |
| Scraper.ReportedBarGrows | alumni-scraper-extension/popup.js:40-44 | Successive progress messages of a scan draw a bar that never shrinks. |
| Scraper.ScanMessagesDisplay | alumni-scraper-extension/popup.js:39-60 | For the posts and messages of any scan (within the page limit, with `FINISHED` at most once after the progress messages), every message displays without dividing by zero: a progress message has an estimate of at least 1, a bar in 0..100 and the countdown of the pages left; `FINISHED` shows a full bar and `0:00`. |
| Scraper.ScanEstimatePositive | alumni-scraper-extension/popup.js:76-126 | Every progress message of a scan names a page of at least 1 and an estimate of at least 1: a posted page exists only when the limit is at least 1, and the estimate then is too. |
| Scraper.MessageDisplays | alumni-scraper-extension/popup.js:39-60 | Given progress messages with positive page and estimate, optionally followed by `FINISHED`: each progress message draws a bar in 0..100 and the countdown of the pages left, and `FINISHED` a full bar and `0:00`. |
| EnrichProfiles.Selection | scripts/enrich-profiles.ts:17-21 | The rows processed are exactly the table's rows with a null company or a null job title. |
| EnrichProfiles.SelectionOfStore | scripts/enrich-profiles.ts:17-21 | When the query lists the table's rows, a stored row is selected exactly when its company or its job title is null. |
| EnrichProfiles.Update | scripts/enrich-profiles.ts:54-93 | A written job title or company is non-empty and trimmed. A company or logo is written only when an experience entry was visible, and a written logo is non-empty. |
| EnrichProfiles.ReadProfile | scripts/enrich-profiles.ts:54-81 | The columns read from a profile page are exactly those `Update` describes: the first experience entry's title, logo and company cut at its first `·` and trimmed, or the headline when no entry is visible. |
| EnrichProfiles.EnrichRun | scripts/enrich-profiles.ts:14-108 | The query result is the table's rows. The browser is launched exactly when some row qualifies, and it is closed exactly when it was launched. With no row the run ends as up to date and changes nothing. A failed login changes nothing. Otherwise the table is the fold of the visits, and the errors are the messages of the visits that threw, the loop going on after each. In every case no row is added or removed, and a row that has both a company and a job title is left as it was. |
| EnrichProfiles.UpdateAvatar | scripts/enrich-profiles.ts:88 | A photo found replaces the avatar; otherwise the stored avatar is kept. |
| EnrichProfiles.UpdateFromExperience | scripts/enrich-profiles.ts:64-76 | With an experience entry, the company is the text before the first `·`, trimmed, or null when that is blank or unread; it never holds a `·`. The title is the entry's title trimmed, null when blank, and the logo null when absent or empty. |
| EnrichProfiles.UpdateFromHeadline | scripts/enrich-profiles.ts:77-81 | Without an experience entry the trimmed headline is the job title, and company and logo are null. |
| EnrichProfiles.EnrichedFrame | scripts/enrich-profiles.ts:87-93 | A run adds or removes no row, and changes only avatar, job title, company and logo — never names, URL, degree, years or e-mail. |
| EnrichProfiles.EnrichedUntouched | scripts/enrich-profiles.ts:87-93 | A row no visited person points to is left exactly as it was. |
| EnrichProfiles.EnrichedLastWins | scripts/enrich-profiles.ts:41-99 | A stored update shows at the end unless a later person has the same row. A visit that threw, before or after it, does not undo it. |
| EnrichProfiles.EnrichedKeepsProgress | scripts/enrich-profiles.ts:87-93 | The run never changes which rows count as processed, nor the progress figures. |
| EnrichProfiles.ErrorsCount | scripts/enrich-profiles.ts:97-99 | Exactly one error is reported per visit that threw. |
| EnrichProfiles.EnrichedOnlyPending | scripts/enrich-profiles.ts:17-93 | A run over the selected rows adds or removes no row and leaves every row that has both a company and a job title exactly as it was. |
| EnrichProfiles.Enriched | scripts/enrich-profiles.ts:41-99 | The table after the loop, as a function: each selected person's visit applied in query order, a visit that threw changing nothing. Its properties are EnrichedFrame, EnrichedUntouched, EnrichedLastWins, EnrichedKeepsProgress and EnrichedOnlyPending. |
| AlumniPage.CardOf | src/app/alumni/page.tsx:105-178 | The "Vérifié" badge shows exactly for a found degree and "Inconnu" exactly for "Parcours non trouvé". The promotion shows exactly when the grad year is truthy and the profile is not in the not-found state, and the cursus likewise with the entry year. The degree line shows exactly for a non-empty degree. |
| AlumniPage.StatusExclusive | src/app/alumni/page.tsx:105-106 | No degree is both found and not found. |
| AlumniPage.StatusCases | src/app/alumni/page.tsx:105 | A null or empty degree and "Importé via Excel" are neither found nor not found. Any other degree except "Parcours non trouvé" is found. |
| AlumniPage.ProcessedIsClassified | src/app/alumni/page.tsx:105-106 | The rows the progress figures count as processed are exactly the found, the not-found and those with an empty degree. |
| AlumniPage.NotFoundHidesYears | src/app/alumni/page.tsx:154-178 | A not-found profile shows the "Inconnu" badge and neither promotion nor cursus, whatever its years. |
| Validation.MinLength | src/types/events.ts:4 | `min(n, message)` raises no issue exactly when the text has at least n characters, and otherwise exactly one issue on the field with that message. |
| Validation.Check | src/types/events.ts:6-8 | A pattern or rule raises no issue exactly when it holds, and otherwise exactly one issue on its path. |
| EventForm.EventAcceptedIff | src/types/events.ts:3-17 | An event is accepted exactly when title ≥ 3, description ≥ 10, type and location ≥ 2 characters, the date is `\d{4}-\d{2}-\d{2}`, both times are `\d{2}:\d{2}`, and the start time sorts before the end time; the image never matters. |
| EventForm.EventIssues | src/types/events.ts:3-17 | At most eight issues, each on one of the form's fields: title, description, date, start_time, end_time, type or location. |
| EventForm.OrderIssueOnEndTime | src/types/events.ts:12-17 | With all fields well formed, a start not before the end gives exactly one issue, on `end_time`, with the ordering message. |
| EventForm.EqualTimesRejected | src/types/events.ts:13 | Equal start and end times are refused. |
| EventForm.DateRangeUnchecked | src/types/events.ts:6 | The date pattern checks no range: "2024-13-45" passes. |
| EventForm.TimeOrderIsNumeric | src/types/events.ts:7-13 | On `HH:MM` strings the string order is the numeric order of hours, then of minutes. |
| EventForm.ClockOrder | src/types/events.ts:13 | For minutes below 60 the string order is the order of minutes since midnight. |
| JobForm.LinkIssues | src/types/jobs.ts:9 | The link is accepted exactly when absent, empty or a URL. Otherwise its one issue is the URL message on `link`. |
| JobForm.JobAcceptedIff | src/types/jobs.ts:3-10 | An offer is accepted exactly when title ≥ 3, company ≥ 2, description ≥ 10, location ≥ 2, the type is one of CDI, CDD, STAGE, ALTERNANCE, FREELANCE, and the link is accepted. |
| JobForm.JobIssues | src/types/jobs.ts:3-10 | At most six issues, one per field check; JobIssuePaths states which fields they name. |
| JobForm.JobIssuePaths | src/types/jobs.ts:3-10 | Every issue names one of the schema's fields. |
| JobForm.BadLinkRefused | src/types/jobs.ts:9 | A non-empty link that is not a URL is refused on `link`, even when everything else is right. |
| EventCalendar.PrevMonth | src/components/features/events/EventCalendar.tsx:28 | `new Date(year, month - 1, 1)`: the month index `12·year + month` drops by one after a year from 0 to 99 is read as 1900..1999; for any other year the result is exactly one month earlier, January rolling back to December of the year before. |
| EventCalendar.NextMonth | src/components/features/events/EventCalendar.tsx:29 | `new Date(year, month + 1, 1)`: the month index rises by one after a year from 0 to 99 is read as 1900..1999; for any other year the result is exactly one month later, December rolling on to January of the year after. |
| EventCalendar.PrevNextInverse | src/components/features/events/EventCalendar.tsx:28-29 | For a year of at most −2 or at least 101, back then forward, or forward then back, returns to the month shown. |
| EventCalendar.PrevNextJumpAtYear100 | src/components/features/events/EventCalendar.tsx:28-29 | Back from January of year 100 gives December of year 99, and forward from there gives January 2000, not year 100: the two-digit-year rule of `new Date`. |
| EventCalendar.DaysInMonth | src/components/features/events/EventCalendar.tsx:22 | A month has 28 to 31 days. It has 30 exactly for April, June, September and November, and February has 29 exactly when the year, read as `new Date` reads it, is a Gregorian leap year. |
| EventCalendar.AdjustedStartDay | src/components/features/events/EventCalendar.tsx:37 | The offset is in 0..6, and counts the days from Monday to the first's weekday (Sunday gives 6). |
| EventCalendar.BuildDays | src/components/features/events/EventCalendar.tsx:39-45 | The grid has offset + days cells: the first `offset` cells are blank, then the days 1..n ascend. |
| EventCalendar.DayUnderItsWeekday | src/components/features/events/EventCalendar.tsx:34-37 | Every day sits under the column header naming the weekday the date library gives it. |
| EventCalendar.DayKeyIsFormDate | src/components/features/events/EventCalendar.tsx:50 | For a four-digit year, the `year-MM-DD` key of a day has exactly the shape the event form accepts as a date. |
| EventCalendar.DayKey | src/components/features/events/EventCalendar.tsx:50 | The `year-MM-DD` key: the printed year, then the month number and the day padded to two digits. DayKeyIsFormDate states its shape. |
| EventCalendar.OnDate | src/components/features/events/EventCalendar.tsx:51 | The filter keeps each event dated on the key exactly as often as it occurs, and drops every other event. |
| EventCalendar.OnDateConcat | src/components/features/events/EventCalendar.tsx:51 | Filtering a concatenation filters each part; the events keep their order. |
| EventCalendar.EventsForDay | src/components/features/events/EventCalendar.tsx:49-52 | An event is listed for a day exactly when it is among the events and its date is the day's key. |
| InterestedButton.CountLabel | src/components/features/events/InterestedButton.tsx:42 | The label is "Intéressés" exactly when the count exceeds 1, and "Intéressé" otherwise. |
| InterestedButton.Moved | src/components/features/events/InterestedButton.tsx:25 | The optimistic count moves by +1 toward interest and by −1 away from it. |
| InterestedButton.MovedBack | src/components/features/events/InterestedButton.tsx:33 | The revert moves the count by one in the opposite direction. |
| InterestedButton.MovedBackUndoes | src/components/features/events/InterestedButton.tsx:23-33 | Reverting a flip gives back the count the click started from. |
| InterestedButton.Button.constructor | src/components/features/events/InterestedButton.tsx:15-17 | The button starts with the given interest and count, not pending. |
| InterestedButton.Button.Click | src/components/features/events/InterestedButton.tsx:20-25 | A click, allowed only when enabled, sets pending, flips the interest and moves the count toward it. |
| InterestedButton.Button.Settle | src/components/features/events/InterestedButton.tsx:27-36 | Settling clears pending. On an error the interest is put back and the count moved back; on success both stay. |
| InterestedButton.Button.HandleAction | src/components/features/events/InterestedButton.tsx:19-37 | Success leaves the interest negated and the count moved by one toward it. Failure restores both to their values before the click. Either way the button ends enabled, so no two actions overlap. |

## Left out

- Timestamps: `updated_at`, `new Date().toISOString()`, `toLocaleDateString` and `isToday` depend on the clock and the locale. Rows carry no timestamp, and the weekday of the first of the month is an input.
- The browser, the database client and the file system are not modelled. This covers `chrome.*`, the DOM, Playwright, `fetch`, `sleep`/`setTimeout`, scrolling, random delays, `fs` reads, `JSON.parse` and XLSX parsing.
  - Their results become inputs: page views, upsert replies, a parsed file, sheet rows, and whether the login succeeded.
  - The enrichment robot's login steps are reduced to whether they succeeded.
- The extension's DEBUG log posts (alumni-scraper-extension/popup.js:65-71) carry no key and are refused by the endpoint; they change nothing, so they are not modelled.
- The extension's data post (alumni-scraper-extension/popup.js:120-124) is reduced to its effect on the scan. The reply, even an HTTP error status, is ignored. A rejected request (a network failure) is the page's `postRejects` flag and aborts the scan, because nothing catches it. What the endpoint does with the post is `ImportRoute.Post`.
- `generateLinkedInUrl` has no body in the source at hand. It is a parameter of the spreadsheet mapping.
- `deduplicateDegrees` is not part of this model: it has no body in the source at hand, so its test cannot be related to any code.
- `fetchAlumniFromLinkedIn` (a third-party API call with random fallback data) and `child_process.spawn` in `startEnrichmentScan` are foreign calls. The launch is reduced to whether it raised an error.
- CORS / OPTIONS handling is absent from the route, so it is not invented.
- The database's own ordering of query results is an input: the table the enrichment query returns is a sequence.
- The enrichment update is keyed by `id`; the model keys it by `linkedin_url`, which is equally unique per row.
- React rendering, the page chrome, the other admin and public pages, dialogs, search inputs and filters are UI glue and are not modelled.
- Scraper.ProgressPercent: computed in exact rational arithmetic, not IEEE doubles.
- AdminActions.Percentage: rounds the exact quotient half up; IEEE rounding of `processed / total * 100` can differ from it right at a half.
- AlumniSync.ParseYear: a numeric year is an integer below 10^21. Fractional numbers and JavaScript's exponent notation for larger ones are not modelled. A string's digits are read as an exact integer, while `parseInt` returns a double: it rounds past 2^53 ("9007199254740993" gives 9007199254740992) and gives `Infinity` for about 309 digits or more. The model returns the exact value in both cases.
- AdminActions.SheetRow: every cell is text. `sheet_to_json` gives a number for a numeric cell. A numeric LinkedIn cell makes `linkedinUrl.split` throw (src/app/admin/actions.ts:58), and the action then answers `Erreur : …` with the exception's message (src/app/admin/actions.ts:85-87). A numeric name cell passes the `!firstName` test and is written as a number. Neither is modelled.
- Scraper.AcceptableName: `name.length > 2` is counted in Unicode characters, not UTF-16 code units. A name of two characters outside the Basic Multilingual Plane passes the code and fails the model.
- Scraper.IsJobLine: `t.trim().length > 5` is counted in Unicode characters, not UTF-16 code units.
- Scraper.FirstJobLine: picks its line by `IsJobLine`, so it shares that line's character count.
- Scraper.Degree: `substring(0, 150)` keeps 150 characters, not 150 UTF-16 code units. The code can cut a surrogate pair in half; the model cannot express that.
- Scraper.HarvestShape: its 6..150 bound on the degree is in characters, for the same reason.
- Text.LexLess: compares characters by code point. JavaScript's `<` compares UTF-16 code units, which orders characters from U+E000 to U+FFFF after those outside the Basic Multilingual Plane. The two orders agree on the `HH:MM` strings the event form compares.
- Scraper.DigitsOnly: its own contract states only that the result is digits and holds every digit of the text. Order and multiplicity are stated by Scraper.DigitsOnlyConcat.
- EventCalendar.PrevMonth: keeps counting months beyond about ±275760 years, where JavaScript's `Date` gives an Invalid Date.
- EventCalendar.NextMonth: keeps counting months beyond the same limit of `Date`.
- EventCalendar.DaysInMonth: gives a day count beyond the same limit, where `Date` gives none.
- Validation.MinLength: lengths count Unicode characters. JavaScript counts UTF-16 code units, so a character outside the Basic Multilingual Plane counts once here and twice there.
- JobForm.JobAcceptedIff: the zod enum error message is abbreviated to "Invalid enum value", without the list of expected values.
- JobForm.LinkIssues: what counts as a URL is the validator library's business and is an opaque predicate `isUrl`.
- The popup's DOM writes (bar width, page counter, status text) are reduced to the bar width and the estimate text of each message.
