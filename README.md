# AuraScale result cache and session history — a Dafny model

AuraScale lets a user upload a photo. A remote vision model scores each face in it, and the page shows the faces ranked. This project models the one part with invariants of its own: the result cache that doubles as the session history.

- **Fingerprint** (`generateHash`). The image's data URL is hashed with SHA-256. The 32 digest bytes are rendered as lowercase hex, two characters per byte. The result is a 64-character id. Module `Hex` models the rendering and proves that it can be decoded back, so distinct digests give distinct ids.
- **History store** (`getHistory`, `saveToHistory`, `getCachedResult`, `deleteFromHistory`, `clearAllHistory`). This is one browser-storage key holding the list of analysis records, most recent first. Saving puts the new record in front and keeps the first 50. Lookup returns the first record with the id. Delete keeps every record with another id. Clear removes the key. Module `History` has the list transforms as functions, with their lemmas. Its class `HistoryStore` holds the key as a field `slot: Option<seq<AnalysisResult>>` (`None` = key absent), and its methods read, transform and write that field.
- **Face order** (`faces.sort((a, b) => b.overallScore - a.overallScore)`). Module `Ranking` models the stable sort, highest score first. It proves that the result is sorted and a permutation of the input, and that faces with equal scores keep their order.
- **Upload controller** (`handleFileUpload`, `clearResults`, the click on a history entry). Module `App` gives the function `Upload`, which says how one upload ends: no file, failure, cache hit or fresh record. It also gives the class `AppComponent` with the page state `status`, `result`, `history` and `error`. Its handler sets that state step by step and is proved against `Upload`. Two ghost fields make visible what the source leaves implicit: `statusLog` lists every status set in turn, so the intermediate LOADING is visible, and `scorerCalls` counts calls of the scorer.

The file reader, the SHA-256 digest, the face scorer and the clock are parameters. Each is given as the outcome of its call: a value, or `Err(message)` for a thrown error.

Where a cache might be expected to behave otherwise, the code behaves as follows, and so does the model:
- `saveToHistory` does not deduplicate. Saving an id that is already stored keeps both entries, and lookups then see the newer one (`History.SaveDoesNotDeduplicate`).
- Corrupt stored data is not read as an empty history: `JSON.parse` throws.
- Writes are neither atomic nor checked for quota errors.
- `rank` is not recomputed after sorting. Faces keep the rank the scorer gave them in its own order (`Ranking.SortExample`).

## Model

| member | source | states |
|---|---|---|
| Hex.ToBase16 | utils/helpers.ts:6 | `n.toString(16)` is at least one lowercase hex digit, and exactly one iff `n < 16` |
| Hex.ByteToHex | utils/helpers.ts:6 | `b.toString(16).padStart(2, '0')` (with `padStart` as the helper `PadStart`) is always exactly the high-nibble digit followed by the low-nibble digit |
| Hex.Render | utils/helpers.ts:5-6 | the joined rendering of n bytes has 2n characters, all lowercase hex digits |
| Hex.RenderAt | utils/helpers.ts:5-6 | byte i of the digest is rendered at characters 2i and 2i+1, high nibble first |
| Hex.ParseHex | utils/helpers.ts:6 | the pair decoder accepts only strings that are the rendering of the bytes it returns |
| Hex.ParseRender | utils/helpers.ts:5-6 | decoding a rendering gives back the digest bytes (round trip) |
| Hex.RenderInjective | utils/helpers.ts:5-6 | two byte sequences render to the same string iff they are equal |
| Hex.GenerateHash | utils/helpers.ts:2-7 | a fingerprint fails exactly when the digest fails, with its message; otherwise it is 64 lowercase hex characters that decode to the digest |
| Hex.FingerprintsMatchExactlyWhenDigestsDo | utils/helpers.ts:2-7 | two texts get the same fingerprint iff their digests are equal |
| History.Take | utils/helpers.ts:25 | `slice(0, n)` keeps min(length, n) elements and is a prefix of the input |
| History.Saved | utils/helpers.ts:25 | after saving, the length is min(old + 1, 50), the item is first, and the older entries follow in their order |
| History.Find | utils/helpers.ts:31 | the lookup is None iff no record has the id; otherwise it is the record at the first index with that id |
| History.Without | utils/helpers.ts:36 | a record survives deletion iff it was stored and has another id; nothing is added |
| History.SaveEvictsOldest | utils/helpers.ts:25 | with 50 records stored, saving drops exactly the last (oldest) one |
| History.FindAfterSave | utils/helpers.ts:23-32 | right after saving a record, looking up its id returns that record |
| History.SaveDoesNotDeduplicate | utils/helpers.ts:23-32 | saving an id already present at index k < 49 keeps the old entry at k + 1, so two entries share the id; lookup returns the new one |
| History.WithoutConcat | utils/helpers.ts:36 | deletion distributes over concatenation, so survivors keep their relative order |
| History.WithoutAbsent | utils/helpers.ts:34-38 | deleting an id that no record has leaves the list unchanged |
| History.WithoutIdempotent | utils/helpers.ts:34-38 | deleting an id twice gives the same list as deleting it once |
| History.FindAfterWithout | utils/helpers.ts:29-38 | after deleting an id, lookup of it is None and lookups of every other id are unchanged |
| History.HistoryStore.GetHistory | utils/helpers.ts:18-21 | returns the empty list when the key is absent, the stored list otherwise (the helper `Stored` is this same reading, used in the other contracts) |
| History.HistoryStore.SaveToHistory | utils/helpers.ts:23-27 | the key then holds the saved list of the previous contents, which has at most 50 records |
| History.HistoryStore.GetCachedResult | utils/helpers.ts:29-32 | returns None iff no stored record has the hash; otherwise the first stored record with it |
| History.HistoryStore.DeleteFromHistory | utils/helpers.ts:34-38 | the key then holds the previous contents without the id, even when it was absent; the 50 bound is kept |
| History.HistoryStore.ClearAllHistory | utils/helpers.ts:40-42 | the key is absent afterwards, so the history reads as empty |
| Ranking.SortByScore | App.tsx:42 | the faces come out ordered by non-increasing overall score, as a permutation of the scorer's faces |
| Ranking.SortIsStable | App.tsx:42 | for every score, the faces with that score keep the scorer's order |
| Ranking.SortExample | App.tsx:42 | scores 4.2, 9.1, 7.0 come out as 9.1, 7.0, 4.2, carrying the scorer's ranks 2, 3, 1 unchanged |
| App.ErrorText | App.tsx:51 | the error text is never empty and is the thrown message whenever that is not empty |
| App.Upload | App.tsx:18-53 | an upload ends with no file exactly when none was picked, and every failure carries a non-empty message; the steps after the read (App.tsx:26-43) are the helper `Analyze` |
| App.CacheHitSkipsScorer | App.tsx:26-34 | a cache hit returns the stored record whose id is the image fingerprint, and the same for any scorer and any clock |
| App.FreshRecord | App.tsx:36-43 | a miss builds a record with id = fingerprint, imageData = the data URL and the current time; its faces are sorted, a permutation and stable, and its id was not stored |
| App.FailureReportsFirstError | App.tsx:49-53 | a failure reports the first thrown message (or the default text), and the scorer was called iff reading and hashing succeeded and the lookup missed |
| App.ResubmitIsCacheHit | App.tsx:26-46 | re-uploading an image after its record was saved is a cache hit on that record, whatever the scorer would say |
| App.SessionScenario | App.tsx:18-48 | A is scored, A again hits the same record, B is scored and put in front; deleting A leaves only B; a cleared key reads as empty |
| App.SessionThroughComponent | App.tsx:9-54 | the same session through a mounted component and its store: the shown results are A, A, B (the second one the cached A); the history lists B then A; after deleting A the store reads as B alone, and after clearing as empty. The body also asserts the scorer count 1, 1, 2 after the three uploads |
| App.AppComponent.constructor | App.tsx:9-16 | on mount the status is IDLE with no result and no error, and the history state is the stored history |
| App.AppComponent.Fail | App.tsx:49-53 | the catch block sets the error text, then the status ERROR (through the helper `SetStatus`, the `setStatus` setter, which also appends to `statusLog`) |
| App.AppComponent.HandleFileUpload | App.tsx:18-54 | no file: nothing changes. Otherwise LOADING is set first, then: on failure ERROR with the message, result and history kept; on a hit the cached record with SUCCESS, without calling the scorer or writing the history; on a miss one scorer call, the new record saved at the front of the stored history, and the history state equal to it |
| App.AppComponent.AnalyzeImage | App.tsx:26-53 | after the read: a failing digest or scorer ends in ERROR with its message; a hit shows the cached record without calling the scorer; a miss calls the scorer once and publishes the new record |
| App.AppComponent.Publish | App.tsx:45-48 | the new record is shown, saved at the front of the stored history, the history state is reloaded from storage, and the status becomes SUCCESS |
| App.AppComponent.ClearResults | App.tsx:56-59 | the result is cleared and the status becomes IDLE; nothing else may change |
| App.AppComponent.OpenHistoryItem | App.tsx:190-193 | clicking a history entry shows that record with status SUCCESS; nothing else may change |

## Left out

- The SHA-256 digest and `TextEncoder` (utils/helpers.ts:3-4) are foreign calls. They are one parameter `sha256: string -> Result<Digest>`, a function, so the same text always gets the same digest. The digest's collision resistance is not modelled.
- `fileToBase64` (utils/helpers.ts:9-16) is `FileReader` I/O. Its outcome is the parameter `file`: `None` when no file was picked, the data URL, or `Err("")` when reading fails. The reader rejects with its error event, which has no `message`, so that failure always shows the default text.
- `analyzeFaces` (services/geminiService.ts) is a network call. It is a parameter that returns the faces or an error. Its `rank = index + 1` numbering happens inside it, so it is part of the faces it returns.
- `Date.now()` is the parameter `now`.
- `localStorage` and JSON encoding: the key is a field, and encoding and decoding are the identity. So the model does not have `JSON.parse` throwing on corrupt data, `setItem` throwing when the quota is exceeded, or a stored empty string (which `getHistory` would read as the empty list). The upload handler's catch would turn a throw from `getCachedResult` or `saveToHistory` into the ERROR state; the model has no such throw.
- A thrown value without a `message` is modelled as a message that is the empty string. Both fall back to the default text.
- Asynchrony and rendering: each `await` completes before the next step, and React's batching of state updates is not modelled. `statusLog` records the order of the `setStatus` calls.
- All JSX, `components/FaceDetailCard.tsx` and `components/RadarScoreChart.tsx` are presentational.
- Floating point: scores are reals, and only compared. NaN scores, `toFixed` and chart widths are not modelled.
- The 50-record bound is established by saving and clearing and kept by deleting. The key may hold more when the page loads, because nothing says who wrote it earlier.
