# Dimension3D gallery: generation lifecycle, gallery filter and image extraction

A Dafny model of the logic inside the Dimension3D wallpaper gallery, a
React application. The model has three parts:

- **Generation lifecycle.** This is what the `handleGenerate` handler of
  the `App` component does to the component's state: the `GenerationState`
  panel, the `wallpapers` list, the `prompt` input and the live progress
  intervals.
- **Gallery view.** The category and search filter that computes
  `filteredWallpapers`, and the quick-tag buttons that extend the prompt.
- **Image extraction.** The part of `GeminiService.generateWallpaper` that
  builds the request and picks the image out of the reply.

Files and modules:

- `text.dfy`, module `Text`: the JavaScript string built-ins the code
  relies on. These are `trim` (with the ECMAScript white-space set),
  `toLowerCase` (ASCII letters only), `includes`, `Array.prototype.join`
  and `Number.prototype.toString` for non-negative integers.
- `types.dfy`, module `Types`: the records of `types.ts` and the data of
  `constants.ts`.
- `gemini_service.dfy`, module `GeminiService`: the instruction template
  and the request. `GenerateWallpaper` is a method whose loop scans the
  reply's parts and stops at the first one with inline data, as the source
  loop does with `break`. It is proved equal to the function `Outcome`.
- `gallery.dfy`, module `Gallery`: the filter, the lemmas about it, and
  the tag-append rule.
- `generation.dfy`, module `Generation`: the component's state as a
  `Snapshot` value. The async handler is split at its single `await`:
  - `Start` runs up to the call to the image service.
  - `Settle` runs after the call returns or throws.
  - `Tick` is one firing of a progress interval. Each interval keeps its
    own `msgIndex` in the map `intervals`.

  All other handlers are `Event`s, so `Run` folds a whole sequence of
  events and the lemmas can speak about every run.
- `app.dfy`, module `AppComponent`: class `App`. Each `useState` slot the
  handlers update is a field; the `previewing` slot of the preview modal is
  not modelled. Each handler is a method that updates the fields one setter at a
  time. Each method's `ensures` ties the new state to the `Generation`
  transition it performs.

Outside inputs are parameters:

- the image SDK's reply (`GeminiService.Reply`, a response or a thrown
  error);
- the clock reading `now` behind `Date.now()`;
- which interval fires and when.

The interval ids are a counter, `nextInterval`.

## Gaps in the handler

The model reproduces these properties of the code as written:

- **No re-entrancy guard in the handler.** `handleGenerate` never reads
  `isGenerating`; its only early return is the blank-prompt test at
  App.tsx:25. Only the button's `disabled` attribute (App.tsx:156) stops a
  second click. `PressGenerate` models the button. `HandlerIsReentrant`
  shows that the handler alone starts a second attempt with a second
  interval.
- **Interval not cleared on failure.** `clearInterval` runs only at
  App.tsx:52, on the success path, and never in the `catch` block at
  App.tsx:66-71. `FailureLeavesIntervalRunning` shows the effect: after a
  failure, each later firing writes a progress message over the terminal
  error state. `SuccessStopsInterval` shows that a success does stop it.
- **Category `'All'`.** The `Category` type of types.ts:11 includes
  `'All'`, and `Wallpaper.category` has that type, so a record may carry
  it.
- **Record ids.** A new record's id is `Date.now().toString()`
  (App.tsx:55). `DecimalRoundTrip` shows that two ids are equal exactly
  when the two clock readings are equal, so two successes in the same
  millisecond share an id.

## Model

| member | source | states |
|---|---|---|
| `Text.Trim` | App.tsx:25 | `prompt.trim()` is never longer than the prompt, and it is empty exactly when every character is ECMAScript white space or a line terminator |
| `Text.TrimStartDropsBlankPrefix` | App.tsx:25 | trimming the start removes a prefix made only of white space and stops at the first character that is not white space |
| `Text.TrimEndDropsBlankSuffix` | App.tsx:25 | trimming the end removes a suffix made only of white space and stops at the last character that is not white space |
| `Text.TrimEmptyIffBlank` | App.tsx:25 | `prompt.trim()` is empty exactly when every character is ECMAScript white space or a line terminator |
| `Text.TrimStripsBothEnds` | App.tsx:25 | a non-empty trimmed string starts and ends with a character that is not white space |
| `Text.ToLower` | App.tsx:77 | `toLowerCase()` keeps the length, turns each ASCII capital into its lower-case letter (code point plus 32), and keeps every other character |
| `Text.ToLowerIdempotent` | App.tsx:77 | lower-casing twice is lower-casing once, so the query and the prompt are compared in one case |
| `Text.Includes` | App.tsx:77 | the empty needle is included in every string, and a needle that is included is no longer than the haystack |
| `Text.IncludesIff` | App.tsx:77 | `includes` holds exactly when the needle occurs at some position of the haystack |
| `Text.Join` | App.tsx:49 | `join` of no elements is empty, and the joined string starts with the first element |
| `Text.DecimalString` | App.tsx:55 | `Date.now().toString()` is a non-empty string of decimal digits with no leading zero |
| `Text.DecimalRoundTrip` | App.tsx:55 | reading the id back gives the clock reading, so ids coincide exactly when the readings do |
| `GeminiService.Instruction` | services/geminiService.ts:19-21 | the instruction is the fixed head, then the user's prompt verbatim, then the fixed tail |
| `GeminiService.InstructionInjective` | services/geminiService.ts:19-21 | different prompts give different instruction texts |
| `GeminiService.ResponseParts` | services/geminiService.ts:33 | `response.candidates?.[0]?.content?.parts \|\| []`: a missing or empty candidate list gives no parts; non-empty parts are exactly the parts of the first candidate's content |
| `GeminiService.FirstInline` | services/geminiService.ts:33-38 | finds the first part with `inlineData`: every earlier part has none, and it is absent only when no part has any |
| `GeminiService.FirstInlineIgnoresLaterParts` | services/geminiService.ts:34-37 | parts after the first one with inline data never change which part is taken |
| `GeminiService.DataUri` | services/geminiService.ts:35 | the URL is the `data:image/png;base64,` prefix followed by the part's data, rendered as a template literal renders it |
| `GeminiService.Outcome` | services/geminiService.ts:32-44 | an SDK error is rethrown unchanged; a reply succeeds exactly when some part of its first candidate carries inline data; a success is the data-URI prefix followed by the `data` of the first part carrying inline data, with later parts ignored; any other reply throws the no-image error |
| `GeminiService.GenerateWallpaper` | services/geminiService.ts:11-45 | sends the instruction with the requested aspect ratio (default `16:9`) to the fixed model; its loop over the parts, which stops at the first inline-data part, returns exactly `Outcome` |
| `Gallery.MatchesCategory` | App.tsx:76 | `'All'` matches every record; any other category matches exactly the records filed under it |
| `Gallery.MatchesSearch` | App.tsx:77 | the empty query matches every record; a matching query is no longer than the record's prompt |
| `Gallery.Shown` | App.tsx:76-78 | under `'All'` with an empty query every record is shown; a shown record passes the category test and its prompt is at least as long as the query |
| `Gallery.Filter` | App.tsx:75-79 | the view is no longer than the gallery, and every record in it is from the gallery and passes both the category test and the case-insensitive search |
| `Gallery.FilterCounts` | App.tsx:75-79 | each shown record keeps its number of occurrences in the gallery, and each hidden record has none |
| `Gallery.FilterMember` | App.tsx:75-79 | a record is in the view exactly when it is in the gallery and passes both tests |
| `Gallery.FilterConcat` | App.tsx:75-79 | filtering a concatenation is the concatenation of the filtered halves, so the filter never reorders |
| `Gallery.FilterIsSubsequence` | App.tsx:75-79 | the view is an order-preserving subsequence of the gallery |
| `Gallery.FilterIdempotent` | App.tsx:75-79 | filtering the view again with the same settings changes nothing |
| `Gallery.FilterAllEmptyIsIdentity` | App.tsx:75-79 | with `'All'` and an empty query the view is the whole gallery, in order |
| `Gallery.SearchIgnoresCase` | App.tsx:77 | two queries that lower-case alike give the same view |
| `Gallery.SearchFindsAnyCase` | App.tsx:76-77 | under `'All'`, a record whose prompt contains the query in any ASCII letter case is shown |
| `Gallery.AppendTag` | App.tsx:130 | an empty prompt becomes the tag; any non-empty prompt, even one of spaces, keeps its text and gets `", "` followed by the tag |
| `Gallery.AppendTagsJoins` | App.tsx:127-130 | pressing tags after a non-empty prompt yields the prompt and the tags joined by `", "` |
| `Gallery.TagsFromEmptyPrompt` | App.tsx:127-130 | pressing non-empty tags from an empty prompt yields the tags joined by `", "` |
| `Gallery.QuickTagsFromEmptyPrompt` | App.tsx:127-130 | pressing any of the six quick-tag buttons, in any order, from an empty prompt yields the pressed tags joined by `", "` |
| `Types.CategoriesListEachOnce` | constants.ts:4 | the category buttons list every category exactly once |
| `Generation.InitialValid` | App.tsx:12-22 | the initial state satisfies the state invariant |
| `Generation.EnhancePrompt` | App.tsx:49 | the prompt sent starts with the raw, untrimmed prompt and `", "` |
| `Generation.EnhancePromptIsTemplate` | App.tsx:49 | the prompt sent is the template: the raw prompt, `", "`, and the eight enhancers joined by `", "`, in order |
| `Generation.EnhancePromptInjective` | App.tsx:49 | the raw prompt can be recovered from the prompt that was sent |
| `Generation.NewWallpaper` | App.tsx:54-61 | the new record has the returned URL, the raw prompt (not the enhanced one), category Abstract, the requested aspect ratio, `isAIGenerated` set and the clock reading as its id |
| `Generation.Start` | App.tsx:24-50 | a blank prompt changes nothing and sends nothing; otherwise the panel becomes generating with no error and the first message, and a new interval starts at index 0; gallery and prompt are untouched; the pending call holds the raw prompt, the aspect ratio and the enhanced prompt; category, search query and aspect ratio are kept; `isGenerating` is not consulted |
| `Generation.Tick` | App.tsx:42-46 | a live interval's index advances by one modulo 5, every other interval is kept, and the panel shows the message at that index; `isGenerating`, `error`, gallery, prompt, category, search query and aspect ratio are kept; a cleared interval changes nothing |
| `Generation.Settle` | App.tsx:50-71 | on success the interval is cleared, the record is prepended to the current gallery, the prompt is cleared and the panel is idle; on failure only the panel changes, to the fixed error with an empty message, and the interval is not cleared |
| `Generation.Step` | App.tsx:24-221 | one event hands out at most one new interval id, and only a Generate click does; the input handlers (prompt, tags, ratio, category, query, clear filters) never touch the panel, the intervals or the gallery |
| `Generation.Run` | App.tsx:24-221 | over a run of events the interval counter never decreases and grows by at most one per event |
| `Generation.PressGenerate` | App.tsx:155-157 | while generating, a click changes nothing; otherwise it runs the handler |
| `Generation.StartPreservesValid` | App.tsx:24-50 | starting an attempt keeps the state invariant |
| `Generation.TickPreservesValid` | App.tsx:42-46 | a firing of any interval keeps the state invariant |
| `Generation.SettlePreservesValid` | App.tsx:50-71 | settling an attempt, on success or failure, keeps the state invariant |
| `Generation.StepPreservesValid` | App.tsx:24-79 | every event keeps the state invariant: the message is empty or one of the five (one of the five while generating), no error while generating, the error is the fixed message, interval indices are below 5, and generated records are Abstract |
| `Generation.RunPreservesValid` | App.tsx:24-79 | every run of events from a consistent state keeps the state invariant |
| `Generation.StepKeepsGallery` | App.tsx:63 | one event leaves the gallery unchanged or puts exactly one record in front of it |
| `Generation.RunKeepsGallery` | App.tsx:63 | over any run, the gallery at the start remains a suffix of the gallery at the end: records are only ever put in front |
| `Generation.TicksKeepState` | App.tsx:43-46 | firings of an interval never change `isGenerating`, `error` or the gallery |
| `Generation.TicksIndex` | App.tsx:43-45 | after k firings, a live interval is still live and its index has moved on by k modulo 5 |
| `Generation.TicksCycle` | App.tsx:42-46 | after k > 0 firings, the panel shows the message at the interval's starting index plus k, modulo 5 |
| `Generation.StartThenTicks` | App.tsx:27-46 | after a start and k firings of its interval, the panel shows message k modulo 5 |
| `Generation.SuccessStopsInterval` | App.tsx:52 | after a success, any number of firings of its interval leave the state unchanged |
| `Generation.FailureLeavesIntervalRunning` | App.tsx:66-71 | after a failure, each later firing of the uncleared interval writes one of the progress messages while the panel shows the error and is not generating |
| `Generation.HandlerIsReentrant` | App.tsx:24-31 | called while a request is out, the handler starts a second attempt and adds a second interval |
| `Generation.NeonCityScenario` | App.tsx:24-73 | prompt "neon city" with a reply holding one inline image puts the expected record in front of the seed gallery, clears the prompt and leaves the panel idle |
| `AppComponent.App.FilteredWallpapers` | App.tsx:75-79 | the grid is no longer than the gallery, holds exactly the gallery's records that pass both tests, and is the whole gallery under `'All'` with an empty query |
| `AppComponent.App.constructor` | App.tsx:12-22 | the component starts with the seed gallery, category `'All'`, empty query and prompt, `16:9`, an idle panel and no intervals |
| `AppComponent.App.HandleGenerate` | App.tsx:24-50 | the field updates before the `await` perform exactly `Start` and keep the invariant |
| `AppComponent.App.OnIntervalFired` | App.tsx:43-46 | the interval callback performs exactly `Tick` |
| `AppComponent.App.Complete` | App.tsx:50-71 | runs the image service on the SDK reply with the enhanced prompt and the captured aspect ratio, then performs exactly `Settle` with the service's outcome |
| `AppComponent.App.ClickGenerate` | App.tsx:155-157 | the guarded button performs exactly `PressGenerate` |
| `AppComponent.App.ClickTag` | App.tsx:130 | the quick-tag button rewrites only the prompt, with `AppendTag` |
| `AppComponent.App.EditPrompt` | App.tsx:123 | typing replaces the prompt and nothing else |
| `AppComponent.App.PickRatio` | App.tsx:146 | a ratio button replaces the aspect ratio and nothing else |
| `AppComponent.App.PickCategory` | App.tsx:192 | a category button replaces the active category and nothing else |
| `AppComponent.App.EditQuery` | App.tsx:100 | typing in the search box replaces the query and nothing else |
| `AppComponent.App.ClearFilters` | App.tsx:221 | "Clear filters" empties the query and selects `'All'` |

## Left out

- Rendering is not modelled. This covers all JSX, the Tailwind classes,
  components/Layout.tsx and the `previewing` state that opens the preview
  modal. None of it has logic of its own.
- components/WallpaperCard.tsx and components/PreviewModal.tsx are not
  part of this model. Their tilt and parallax code is floating-point
  mouse geometry. Their downloads manipulate DOM anchors.
- The `GoogleGenAI` client is not modelled: its construction, the API key
  from the environment, the network call and `console.error`. The SDK's
  reply is a parameter of `GenerateWallpaper`. The reply's type holds
  the fields the code reads (`candidates`, `content`, `parts`,
  `inlineData`, `data`) and the part fields `mimeType` and `text`, which it
  never reads.
- Timing is not modelled: the 2000 ms period of `setInterval` and the
  clock behind `Date.now()`. Interval firings are events. The clock
  reading is a parameter. Browser-assigned interval ids are a counter.
- React's batching of state updates and the suspension at `await` are not
  modelled. Each handler half replaces the whole state in sequence. A
  `Resolved` event may carry any pending call, so `Run` covers more
  interleavings than a browser can produce.
- `Text.ToLower`: folds ASCII letters only. `toLowerCase` also folds
  non-ASCII letters, and Unicode case mapping is outside this model.
- The texts of the errors `generateWallpaper` throws are not modelled: the
  "No image data" message (services/geminiService.ts:40) and the rethrown
  SDK error. The one caller discards them and shows a fixed message
  (App.tsx:66-71). `console.error` is not modelled either.
- The `mimeType` and `text` fields of a reply part are carried but never
  read, as in the source.
