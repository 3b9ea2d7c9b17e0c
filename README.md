# boom-router-react location core, modelled in Dafny

This project models the three pieces of `boom-router-react` that carry real invariants:

- **Path algebra** (`paths.dfy`, module `Paths`). These are the pure string helpers used when routing under a base path:
  - `transformToRelativePath` and `transformToAbsolutePath`, with the `~` escape marker;
  - `removeLeadingQuestionMark`;
  - the fail-safe `decodeEscapeSequences`.
- **Memory location provider** (`memory_location.dfy`, module `Memory`). `memoryLocation` is a closure over a current path, a history array and an event emitter.
  - Here the closure is a `MemoryLocation` object.
  - The history array is a separate `HistoryLog` object. The provider keeps one reference to it, so "the same array, new contents" can be stated.
  - Emitted `navigate` events go to an append-only log. Each event records the path and the history a listener would see when it fires.
- **Hash location provider** (`hash_location.dfy`, module `HashLocation`):
  - the module-level listener registry, which shares one global `hashchange` handler by reference counting;
  - the `/^#?\/?/` normalisation of the fragment;
  - `navigate`, which rewrites only the fragment of an abstract browser URL;
  - `hrefs`.

`wrappers.dfy` holds the `Option` type. It stands for `decodeURI` failing and for the `history` field being absent.

Source paths in the table are relative to the repository root.

## Model

| member | source | states |
|---|---|---|
| `Paths.TransformToRelativePath` | packages/boom-router-react/src/paths.js:9-12 | The result is never the empty string. |
| `Paths.Lower` | packages/boom-router-react/src/paths.js:10 | `toLowerCase` on ASCII: the length is kept and each character is lower-cased in place. |
| `Paths.EscapeBranchShape` | packages/boom-router-react/src/paths.js:10-11 | The result starts with `"~" + path` exactly when `lower(path)` starts with `lower(base)`, and in that case it is exactly `"~" + path`. This is the negated selector as written. |
| `Paths.RelativeStripBranch` | packages/boom-router-react/src/paths.js:11 | When the base is not a case-insensitive prefix, the result is `path` minus its first `len(base)` characters, or `"/"` when nothing is left. |
| `Paths.RelativeEscapeRoundTrip` | packages/boom-router-react/src/paths.js:10-23 | Whenever the `~` branch is taken, `transformToAbsolutePath` of the result against any base gives `path` back. |
| `Paths.LowerOfSameUpToCase` | packages/boom-router-react/src/paths.js:10 | Strings that differ only in ASCII letter case lower-case to the same string. |
| `Paths.BranchIgnoresCase` | packages/boom-router-react/src/paths.js:10 | Changing the letter case of `base` or `path` does not change which branch is taken. |
| `Paths.RelativeInvertsDocComment` | packages/boom-router-react/src/paths.js:3-11 | Against the doc comment: `("/app", "/app/users")` gives `"~/app/users"` and `("/app", "/other")` gives `"er"`. |
| `Paths.RelativeMarksCaseVariant` | packages/boom-router-react/src/paths.js:10 | The test ignores case: `("/App", "/app")` gives `"~/app"`. |
| `Paths.EmptyBaseMarksEverything` | packages/boom-router-react/src/paths.js:9-11 | With the default empty base, every path comes back as `"~" + path`, not unchanged. |
| `Paths.TransformToRelativePathIntended` | packages/boom-router-react/src/paths.js:2-3 | The documented behaviour: escape only paths outside the base. The result is never empty. |
| `Paths.IntendedRoundTrip` | packages/boom-router-react/src/paths.js:9-24 | For a path strictly inside the base, the result is the remainder after the base. Resolving it against the same base gives the path back, provided the remainder does not itself start with `~`. |
| `Paths.IntendedEscapeRoundTrip` | packages/boom-router-react/src/paths.js:3 | A path outside the base becomes `"~" + path`. Resolving it against any base gives the path back. |
| `Paths.IntendedBaseIsRoot` | packages/boom-router-react/src/paths.js:11 | The base itself maps to `"/"`, never to `""`. |
| `Paths.IntendedEmptyBaseIsIdentity` | packages/boom-router-react/src/paths.js:9 | With the default empty base, every path starting with `/` is returned unchanged. |
| `Paths.IntendedInsideExample` | packages/boom-router-react/src/paths.js:2-3 | `("/app", "/app/users")` and `("/APP", "/app/users")` both give `"/users"`. |
| `Paths.IntendedOutsideExample` | packages/boom-router-react/src/paths.js:3 | `("/app", "/other")` gives `"~/other"`. |
| `Paths.TransformToAbsolutePath` | packages/boom-router-react/src/paths.js:22-24 | A marked target loses exactly its marker. Otherwise the result is the base followed by the target. |
| `Paths.AbsoluteIgnoresBaseWhenMarked` | packages/boom-router-react/src/paths.js:23 | For a `~` target the base is ignored: any two bases give `to[1..]`. |
| `Paths.AbsoluteDefaultBaseIsIdentity` | packages/boom-router-react/src/paths.js:22-23 | With the default `base = ""`, an unmarked target is returned unchanged. |
| `Paths.AbsoluteExamples` | packages/boom-router-react/test/redirect.test.tsx:32-51 | Under base `/app`, `"/nested"` resolves to `"/app/nested"` and `"~/absolute"` to `"/absolute"`. |
| `Paths.RemoveLeadingQuestionMark` | packages/boom-router-react/src/paths.js:32-34 | If `str` starts with `?`, then `str == "?" + result`; otherwise the result is `str`. |
| `Paths.RemoveLeadingQuestionMarkOnce` | packages/boom-router-react/src/paths.js:33 | Removing undoes prefixing one `?`. Only one `?` goes: `"??a"` gives `"?a"`. |
| `Paths.DecodeEscapeSequences` | packages/boom-router-react/src/paths.js:43-50 | On decoder failure the input is returned unchanged; on success, the decoded string. |
| `Paths.DecodeNeverFails` | packages/boom-router-react/src/paths.js:44-49 | The result is always the input or the decoder's answer. Decoding a failed input again still gives the input. |
| `Memory.ReplacedLast` | packages/boom-router-react/src/memory-location.js:9 | `splice(len - 1, 1, p)` keeps the length and every entry but the last, which becomes `p`. On an empty array it yields `[p]`. |
| `Memory.NextHistory` | packages/boom-router-react/src/memory-location.js:7-13 | Without `record`: unchanged. With `record`: a push appends `p`, and a replace changes only the last entry to `p`. A recording log is never empty afterwards and ends in `p`. |
| `Memory.PushAllAppends` | packages/boom-router-react/src/memory-location.js:11 | Any run of non-replacing navigations makes the history the start followed by the targets, in order. |
| `Memory.HistoryLog.constructor` | packages/boom-router-react/src/memory-location.js:43 | The array starts as `[path]`. |
| `Memory.HistoryLog.Push` | packages/boom-router-react/src/memory-location.js:11 | Appends one entry in place. |
| `Memory.HistoryLog.SpliceLast` | packages/boom-router-react/src/memory-location.js:9 | Replaces the last entry in place. |
| `Memory.HistoryLog.Clear` | packages/boom-router-react/src/memory-location.js:32 | Empties the same array in place. |
| `Memory.MemoryLocation.constructor` | packages/boom-router-react/src/memory-location.js:37-44 | Defaults: path `"/"`, not static, not recording. Afterwards the history is `[path]`, `currentPath == path`, and no event has fired. |
| `Memory.MemoryLocation.Snapshot` | packages/boom-router-react/src/memory-location.js:53 | The hook's value is `currentPath`. `Navigate` and `Reset` both ensure that this field is unchanged. |
| `Memory.MemoryLocation.HasReset` | packages/boom-router-react/src/memory-location.js:57-65 | `reset` is offered exactly when `history` is, that is, exactly when recording. |
| `Memory.MemoryLocation.History` | packages/boom-router-react/src/memory-location.js:64 | The `history` field is present exactly when recording, and it is the provider's own log. |
| `Memory.MemoryLocation.RecordNavigation` | packages/boom-router-react/src/memory-location.js:7-13 | The history update is gated on `record`. |
| `Memory.MemoryLocation.Navigate` | packages/boom-router-react/src/memory-location.js:5-18 | Static: nothing changes and no event fires. Otherwise: the history follows `NextHistory`, the captured `path` becomes the target, exactly one event carrying the target and the updated history is appended, and `currentPath` is untouched. |
| `Memory.MemoryLocation.Reset` | packages/boom-router-react/src/memory-location.js:29-35 | Needs only `record`, whatever the log held. The same log ends holding exactly `[initialPath]`, with one event, and the captured `path` back at the initial path. On a static provider the log ends empty and nothing fires. |
| `Memory.MemoryLocation.NavigateIntended` | packages/boom-router-react/src/memory-location.js:15 | Corrected navigate: the same as `Navigate` (history, captured `path`, one event), and the snapshot also moves to the target. |
| `Memory.MemoryLocation.ResetIntended` | packages/boom-router-react/src/memory-location.js:29-35 | Reset on the corrected navigate: the history, the captured `path` and the snapshot all return to the initial path, and one event carrying `[initialPath]` is emitted. On a static provider the log ends empty and nothing fires. |
| `Memory.NavigateRun` | packages/boom-router-react/src/memory-location.js:11-16 | A run of non-replacing navigations on a live recording provider makes the history the old one followed by the targets, in order. It emits one event per call, carrying that call's target. |
| `Memory.RecordScenario` | packages/boom-router-react/test/memory-location.test.ts:60-85 | Two pushes give `["/test","/standalone","/location"]`, and two replaces restore it. As written, the snapshot stays `"/test"`. |
| `Memory.ResetScenario` | packages/boom-router-react/test/memory-location.test.ts:94-108 | After two navigations and a reset, the log held before is the same object and holds `["/initial"]`. |
| `Memory.NoRecordScenario` | packages/boom-router-react/test/memory-location.test.ts:87-92 | Without `record` there is no `history` and no `reset`, and the internal array stays `["/"]`. |
| `Memory.StaticScenario` | packages/boom-router-react/src/memory-location.js:46-48 | A static recording provider ignores navigation and emits nothing. Its reset leaves the log empty. |
| `Memory.StandaloneNavigateScenario` | packages/boom-router-react/test/memory-location.test.ts:36-46 | As written, after `navigate("/standalone")` the snapshot is still `"/"`, though one event was emitted. |
| `Memory.IntendedNavigateScenario` | packages/boom-router-react/test/memory-location.test.ts:110-130 | With the corrected navigate: push `/a`, replace with `/b`, giving history `["/test","/b"]` and snapshot `"/b"`. Reset brings the snapshot back to `"/test"`. |
| `HashLocation.Without` | packages/boom-router-react/src/use-hash-location.js:17 | Never longer than the input. Holds exactly the input's callbacks other than `c`. |
| `HashLocation.WithoutDistributes` | packages/boom-router-react/src/use-hash-location.js:17 | Filtering a concatenation filters each part, so the survivors keep their relative order. |
| `HashLocation.WithoutCounts` | packages/boom-router-react/src/use-hash-location.js:17 | Every occurrence of the callback goes. Every other callback keeps its number of occurrences. |
| `HashLocation.WithoutIdempotent` | packages/boom-router-react/src/use-hash-location.js:16-20 | Unsubscribing twice leaves the same list as once, so the same attachment state too. |
| `HashLocation.WithoutAbsent` | packages/boom-router-react/src/use-hash-location.js:17 | Filtering out a callback that is not listed changes nothing. |
| `HashLocation.HashListenerRegistry.constructor` | packages/boom-router-react/src/use-hash-location.js:4-6 | Starts with no listeners and no handler attached. |
| `HashLocation.HashListenerRegistry.Subscribe` | packages/boom-router-react/src/use-hash-location.js:12-14 | Appends the callback at the end. Attaches the handler exactly when the list became one long. Keeps "attached iff non-empty". |
| `HashLocation.HashListenerRegistry.CallUnsubscribe` | packages/boom-router-react/src/use-hash-location.js:16-20 | Removes every occurrence of its callback. Calls remove exactly when the list is left empty. Keeps "attached iff non-empty". |
| `HashLocation.HashListenerRegistry.HandleHashChange` | packages/boom-router-react/src/use-hash-location.js:9 | Invokes each listed callback once, in list order. |
| `HashLocation.SubscriptionScenario` | packages/boom-router-react/src/use-hash-location.js:12-21 | A double unsubscribe equals a single one. The other subscriber stays registered, the handler stays attached, and that subscriber alone is notified. |
| `HashLocation.StripHashPrefix` | packages/boom-router-react/src/use-hash-location.js:24 | Removes at most one leading `#` and then at most one `/`. |
| `HashLocation.CurrentHashLocation` | packages/boom-router-react/src/use-hash-location.js:24 | The location always starts with `/`. |
| `HashLocation.CurrentHashLocationExamples` | packages/boom-router-react/src/use-hash-location.js:24 | `#foo`, `#/foo` and `/foo` give `/foo`; `""` gives `/`; `#//foo` gives `//foo`. |
| `HashLocation.WrittenHash` | packages/boom-router-react/src/use-hash-location.js:38 | The written hash always starts with `#/`. |
| `HashLocation.ReadAfterWrite` | packages/boom-router-react/src/use-hash-location.js:24-38 | Reading back a written hash gives `"/" + strip(to)`. |
| `HashLocation.NavigateToCurrentIsStable` | packages/boom-router-react/src/use-hash-location.js:24-38 | Navigating to the location just read leaves that location unchanged. |
| `HashLocation.NavigateNormalisesTarget` | packages/boom-router-react/src/use-hash-location.js:38 | `foo`, `#foo`, `/foo` and `#/foo` all write `#/foo`. |
| `HashLocation.Hrefs` | packages/boom-router-react/src/use-hash-location.js:53 | The href is `#` followed by the argument, with no normalisation. |
| `HashLocation.HrefReadsBack` | packages/boom-router-react/src/use-hash-location.js:53 | An href built from a path starting with `/` reads back as that path. |
| `HashLocation.HashAfterSet` | packages/boom-router-react/src/use-hash-location.js:38 | The value the `location.hash` getter returns after a set: a `#...` value of length at least two reads back verbatim. |
| `HashLocation.Browser.SetHash` | packages/boom-router-react/src/use-hash-location.js:38 | A different fragment pushes one history entry and queues `hashchange`. The same fragment changes nothing. |
| `HashLocation.Browser.ReplaceState` | packages/boom-router-react/src/use-hash-location.js:30-32 | Rewrites the URL and state of the current entry. The history length is unchanged. |
| `HashLocation.Navigate` | packages/boom-router-react/src/use-hash-location.js:27-40 | Pathname and search are kept, the hash becomes `WrittenHash(to)`, and the state is the caller's. Reading back gives `"/" + strip(to)`. The history length grows by one exactly when the hash changed. |
| `HashLocation.RepeatedNavigateScenario` | packages/boom-router-react/src/use-hash-location.js:27-40 | Navigating twice to the same normalised target adds one entry, and the second call queues no event. |

## Findings

| source | as written | input that shows it | evidently intended | confidence | as-written member | corrected member |
|---|---|---|---|---|---|---|
| packages/boom-router-react/src/paths.js:10 | `isBasePartOfPath` is the negation of the prefix test, so `~` is added when the path starts with the base | `("/app", "/app/users")` gives `"~/app/users"`; `("/app", "/other")` gives `"er"` | strip the base when it is a prefix and mark paths outside it, as the doc comment at line 3 says | high (not executed) | `Paths.RelativeInvertsDocComment` | `Paths.IntendedRoundTrip` |
| packages/boom-router-react/src/memory-location.js:15 | navigate assigns its own captured parameter `path`; `currentPath`, read by the snapshot at line 53, is never written after line 42 | `memoryLocation()` then `navigate("/standalone")`: the snapshot stays `"/"` (the test at memory-location.test.ts:41-44 expects `"/standalone"`) | navigate updates `currentPath` | high (not executed) | `Memory.StandaloneNavigateScenario` | `Memory.IntendedNavigateScenario` |

## Notes on the source

- The doc comment of `transformToRelativePath` says paths outside the base are marked with `~`. The code marks paths inside the base. `TransformToRelativePath` follows the code. `TransformToRelativePathIntended` follows the comment.
- The memory provider's tests expect the hook's value to follow navigation. The code never updates the variable the hook reads. `Navigate` and `Reset` follow the code, so the snapshot provably stays at the initial path. `NavigateIntended` and `ResetIntended` also write `currentPath`.
- The comment in the hash provider's `navigate` says `replaceState` adds no extra entry. That holds for the `replaceState` call (`Browser.ReplaceState`). The assignment to `location.hash` that builds its URL argument is a fragment navigation ("navigate to a fragment" in the HTML Living Standard): when the fragment changes it pushes a new session history entry and queues `hashchange`. So `HashLocation.Navigate` states that the history length grows by one exactly when the hash changed, and stays the same otherwise.

## Left out

- React glue is not modelled: the `useSyncExternalStore` hooks, `useHashLocation` itself and the `ssrPath` server snapshot. They wrap a library that is not part of this model. The memory snapshot is the function `Snapshot`, and the hash location is `CurrentHashLocation` applied to the current hash.
- The emitter library `mitt` is not part of this model. The memory provider's `subscribe` (memory-location.js:21-26) is therefore left out. Emissions are the `events` log.
- The browser is abstract. `addEventListener`/`removeEventListener` become the `attached` flag and the `windowCalls` log. `location` becomes a `Url` record, and `history.length` and `history.state` become fields. There is no `hashchange` dispatch timing: events are queued asynchronously, and the model does not run `HandleHashChange` for them.
- The URL string `pathname + search + hash` passed to `replaceState` is modelled as the `Url` record with those three parts. Parsing it back is taken to give the same parts.
- The percent-encoding the `location.hash` setter applies to the fragment is not modelled.
- Callback bodies are not modelled. A callback that subscribes or unsubscribes during `handleHashChange` is outside the model. `invoked` records the calls.
- `decodeURI` is a parameter `string -> Option<string>`. Its UTF-8 and reserved-character rules are not modelled.
- `Paths.TransformToRelativePath`, `Paths.StripBase` and the other `Paths` members: JavaScript strings are sequences of UTF-16 code units, while the model's `string` is a sequence of Unicode code points. So `base.length` and `path.slice(base.length)` are counted in code points. A non-BMP character (an emoji, say) counts as one instead of two, and a slice that splits a surrogate pair, leaving a lone surrogate, is not modelled.
- `toLowerCase` is ASCII-only. Unicode case mappings, including ones that change the string length, are not modelled.
- The return values of the memory `navigate` (`null` when static, `undefined` otherwise) are not modelled.
- Route matching, nesting and rendering are not part of the core and are not modelled.
