# webpack-extension-reloader: build-side change detection and injection

A Dafny model of the build-side core of the webpack plugin that reloads a
browser extension while it is being developed:

- **Chunk version tracking and reload classification** (`ExtensionReloader`,
  `extension_reloader.dfy`). The plugin instance keeps a table
  `chunkVersions` from chunk name to the hash last seen. It is empty at
  construction. `WhatChanged` records every chunk's hash in one pass and
  collects the chunks whose hash differs from the stored one. It then
  computes two flags: `contentOrBgChanged`, and `onlyPageChanged`, which is
  computed only when no background or content chunk changed. The `afterEmit`
  handler calls the change triggerer exactly when a flag is set, passing
  `onlyPageChanged`. The module also holds the merge of injected sources over
  the compilation's assets, and the webpack-version test
  `_isWebpackGToEV4` (`parseInt` of the text before the first `.`).
- **Middleware injection** (`MiddlewareInjector`, `middleware_injector.dfy`).
  A predicate decides which chunk names play a role. A loop over the chunks
  and their files builds a fresh map from each `.js` file of a matching
  chunk to the watcher source followed by the file's original source. A
  webpack `Source` is modelled as a sequence of pieces, and `ConcatSource`
  as the concatenation of those sequences.
- **Manifest entry resolution** (`Manifest`, `manifest.dfy`). `extractEntries`
  takes webpack's entry keys, the output `filename` and the parsed manifest.
  It returns the role entries, or one of its three errors.
- `Strings` (`strings.dfy`) holds the JavaScript string operations the above
  rely on: `String.prototype.replace` with a string pattern, which replaces
  only the first occurrence; `includes`; the `/\.js$/` test; `split(".")[0]`;
  and `parseInt(s, 10)`. `Typings` holds the chunk and role-entry values;
  `Wrappers` holds `Option` and `Result`.

A role entry is `null`, a single name or an array of names. The two
components match names against it differently, and the model keeps both
behaviours. The injector's `includes` on a string role is a substring test.
`_whatChanged` uses equality. `SubstringMatchQuirk` exhibits a chunk that
receives the watcher although its changes never raise a flag.

Where a uniform design would differ from the code, the model follows the
code. Roles are not normalised into sets of names: string roles are
compared as strings, as described above, and only the set-based
`ScopeOf` is stated on sets (`TriggerMatchesScope` proves the two agree).
The manifest errors are the code's own: a plain `Error` for a missing output
filename, and `TypeError`s for missing background scripts and for a
background script that names no entry.

## Model

| member | source | states |
|---|---|---|
| `ExtensionReloader.ExtensionReloaderImpl.constructor` | src/ExtensionReloader.ts:21-25 | a new plugin instance starts with an empty chunk-version table |
| `ExtensionReloader.ExtensionReloaderImpl.WhatChanged` | src/ExtensionReloader.ts:37-75 | the table afterwards is the old table with every chunk's hash recorded in list order; the flags are those of the chunks whose hash differed from the table just before each was recorded |
| `ExtensionReloader.ExtensionReloaderImpl.AfterEmit` | src/ExtensionReloader.ts:107-118 | the triggerer is called (or not) exactly as the reload scope of the changed chunks' names dictates, and the table is updated as by `_whatChanged` |
| `ExtensionReloader.SomeBgOrContent` | src/ExtensionReloader.ts:47-58 | true iff some changed chunk is the background or, by equality or array membership, a content script |
| `ExtensionReloader.SomePage` | src/ExtensionReloader.ts:60-72 | true iff some changed chunk is an extension page by equality or array membership |
| `ExtensionReloader.Classify` | src/ExtensionReloader.ts:47-74 | the two flags are never both set; `contentOrBgChanged` iff a changed name is the background or a content script; `onlyPageChanged` iff not that and a changed name is a page |
| `ExtensionReloader.TriggerArgument` | src/ExtensionReloader.ts:113-117 | the triggerer is called iff a flag is set, and its argument is `onlyPageChanged` |
| `ExtensionReloader.TriggerMatchesScope` | src/ExtensionReloader.ts:47-117 | the flags agree with the reload scope computed on the set of changed names: no call when neither a background, content nor page name changed; a full reload (`false`) when background or content changed; a page reload (`true`) otherwise |
| `ExtensionReloader.RecordedLastHash` | src/ExtensionReloader.ts:41-45 | after recording, a name holds the hash of the last chunk with that name |
| `ExtensionReloader.RecordedKeepsOthers` | src/ExtensionReloader.ts:41-45 | entries for names not among the chunks are unchanged (present or absent as before, same hash) |
| `ExtensionReloader.RecordedUniformHash` | src/ExtensionReloader.ts:41-45 | a name whose chunks all carry one hash is recorded with that hash |
| `ExtensionReloader.RecordedKeys` | src/ExtensionReloader.ts:41-45 | recording only adds names: the table afterwards holds exactly the old names and the chunks' names |
| `ExtensionReloader.ChangedChunks` | src/ExtensionReloader.ts:41-45 | the `filter` keeps a sub-list: no more chunks than given, each one of the given chunks |
| `ExtensionReloader.ChangedChunksMembers` | src/ExtensionReloader.ts:41-45 | a chunk is reported iff, at its position, its hash differs from the value stored just before (a later duplicate name compares with the earlier one's hash) |
| `ExtensionReloader.FirstCallAllChanged` | src/ExtensionReloader.ts:24-45 | on the empty table of a new instance every chunk (distinct names) is reported changed |
| `ExtensionReloader.FirstBuildSignalsFullReload` | src/ExtensionReloader.ts:24-117 | the first build after creation triggers a full reload whenever the background chunk is present |
| `ExtensionReloader.SecondCallUnchanged` | src/ExtensionReloader.ts:41-74 | calling `_whatChanged` again with the same (name, hash) list reports nothing, so both flags are false |
| `ExtensionReloader.OneRehashedChunk` | src/ExtensionReloader.ts:41-117 | when a rebuild changes exactly one chunk's hash, only that chunk is reported, and the triggerer is called as that chunk's role dictates |
| `ExtensionReloader.PrecedenceExample` | src/ExtensionReloader.ts:47-74 | a content chunk and a page chunk changing together give `contentOrBgChanged` and not `onlyPageChanged` |
| `ExtensionReloader.PageOnlyExample` | src/ExtensionReloader.ts:60-74 | a page chunk changing alone gives `onlyPageChanged` only |
| `ExtensionReloader.IsWebpackGToEV4` | src/ExtensionReloader.ts:27-35 | an absent or empty `version` gives false |
| `ExtensionReloader.WebpackMajorAtLeast4` | src/ExtensionReloader.ts:27-35 | for a version "M.rest", the test holds iff the number M is at least 4 (numerically, so "10.x" passes) |
| `ExtensionReloader.MergeAssets` | src/ExtensionReloader.ts:100-105 | the merged assets have the union of the keys; injected entries win; every other asset keeps its source |
| `ExtensionReloader.MergedAsset` | src/ExtensionReloader.ts:100-105 | after the merge an injected asset is the watcher followed by its old source, and any other asset, any non-`.js` file in particular, is unchanged |
| `ExtensionReloader.ReloadRolesAreInjected` | src/middleware/middleware-injector.ts:14-19 | every chunk whose change can raise a flag in `_whatChanged` also matches the injector's predicate |
| `ExtensionReloader.SubstringMatchQuirk` | src/middleware/middleware-injector.ts:17 | with a string `contentScript`, a chunk whose name is a substring of it gets the watcher, but its changes raise no flag |
| `MiddlewareInjector.InjectFiles` | src/middleware/middleware-injector.ts:24-30 | for one matching chunk, every `.js` file is set to the watcher followed by its original source, and every other accumulated entry is kept |
| `MiddlewareInjector.Inject` | src/middleware/middleware-injector.ts:21-33 | the result's keys are exactly the `.js` files of chunks that match a role; each maps to the watcher followed by that file's original asset, prepended once |
| `MiddlewareInjector.MatchBgOrContentOrPageRoles` | src/middleware/middleware-injector.ts:14-19 | a chunk matches iff its name is the background, a name of the content or page role, or a substring of a string content or page role |
| `MiddlewareInjector.RoleMatch` | src/middleware/middleware-injector.ts:16-17 | for one role, `name === role` or `role && role.includes(name)` holds iff the name is one of the role's names or a substring of a string role; `null` matches nothing |
| `MiddlewareInjector.IsScriptStem` | src/middleware/middleware-injector.ts:25 | a file passes `/\.js$/` iff it is some stem followed by ".js"; "x.js.map" never does |
| `MiddlewareInjector.Concat` | src/middleware/middleware-injector.ts:11-12 | `new ConcatSource(a, b)` holds exactly the pieces of `a` followed by those of `b` |
| `Manifest.FindBackgroundEntry` | src/utils/manifest.ts:37-41 | the result is the first entry key, in key order, that equals some background script with `toRemove` stripped; none iff no key does |
| `Manifest.FirstBackgroundEntryUnique` | src/utils/manifest.ts:37-41 | a key is the first to name a background script iff `find` returns it, so `find` has one possible answer |
| `Manifest.ToRemove` | src/utils/manifest.ts:34 | a filename without "[name]" is kept whole; otherwise only its first "[name]" is removed, and putting it back restores the filename |
| `Manifest.StripScriptName` | src/utils/manifest.ts:39 | a script named as an entry key followed by `toRemove` strips back to the key when the key does not contain `toRemove`'s first character |
| `Manifest.MatchingItems` | src/utils/manifest.ts:52-54 | every item kept is the entry key itself |
| `Manifest.EntriesForKey` | src/utils/manifest.ts:50-56 | every content entry produced for a key is that key |
| `Manifest.ContentEntries` | src/utils/manifest.ts:49-57 | every content entry is a webpack entry key |
| `Manifest.EntriesForKeyCount` | src/utils/manifest.ts:50-56 | for one key, there are as many entries as stripped content scripts across all blocks equal to it |
| `Manifest.ContentEntriesCount` | src/utils/manifest.ts:49-57 | with distinct keys, each key occurs as often as a stripped content script equals it; a non-key never occurs |
| `Manifest.ContentEntriesOrdered` | src/utils/manifest.ts:49-57 | the content entries are ordered by the position of their key among the entry keys |
| `Manifest.ExtractEntries` | src/utils/manifest.ts:9-63 | fails with the plain error iff the filename is absent or empty; with the "background scripts required" TypeError iff there are no `background.scripts`; with the "no background entry" TypeError iff no key names a background script or the first key that does is the empty string (`if (!bgWebpackEntry)` is a falsy test); on success the background is the first such key and is not empty, `contentScript` is null iff `content_scripts` is absent and otherwise the content entries, and `extensionPage` is null |
| `Manifest.RemoveFirstSuffixAfterPlaceholder` | src/utils/manifest.ts:34 | for "[name]" followed by a suffix, `toRemove` is that suffix |
| `Manifest.EmptyEntryKeyRejected` | src/utils/manifest.ts:43-45 | an empty entry key that names a background script is still rejected with the "no background entry" TypeError |
| `Manifest.NamedScriptsExample` | src/utils/manifest.ts:9-63 | with output "[name]" + suffix and scripts named key + suffix, the background and content keys are recovered exactly and the page is null |
| `Manifest.BundleNamingExample` | src/utils/manifest.ts:9-63 | with output "[name].bundle.js", background "background.bundle.js" and content "content.bundle.js", the entries are background "background", content ["content"], page null |
| `Strings.IndexOf` | src/utils/manifest.ts:34 | the first index at which the pattern occurs, and none iff it does not occur |
| `Strings.RemoveFirstInverse` | src/utils/manifest.ts:34 | `replace(pat, "")` removes exactly the first occurrence: putting `pat` back at that index gives the original; without an occurrence nothing changes |
| `Strings.ReplaceFirstKeepsLater` | src/utils/manifest.ts:53 | `replace` with a string pattern rewrites only the first occurrence: every later, non-overlapping occurrence survives, shifted by the change in length |
| `Strings.RemoveFirstSuffix` | src/utils/manifest.ts:39 | removing a pattern that ends a string and occurs nowhere earlier strips exactly that suffix |
| `Strings.RemoveFirstShortens` | src/utils/manifest.ts:53 | removal never lengthens a string, and changes it iff a non-empty pattern occurs |
| `Strings.ParseInt` | src/ExtensionReloader.ts:30 | `parseInt` yields a number iff, after leading white space and an optional sign, a digit follows |
| `Strings.ParseIntDecimal` | src/ExtensionReloader.ts:30 | `parseInt` reads back the decimal rendering of a natural number whatever non-digit text follows |
| `Strings.BeforeFirst` | src/ExtensionReloader.ts:29 | `split(".")[0]` is the longest prefix without a `.` |

## Left out

- Reading the manifest file and `JSON.parse`: the model takes the parsed manifest as a value, reduced to `background.scripts` and the `js` arrays of `content_scripts`.
- `Object.keys(webpackEntry)`: the entry keys are an input sequence in the order JavaScript gives them. Entries given as a string, an array or a function are not modelled.
- A content-script block without a `js` array (the code would throw on it) is not modelled; `js` is a required field.
- The choice in `_registerPlugin` between the `manifest` option (through `extractEntries`) and the static `entries` option (src/ExtensionReloader.ts:85-91) is configuration glue; the model takes the resolved entries as input.
- An output `filename` given as a function is not modelled; the filename is an optional string.
- Chunks without a name (`null` name) are not modelled; chunk names and hashes are strings.
- `middleware-source-builder.ts` (the lodash template, the raw watcher file and the polyfill): the watcher source is an opaque input to the injector.
- The internals of `Source`/`ConcatSource` from webpack-sources: sources are sequences of pieces, and `assets[file]` for a file that is not an asset is an `Undefined` piece.
- The change triggerer (the WebSocket server), the promise plumbing `.then(done).catch(done)`, and the runtime agent inside the extension: asynchronous networking and timers.
- `CompilerEventsFacade`, hook registration, lodash `merge` with the default options, and the `apply` gate on `mode`/`NODE_ENV` with its warning: host glue and environment access. `AfterEmit` models the emit handler up to the triggerer call.
- `ExtensionReloader.ExtensionReloaderImpl.WhatChanged`: the table is a map, while `_chunkVersions` is a plain object. A chunk named `__proto__` goes through the inherited accessor there: the string hash is never stored, the read yields `Object.prototype`, and that chunk is reported changed on every call. The model records it like any other name; names colliding with `Object.prototype` accessors are not modelled.
- `ExtensionReloader.RecordedLastHash`: does not hold in the code for a chunk named `__proto__`, which is never stored (see above).
- `ExtensionReloader.SecondCallUnchanged`: in the code a chunk named `__proto__` is reported again on the second call (see above).
- `ExtensionReloader.FirstCallAllChanged`: stated for chunk lists with distinct names; with a repeated name and an unchanged hash, the repeat is not reported.
- `ExtensionReloader.SecondCallUnchanged`: holds only when chunks sharing a name share a hash; a list repeating a name with two different hashes is reported changed on every call.
- `ExtensionReloader.IsWebpackGToEV4`: its own contract covers only the absent and empty version; `WebpackMajorAtLeast4` gives the rest for versions of the form "M.rest". Leading white space and signs are handled by `ParseInt`. The float precision of very long digit runs is not modelled; it cannot change a comparison with 4.
- `Manifest.ContentEntriesCount` and `Manifest.ContentEntriesOrdered`: stated for distinct entry keys, which `Object.keys` guarantees.
