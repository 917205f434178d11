# html-rename, modelled in Dafny

A model of the Vite plugin `html-rename` (`src/index.ts`). After Vite writes
the bundle, the plugin goes through the build's input mapping, one entry
`[entryName, inputPath]` at a time. When an entry's source path ends in
`.html`, the plugin assumes that the page was emitted into the output
directory under the source's basename. If that file exists and its name is not already
`<entryName>.html`, the plugin renames it to `<entryName>.html` and logs
`Renamed <old> to <new>`.

The model has five modules:

- `Wrappers`: `Option`.
- `JsValues`: the JavaScript value shapes the plugin inspects.
  - It covers `undefined`, `null`, strings, plain objects, arrays and other values reduced to their truthiness.
  - It models `||` and `typeof … === "object"`.
  - It models `Object.entries`, where an array yields the keys `"0"`, `"1"`, … and the items as values.
- `Paths`: `endsWith` and `path.basename` on `/`-separated paths. A joined path is a pair `Join(dir, name)`.
- `HtmlRename`: the plugin itself.
  - Option normalisation (`NormalizeKeyMap`).
  - Input and output-directory precedence (`ResolveInput`, `ResolveOutDir`).
  - The per-entry rule (`RenameEntry`).
  - The pass over all entries, as a fold (`RenameAll`) and as a loop (`RenamePass`).
  - The whole `writeBundle` hook (`WriteBundle`).
  - The filesystem is a finite set of paths whose names are compared exactly, as on a case-sensitive filesystem. `existsSync` is set membership. `renameSync` removes the old path and adds the new one.
- `RenameProperties`: properties that relate several calls.
  - The hook touches no path whose directory part differs from the output directory. For the real filesystem this means nothing outside the output directory only when no entry name contains a `..` segment.
  - Every log line names a real rename.
  - On a case-sensitive filesystem, a pass is idempotent when no entry's emitted name is another entry's target, and there is a concrete input where it is not.
  - Explicit options take precedence over the host configuration.
  - It includes worked scenarios.

Two behaviours of the code are worth stating directly:

- The rename pass is not idempotent in general. With the mapping `{a: "b.html", b: "c.html"}`, the first pass renames `b.html` to `a.html` and then `c.html` to `b.html`. A second pass finds `b.html` again and moves it onto `a.html`, which overwrites it. `RenameProperties.SecondPassNotIdempotent` proves this case and `RenameProperties.ChainedEntriesSecondPass` proves the general form. `RenameProperties.WriteBundleIdempotentWhenChainFree` proves idempotence when no entry's emitted name is another entry's target, with file names compared as on a case-sensitive filesystem.
- The host's input need not be a keyed mapping:
  - When it is an array, it passes the object-type test, and its items are processed under the index keys `"0"`, `"1"`, … (`RenameProperties.ScenarioArrayHostInput`).
  - When it is a single string, it fails that test, so the hook does nothing (`RenameProperties.NonObjectHostInputIsNoOp`).

## Model

| member | source | states |
|---|---|---|
| JsValues.Decimal | src/index.ts:50-51 | The key `Object.entries` gives an array index is a non-empty digit string, and it has a leading `0` only for index 0 |
| JsValues.ParseDecimalOfDecimal | src/index.ts:50-51 | Reading an array index key back as a number gives the index: the key faithfully names its position |
| JsValues.DecimalInjective | src/index.ts:50-51 | Two array indices get the same key exactly when they are equal |
| JsValues.ArrayEntries | src/index.ts:49-51 | `Entries`, the model of `Object.entries`, yields one entry per item of an array input, in order. Each entry's source is the item and its name is the item's index. No two entries share a name |
| Paths.Basename | src/index.ts:54 | The basename holds no separator, and it is either the whole path or preceded in the path by a separator |
| Paths.BasenameIsSuffix | src/index.ts:54 | The basename is a suffix of the path, so with the contract above it is exactly the last segment |
| Paths.BasenameOfSnoc | src/index.ts:54 | Adding a character other than a separator to a path adds that character to the end of its basename |
| Paths.BasenameKeepsSuffix | src/index.ts:53-54 | A path ending in `.html` has a basename ending in `.html`, so an emitted page name keeps its extension |
| HtmlRename.NormalizeKeyMap | src/index.ts:28-37 | A string option `s` becomes `{s: "index.html"}`. An object or array is kept as it is. Anything else becomes `undefined`. The result is truthy exactly when it is a mapping |
| HtmlRename.ResolveInput | src/index.ts:46 | A normalised option wins over the host's `build.rollupOptions.input`, which is used only when the option normalised to `undefined` |
| HtmlRename.ResolveOutDir | src/index.ts:47 | The output directory is never empty. A non-empty `options.dir` wins, then a non-empty `build.outDir`, then `"dist"` |
| HtmlRename.RenameSize | src/index.ts:61 | A rename onto an existing file removes one file. A rename onto a fresh name keeps the count |
| HtmlRename.RenameEntry | src/index.ts:53-63 | A non-`.html` entry is a no-op. The files change exactly when the emitted file exists and its name differs from `<entry>.html`. Then the old path is gone, the new one is present, and one `Renamed old to new` line is logged |
| HtmlRename.RenameEntryFrame | src/index.ts:57-61 | One entry removes at most its emitted file and adds at most its target. Every other file stays |
| HtmlRename.TouchedPathsOfEntries | src/index.ts:57-58 | Every path a pass could remove or create lies in the output directory and is the emitted name or target of one of its `.html` entries |
| HtmlRename.RenameAll | src/index.ts:50-66 | Over all entries, the log keeps what was logged before and grows by at most one line per entry |
| HtmlRename.RenameAllNeverAddsFiles | src/index.ts:57-61 | A pass never increases the number of files, and it loses at most one file per entry |
| HtmlRename.RenameAllCreatesOnlyTargets | src/index.ts:58-61 | Every file present after a pass was there before or is the target of one of its entries |
| HtmlRename.RenameAllRemovesOnlySources | src/index.ts:57-61 | Every file gone after a pass is the emitted file of one of its entries |
| HtmlRename.RenameAllAppend | src/index.ts:50-66 | Entries are processed in order: a pass over `a + b` is the pass over `b` on what the pass over `a` left |
| HtmlRename.RenameAllStep | src/index.ts:50-66 | Extending the processed prefix by one entry applies that entry's rule to the prefix's result |
| HtmlRename.LogPerEntry | src/index.ts:60-62 | The i-th entry adds a log line exactly when it performs a rename, and that line names its old and new file |
| HtmlRename.WriteBundle | src/index.ts:45-67 | When the resolved input is not an object, the hook leaves the files alone and logs nothing |
| HtmlRename.RenamePass | src/index.ts:50-66 | The `forEach` loop computes the same files and log as the fold over the entries, with at most one line per entry |
| RenameProperties.WriteBundleStaysInOutDir | src/index.ts:57-61 | No path whose directory part differs from the resolved output directory is created or removed. For entry names without `..` segments, this means nothing outside the output directory is touched |
| RenameProperties.LogLinesNameEntries | src/index.ts:60-62 | Every logged line reports a `.html` entry's emitted name and its different target `<entry>.html`. Its printed form, `LogLine.Text`, is `Renamed <old> to <new>` |
| RenameProperties.NothingToRenameIsNoOp | src/index.ts:60 | When no entry that needs a rename finds its emitted file, a pass changes nothing and logs nothing |
| RenameProperties.ChainFreePassRemovesSources | src/index.ts:57-61 | After a pass whose targets never collide with emitted names, no entry that needed a rename finds its emitted file |
| RenameProperties.ChainFreePassIdempotent | src/index.ts:50-66 | A chain-free pass run again on the files it left changes nothing and logs nothing |
| RenameProperties.WriteBundleIdempotentWhenChainFree | src/index.ts:45-67 | A second `writeBundle` with a chain-free mapping keeps the files and logs nothing |
| RenameProperties.ChainedEntriesSecondPass | src/index.ts:50-66 | For any entries `{na: "<nb>.html", nb: fb}` with distinct names, processed in the order `na`, then `nb`, the mapping is not chain-free, and a second pass renames again, overwriting the first entry's target |
| RenameProperties.ChainedNames | src/index.ts:53-55 | In that mapping, the first entry is emitted as `<nb>.html` with target `<na>.html`, and the second is emitted as `fb` with target `<nb>.html` |
| RenameProperties.ChainedEntriesFirstPass | src/index.ts:50-66 | First pass of the chained case: both emitted files move, the second onto the name the first vacated |
| RenameProperties.ChainedFirstStep | src/index.ts:57-62 | First entry of the chained case: its file moves to its target |
| RenameProperties.ChainedSecondStep | src/index.ts:57-62 | Second entry of the chained case: its file moves onto the name the first entry vacated |
| RenameProperties.ChainedEntriesRerun | src/index.ts:50-66 | Second pass of the chained case: the first entry's rename overwrites its target, and the second entry finds nothing |
| RenameProperties.SecondPassNotIdempotent | src/index.ts:45-67 | With `{a: "b.html", b: "c.html"}`, the second `writeBundle` still renames `b.html` to `a.html` |
| RenameProperties.PlainHtmlSource | src/index.ts:53-54 | A bare `.html` file name as source is an `.html` entry emitted under that name |
| RenameProperties.BasenameOfPlainName | src/index.ts:54 | A name without a separator is its own basename |
| RenameProperties.TwoEntries | src/index.ts:50-66 | A pass over two entries is their two rules applied in order |
| RenameProperties.StringOptionIsIndexMapping | src/index.ts:29-32 | A string option behaves exactly as the mapping from that string to `index.html` |
| RenameProperties.ExplicitMappingIgnoresHostInput | src/index.ts:46 | With a string or object option, the host's input cannot affect the result |
| RenameProperties.HostInputUsedWithoutOption | src/index.ts:46 | Without a usable option, the host's input mapping acts exactly as if it had been given as the option. `HostInput` supplies that configured input to `ResolveInput` |
| RenameProperties.NonObjectHostInputIsNoOp | src/index.ts:49 | Without a usable option and with a non-object host input, such as a single string, nothing happens |
| RenameProperties.ScenarioStringOption | src/index.ts:29-32 | Option `"home"` renames `dist/index.html` to `dist/home.html` and logs it |
| RenameProperties.ScenarioNameAlreadyMatches | src/index.ts:60 | `{about: "src/about.html"}` leaves `dist/about.html` alone, because the names already match |
| RenameProperties.AboutIsEmittedUnderItsName | src/index.ts:54-55 | The entry `about` from `src/about.html` is emitted as `about.html`, which is its own target |
| RenameProperties.ScenarioNonHtmlSource | src/index.ts:53 | A `.htm` source changes nothing, whatever the files |
| RenameProperties.ScenarioHostInputAlreadyNamed | src/index.ts:46-47 | The host input `{main: "src/main.html"}` with `build.outDir` `"build"` leaves `build/main.html` alone |
| RenameProperties.ScenarioOptionOverridesHost | src/index.ts:46-47 | Under that configuration, the option `{entry: "src/main.html"}` wins and renames `build/main.html` to `build/entry.html` |
| RenameProperties.SrcMainBasename | src/index.ts:54 | The basename of `src/main.html` is `main.html` |
| RenameProperties.NestedHtmlSource | src/index.ts:53-54 | An `.html` file under a directory prefix is emitted under the file's own name |
| RenameProperties.ScenarioArrayHostInput | src/index.ts:49-51 | A host input array `["page.html"]` renames `dist/page.html` to `dist/0.html` |
| RenameProperties.EmittedFileRenamed | src/index.ts:57-62 | One entry with a bare `.html` source, present under a name other than its target, is renamed and logged |
| RenameProperties.OneEntry | src/index.ts:50-66 | A pass over one entry is that entry's rule |
| RenameProperties.BasenameAfterSlash | src/index.ts:54 | The basename of `dir/name` is `name` when `name` holds no separator |

## Left out

- `renameSync` failures are not modelled: permissions, a missing directory, or a rename across devices. In the code such an error is thrown out of `writeBundle` and stops the remaining entries. The model's rename always succeeds.
- Console output is not modelled as I/O. Each `console.log` is a `LogLine` record appended to the outcome. `LogLine.Text` gives the printed text.
- `path.join` normalisation (`..`, `.`, doubled separators) is not modelled. A joined path is the pair `Join(dir, name)`, so two joins are equal only when their parts are. With normalisation, distinct pairs could name the same file.
- Paths.Basename: it does not strip trailing separators, and it does not treat `\` as a separator as Windows does. Every source it is applied to ends in `.html`, so a trailing separator cannot occur there.
- `Object.entries` ordering is not modelled. A plain object is its sequence of entries in enumeration order. JavaScript places integer-like keys first, and the model does not reorder them.
- Non-string property values in the input mapping are not modelled. Every entry's value is a string, as the source's type annotation declares. With another value, `inputPath.endsWith` would throw.
- The `Plugin` object, the hook names and `configResolved` are not modelled. The configuration is an explicit `Option<HostConfig>` parameter, where `None` is the hook running before `configResolved`.
- A configuration without `build` is not modelled separately: `HostConfig` always carries an input and an output directory.
- The `bundle` argument of `writeBundle` is not modelled, because the code never reads it.
- Numbers, booleans, functions and symbols as option values are not modelled except for their truthiness. None of them is a string or object, so all of them normalise to `undefined`.
- A non-string `options.dir` or `build.outDir` is not modelled. Both are strings, and an empty one counts as unset, as `||` makes it.
- RenameProperties.WriteBundleStaysInOutDir: the pair model of `path.join` keeps every target inside the output directory. In the code, an entry name with a `..` segment escapes it: `path.join("dist", "../x.html")` is `x.html`, so the entry `{"../x": "a.html"}` renames `dist/a.html` to `x.html`. The lemma does not cover that case, because the model does not normalise paths.
- RenameProperties.WriteBundleIdempotentWhenChainFree: file names are compared exactly, as on a case-sensitive filesystem. On a case-insensitive one, the default on macOS and Windows, `{Home: "home.html"}` with `dist/home.html` present renames the file to `Home.html`, but `existsSync("dist/home.html")` still holds afterwards. Every later `writeBundle` then renames again and logs `Renamed home.html to Home.html`. The same applies to `RenameProperties.ChainFreePassIdempotent`.
- HtmlRename.RenameEntry: its "old path is gone" clause likewise assumes a case-sensitive filesystem. When the old and new names differ only in case, the old name still resolves to the renamed file on a case-insensitive one.
- HtmlRename.WriteBundle: its own contract covers only the no-op case. What happens when the input is an object is stated by the lemmas over `RenameAll` and in `RenameProperties`.
