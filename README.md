# metalsmith-webpack in Dafny

This project models `lib/metalsmith-webpack.js`, the Metalsmith plugin that
runs one webpack compiler inside a Metalsmith build. The factory normalises
the webpack options and merges the stats reporting options. It then creates a
compiler whose output file system lives in memory. Two compiler hooks finish
the job:

- the **"emit"** hook stores an asset manifest (`assets` and `assetsByType`)
  as `metadata.webpack`;
- the **"after-emit"** hook reads every emitted asset back from the memory
  file system, stages it under its destination-relative name and hands the
  staged set to Metalsmith's `write`.

Metalsmith calls the returned plugin function once per build. It passes the
input through when `entry` or `output.filename` is missing. Otherwise it
starts the compiler. When the run completes, it purges the input file system
and reports the build (once per new hash in text mode). It then answers with
the staged files merged with the incoming set.

The modules follow that structure:

| module | file | what it holds |
|---|---|---|
| `Assoc` | assoc.dfy | JavaScript plain objects as ordered association lists: property read, assignment, `Object.assign`-style folds, object spread and object literals |
| `JsValues` | jsvalues.dfy | option values, truthiness, member reads, own entries |
| `Paths` | paths.dfy | the parts of Node's `path` the plugin uses: `extname`, `resolve`, `relative` |
| `Options` | options.dfy | option normalisation (lines 11-19 and 121-129) and the stats option merge (lines 21-43) |
| `Manifest` | manifest.dfy | the `assets` and `assetsByType` reducers of the "emit" hook (lines 54-76) |
| `Harvesting` | harvest.dfy | the staging loop of the "after-emit" hook (lines 84-95) as a specification function |
| `Adapter` | adapter.dfy | the plugin's closure state as the class `Plugin`, with the hooks and the plugin function as methods |

The parts of the plugin written as expressions and `reduce` calls are
functions with lemmas about them. These are the option objects and the two
manifest reducers. The parts that update the closure variables (`options`,
`lastHash`, `_files`, `_metalsmith`) are methods of the class `Plugin`. The
`forEach` that fills `_files` is a `while` loop. Its invariant ties the staged
set to the `Harvest` specification function. The `metadata.webpack`
assignment updates the `Metalsmith` object in place.

Everything the plugin gets from webpack or Metalsmith arrives as a method
parameter:

- the chunk map of the stats;
- the compiled assets with `existsAt` and `emitted`;
- the memory file system, as a map from path to bytes;
- the run error and the build hash;
- the write error;
- the working directory;
- the `supports-color` result.

What the plugin prints, and the calls it makes into webpack and Metalsmith,
are appended to the field `log` as events. Console text is not modelled.

### Behaviour kept as written

Four behaviours of the code are easy to misread. The model keeps each one as
the code has it:

- **On a write error the "after-emit" continuation runs twice**, first with
  the error and then without it (lines 102-105). So webpack's `callback` for
  the hook gets the error and then a success. What webpack then passes to the
  `compiler.run` callback is outside this file; `Adapter.Plugin.RunComplete`
  models one call of it. `Adapter.Plugin.WriteDone` and
  `Adapter.Plugin.AfterEmit` state the two calls.
- **The final merge nests the incoming files.** `{..._files, files}` does not
  spread the incoming set. It adds a single key `"files"` whose value is the
  whole incoming set (lines 150-153). So no incoming file reaches the top
  level of the answer, and a staged file literally named `"files"` is
  replaced. `Adapter.MergeSpec` states this.
- **The quiet stats baseline** is used when `stats` is truthy and does *not*
  ask for JSON (line 31). So JSON mode never has a quiet baseline.
  `Options.BaselineSpec` and `Options.JsonModeIff` state this.
- **`purgeInputFileSystem` runs before the error check** (line 132). So a
  failed run purges the input file system too. `Adapter.Plugin.RunComplete`
  states this.

## Model

| member | source | states |
|---|---|---|
| Assoc.Lookup | lib/metalsmith-webpack.js:55 | an own-property read is undefined exactly when the key is absent, and otherwise returns a value stored under that key |
| Assoc.Set | lib/metalsmith-webpack.js:68 | a property assignment keeps the position of an existing key or appends a new one; the key then reads the new value, every other key reads as before, and no key is duplicated |
| Assoc.SetAllLookup | lib/metalsmith-webpack.js:58-61 | after a sequence of assignments, a key reads the last value assigned to it, or its old value when none was |
| Assoc.SpreadSpec | lib/metalsmith-webpack.js:62-65 | `{...a, ...b}` has no repeated key; its keys are those of `a` followed by the new keys of `b`; each key reads `b`'s value when `b` has one and `a`'s otherwise |
| Paths.Extname | lib/metalsmith-webpack.js:59 | the extension is empty or a suffix of the path that starts with its only dot and holds no '/' |
| Paths.ExtnameOfDotted | lib/metalsmith-webpack.js:59 | a name whose last segment has a non-empty stem followed by `.x`, with no dot or '/' in `x`, has the extension `.x` |
| Paths.ExtnameEmpty | lib/metalsmith-webpack.js:59 | the extension is empty exactly when the last segment has no dot past its first character |
| Paths.ExtnameOfKey | lib/metalsmith-webpack.js:59 | when the chunk name's last segment and the file's extension are both non-empty, appending the file's extension to the chunk name gives a key whose own extension is the file's (it fails otherwise: chunk "" with file "a.x" gives the key ".x", whose extension is empty) |
| Paths.Resolve | lib/metalsmith-webpack.js:13 | an absolute path is kept; a relative path is placed under the working directory; against an absolute working directory the result is absolute |
| Paths.Relative | lib/metalsmith-webpack.js:87 | a relative name is never absolute |
| Paths.RelativeUnder | lib/metalsmith-webpack.js:87 | a file below the destination directory is named by its segments below that directory |
| Options.ResolveOr | lib/metalsmith-webpack.js:13 | `path.resolve(v or cwd)` throws exactly when `v` is truthy and not a string; a falsy `v` gives the working directory; a non-empty string is resolved against the working directory, so an absolute one is kept; the result is always absolute |
| Options.NormalizeThrows | lib/metalsmith-webpack.js:11-19 | normalisation throws exactly when `context` is truthy and not a string, when `output` is undefined or null, or when `output.path` is truthy and not a string |
| Options.NormalizeSpec | lib/metalsmith-webpack.js:11-19 | normalised options have no repeated key, `context` equal to `path.resolve(context or cwd)`, an `output` whose `path` is `path.resolve(output.path or cwd)`, both absolute, and `watch` false; every other option and every other `output` field keeps its value; the three keys come after the existing ones when new |
| Options.NormalizeIdempotent | lib/metalsmith-webpack.js:121-129 | normalising normalised options again, in any absolute working directory, gives the same options |
| Options.NormalFormFixed | lib/metalsmith-webpack.js:121-129 | options in normal form are a fixed point of normalisation |
| Options.BaselineSpec | lib/metalsmith-webpack.js:21-38 | the stats baseline has the seven defaults; when `stats` is truthy without `json`, `cached` and `cachedAssets` are false and `exclude` lists the four dependency directories |
| Options.StatsOptionsSpec | lib/metalsmith-webpack.js:40-43 | every field of a user `stats` object overrides the baseline, and every other key keeps its baseline value |
| Options.JsonModeIff | lib/metalsmith-webpack.js:138 | JSON reporting is on exactly when the user's `stats` has a truthy `json`; then the baseline is never quiet |
| Manifest.AssetsFlat | lib/metalsmith-webpack.js:54-70 | the `assets` reducer equals one object literal of every `chunkName + extname(file) -> file` pair in visiting order |
| Manifest.AssetsOrderAndValues | lib/metalsmith-webpack.js:54-70 | `assets` has no repeated key; keys keep the position of their first assignment; each key holds the value of its last assignment |
| Manifest.AssetsSound | lib/metalsmith-webpack.js:54-70 | every entry of `assets` is `chunkName + extname(file) -> file` for a file of that chunk |
| Manifest.AssetsComplete | lib/metalsmith-webpack.js:54-70 | every file of every chunk has its key in `assets` |
| Manifest.ChunkAssetsSpec | lib/metalsmith-webpack.js:57-61 | an array chunk gives one key per distinct extension, holding the last file with that extension |
| Manifest.SingleChunkOneKey | lib/metalsmith-webpack.js:68 | a single-file chunk adds exactly one key, holding its file |
| Manifest.TypeOfAssetKey | lib/metalsmith-webpack.js:73 | when the chunk name's last segment and the file's extension are both non-empty, the type of a manifest key is its file's extension without the dot (chunk "vendor.min" with the file "LICENSE" gives the type "min") |
| Manifest.ByTypeLookup | lib/metalsmith-webpack.js:72-76 | each type's list holds the values of that type in reverse visiting order, and a type no asset has is absent |
| Manifest.ByTypeKeys | lib/metalsmith-webpack.js:72-76 | the types appear once each, in the order their first asset is visited |
| Manifest.ByTypeExactlyOnce | lib/metalsmith-webpack.js:72-76 | the lists of `assetsByType` together hold every value of `assets` exactly once, so their total length is the number of assets |
| Harvesting.HarvestIgnoresNotEmitted | lib/metalsmith-webpack.js:84-95 | assets not emitted in this run play no part in the harvest |
| Harvesting.HarvestFails | lib/metalsmith-webpack.js:89-90 | the harvest throws exactly when an emitted asset is missing from the memory file system, and at the first such asset |
| Harvesting.HarvestStopsAtFailure | lib/metalsmith-webpack.js:84-95 | once reading an asset has thrown, the later assets change nothing |
| Harvesting.HarvestStages | lib/metalsmith-webpack.js:84-95 | when every emitted asset is readable, the harvest assigns one staged file per emitted asset, in order |
| Harvesting.HarvestSpec | lib/metalsmith-webpack.js:84-95 | after a successful harvest, old names keep their positions and new names follow; each name holds the contents and path of the last emitted asset with that name, or its old value; every emitted asset's relative name is present; no name is repeated |
| Harvesting.StagedNameUnderDestination | lib/metalsmith-webpack.js:84-95 | after a successful harvest, an emitted asset written at `destination/rest` is present under the name made of the segments of `rest`, which is never absolute |
| Adapter.MergeSpec | lib/metalsmith-webpack.js:150-153 | the merged set keeps the staged names in place and adds "files" after them when new; "files" holds the whole incoming set, and every other name holds its staged file |
| Adapter.ReportOncePerHash | lib/metalsmith-webpack.js:138-148 | in text mode a build with the last reported hash prints nothing and a report remembers its hash; JSON mode reports every build and leaves the remembered hash alone |
| Adapter.Renormalize | lib/metalsmith-webpack.js:121-129 | re-normalising options in normal form never throws and returns them unchanged |
| Adapter.Create | lib/metalsmith-webpack.js:7-47 | the factory throws the normalisation error exactly when `Normalize` throws; after a successful normalisation it throws exactly when `webpack(options)` does, passing that error on; otherwise it gives a fresh plugin with the normalised options, the merged stats options, no remembered hash and no instance |
| Adapter.Plugin.constructor | lib/metalsmith-webpack.js:8-47 | a new plugin holds the given options, no staged file, no Metalsmith instance and no remembered hash |
| Adapter.Plugin.Invoke | lib/metalsmith-webpack.js:110-131 | the plugin answers `done(null, files)` at once and changes nothing exactly when `entry` or `output.filename` is falsy; otherwise it takes the instance, clears the staged files, keeps the options, prints the banner and starts the compiler |
| Adapter.Plugin.Prepare | lib/metalsmith-webpack.js:116-129 | the instance is taken, the staged files are cleared, the banner is printed and the options stay as they were |
| Adapter.Plugin.Emit | lib/metalsmith-webpack.js:49-81 | `metadata.webpack` is replaced by the manifest built from the chunk map, other metadata is kept, and the continuation is called once without an error |
| Adapter.Plugin.StageEmitted | lib/metalsmith-webpack.js:84-95 | the staged files become exactly what the `Harvest` specification gives, and a missing emitted asset is reported by its path |
| Adapter.Plugin.StageAsset | lib/metalsmith-webpack.js:85-94 | one iteration assigns an emitted, readable asset's file to `_files` under its destination-relative name, leaves `_files` alone for an asset not emitted, reports a missing emitted asset, and keeps keys distinct |
| Adapter.Plugin.WriteDone | lib/metalsmith-webpack.js:97-106 | every staged name is reported; the continuation is called once without an error on success, and twice on a write error, first with the error and then without |
| Adapter.Plugin.AfterEmit | lib/metalsmith-webpack.js:83-107 | the hook either throws at the first missing emitted asset, leaving the partly staged files, or stages every emitted asset, asks Metalsmith to write them and calls the continuation as `WriteDone` does |
| Adapter.Plugin.RunComplete | lib/metalsmith-webpack.js:131-156 | every completion purges first; a run error is passed on with no file set; otherwise the build is reported as `Report` says and the answer is the staged files merged with the incoming set |

## Left out

- Webpack itself is not modelled: `webpack(options)`, `compiler.run`, `compilation.getStats().toJson()`, `stats.toJson` and `stats.toString` are foreign calls. Their results (chunk map, compiled assets, hash, run error, and the error `webpack(options)` throws while building the compiler) are parameters.
- memory-fs and Metalsmith's `write`, `destination` and `metadata` are I/O. The file system is a map from path to bytes, and the write result is an optional error. The destination and the metadata are fields of the `Metalsmith` class.
- Console text, `chalk` colouring and `supports-color` detection are left out. Output is recorded as events, and the colour setting is a parameter.
- Node's `path` functions are simplified. `path.resolve` keeps an absolute path and otherwise prefixes the working directory, without removing "." or ".." segments, repeated separators or a trailing separator (Node gives "/out" for `path.resolve("/out/")`, the model keeps "/out/"). `path.relative` compares '/'-separated names. `path.extname` ignores the ".." corner case and a trailing separator: Node gives ".js" for `extname("a.js/")`, the model gives "". Webpack asset names never end in a separator.
- Spreading strings or arrays into an object, which would copy index keys, is left out. Only plain objects contribute entries to a spread.
- Options that are not an object, numbers other than integers, and NaN are left out.
- The engine's ordering of integer-like object keys is left out. Keys keep insertion order.
- The prototype chain is left out: objects have own keys only. Keys that name `Object.prototype` members (`"constructor"`, `"toString"`, `"valueOf"`, `"hasOwnProperty"` and the rest) and the key `"__proto__"` are not modelled. In JavaScript the read `reduced[ext] || []` at line 74 would find an inherited member for such a type, and an assignment to `"__proto__"` at lines 59, 68 and 91 creates no own key. Webpack chunk names and file extensions do not take these names in practice.
- Asynchrony is left out. The callbacks are sequential method calls in the order the host runs them: plugin function, emit, after-emit, write continuation, run completion.
- Adapter.Plugin.Invoke: the exception that re-normalisation would throw is not modelled, because normalised options are proved never to throw (`Adapter.Renormalize`).
- Adapter.Plugin.AfterEmit: after `readFileSync` throws, what webpack does with the exception is not modelled. The hook ends with the path that was missing.
