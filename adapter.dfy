/** The Metalsmith plugin built around one webpack compiler: the factory that
    normalises the options, the "emit" and "after-emit" compiler hooks, the
    plugin function Metalsmith calls, and the continuation of `compiler.run`.

    The closure variables of the factory (`options`, `outputOptions`,
    `lastHash`, `_files`, `_metalsmith`) become the fields of `Plugin`;
    console output and the calls into webpack and Metalsmith become events
    appended to `log`.  What webpack reports back (the stats, the compiled
    assets, the in-memory output file system, the errors) arrives as
    parameters of the methods modelling the hooks.
 */
module Adapter {
  import opened Assoc
  import opened JsValues
  import opened Paths
  import opened Options
  import opened Manifest
  import opened Harvesting

  /** A value of Metalsmith's global metadata. */
  datatype MetaValue =
    | Webpack(assets: Assoc<string>, assetsByType: Assoc<seq<string>>)
    | Data(value: JsValue)

  /** The Metalsmith instance the plugin runs under: its metadata object,
      which the "emit" hook updates in place, and its destination directory. */
  class Metalsmith {
    var metadata: Assoc<MetaValue>
    const destination: string

    constructor (destination: string, metadata: Assoc<MetaValue>)
      ensures this.destination == destination && this.metadata == metadata
    {
      this.destination := destination;
      this.metadata := metadata;
    }
  }

  /** An error handed to a callback by webpack or by Metalsmith's `write`. */
  datatype Error = Error(message: string)

  /** What the plugin prints and the foreign calls it makes, in order. */
  datatype Event =
    | Starting                          // the banner of line 119
    | CompileStarted                    // `compiler.run` (line 131)
    | Purged                            // `compiler.purgeInputFileSystem()` (line 132)
    | StatsJson                         // the JSON report of lines 139-141
    | StatsReport(hash: string)         // the text report of lines 144-147
    | WriteRequested(files: FileSet)    // `_metalsmith.write(_files, ...)` (line 97)
    | WritingReported(names: seq<string>) // one "writing" line per staged name (lines 98-101)

  /** A call of a continuation: `done(err)`, `done(null, files)`, `callback(err)`, `callback()`. */
  datatype Done = Done(error: Option<Error>, files: Option<FileSet>)

  /** What calling the plugin function does at once: answer straight away, or
      start the compiler and answer later from `RunComplete`. */
  datatype Invoked = Skipped(done: Done) | Running

  /** How the "after-emit" hook ends: the continuations it calls, or the
      exception `readFileSync` throws for an emitted asset that is not there. */
  datatype HookOutcome = Continued(calls: seq<Option<Error>>) | HookThrew(path: string)

  /** The factory returns the plugin, throws while normalising, or passes on
      what `webpack(options)` throws while building the compiler. */
  datatype Created =
    | Created(plugin: Plugin)
    | CreateThrew(error: OptionsError)
    | CompilerThrew(cause: Error)

  /** Line 112: the plugin only compiles when `entry` and `output.filename` are truthy. */
  predicate Enabled(options: Assoc<JsValue>)
  {
    var output := Lookup(options, "output");
    Truthy(Lookup(options, "entry")) && output.Some? && Truthy(Member(output.value, "filename"))
  }

  /** Lines 150-153: `{..._files, files}` puts the incoming file set under the
      single key "files" next to the staged files. */
  function Merge(staged: FileSet, incoming: FileSet): FileSet
  {
    Spread(staged, [("files", Files(incoming))])
  }

  /** The merged set keeps every staged name in place and adds "files" after
      them when new; "files" holds the whole incoming set, every other name
      its staged file, and no incoming name appears at the top level unless
      it was staged too. */
  lemma MergeSpec(staged: FileSet, incoming: FileSet, name: string)
    requires Distinct(Keys(staged))
    ensures Keys(Merge(staged, incoming)) ==
      if "files" in Keys(staged) then Keys(staged) else Keys(staged) + ["files"]
    ensures Lookup(Merge(staged, incoming), name) ==
      if name == "files" then Some(Files(incoming)) else Lookup(staged, name)
    ensures Distinct(Keys(Merge(staged, incoming)))
  {
    var entry: FileSet := [("files", Files(incoming))];
    SpreadOfDistinct(staged, entry);
    assert entry[..0] == [];
    assert Merge(staged, incoming) == Set(staged, "files", Files(incoming));
  }

  /** The reporting step of lines 138-148 and the hash it remembers. */
  datatype Reported = Reported(events: seq<Event>, lastHash: Option<string>)

  function Report(outputOptions: Assoc<JsValue>, lastHash: Option<string>, hash: string): Reported
  {
    if JsonMode(outputOptions) then Reported([StatsJson], lastHash)
    else if Some(hash) != lastHash then Reported([StatsReport(hash)], Some(hash))
    else Reported([], lastHash)
  }

  /** In text mode a build whose hash equals the last reported one prints
      nothing, and after any report the hash is remembered; JSON mode reports
      every build and never touches the remembered hash. */
  lemma ReportOncePerHash(outputOptions: Assoc<JsValue>, lastHash: Option<string>, hash: string)
    ensures var first := Report(outputOptions, lastHash, hash);
      && (JsonMode(outputOptions) ==> first.events == [StatsJson] && first.lastHash == lastHash)
      && (!JsonMode(outputOptions) ==>
            first.lastHash == Some(hash)
            && (first.events == [] <==> lastHash == Some(hash))
            && Report(outputOptions, first.lastHash, hash).events == [])
  {
  }

  class Plugin {
    /** The normalised webpack options; normalised again on every invocation. */
    var options: Assoc<JsValue>
    /** The merged stats reporting options (lines 21-43). */
    const outputOptions: Assoc<JsValue>
    /** The hash of the last build reported in text mode (`null` at first). */
    var lastHash: Option<string>
    /** `_files`: the files harvested from the output file system this run. */
    var files: FileSet
    /** `_metalsmith`: the instance of the current invocation. */
    var metalsmith: Metalsmith?
    var log: seq<Event>

    ghost predicate Valid()
      reads this
    {
      NormalForm(options) && Distinct(Keys(files))
    }

    constructor (options: Assoc<JsValue>, outputOptions: Assoc<JsValue>)
      requires NormalForm(options)
      ensures Valid()
      ensures this.options == options && this.outputOptions == outputOptions
      ensures lastHash == None && files == [] && metalsmith == null && log == []
    {
      this.options := options;
      this.outputOptions := outputOptions;
      this.lastHash := None;
      this.files := [];
      this.metalsmith := null;
      this.log := [];
    }

    /** Lines 110-114 and 131: the plugin function.  When the gate is closed it
        answers `done(null, files)` at once and touches nothing; otherwise it
        prepares the run and starts the compiler, answering later from
        `RunComplete`. */
    method Invoke(incoming: FileSet, ms: Metalsmith, cwd: string) returns (r: Invoked)
      requires Valid()
      modifies this
      ensures Valid()
      ensures r.Skipped? <==> !Enabled(old(options))
      ensures r.Skipped? ==> r.done == Done(None, Some(incoming)) && unchanged(this)
      ensures r.Running? ==>
        && metalsmith == ms && files == []
        && options == old(options) && lastHash == old(lastHash)
        && log == old(log) + [Starting, CompileStarted]
    {
      if !Enabled(options) {
        return Skipped(Done(None, Some(incoming)));
      }
      Prepare(ms, cwd);
      log := log + [CompileStarted];
      r := Running;
    }

    /** Lines 116-129: take the Metalsmith instance, clear the staged files,
        print the banner and normalise the options again, which never throws
        and changes nothing. */
    method Prepare(ms: Metalsmith, cwd: string)
      requires Valid()
      modifies this`metalsmith, this`files, this`log, this`options
      ensures Valid()
      ensures metalsmith == ms && files == [] && options == old(options)
      ensures log == old(log) + [Starting]
    {
      metalsmith := ms;
      files := [];
      log := log + [Starting];
      options := Renormalize(options, cwd);
    }

    /** Lines 49-81: the "emit" hook stores the asset manifest of this
        build as `metadata.webpack` and continues. */
    method Emit(assetsByChunkName: ChunkMap) returns (calls: seq<Option<Error>>)
      requires metalsmith != null
      modifies metalsmith
      ensures metalsmith.metadata ==
        Set(old(metalsmith.metadata), "webpack", Webpack(Assets(assetsByChunkName), ByType(Assets(assetsByChunkName))))
      ensures Lookup(metalsmith.metadata, "webpack") ==
        Some(Webpack(Assets(assetsByChunkName), ByType(Assets(assetsByChunkName))))
      ensures calls == [None]
    {
      var assets := Assets(assetsByChunkName);
      var assetsByType := ByType(assets);
      metalsmith.metadata := Set(metalsmith.metadata, "webpack", Webpack(assets, assetsByType));
      calls := [None];
    }

    /** Lines 84-95: stage every emitted asset under its destination-relative
        name, stopping at the first one the output file system does not have
        (where `readFileSync` throws). */
    method StageEmitted(assets: seq<CompiledAsset>, fs: MemoryFs) returns (missing: Option<string>)
      requires Valid() && metalsmith != null
      modifies this`files
      ensures Valid()
      ensures var h := Harvest(old(files), assets, fs, metalsmith.destination);
        && files == h.files
        && (missing.Some? <==> h.ReadFailed?)
        && (h.ReadFailed? ==> missing == Some(h.path))
    {
      var destination := metalsmith.destination;
      ghost var start := files;
      var i := 0;
      while i < |assets|
        invariant 0 <= i <= |assets|
        invariant Harvest(start, assets[..i], fs, destination) == Staged(files)
        invariant Distinct(Keys(files))
      {
        HarvestPrefixStep(start, assets, fs, destination, i);
        var readable := StageAsset(assets[i], fs, destination);
        if !readable {
          HarvestStopsAtFailure(start, assets, fs, destination, i + 1);
          return Some(assets[i].existsAt);
        }
        i := i + 1;
      }
      assert assets[..i] == assets;
      missing := None;
    }

    /** Lines 85-94 for one asset: an emitted asset is read and assigned to
        `_files` under its destination-relative name; `false` when
        `readFileSync` throws because the file is not there. */
    method StageAsset(asset: CompiledAsset, fs: MemoryFs, destination: string) returns (readable: bool)
      requires Distinct(Keys(files))
      modifies this`files
      ensures Distinct(Keys(files))
      ensures HarvestStep(Staged(old(files)), asset, fs, destination)
        == if readable then Staged(files) else ReadFailed(asset.existsAt, files)
    {
      if asset.emitted {
        if asset.existsAt !in fs {
          return false;
        }
        var name := Relative(destination, asset.existsAt);
        files := Set(files, name, StagedFile(fs, asset.existsAt));
      }
      readable := true;
    }

    /** Lines 97-106: the continuation of `_metalsmith.write`.  It reports
        every staged name and calls `callback`: once without an error, or,
        when the write failed, first with the error and then once more
        without one. */
    method WriteDone(writeError: Option<Error>) returns (calls: seq<Option<Error>>)
      modifies this`log
      ensures log == old(log) + [WritingReported(Keys(files))]
      ensures |calls| == (if writeError.Some? then 2 else 1)
      ensures calls[0] == writeError && calls[|calls| - 1] == None
    {
      log := log + [WritingReported(Keys(files))];
      calls := [];
      if writeError.Some? {
        calls := calls + [writeError];
      }
      calls := calls + [None];
    }

    /** Lines 83-107: the "after-emit" hook stages the emitted assets and
        hands the staged files to Metalsmith's `write`, whose continuation
        `WriteDone` is. */
    method AfterEmit(assets: seq<CompiledAsset>, fs: MemoryFs, writeError: Option<Error>) returns (outcome: HookOutcome)
      requires Valid() && metalsmith != null
      modifies this`files, this`log
      ensures Valid()
      ensures var h := Harvest(old(files), assets, fs, metalsmith.destination);
        && files == h.files
        && (h.ReadFailed? ==> outcome == HookThrew(h.path) && log == old(log))
        && (h.Staged? ==>
              && log == old(log) + [WriteRequested(files), WritingReported(Keys(files))]
              && outcome.Continued?
              && |outcome.calls| == (if writeError.Some? then 2 else 1)
              && outcome.calls[0] == writeError
              && outcome.calls[|outcome.calls| - 1] == None)
    {
      var missing := StageEmitted(assets, fs);
      if missing.Some? {
        return HookThrew(missing.value);
      }
      log := log + [WriteRequested(files)];
      var calls := WriteDone(writeError);
      outcome := Continued(calls);
    }

    /** Lines 131-156: the continuation of `compiler.run`.  It purges the
        input file system, passes a run error on, otherwise reports the build
        and answers with the staged files merged with the incoming set. */
    method RunComplete(incoming: FileSet, runError: Option<Error>, hash: string) returns (done: Done)
      requires Valid()
      modifies this`log, this`lastHash
      ensures Valid()
      ensures runError.Some? ==>
        done == Done(runError, None) && log == old(log) + [Purged] && lastHash == old(lastHash)
      ensures runError.None? ==>
        var report := Report(outputOptions, old(lastHash), hash);
        && log == old(log) + [Purged] + report.events
        && lastHash == report.lastHash
        && done == Done(None, Some(Merge(files, incoming)))
    {
      log := log + [Purged];
      if runError.Some? {
        return Done(runError, None);
      }
      if JsonMode(outputOptions) {
        log := log + [StatsJson];
      } else if Some(hash) != lastHash {
        lastHash := Some(hash);
        log := log + [StatsReport(hash)];
      }
      done := Done(None, Some(Merge(files, incoming)));
    }
  }

  /** Lines 121-129: normalising options already in normal form never throws
      and gives them back unchanged, whatever the working directory. */
  method Renormalize(options: Assoc<JsValue>, cwd: string) returns (r: Assoc<JsValue>)
    requires NormalForm(options)
    ensures r == options
  {
    var n := Normalize(options, cwd);
    NormalFormFixed(options, cwd);
    r := n.options;
  }

  /** Lines 7-47: the factory normalises the options against the working
      directory (throwing as the object literal would), merges the stats
      options from the normalised ones and builds the compiler.  What
      `webpack(options)` throws (line 45) arrives as `compilerError`. */
  method Create(options: Assoc<JsValue>, cwd: string, supportsColor: JsValue, compilerError: Option<Error>) returns (r: Created)
    requires Distinct(Keys(options)) && IsAbsolute(cwd)
    ensures r.CreateThrew? <==> Normalize(options, cwd).Threw?
    ensures r.CreateThrew? ==> r.error == Normalize(options, cwd).error
    ensures r.CompilerThrew? <==> Normalize(options, cwd).Normalized? && compilerError.Some?
    ensures r.CompilerThrew? ==> Some(r.cause) == compilerError
    ensures r.Created? ==>
      && fresh(r.plugin) && r.plugin.Valid()
      && r.plugin.options == Normalize(options, cwd).options
      && r.plugin.outputOptions == StatsOptions(r.plugin.options, supportsColor)
      && r.plugin.lastHash == None && r.plugin.metalsmith == null && r.plugin.log == []
  {
    var n := Normalize(options, cwd);
    if n.Threw? {
      return CreateThrew(n.error);
    }
    var outputOptions := StatsOptions(n.options, supportsColor);
    if compilerError.Some? {
      return CompilerThrew(compilerError.value);
    }
    NormalizeSpec(options, cwd);
    var p := new Plugin(n.options, outputOptions);
    r := Created(p);
  }
}
