/** The adapter's configuration handling: normalising the webpack options
    (made once at construction and again on every invocation) and merging the
    stats reporting options.
 */
module Options {
  import opened Assoc
  import opened Paths
  import opened JsValues

  /** Why building the normalised options object throws a TypeError. */
  datatype OptionsError =
    | ContextNotString      // a truthy `context` that `path.resolve` rejects
    | OutputMissing         // `options.output` is undefined or null, so `.path` cannot be read
    | OutputPathNotString   // a truthy `output.path` that `path.resolve` rejects

  datatype Normalized = Normalized(options: Assoc<JsValue>) | Threw(error: OptionsError)

  /** `path.resolve(v || process.cwd())`; `None` when `path.resolve` throws
      because the truthy argument is not a string. */
  function ResolveOr(v: Option<JsValue>, cwd: string): (r: Option<string>)
    ensures r.None? <==> Truthy(v) && !v.value.Str?
    ensures IsAbsolute(cwd) && r.Some? ==> IsAbsolute(r.value)
    ensures IsAbsolute(cwd) && !Truthy(v) ==> r == Some(cwd)
    ensures forall p :: v == Some(Str(p)) && p != "" ==> r == Some(Resolve(cwd, p))
    ensures forall p :: v == Some(Str(p)) && IsAbsolute(p) ==> r == Some(p)
  {
    if Truthy(v) then
      if v.value.Str? then Some(Resolve(cwd, v.value.s)) else None
    else Some(Resolve(cwd, cwd))
  }

  /** The object literal `{...options, context, output: {...options.output, path}, watch: false}`,
      evaluated left to right against the working directory `cwd`. */
  function Normalize(options: Assoc<JsValue>, cwd: string): Normalized
  {
    var context := ResolveOr(Lookup(options, "context"), cwd);
    if context.None? then Threw(ContextNotString)
    else
      var output := Lookup(options, "output");
      if output.None? || output.value.Null? then Threw(OutputMissing)
      else
        var path := ResolveOr(Member(output.value, "path"), cwd);
        if path.None? then Threw(OutputPathNotString)
        else Normalized(Spread(options, Added(context.value, Spread(OwnEntries(output), [("path", Str(path.value))]))))
  }

  /** The three properties normalisation writes over the user's options. */
  function Added(context: string, output: Assoc<JsValue>): Assoc<JsValue>
  {
    [("context", Str(context)), ("output", Obj(output)), ("watch", Bool(false))]
  }

  lemma AddedLast(context: string, output: Assoc<JsValue>, k: string)
    ensures LastValue(Added(context, output), k) ==
      if k == "watch" then Some(Bool(false))
      else if k == "output" then Some(Obj(output))
      else if k == "context" then Some(Str(context))
      else None
    ensures Keys(Added(context, output)) == ["context", "output", "watch"]
  {
    var a := Added(context, output);
    LastValueSnoc(a[..2], a[2], k);
    assert a[..2] + [a[2]] == a;
    LastValueSnoc(a[..1], a[1], k);
    assert a[..1] + [a[1]] == a[..2];
    LastValueSnoc(a[..0], a[0], k);
    assert a[..0] + [a[0]] == a[..1];
  }

  /** The shape normalisation establishes: absolute `context` and `output.path`,
      `watch` off, and no key listed twice. */
  ghost predicate NormalForm(o: Assoc<JsValue>)
  {
    && Distinct(Keys(o))
    && AbsolutePath(Lookup(o, "context"))
    && NormalOutput(Lookup(o, "output"))
    && Lookup(o, "watch") == Some(Bool(false))
  }

  /** An absolute path string. */
  ghost predicate AbsolutePath(v: Option<JsValue>)
  {
    v.Some? && v.value.Str? && IsAbsolute(v.value.s)
  }

  /** An `output` object without repeated keys whose `path` is absolute. */
  ghost predicate NormalOutput(v: Option<JsValue>)
  {
    v.Some? && v.value.Obj? && Distinct(Keys(v.value.fields)) && AbsolutePath(Lookup(v.value.fields, "path"))
  }

  /** Normalisation throws exactly when a truthy `context` is not a string,
      when `output` is undefined or null, or when a truthy `output.path` is not a string. */
  lemma NormalizeThrows(options: Assoc<JsValue>, cwd: string)
    ensures Normalize(options, cwd).Threw? <==>
      || (Truthy(Lookup(options, "context")) && !Lookup(options, "context").value.Str?)
      || Lookup(options, "output") in {None, Some(Null)}
      || (var path := Member(Lookup(options, "output").value, "path");
          Truthy(path) && !path.value.Str?)
  {
  }

  /** `{...output, path}`: the user's output fields with `path` set last. */
  lemma OutputSpec(output: Option<JsValue>, path: string)
    ensures var out := Spread(OwnEntries(output), [("path", Str(path))]);
      && Distinct(Keys(out))
      && Lookup(out, "path") == Some(Str(path))
      && (forall k :: k != "path" ==> Lookup(out, k) == LastValue(OwnEntries(output), k))
  {
    var pathEntry: Assoc<JsValue> := [("path", Str(path))];
    assert pathEntry[..0] == [];
    SpreadSpec(OwnEntries(output), pathEntry, "path");
    forall k | k != "path"
      ensures Lookup(Spread(OwnEntries(output), pathEntry), k) == LastValue(OwnEntries(output), k)
    {
      SpreadSpec(OwnEntries(output), pathEntry, k);
    }
  }

  /** Spreading the three added properties over options without repeated keys. */
  lemma SpreadAddedSpec(options: Assoc<JsValue>, context: string, out: Assoc<JsValue>)
    requires Distinct(Keys(options))
    ensures var r := Spread(options, Added(context, out));
      && Distinct(Keys(r))
      && Keys(r) == AppendNew(Keys(options), ["context", "output", "watch"])
      && Lookup(r, "context") == Some(Str(context))
      && Lookup(r, "output") == Some(Obj(out))
      && Lookup(r, "watch") == Some(Bool(false))
      && (forall k :: k != "context" && k != "output" && k != "watch" ==> Lookup(r, k) == Lookup(options, k))
  {
    var added := Added(context, out);
    SpreadOfDistinct(options, added);
    SetAllDistinct(options, added);
    SetAllKeys(options, added);
    AddedLast(context, out, "");
    forall k | k != "context" && k != "output" && k != "watch"
      ensures Lookup(SetAll(options, added), k) == Lookup(options, k)
    {
      SetAllLookup(options, added, k);
      AddedLast(context, out, k);
    }
    SetAllLookup(options, added, "context");
    AddedLast(context, out, "context");
    SetAllLookup(options, added, "output");
    AddedLast(context, out, "output");
    SetAllLookup(options, added, "watch");
    AddedLast(context, out, "watch");
  }

  /** A successful normalisation puts the options in normal form, keeps every
      other key with its value, keeps every other field of `output`, and adds
      `context`, `output` and `watch` after the existing keys when absent. */
  lemma NormalizeSpec(options: Assoc<JsValue>, cwd: string)
    requires Distinct(Keys(options))
    requires IsAbsolute(cwd)
    requires Normalize(options, cwd).Normalized?
    ensures var r := Normalize(options, cwd).options;
      && NormalForm(r)
      && Lookup(r, "context") == Some(Str(ResolveOr(Lookup(options, "context"), cwd).value))
      && (forall out :: Lookup(r, "output") == Some(Obj(out)) ==>
            Lookup(out, "path") == Some(Str(ResolveOr(Member(Lookup(options, "output").value, "path"), cwd).value)))
      && Keys(r) == AppendNew(Keys(options), ["context", "output", "watch"])
      && (forall k :: k != "context" && k != "output" && k != "watch" ==> Lookup(r, k) == Lookup(options, k))
      && (forall out, k :: Lookup(r, "output") == Some(Obj(out)) && k != "path" ==>
            Lookup(out, k) == LastValue(OwnEntries(Lookup(options, "output")), k))
  {
    var context := ResolveOr(Lookup(options, "context"), cwd).value;
    var output := Lookup(options, "output");
    var path := ResolveOr(Member(output.value, "path"), cwd).value;
    var out := Spread(OwnEntries(output), [("path", Str(path))]);
    assert Normalize(options, cwd).options == Spread(options, Added(context, out));
    OutputSpec(output, path);
    SpreadAddedSpec(options, context, out);
  }

  /** Normalising normalised options changes nothing, whatever the working
      directory is at the time: the re-normalisation on every invocation is
      a no-op. */
  lemma NormalizeIdempotent(options: Assoc<JsValue>, cwd: string, cwd': string)
    requires Distinct(Keys(options))
    requires IsAbsolute(cwd) && IsAbsolute(cwd')
    requires Normalize(options, cwd).Normalized?
    ensures Normalize(Normalize(options, cwd).options, cwd') == Normalize(options, cwd)
  {
    NormalizeSpec(options, cwd);
    NormalFormFixed(Normalize(options, cwd).options, cwd');
  }

  /** Options in normal form are a fixed point of normalisation. */
  lemma NormalFormFixed(r: Assoc<JsValue>, cwd: string)
    requires NormalForm(r)
    ensures Normalize(r, cwd) == Normalized(r)
  {
    var c := Lookup(r, "context").value.s;
    var out := Lookup(r, "output").value.fields;
    var p := Lookup(out, "path").value.s;
    assert ResolveOr(Lookup(r, "context"), cwd) == Some(c);
    assert ResolveOr(Member(Obj(out), "path"), cwd) == Some(p);
    assert OwnEntries(Lookup(r, "output")) == out;
    PathFixed(out, p);
    AddedFixed(r, c, out);
  }

  lemma PathFixed(out: Assoc<JsValue>, p: string)
    requires Distinct(Keys(out)) && Lookup(out, "path") == Some(Str(p))
    ensures Spread(out, [("path", Str(p))]) == out
  {
    var pathEntry: Assoc<JsValue> := [("path", Str(p))];
    SpreadOfDistinct(out, pathEntry);
    SetAllSame(out, pathEntry);
  }

  lemma AddedFixed(r: Assoc<JsValue>, c: string, out: Assoc<JsValue>)
    requires Distinct(Keys(r))
    requires Lookup(r, "context") == Some(Str(c)) && Lookup(r, "output") == Some(Obj(out))
    requires Lookup(r, "watch") == Some(Bool(false))
    ensures Spread(r, Added(c, out)) == r
  {
    var added := Added(c, out);
    forall i | 0 <= i < |added| ensures Lookup(r, added[i].0) == Some(added[i].1) {
      assert i == 0 || i == 1 || i == 2;
    }
    SpreadOfDistinct(r, added);
    SetAllSame(r, added);
  }

  /** The stats option defaults of lines 21-29, given what `supports-color` reported. */
  function DefaultEntries(supportsColor: JsValue): Assoc<JsValue>
  {
    [ ("colors", supportsColor),
      ("chunks", Bool(true)),
      ("modules", Bool(true)),
      ("chunkModules", Bool(true)),
      ("reasons", Bool(true)),
      ("cached", Bool(true)),
      ("cachedAssets", Bool(true)) ]
  }

  /** Directories left out of the stats report when the baseline is quiet. */
  const ExcludedDirectories: JsValue :=
    Arr([Str("node_modules"), Str("bower_components"), Str("jam"), Str("components")])

  /** The overrides of lines 32-37. */
  function QuietEntries(): Assoc<JsValue>
  {
    [("cached", Bool(false)), ("cachedAssets", Bool(false)), ("exclude", ExcludedDirectories)]
  }

  /** Line 31: the baseline turns quiet when `stats` is truthy and does not ask for JSON. */
  predicate QuietBaseline(options: Assoc<JsValue>)
  {
    var stats := Lookup(options, "stats");
    Truthy(stats) && !Truthy(Member(stats.value, "json"))
  }

  /** Lines 21-38: the stats baseline. */
  function StatsBaseline(options: Assoc<JsValue>, supportsColor: JsValue): Assoc<JsValue>
  {
    var defaults := Literal(DefaultEntries(supportsColor));
    if QuietBaseline(options) then Spread(defaults, QuietEntries()) else defaults
  }

  /** Lines 40-43: the user's `stats` spread over the baseline. */
  function StatsOptions(options: Assoc<JsValue>, supportsColor: JsValue): Assoc<JsValue>
  {
    var stats := Lookup(options, "stats");
    Spread(StatsBaseline(options, supportsColor), OwnEntries(if Truthy(stats) then stats else None))
  }

  /** The run report is printed as JSON exactly when the merged stats options say `json`. */
  predicate JsonMode(statsOptions: Assoc<JsValue>)
  {
    Truthy(Lookup(statsOptions, "json"))
  }

  /** What the baseline holds for each key. */
  function BaselineValue(options: Assoc<JsValue>, supportsColor: JsValue, k: string): Option<JsValue>
  {
    if k == "colors" then Some(supportsColor)
    else if k == "chunks" || k == "modules" || k == "chunkModules" || k == "reasons" then Some(Bool(true))
    else if k == "cached" || k == "cachedAssets" then Some(Bool(!QuietBaseline(options)))
    else if k == "exclude" && QuietBaseline(options) then Some(ExcludedDirectories)
    else None
  }

  lemma DefaultsLast(supportsColor: JsValue, k: string)
    ensures LastValue(DefaultEntries(supportsColor), k) ==
      if k == "colors" then Some(supportsColor)
      else if k == "chunks" || k == "modules" || k == "chunkModules" || k == "reasons" || k == "cached" || k == "cachedAssets"
      then Some(Bool(true))
      else None
  {
    var d := DefaultEntries(supportsColor);
    LastValueSnoc(d[..6], d[6], k);
    assert d[..6] + [d[6]] == d;
    LastValueSnoc(d[..5], d[5], k);
    assert d[..5] + [d[5]] == d[..6];
    LastValueSnoc(d[..4], d[4], k);
    assert d[..4] + [d[4]] == d[..5];
    LastValueSnoc(d[..3], d[3], k);
    assert d[..3] + [d[3]] == d[..4];
    LastValueSnoc(d[..2], d[2], k);
    assert d[..2] + [d[2]] == d[..3];
    LastValueSnoc(d[..1], d[1], k);
    assert d[..1] + [d[1]] == d[..2];
    LastValueSnoc(d[..0], d[0], k);
    assert d[..0] + [d[0]] == d[..1];
  }

  lemma QuietLast(k: string)
    ensures LastValue(QuietEntries(), k) ==
      if k == "cached" || k == "cachedAssets" then Some(Bool(false))
      else if k == "exclude" then Some(ExcludedDirectories)
      else None
  {
    var q := QuietEntries();
    LastValueSnoc(q[..2], q[2], k);
    assert q[..2] + [q[2]] == q;
    LastValueSnoc(q[..1], q[1], k);
    assert q[..1] + [q[1]] == q[..2];
    LastValueSnoc(q[..0], q[0], k);
    assert q[..0] + [q[0]] == q[..1];
  }

  /** The baseline has distinct keys and holds `BaselineValue` for each key. */
  lemma BaselineSpec(options: Assoc<JsValue>, supportsColor: JsValue, k: string)
    ensures Distinct(Keys(StatsBaseline(options, supportsColor)))
    ensures Lookup(StatsBaseline(options, supportsColor), k) == BaselineValue(options, supportsColor, k)
  {
    var entries := DefaultEntries(supportsColor);
    var defaults := Literal(entries);
    var v := BaselineValue(options, supportsColor, k);
    var d := LastValue(entries, k);
    assert Distinct(Keys(defaults)) && Lookup(defaults, k) == d by {
      LiteralSpec(entries, k);
    }
    assert d == if k == "colors" then Some(supportsColor)
      else if k == "chunks" || k == "modules" || k == "chunkModules" || k == "reasons" || k == "cached" || k == "cachedAssets"
      then Some(Bool(true))
      else None by {
      DefaultsLast(supportsColor, k);
    }
    if QuietBaseline(options) {
      var q := LastValue(QuietEntries(), k);
      assert q == if k == "cached" || k == "cachedAssets" then Some(Bool(false))
        else if k == "exclude" then Some(ExcludedDirectories)
        else None by {
        QuietLast(k);
      }
      assert Distinct(Keys(Spread(defaults, QuietEntries())))
        && Lookup(Spread(defaults, QuietEntries()), k) == if q.Some? then q else d by {
        SpreadSpec(defaults, QuietEntries(), k);
        LastValueOfDistinct(defaults, k);
      }
    }
  }

  /** Every field of a user `stats` object overrides the baseline; every other
      key keeps its baseline value: `cached` and `cachedAssets` off exactly when
      the baseline is quiet, `exclude` present exactly then, `json` absent. */
  lemma StatsOptionsSpec(options: Assoc<JsValue>, supportsColor: JsValue, k: string)
    requires Distinct(Keys(OwnEntries(Lookup(options, "stats"))))
    ensures var user := OwnEntries(Lookup(options, "stats"));
      Lookup(StatsOptions(options, supportsColor), k) ==
        if k in Keys(user) then Lookup(user, k) else BaselineValue(options, supportsColor, k)
  {
    var stats := Lookup(options, "stats");
    var user := OwnEntries(stats);
    assert OwnEntries(if Truthy(stats) then stats else None) == user;
    var base := StatsBaseline(options, supportsColor);
    BaselineSpec(options, supportsColor, k);
    SpreadSpec(base, user, k);
    LastValueOfDistinct(user, k);
    LastValueOfDistinct(base, k);
  }

  lemma BaselineNoJson(options: Assoc<JsValue>, supportsColor: JsValue)
    ensures BaselineValue(options, supportsColor, "json") == None
  {
  }

  /** JSON reporting is on exactly when the user's `stats` is an object with a
      truthy `json` field: the baseline never sets `json`.  The baseline is then
      never quiet. */
  lemma JsonModeIff(options: Assoc<JsValue>, supportsColor: JsValue)
    requires Distinct(Keys(OwnEntries(Lookup(options, "stats"))))
    ensures JsonMode(StatsOptions(options, supportsColor)) <==>
      Truthy(Lookup(OwnEntries(Lookup(options, "stats")), "json"))
    ensures JsonMode(StatsOptions(options, supportsColor)) ==> !QuietBaseline(options)
  {
    var user := OwnEntries(Lookup(options, "stats"));
    var j := Lookup(StatsOptions(options, supportsColor), "json");
    BaselineNoJson(options, supportsColor);
    assert j == if "json" in Keys(user) then Lookup(user, "json") else None by {
      StatsOptionsSpec(options, supportsColor, "json");
    }
    LookupInKeys(user, "json");
    assert Truthy(Lookup(user, "json")) ==> Member(Lookup(options, "stats").value, "json") == Lookup(user, "json");
  }
}
