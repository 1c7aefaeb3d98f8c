/** The "after-emit" harvest (lines 84-95): every asset webpack emitted is read
    back from the in-memory output file system and staged in the adapter's
    file set under its path relative to Metalsmith's destination directory.
 */
module Harvesting {
  import opened Assoc
  import opened Paths

  type Bytes = seq<bv8>

  /** A value of a Metalsmith file set.  A harvested file records its contents
      and the absolute path it was read from (`fileName`); a whole file set
      can itself sit under a key (see the final merge of the adapter). */
  datatype FileValue =
    | File(contents: Bytes, fileName: Option<string>)
    | Files(files: Assoc<FileValue>)

  type FileSet = Assoc<FileValue>

  /** An entry of `compilation.assets`: its name, where it was written, and
      whether this run emitted it. */
  datatype CompiledAsset = CompiledAsset(outname: string, existsAt: string, emitted: bool)

  /** The memory-fs output file system: absolute path to contents. */
  type MemoryFs = map<string, Bytes>

  /** The harvest either stages every emitted asset or stops at the first
      emitted asset `readFileSync` cannot find, which throws out of the hook. */
  datatype Harvested = Staged(files: FileSet) | ReadFailed(path: string, files: FileSet)

  /** The file an emitted asset is staged as (lines 90-93). */
  function StagedFile(fs: MemoryFs, path: string): FileValue
    requires path in fs
  {
    File(fs[path], Some(path))
  }

  /** One iteration of the `forEach` of lines 84-95. */
  function HarvestStep(h: Harvested, asset: CompiledAsset, fs: MemoryFs, destination: string): Harvested
  {
    match h
    case ReadFailed(_, _) => h
    case Staged(files) =>
      if !asset.emitted then h
      else if asset.existsAt !in fs then ReadFailed(asset.existsAt, files)
      else Staged(Set(files, Relative(destination, asset.existsAt), StagedFile(fs, asset.existsAt)))
  }

  /** Lines 84-95 over the assets in `Object.keys` order, starting from `files`. */
  function Harvest(files: FileSet, assets: seq<CompiledAsset>, fs: MemoryFs, destination: string): Harvested
  {
    if |assets| == 0 then Staged(files)
    else HarvestStep(Harvest(files, assets[..|assets| - 1], fs, destination), assets[|assets| - 1], fs, destination)
  }

  /** The harvest of one more asset is one more step. */
  lemma HarvestPrefixStep(files: FileSet, assets: seq<CompiledAsset>, fs: MemoryFs, destination: string, i: nat)
    requires i < |assets|
    ensures Harvest(files, assets[..i + 1], fs, destination)
      == HarvestStep(Harvest(files, assets[..i], fs, destination), assets[i], fs, destination)
  {
    assert assets[..i + 1][..i] == assets[..i];
  }

  function Emitted(assets: seq<CompiledAsset>): seq<CompiledAsset>
  {
    if |assets| == 0 then []
    else Emitted(assets[..|assets| - 1]) + (if assets[|assets| - 1].emitted then [assets[|assets| - 1]] else [])
  }

  /** Assets this run did not emit play no part in the harvest. */
  lemma {:induction false} HarvestIgnoresNotEmitted(files: FileSet, assets: seq<CompiledAsset>, fs: MemoryFs, destination: string)
    ensures Harvest(files, assets, fs, destination) == Harvest(files, Emitted(assets), fs, destination)
  {
    if |assets| > 0 {
      var init, last := assets[..|assets| - 1], assets[|assets| - 1];
      HarvestIgnoresNotEmitted(files, init, fs, destination);
      var e := Emitted(init);
      var h := Harvest(files, init, fs, destination);
      assert Harvest(files, assets, fs, destination) == HarvestStep(h, last, fs, destination);
      if last.emitted {
        var e' := e + [last];
        assert Emitted(assets) == e';
        assert Harvest(files, e', fs, destination) == HarvestStep(Harvest(files, e, fs, destination), last, fs, destination) by {
          assert e'[..|e'| - 1] == e && e'[|e'| - 1] == last;
        }
      } else {
        assert Emitted(assets) == e by {
          assert e + [] == e;
        }
        assert HarvestStep(h, last, fs, destination) == h;
      }
    }
  }

  /** Once the harvest of a prefix has failed, the later assets change nothing. */
  lemma {:induction false} HarvestStopsAtFailure(files: FileSet, assets: seq<CompiledAsset>, fs: MemoryFs, destination: string, n: nat)
    requires n <= |assets|
    requires Harvest(files, assets[..n], fs, destination).ReadFailed?
    ensures Harvest(files, assets, fs, destination) == Harvest(files, assets[..n], fs, destination)
    decreases |assets| - n
  {
    if n < |assets| {
      var m := |assets| - 1;
      assert assets[..m][..n] == assets[..n];
      HarvestStopsAtFailure(files, assets[..m], fs, destination, n);
    } else {
      assert assets[..n] == assets;
    }
  }

  /** Every emitted asset can be read back. */
  ghost predicate AllReadable(assets: seq<CompiledAsset>, fs: MemoryFs)
  {
    forall i :: 0 <= i < |assets| && assets[i].emitted ==> assets[i].existsAt in fs
  }

  /** The assignments the harvest makes: one per emitted asset, in order. */
  function StagedPairs(assets: seq<CompiledAsset>, fs: MemoryFs, destination: string): FileSet
    requires AllReadable(assets, fs)
  {
    if |assets| == 0 then []
    else
      var last := assets[|assets| - 1];
      StagedPairs(assets[..|assets| - 1], fs, destination)
        + (if last.emitted then [(Relative(destination, last.existsAt), StagedFile(fs, last.existsAt))] else [])
  }

  /** The harvest fails exactly when some emitted asset is missing from the
      output file system, and then at the first such asset. */
  lemma {:induction false} HarvestFails(files: FileSet, assets: seq<CompiledAsset>, fs: MemoryFs, destination: string)
    ensures Harvest(files, assets, fs, destination).ReadFailed? <==> !AllReadable(assets, fs)
    ensures Harvest(files, assets, fs, destination).ReadFailed? ==>
      exists i :: 0 <= i < |assets| && assets[i].emitted
        && assets[i].existsAt == Harvest(files, assets, fs, destination).path
        && AllReadable(assets[..i], fs)
        && assets[i].existsAt !in fs
  {
    if |assets| > 0 {
      var n := |assets| - 1;
      var init, last := assets[..n], assets[n];
      HarvestFails(files, init, fs, destination);
      var h := Harvest(files, init, fs, destination);
      var h' := Harvest(files, assets, fs, destination);
      assert h' == HarvestStep(h, last, fs, destination);
      if h.ReadFailed? {
        assert h' == h;
        var i :| 0 <= i < |init| && init[i].emitted && init[i].existsAt == h.path
          && AllReadable(init[..i], fs) && init[i].existsAt !in fs;
        assert assets[i] == init[i] && assets[..i] == init[..i];
        assert !AllReadable(assets, fs);
      } else if last.emitted && last.existsAt !in fs {
        assert h' == ReadFailed(last.existsAt, h.files);
        assert assets[..n] == init;
      } else {
        assert h'.Staged?;
        assert AllReadable(assets, fs) by {
          forall i | 0 <= i < |assets| && assets[i].emitted
            ensures assets[i].existsAt in fs
          {
            if i < n {
              assert assets[i] == init[i];
            }
          }
        }
      }
    }
  }

  /** When every emitted asset is readable, the harvest is the assignment of
      one staged file per emitted asset, keyed by its destination-relative name. */
  lemma {:induction false} HarvestStages(files: FileSet, assets: seq<CompiledAsset>, fs: MemoryFs, destination: string)
    requires AllReadable(assets, fs)
    ensures Harvest(files, assets, fs, destination) == Staged(SetAll(files, StagedPairs(assets, fs, destination)))
  {
    if |assets| > 0 {
      var n := |assets| - 1;
      var init, last := assets[..n], assets[n];
      assert AllReadable(init, fs) by {
        forall i | 0 <= i < |init| && init[i].emitted
          ensures init[i].existsAt in fs
        {
          assert init[i] == assets[i];
        }
      }
      HarvestStages(files, init, fs, destination);
      var ps := StagedPairs(init, fs, destination);
      var h := Harvest(files, init, fs, destination);
      assert h == Staged(SetAll(files, ps));
      assert Harvest(files, assets, fs, destination) == HarvestStep(h, last, fs, destination);
      if last.emitted {
        var p := (Relative(destination, last.existsAt), StagedFile(fs, last.existsAt));
        var ps' := ps + [p];
        assert StagedPairs(assets, fs, destination) == ps';
        assert ps'[..|ps'| - 1] == ps && ps'[|ps'| - 1] == p;
        assert SetAll(files, ps') == Set(SetAll(files, ps), p.0, p.1);
      } else {
        assert StagedPairs(assets, fs, destination) == ps + [] == ps;
      }
    }
  }

  lemma {:induction false} StagedPairsMember(assets: seq<CompiledAsset>, fs: MemoryFs, destination: string, i: nat)
    requires AllReadable(assets, fs)
    requires i < |assets| && assets[i].emitted
    ensures (Relative(destination, assets[i].existsAt), StagedFile(fs, assets[i].existsAt)) in StagedPairs(assets, fs, destination)
  {
    var n := |assets| - 1;
    if i < n {
      assert AllReadable(assets[..n], fs);
      assert assets[..n][i] == assets[i];
      StagedPairsMember(assets[..n], fs, destination, i);
    }
  }

  /** After a successful harvest: the old names keep their positions and the
      names of emitted assets follow in first-seen order; each name holds the
      file of the last emitted asset with that name, or its old value when no
      emitted asset has it; and every emitted asset's name is present. */
  lemma HarvestSpec(files: FileSet, assets: seq<CompiledAsset>, fs: MemoryFs, destination: string, name: string)
    requires AllReadable(assets, fs)
    ensures var h := Harvest(files, assets, fs, destination);
      var ps := StagedPairs(assets, fs, destination);
      && h.Staged?
      && Keys(h.files) == AppendNew(Keys(files), Keys(ps))
      && Lookup(h.files, name) == (if LastValue(ps, name).Some? then LastValue(ps, name) else Lookup(files, name))
      && (Distinct(Keys(files)) ==> Distinct(Keys(h.files)))
      && (forall i :: 0 <= i < |assets| && assets[i].emitted ==> Relative(destination, assets[i].existsAt) in Keys(h.files))
  {
    var ps := StagedPairs(assets, fs, destination);
    HarvestStages(files, assets, fs, destination);
    SetAllKeys(files, ps);
    SetAllLookup(files, ps, name);
    if Distinct(Keys(files)) {
      SetAllDistinct(files, ps);
    }
    forall i | 0 <= i < |assets| && assets[i].emitted
      ensures Relative(destination, assets[i].existsAt) in Keys(SetAll(files, ps))
    {
      var e := (Relative(destination, assets[i].existsAt), StagedFile(fs, assets[i].existsAt));
      StagedPairsMember(assets, fs, destination, i);
      var j :| 0 <= j < |ps| && ps[j] == e;
      assert Keys(ps)[j] == e.0;
      AppendNewMember(Keys(files), Keys(ps), e.0);
    }
  }

  /** An emitted asset written below the destination directory, at
      `destination + "/" + rest`, is staged under its path below that
      directory, a name that is never absolute. */
  lemma StagedNameUnderDestination(files: FileSet, assets: seq<CompiledAsset>, fs: MemoryFs, destination: string, i: nat, rest: string)
    requires AllReadable(assets, fs)
    requires i < |assets| && assets[i].emitted && assets[i].existsAt == destination + "/" + rest
    ensures JoinPath(Segments(rest)) in Keys(Harvest(files, assets, fs, destination).files)
    ensures !IsAbsolute(JoinPath(Segments(rest)))
  {
    HarvestSpec(files, assets, fs, destination, "");
    RelativeUnder(destination, rest);
  }
}
