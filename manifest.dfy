/** The asset manifest the "emit" hook writes into `metadata.webpack`:
    `assets` maps `chunkName + extname(file)` to the file, and `assetsByType`
    maps each asset name's extension (without its dot) to the files of that
    type, newest first.
 */
module Manifest {
  import opened Assoc
  import opened Paths

  /** A value of webpack's `assetsByChunkName`: one file name or an array of them. */
  datatype ChunkAsset = Single(file: string) | Many(files: seq<string>)

  /** `assetsByChunkName`, in `Object.keys` order. */
  type ChunkMap = Assoc<ChunkAsset>

  /** The manifest key of `file` in chunk `chunkName` (lines 59 and 68). */
  function AssetKey(chunkName: string, file: string): string
  {
    chunkName + Extname(file)
  }

  function ChunkFiles(asset: ChunkAsset): seq<string>
  {
    match asset
    case Single(file) => [file]
    case Many(files) => files
  }

  /** The assignments a chunk's files make, in order. */
  function FilePairs(chunkName: string, files: seq<string>): Assoc<string>
  {
    seq(|files|, i requires 0 <= i < |files| => (AssetKey(chunkName, files[i]), files[i]))
  }

  /** Lines 58-61: the inner reduce over an array-valued chunk, starting from `{}`. */
  function ChunkAssets(chunkName: string, files: seq<string>): Assoc<string>
  {
    Literal(FilePairs(chunkName, files))
  }

  /** One step of the outer reduce (lines 55-69): an array-valued chunk is
      spread over the accumulator, a single file is assigned into it. */
  function AssetsStep(reduced: Assoc<string>, chunk: (string, ChunkAsset)): Assoc<string>
  {
    match chunk.1
    case Many(files) => Spread(reduced, ChunkAssets(chunk.0, files))
    case Single(file) => Set(reduced, AssetKey(chunk.0, file), file)
  }

  /** Lines 54-70: `assets`. */
  function Assets(chunks: ChunkMap): Assoc<string>
  {
    if |chunks| == 0 then []
    else AssetsStep(Assets(chunks[..|chunks| - 1]), chunks[|chunks| - 1])
  }

  /** Every assignment the two reduces make, chunk by chunk, file by file. */
  function AllPairs(chunks: ChunkMap): Assoc<string>
  {
    if |chunks| == 0 then []
    else
      var last := chunks[|chunks| - 1];
      AllPairs(chunks[..|chunks| - 1]) + FilePairs(last.0, ChunkFiles(last.1))
  }

  /** The nested reduces amount to one flat run of assignments into `{}`. */
  lemma {:induction false} AssetsFlat(chunks: ChunkMap)
    ensures Assets(chunks) == Literal(AllPairs(chunks))
  {
    if |chunks| > 0 {
      var init, last := chunks[..|chunks| - 1], chunks[|chunks| - 1];
      AssetsFlat(init);
      var s := Literal(AllPairs(init));
      var ps := FilePairs(last.0, ChunkFiles(last.1));
      var empty: Assoc<string> := [];
      assert Distinct(Keys(s)) by {
        LiteralSpec(AllPairs(init), "");
      }
      SetAllConcat(empty, AllPairs(init), ps);
      match last.1
      case Single(file) =>
        assert ps[..0] == [];
      case Many(files) =>
        SpreadOfDistinct(s, ChunkAssets(last.0, files));
        SetAllDedup(s, ps);
    }
  }

  /** The key order of `assets` is the order in which keys are first assigned,
      and each key holds the last file assigned to it: a later file with an
      equal key overwrites the value but keeps the original position. */
  lemma AssetsOrderAndValues(chunks: ChunkMap, k: string)
    ensures Distinct(Keys(Assets(chunks)))
    ensures Keys(Assets(chunks)) == AppendNew([], Keys(AllPairs(chunks)))
    ensures Lookup(Assets(chunks), k) == LastValue(AllPairs(chunks), k)
  {
    AssetsFlat(chunks);
    var empty: Assoc<string> := [];
    assert Keys(empty) == [];
    SetAllKeys(empty, AllPairs(chunks));
    LiteralSpec(AllPairs(chunks), k);
  }

  lemma FilePairsMember(chunkName: string, files: seq<string>, e: (string, string))
    ensures e in FilePairs(chunkName, files) <==> e.1 in files && e.0 == AssetKey(chunkName, e.1)
  {
    var ps := FilePairs(chunkName, files);
    if e.1 in files && e.0 == AssetKey(chunkName, e.1) {
      var i :| 0 <= i < |files| && files[i] == e.1;
      assert ps[i] == e;
    }
  }

  /** The assignments come from the chunks' own files. */
  ghost predicate FromChunk(chunks: ChunkMap, e: (string, string))
  {
    exists j :: 0 <= j < |chunks| && e.1 in ChunkFiles(chunks[j].1) && e.0 == AssetKey(chunks[j].0, e.1)
  }

  lemma {:induction false} AllPairsMember(chunks: ChunkMap, e: (string, string))
    ensures e in AllPairs(chunks) <==> FromChunk(chunks, e)
  {
    if |chunks| > 0 {
      var init, last := chunks[..|chunks| - 1], chunks[|chunks| - 1];
      AllPairsMember(init, e);
      FilePairsMember(last.0, ChunkFiles(last.1), e);
      if FromChunk(chunks, e) {
        var j :| 0 <= j < |chunks| && e.1 in ChunkFiles(chunks[j].1) && e.0 == AssetKey(chunks[j].0, e.1);
        if j < |chunks| - 1 {
          assert chunks[j] == init[j];
        }
      }
      if FromChunk(init, e) {
        var j :| 0 <= j < |init| && e.1 in ChunkFiles(init[j].1) && e.0 == AssetKey(init[j].0, e.1);
        assert chunks[j] == init[j];
      }
    }
  }

  lemma {:induction false} SetAllEntries<V>(a: Assoc<V>, ps: Assoc<V>, e: (string, V))
    requires e in SetAll(a, ps)
    ensures e in a || e in ps
  {
    if |ps| > 0 {
      var init, last := ps[..|ps| - 1], ps[|ps| - 1];
      var s := SetAll(a, init);
      IndexOfInKeys(s, last.0);
      if e != last && e in s {
        SetAllEntries(a, init, e);
      }
    }
  }

  /** Every entry of `assets` is `chunkName + extname(file) -> file` for a file
      of that chunk. */
  lemma AssetsSound(chunks: ChunkMap)
    ensures forall e :: e in Assets(chunks) ==> FromChunk(chunks, e)
  {
    AssetsFlat(chunks);
    var empty: Assoc<string> := [];
    forall e | e in Assets(chunks) ensures FromChunk(chunks, e) {
      SetAllEntries(empty, AllPairs(chunks), e);
      AllPairsMember(chunks, e);
    }
  }

  /** Every file of every chunk has its key in `assets`. */
  lemma AssetsComplete(chunks: ChunkMap)
    ensures forall j, f :: 0 <= j < |chunks| && f in ChunkFiles(chunks[j].1) ==>
      AssetKey(chunks[j].0, f) in Keys(Assets(chunks))
  {
    forall j, f | 0 <= j < |chunks| && f in ChunkFiles(chunks[j].1)
      ensures AssetKey(chunks[j].0, f) in Keys(Assets(chunks))
    {
      AssetKeyPresent(chunks, j, f);
    }
  }

  lemma AssetKeyPresent(chunks: ChunkMap, j: nat, f: string)
    requires j < |chunks| && f in ChunkFiles(chunks[j].1)
    ensures AssetKey(chunks[j].0, f) in Keys(Assets(chunks))
  {
    var ps := AllPairs(chunks);
    var k := AssetKey(chunks[j].0, f);
    AllPairsMember(chunks, (k, f));
    var i :| 0 <= i < |ps| && ps[i] == (k, f);
    assert Keys(ps)[i] == k;
    AssetsOrderAndValues(chunks, k);
    AppendNewMember([], Keys(ps), k);
  }

  /** The last file of `files` whose extension is `ext`. */
  function LastWithExt(files: seq<string>, ext: string): Option<string>
  {
    if |files| == 0 then None
    else if Extname(files[|files| - 1]) == ext then Some(files[|files| - 1])
    else LastWithExt(files[..|files| - 1], ext)
  }

  /** An array-valued chunk yields one key per distinct extension of its files,
      and that key holds the last file with that extension. */
  lemma {:induction false} ChunkAssetsSpec(chunkName: string, files: seq<string>, ext: string)
    ensures Lookup(ChunkAssets(chunkName, files), chunkName + ext) == LastWithExt(files, ext)
    ensures forall f, g :: f in files && g in files ==>
      (AssetKey(chunkName, f) == AssetKey(chunkName, g) <==> Extname(f) == Extname(g))
  {
    LiteralSpec(FilePairs(chunkName, files), chunkName + ext);
    FilePairsLast(chunkName, files, ext);
    forall f, g | f in files && g in files
      ensures AssetKey(chunkName, f) == AssetKey(chunkName, g) ==> Extname(f) == Extname(g)
    {
      if AssetKey(chunkName, f) == AssetKey(chunkName, g) {
        assert Extname(f) == AssetKey(chunkName, f)[|chunkName|..];
      }
    }
  }

  lemma {:induction false} FilePairsLast(chunkName: string, files: seq<string>, ext: string)
    ensures LastValue(FilePairs(chunkName, files), chunkName + ext) == LastWithExt(files, ext)
  {
    if |files| > 0 {
      var init := files[..|files| - 1];
      FilePairsLast(chunkName, init, ext);
      assert FilePairs(chunkName, files)[..|files| - 1] == FilePairs(chunkName, init);
      var f := files[|files| - 1];
      assert chunkName + Extname(f) == chunkName + ext ==> Extname(f) == (chunkName + Extname(f))[|chunkName|..];
    }
  }

  /** A single-file chunk adds exactly one key: its file's, unless already present. */
  lemma SingleChunkOneKey(reduced: Assoc<string>, chunkName: string, file: string)
    ensures var r := AssetsStep(reduced, (chunkName, Single(file)));
      && Keys(r) == AppendNew(Keys(reduced), [AssetKey(chunkName, file)])
      && Lookup(r, AssetKey(chunkName, file)) == Some(file)
  {
    AppendNewOne(Keys(reduced), AssetKey(chunkName, file));
  }

  /** Line 73: the type of an asset name, its extension without the dot. */
  function TypeOf(assetName: string): string
  {
    StripDot(Extname(assetName))
  }

  /** When the chunk name's last segment and the file's extension are both
      non-empty, an asset is grouped under its own file's extension. */
  lemma TypeOfAssetKey(chunkName: string, file: string)
    requires LastSegment(chunkName) != "" && Extname(file) != ""
    ensures TypeOf(AssetKey(chunkName, file)) == Extname(file)[1..]
  {
    ExtnameOfKey(chunkName, file);
  }

  /** One step of the reduce of lines 72-76: prepend the asset's file to its type's list. */
  function ByTypeStep(reduced: Assoc<seq<string>>, asset: (string, string)): Assoc<seq<string>>
  {
    var ext := TypeOf(asset.0);
    var prev := Lookup(reduced, ext);
    Set(reduced, ext, [asset.1] + (if prev.Some? then prev.value else []))
  }

  /** Lines 72-76: `assetsByType`.  `Object.keys(assets)` with `assets[assetName]`
      visits the entries of `assets` in order, its keys being distinct. */
  function ByType(assets: Assoc<string>): Assoc<seq<string>>
  {
    if |assets| == 0 then []
    else ByTypeStep(ByType(assets[..|assets| - 1]), assets[|assets| - 1])
  }

  /** The files of the assets of type `ext`, in visiting order. */
  function Group(assets: Assoc<string>, ext: string): seq<string>
  {
    if |assets| == 0 then []
    else
      var last := assets[|assets| - 1];
      Group(assets[..|assets| - 1], ext) + (if TypeOf(last.0) == ext then [last.1] else [])
  }

  function Reversed<T>(s: seq<T>): seq<T>
  {
    if |s| == 0 then [] else [s[|s| - 1]] + Reversed(s[..|s| - 1])
  }

  function Types(assets: Assoc<string>): seq<string>
  {
    if |assets| == 0 then [] else Types(assets[..|assets| - 1]) + [TypeOf(assets[|assets| - 1].0)]
  }

  /** Each type's list holds that type's files in reverse visiting order (they
      are prepended); a type no asset has is absent. */
  lemma {:induction false} ByTypeLookup(assets: Assoc<string>, ext: string)
    ensures Lookup(ByType(assets), ext) ==
      if Group(assets, ext) == [] then None else Some(Reversed(Group(assets, ext)))
  {
    if |assets| > 0 {
      var init, last := assets[..|assets| - 1], assets[|assets| - 1];
      ByTypeLookup(init, ext);
      var g := Group(init, ext);
      if TypeOf(last.0) == ext {
        assert Group(assets, ext) == g + [last.1];
        assert (g + [last.1])[..|g|] == g;
        assert Reversed(g + [last.1]) == [last.1] + Reversed(g);
      } else {
        assert Group(assets, ext) == g;
      }
    }
  }

  /** The types appear in the order their first asset is visited, each once. */
  lemma {:induction false} ByTypeKeys(assets: Assoc<string>)
    ensures Keys(ByType(assets)) == AppendNew([], Types(assets))
    ensures Distinct(Keys(ByType(assets)))
  {
    if |assets| > 0 {
      var init, last := assets[..|assets| - 1], assets[|assets| - 1];
      ByTypeKeys(init);
      AppendNewConcat([], Types(init), [TypeOf(last.0)]);
      AppendNewOne(AppendNew([], Types(init)), TypeOf(last.0));
    } else {
      var empty: Assoc<seq<string>> := [];
      assert Keys(empty) == [];
    }
  }

  /** All the lists of `assetsByType`, one after the other. */
  function Flatten(lists: Assoc<seq<string>>): seq<string>
  {
    if |lists| == 0 then [] else Flatten(lists[..|lists| - 1]) + lists[|lists| - 1].1
  }

  function Values(assets: Assoc<string>): seq<string>
  {
    if |assets| == 0 then [] else Values(assets[..|assets| - 1]) + [assets[|assets| - 1].1]
  }

  lemma ValuesLength(assets: Assoc<string>)
    ensures |Values(assets)| == |assets|
  {
  }

  lemma {:induction false} FlattenUpdate(lists: Assoc<seq<string>>, i: nat, entry: (string, seq<string>))
    requires i < |lists|
    ensures multiset(Flatten(lists[i := entry])) + multiset(lists[i].1)
         == multiset(Flatten(lists)) + multiset(entry.1)
  {
    var n := |lists| - 1;
    var updated := lists[i := entry];
    if i < n {
      FlattenUpdate(lists[..n], i, entry);
      var before, after, tail := Flatten(lists[..n]), Flatten(lists[..n][i := entry]), lists[n].1;
      assert multiset(after) + multiset(lists[i].1) == multiset(before) + multiset(entry.1) by {
        assert lists[..n][i] == lists[i];
      }
      assert Flatten(updated) == after + tail by {
        assert updated[n] == lists[n];
        assert updated[..n] == lists[..n][i := entry];
      }
      assert Flatten(lists) == before + tail;
      calc {
        multiset(Flatten(updated)) + multiset(lists[i].1);
        multiset(after) + multiset(tail) + multiset(lists[i].1);
        (multiset(after) + multiset(lists[i].1)) + multiset(tail);
        multiset(before) + multiset(entry.1) + multiset(tail);
        multiset(before) + multiset(tail) + multiset(entry.1);
        multiset(Flatten(lists)) + multiset(entry.1);
      }
    } else {
      assert updated[..n] == lists[..n];
      assert Flatten(updated) == Flatten(lists[..n]) + entry.1;
    }
  }

  /** Multiset addition cancels on the right. */
  lemma MultisetCancel<T>(a: multiset<T>, c: multiset<T>, b: multiset<T>)
    requires a + b == c + b
    ensures a == c
  {
    forall x ensures a[x] == c[x] {
      assert (a + b)[x] == (c + b)[x];
    }
  }

  /** One step adds the visited file to the lists, once. */
  lemma ByTypeStepAdds(reduced: Assoc<seq<string>>, asset: (string, string))
    ensures multiset(Flatten(ByTypeStep(reduced, asset))) == multiset(Flatten(reduced)) + multiset{asset.1}
  {
    var ext := TypeOf(asset.0);
    var prev := Lookup(reduced, ext);
    var list := [asset.1] + (if prev.Some? then prev.value else []);
    IndexOfInKeys(reduced, ext);
    var i := IndexOf(reduced, ext);
    if i < |reduced| {
      assert ByTypeStep(reduced, asset) == reduced[i := (ext, list)];
      assert prev == Some(reduced[i].1);
      FlattenUpdate(reduced, i, (ext, list));
      assert list == [asset.1] + reduced[i].1;
      assert multiset(list) == multiset{asset.1} + multiset(reduced[i].1);
      MultisetCancel(multiset(Flatten(reduced[i := (ext, list)])),
        multiset(Flatten(reduced)) + multiset{asset.1}, multiset(reduced[i].1));
    } else {
      assert ByTypeStep(reduced, asset) == reduced + [(ext, list)];
      assert (reduced + [(ext, list)])[..|reduced|] == reduced;
    }
  }

  /** `assetsByType` holds each file of `assets` exactly once: the lists
      together are a permutation of the values of `assets`, so their total
      length is the number of keys of `assets`. */
  lemma {:induction false} ByTypeExactlyOnce(assets: Assoc<string>)
    ensures multiset(Flatten(ByType(assets))) == multiset(Values(assets))
    ensures |Flatten(ByType(assets))| == |assets|
  {
    if |assets| > 0 {
      var init, last := assets[..|assets| - 1], assets[|assets| - 1];
      ByTypeExactlyOnce(init);
      ByTypeStepAdds(ByType(init), last);
    }
    assert |multiset(Flatten(ByType(assets)))| == |Flatten(ByType(assets))|;
    ValuesLength(assets);
  }
}
