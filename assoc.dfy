/** JavaScript plain objects as ordered association lists.

    An object is the sequence of its own enumerable string keys, in the order
    `Object.keys` visits them (insertion order), each paired with its value.
    Assigning to a key that is already present replaces the value and keeps the
    key's position; assigning to a new key appends it.  Object spread
    `{...a, ...b}` copies the entries of `a` and then assigns those of `b`.
 */
module Assoc {

  datatype Option<+T> = None | Some(value: T)

  type Assoc<V> = seq<(string, V)>

  /** The keys in visiting order. */
  function Keys<V>(a: Assoc<V>): seq<string>
  {
    seq(|a|, i requires 0 <= i < |a| => a[i].0)
  }

  ghost predicate Distinct<T>(s: seq<T>)
  {
    forall i, j :: 0 <= i < j < |s| ==> s[i] != s[j]
  }

  /** Position of the first entry with key `k`, or `|a|` when there is none. */
  function IndexOf<V>(a: Assoc<V>, k: string): (i: nat)
    ensures i <= |a|
    ensures i < |a| ==> a[i].0 == k
    ensures forall j :: 0 <= j < i ==> a[j].0 != k
  {
    if |a| == 0 then 0
    else if a[0].0 == k then 0
    else 1 + IndexOf(a[1..], k)
  }

  /** Property read `a[k]`; `None` stands for `undefined`. */
  function Lookup<V>(a: Assoc<V>, k: string): (r: Option<V>)
    ensures r.None? <==> k !in Keys(a)
    ensures r.Some? ==> (k, r.value) in a
  {
    IndexOfInKeys(a, k);
    var i := IndexOf(a, k);
    if i < |a| then Some(a[i].1) else None
  }

  /** Property assignment `a[k] = v`. */
  function Set<V>(a: Assoc<V>, k: string, v: V): (r: Assoc<V>)
    ensures Keys(r) == if k in Keys(a) then Keys(a) else Keys(a) + [k]
    ensures k !in Keys(a) ==> r == a + [(k, v)]
    ensures Lookup(r, k) == Some(v)
    ensures forall k' :: k' != k ==> Lookup(r, k') == Lookup(a, k')
    ensures Distinct(Keys(a)) ==> Distinct(Keys(r))
  {
    IndexOfInKeys(a, k);
    var i := IndexOf(a, k);
    if i < |a| then
      var r := a[i := (k, v)];
      assert Keys(r) == Keys(a);
      IndexOfSameKeys(r, a, k);
      forall k' | k' != k ensures Lookup(r, k') == Lookup(a, k') {
        IndexOfSameKeys(r, a, k');
      }
      r
    else
      var r := a + [(k, v)];
      assert Keys(r) == Keys(a) + [k];
      IndexOfIs(r, k, |a|);
      forall k' | k' != k ensures Lookup(r, k') == Lookup(a, k') {
        IndexOfIs(r, k', if IndexOf(a, k') < |a| then IndexOf(a, k') else |r|);
      }
      r
  }

  /** Any index with the characteristic properties of `IndexOf` is `IndexOf`. */
  lemma IndexOfIs<V>(a: Assoc<V>, k: string, i: nat)
    requires i <= |a|
    requires i < |a| ==> a[i].0 == k
    requires forall j :: 0 <= j < i ==> a[j].0 != k
    ensures IndexOf(a, k) == i
  {
  }

  lemma IndexOfInKeys<V>(a: Assoc<V>, k: string)
    ensures IndexOf(a, k) < |a| <==> k in Keys(a)
  {
    if k in Keys(a) {
      var j :| 0 <= j < |a| && Keys(a)[j] == k;
      assert a[j].0 == k;
    }
    if IndexOf(a, k) < |a| {
      assert Keys(a)[IndexOf(a, k)] == k;
    }
  }

  lemma IndexOfSameKeys<V>(a: Assoc<V>, b: Assoc<V>, k: string)
    requires Keys(a) == Keys(b)
    ensures IndexOf(a, k) == IndexOf(b, k)
  {
    assert forall j :: 0 <= j < |a| ==> a[j].0 == Keys(a)[j] == Keys(b)[j] == b[j].0;
    IndexOfIs(a, k, IndexOf(b, k));
  }

  /** Sequential assignment of every entry of `ps`, in order (`Object.assign`). */
  function SetAll<V>(a: Assoc<V>, ps: Assoc<V>): Assoc<V>
  {
    if |ps| == 0 then a
    else Set(SetAll(a, ps[..|ps| - 1]), ps[|ps| - 1].0, ps[|ps| - 1].1)
  }

  /** Object spread `{...a, ...b}`: a fresh object with the entries of `a`, then those of `b`. */
  function Spread<V>(a: Assoc<V>, b: Assoc<V>): Assoc<V>
  {
    SetAll(SetAll([], a), b)
  }

  /** An object literal `{k1: v1, k2: v2, ...}`: its properties defined in order. */
  function Literal<V>(entries: Assoc<V>): Assoc<V>
  {
    SetAll([], entries)
  }

  /** `ks` extended by each element of `xs` not yet present, in order. */
  function AppendNew<T(==)>(ks: seq<T>, xs: seq<T>): seq<T>
  {
    if |xs| == 0 then ks
    else
      var p := AppendNew(ks, xs[..|xs| - 1]);
      if xs[|xs| - 1] in p then p else p + [xs[|xs| - 1]]
  }

  /** The value of the last entry of `ps` whose key is `k`. */
  function LastValue<V>(ps: Assoc<V>, k: string): Option<V>
  {
    if |ps| == 0 then None
    else if ps[|ps| - 1].0 == k then Some(ps[|ps| - 1].1)
    else LastValue(ps[..|ps| - 1], k)
  }

  lemma KeysPrefix<V>(a: Assoc<V>, n: nat)
    requires n <= |a|
    ensures Keys(a[..n]) == Keys(a)[..n]
  {
  }

  /** With distinct keys, reading the key of entry `i` gives that entry's value. */
  lemma LookupAt<V>(a: Assoc<V>, i: nat)
    requires Distinct(Keys(a))
    requires i < |a|
    ensures Lookup(a, a[i].0) == Some(a[i].1)
  {
    assert forall j :: 0 <= j < i ==> a[j].0 == Keys(a)[j] != Keys(a)[i] == a[i].0;
    IndexOfIs(a, a[i].0, i);
  }

  /** Two objects with distinct keys are equal when they visit the same keys and read the same values. */
  lemma Extensional<V>(a: Assoc<V>, b: Assoc<V>)
    requires Distinct(Keys(a)) && Distinct(Keys(b))
    requires Keys(a) == Keys(b)
    requires forall k :: Lookup(a, k) == Lookup(b, k)
    ensures a == b
  {
    forall i | 0 <= i < |a| ensures a[i] == b[i] {
      assert Keys(a)[i] == Keys(b)[i];
      LookupAt(a, i);
      LookupAt(b, i);
    }
  }

  lemma {:induction false} AppendNewMember<T>(ks: seq<T>, xs: seq<T>, x: T)
    ensures x in AppendNew(ks, xs) <==> x in ks || x in xs
  {
    if |xs| > 0 {
      AppendNewMember(ks, xs[..|xs| - 1], x);
      assert xs == xs[..|xs| - 1] + [xs[|xs| - 1]];
    }
  }

  lemma {:induction false} AppendNewDistinct<T>(ks: seq<T>, xs: seq<T>)
    requires Distinct(ks)
    ensures Distinct(AppendNew(ks, xs))
  {
    if |xs| > 0 {
      AppendNewDistinct(ks, xs[..|xs| - 1]);
    }
  }

  lemma {:induction false} AppendNewConcat<T>(ks: seq<T>, xs: seq<T>, ys: seq<T>)
    ensures AppendNew(ks, xs + ys) == AppendNew(AppendNew(ks, xs), ys)
  {
    if |ys| == 0 {
      assert xs + ys == xs;
    } else {
      var ys' := ys[..|ys| - 1];
      assert (xs + ys)[..|xs + ys| - 1] == xs + ys';
      AppendNewConcat(ks, xs, ys');
    }
  }

  lemma AppendNewOne<T>(ks: seq<T>, x: T)
    ensures AppendNew(ks, [x]) == if x in ks then ks else ks + [x]
  {
    assert [x][..0] == [];
  }

  /** Appending the new elements of an already deduplicated list is the same as appending those of the list. */
  lemma {:induction false} AppendNewNest<T>(ks: seq<T>, js: seq<T>, xs: seq<T>)
    ensures AppendNew(ks, AppendNew(js, xs)) == AppendNew(AppendNew(ks, js), xs)
  {
    if |xs| > 0 {
      var xs', x := xs[..|xs| - 1], xs[|xs| - 1];
      AppendNewNest(ks, js, xs');
      var p := AppendNew(js, xs');
      AppendNewMember(ks, p, x);
      if x !in p {
        AppendNewConcat(ks, p, [x]);
        AppendNewOne(AppendNew(ks, p), x);
      }
    }
  }

  lemma {:induction false} SetAllKeys<V>(a: Assoc<V>, ps: Assoc<V>)
    ensures Keys(SetAll(a, ps)) == AppendNew(Keys(a), Keys(ps))
  {
    if |ps| > 0 {
      SetAllKeys(a, ps[..|ps| - 1]);
      KeysPrefix(ps, |ps| - 1);
    }
  }

  /** After assigning `ps`, a key reads the last value `ps` gave it, or its old value when `ps` never mentions it. */
  lemma {:induction false} SetAllLookup<V>(a: Assoc<V>, ps: Assoc<V>, k: string)
    ensures Lookup(SetAll(a, ps), k) == if LastValue(ps, k).Some? then LastValue(ps, k) else Lookup(a, k)
  {
    if |ps| > 0 {
      SetAllLookup(a, ps[..|ps| - 1], k);
    }
  }

  lemma {:induction false} SetAllDistinct<V>(a: Assoc<V>, ps: Assoc<V>)
    requires Distinct(Keys(a))
    ensures Distinct(Keys(SetAll(a, ps)))
  {
    if |ps| > 0 {
      SetAllDistinct(a, ps[..|ps| - 1]);
    }
  }

  lemma {:induction false} SetAllConcat<V>(a: Assoc<V>, ps: Assoc<V>, qs: Assoc<V>)
    ensures SetAll(a, ps + qs) == SetAll(SetAll(a, ps), qs)
  {
    if |qs| == 0 {
      assert ps + qs == ps;
    } else {
      var qs' := qs[..|qs| - 1];
      assert (ps + qs)[..|ps + qs| - 1] == ps + qs';
      SetAllConcat(a, ps, qs');
    }
  }

  /** Copying an object with distinct keys into a fresh one reproduces it. */
  lemma {:induction false} SetAllIdentity<V>(a: Assoc<V>)
    requires Distinct(Keys(a))
    ensures SetAll([], a) == a
  {
    if |a| > 0 {
      var n := |a| - 1;
      KeysPrefix(a, n);
      SetAllIdentity(a[..n]);
      assert Keys(a)[n] == a[n].0;
      assert a[n].0 !in Keys(a[..n]);
      assert a == a[..n] + [(a[n].0, a[n].1)];
    }
  }

  lemma {:induction false} LastValueOfDistinct<V>(d: Assoc<V>, k: string)
    requires Distinct(Keys(d))
    ensures LastValue(d, k) == Lookup(d, k)
  {
    if |d| > 0 {
      var n := |d| - 1;
      KeysPrefix(d, n);
      LastValueOfDistinct(d[..n], k);
      LastEntryIsSet(d);
    }
  }

  /** An object with distinct keys is its last entry assigned to the rest. */
  lemma LastEntryIsSet<V>(d: Assoc<V>)
    requires |d| > 0 && Distinct(Keys(d))
    ensures d == Set(d[..|d| - 1], d[|d| - 1].0, d[|d| - 1].1)
  {
    var n := |d| - 1;
    KeysPrefix(d, n);
    assert Keys(d)[n] == d[n].0;
    assert d[n].0 !in Keys(d[..n]);
    assert d == d[..n] + [(d[n].0, d[n].1)];
  }

  /** Assigning the entries of the object built from `ps` is the same as assigning `ps` itself. */
  lemma SetAllDedup<V>(a: Assoc<V>, ps: Assoc<V>)
    requires Distinct(Keys(a))
    ensures SetAll(a, SetAll([], ps)) == SetAll(a, ps)
  {
    var d := SetAll([], ps);
    SetAllDistinct([], ps);
    SetAllDistinct(a, d);
    SetAllDistinct(a, ps);
    SetAllKeys(a, d);
    SetAllKeys([], ps);
    SetAllKeys(a, ps);
    var empty: Assoc<V> := [];
    assert Keys(empty) == [];
    AppendNewNest(Keys(a), [], Keys(ps));
    forall k ensures Lookup(SetAll(a, d), k) == Lookup(SetAll(a, ps), k) {
      SetAllLookup(a, d, k);
      SetAllLookup(a, ps, k);
      LastValueOfDistinct(d, k);
      SetAllLookup([], ps, k);
    }
    Extensional(SetAll(a, d), SetAll(a, ps));
  }

  /** Spreading an object with distinct keys is assigning onto it. */
  lemma SpreadOfDistinct<V>(a: Assoc<V>, b: Assoc<V>)
    requires Distinct(Keys(a))
    ensures Spread(a, b) == SetAll(a, b)
  {
    SetAllIdentity(a);
  }

  /** Assigning a key the value it already holds changes nothing. */
  lemma SetSame<V>(a: Assoc<V>, k: string, v: V)
    requires Lookup(a, k) == Some(v)
    ensures Set(a, k, v) == a
  {
    IndexOfInKeys(a, k);
    assert a[IndexOf(a, k) := (k, v)] == a;
  }

  lemma {:induction false} SetAllSame<V>(a: Assoc<V>, ps: Assoc<V>)
    requires forall i :: 0 <= i < |ps| ==> Lookup(a, ps[i].0) == Some(ps[i].1)
    ensures SetAll(a, ps) == a
  {
    if |ps| > 0 {
      SetAllSame(a, ps[..|ps| - 1]);
      SetSame(a, ps[|ps| - 1].0, ps[|ps| - 1].1);
    }
  }

  /** What a spread object holds: the keys of `a`, then the new keys of `b`;
      a key reads its last value in `b`, else its last value in `a`. */
  lemma SpreadSpec<V>(a: Assoc<V>, b: Assoc<V>, k: string)
    ensures Distinct(Keys(Spread(a, b)))
    ensures Keys(Spread(a, b)) == AppendNew(AppendNew([], Keys(a)), Keys(b))
    ensures Lookup(Spread(a, b), k) == if LastValue(b, k).Some? then LastValue(b, k) else LastValue(a, k)
  {
    var empty: Assoc<V> := [];
    assert Keys(empty) == [];
    SetAllDistinct(empty, a);
    SetAllDistinct(SetAll(empty, a), b);
    SetAllKeys(empty, a);
    SetAllKeys(SetAll(empty, a), b);
    SetAllLookup(SetAll(empty, a), b, k);
    SetAllLookup(empty, a, k);
  }

  lemma LiteralSpec<V>(entries: Assoc<V>, k: string)
    ensures Distinct(Keys(Literal(entries)))
    ensures Lookup(Literal(entries), k) == LastValue(entries, k)
  {
    var empty: Assoc<V> := [];
    assert Keys(empty) == [];
    SetAllDistinct(empty, entries);
    SetAllLookup(empty, entries, k);
  }

  lemma LookupInKeys<V>(a: Assoc<V>, k: string)
    ensures Lookup(a, k).Some? <==> k in Keys(a)
  {
  }

  lemma LastValueSnoc<V>(ps: Assoc<V>, p: (string, V), k: string)
    ensures LastValue(ps + [p], k) == if p.0 == k then Some(p.1) else LastValue(ps, k)
  {
    assert (ps + [p])[..|ps|] == ps;
  }
}
