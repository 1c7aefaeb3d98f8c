/** The parts of Node's `path` module the adapter relies on, for POSIX paths
    written with '/' and already normalised (no "." or ".." segments, no
    repeated separators inside a name).

    - `Extname` looks at the last '/'-segment only: the extension starts at its
      last '.', and is empty when there is no dot or the dot is the segment's
      first character.
    - `Resolve` keeps an absolute path and otherwise puts the working directory
      in front of it.
    - `Relative` compares '/'-segments: one ".." for every segment of `from`
      past the common prefix, then the rest of `to`.
 */
module Paths {

  /** Index of the last occurrence of `c` in `s`, or -1 when there is none. */
  function LastIndexOf(s: string, c: char): (i: int)
    ensures -1 <= i < |s|
    ensures i >= 0 ==> s[i] == c
    ensures forall j :: i < j < |s| ==> s[j] != c
  {
    if |s| == 0 then -1
    else if s[|s| - 1] == c then |s| - 1
    else LastIndexOf(s[..|s| - 1], c)
  }

  /** Index of the first occurrence of `c` in `s`, or `|s|` when there is none. */
  function IndexOfChar(s: string, c: char): (i: nat)
    ensures i <= |s|
    ensures i < |s| ==> s[i] == c
    ensures forall j :: 0 <= j < i ==> s[j] != c
  {
    if |s| == 0 then 0
    else if s[0] == c then 0
    else 1 + IndexOfChar(s[1..], c)
  }

  /** The text after the last '/'. */
  function LastSegment(p: string): (seg: string)
    ensures '/' !in seg
    ensures |seg| <= |p| && seg == p[|p| - |seg|..]
  {
    p[LastIndexOf(p, '/') + 1..]
  }

  /** `path.extname(p)`. */
  function Extname(p: string): (e: string)
    ensures e == "" || (e[0] == '.' && '.' !in e[1..] && '/' !in e)
    ensures |e| <= |p| && e == p[|p| - |e|..]
  {
    var seg := LastSegment(p);
    var d := LastIndexOf(seg, '.');
    if d <= 0 then ""
    else
      ExtensionOfSegment(p, seg, d);
      seg[d..]
  }

  lemma ExtensionOfSegment(p: string, seg: string, d: nat)
    requires |seg| <= |p| && seg == p[|p| - |seg|..] && '/' !in seg
    requires d < |seg| && seg[d] == '.'
    requires forall j :: d < j < |seg| ==> seg[j] != '.'
    ensures var e := seg[d..];
      e[0] == '.' && '.' !in e[1..] && '/' !in e && |e| <= |p| && e == p[|p| - |e|..]
  {
    var e := seg[d..];
    assert e[1..] == seg[d + 1..];
    assert e == p[|p| - |seg| + d..];
  }

  /** `e.replace(/^\./, "")`: drop one leading dot. */
  function StripDot(e: string): (r: string)
    ensures if |e| > 0 && e[0] == '.' then e == "." + r else r == e
  {
    if |e| > 0 && e[0] == '.' then e[1..] else e
  }

  lemma {:induction false} LastIndexOfAppend(s: string, t: string, c: char)
    requires c !in t
    ensures LastIndexOf(s + t, c) == LastIndexOf(s, c)
  {
    if |t| > 0 {
      assert (s + t)[..|s + t| - 1] == s + t[..|t| - 1];
      LastIndexOfAppend(s, t[..|t| - 1], c);
    } else {
      assert s + t == s;
    }
  }

  /** A manifest key is a chunk name followed by its file's extension; when
      both parts are non-empty, the key's own extension is the file's. */
  lemma ExtnameOfKey(chunkName: string, file: string)
    requires Extname(file) != ""
    requires LastSegment(chunkName) != ""
    ensures Extname(chunkName + Extname(file)) == Extname(file)
  {
    var e := Extname(file);
    var seg := LastSegment(chunkName);
    LastSegmentAppend(chunkName, e);
    LastDotOfExtension(seg, e);
    assert (seg + e)[|seg|..] == e;
  }

  lemma LastSegmentAppend(p: string, t: string)
    requires '/' !in t
    ensures LastSegment(p + t) == LastSegment(p) + t
  {
    LastIndexOfAppend(p, t, '/');
    var i := LastIndexOf(p, '/');
    assert (p + t)[i + 1..] == p[i + 1..] + t;
  }

  lemma LastDotOfExtension(seg: string, e: string)
    requires |e| > 0 && e[0] == '.' && '.' !in e[1..]
    ensures LastIndexOf(seg + e, '.') == |seg|
  {
    assert seg + e == (seg + ".") + e[1..];
    LastIndexOfAppend(seg + ".", e[1..], '.');
  }

  /** A name whose last segment has a non-empty stem has the extension after its dot. */
  lemma ExtnameOfDotted(stem: string, x: string)
    requires LastSegment(stem) != ""
    requires '.' !in x && '/' !in x
    ensures Extname(stem + "." + x) == "." + x
  {
    var seg := LastSegment(stem);
    LastSegmentAppend(stem, "." + x);
    assert stem + "." + x == stem + ("." + x);
    LastDotOfExtension(seg, "." + x);
    assert (seg + ("." + x))[|seg|..] == "." + x;
  }

  /** The extension is empty exactly when the last segment has no dot past its
      first character. */
  lemma ExtnameEmpty(p: string)
    ensures Extname(p) == "" <==>
      forall j :: 0 < j < |LastSegment(p)| ==> LastSegment(p)[j] != '.'
  {
    var seg := LastSegment(p);
    var d := LastIndexOf(seg, '.');
    if d > 0 {
      assert seg[d..][0] == '.';
    }
  }

  predicate IsAbsolute(p: string)
  {
    |p| > 0 && p[0] == '/'
  }

  /** `path.resolve(p)` against the working directory `cwd`. */
  function Resolve(cwd: string, p: string): (r: string)
    ensures IsAbsolute(p) ==> r == p
    ensures !IsAbsolute(p) ==> r == cwd + "/" + p
    ensures IsAbsolute(cwd) ==> IsAbsolute(r)
  {
    if IsAbsolute(p) then p else cwd + "/" + p
  }

  /** The non-empty '/'-separated names of a path. */
  function Segments(p: string): (segs: seq<string>)
    ensures forall i :: 0 <= i < |segs| ==> segs[i] != "" && '/' !in segs[i]
    decreases |p|
  {
    if |p| == 0 then []
    else if p[0] == '/' then Segments(p[1..])
    else
      var n := IndexOfChar(p, '/');
      [p[..n]] + Segments(p[n..])
  }

  /** Names joined with '/'. */
  function JoinPath(segs: seq<string>): (p: string)
    ensures |segs| == 0 ==> p == ""
    ensures |segs| > 0 && segs[0] != "" ==> |p| > 0 && p[0] == segs[0][0]
  {
    if |segs| == 0 then ""
    else if |segs| == 1 then segs[0]
    else segs[0] + "/" + JoinPath(segs[1..])
  }

  /** Length of the longest common prefix. */
  function CommonPrefix(xs: seq<string>, ys: seq<string>): (n: nat)
    ensures n <= |xs| && n <= |ys|
    ensures xs[..n] == ys[..n]
    ensures n < |xs| && n < |ys| ==> xs[n] != ys[n]
  {
    if |xs| == 0 || |ys| == 0 || xs[0] != ys[0] then 0
    else 1 + CommonPrefix(xs[1..], ys[1..])
  }

  /** `path.relative(from, to)`; never an absolute path. */
  function Relative(from: string, to: string): (r: string)
    ensures !IsAbsolute(r)
  {
    var fs, ts := Segments(from), Segments(to);
    var c := CommonPrefix(fs, ts);
    var ups := seq(|fs| - c, _ => "..");
    JoinPath(ups + ts[c..])
  }

  lemma IndexOfCharIs(s: string, c: char, i: nat)
    requires i <= |s|
    requires i < |s| ==> s[i] == c
    requires forall j :: 0 <= j < i ==> s[j] != c
    ensures IndexOfChar(s, c) == i
  {
  }

  /** Joining two paths with a separator joins their name lists. */
  lemma {:induction false} SegmentsJoin(a: string, b: string)
    ensures Segments(a + "/" + b) == Segments(a) + Segments(b)
    decreases |a|
  {
    var p := a + "/" + b;
    if |a| == 0 {
      assert p[1..] == b;
    } else if a[0] == '/' {
      assert p[1..] == a[1..] + "/" + b;
      SegmentsJoin(a[1..], b);
    } else {
      var n := IndexOfChar(a, '/');
      IndexOfCharIs(p, '/', n);
      assert p[..n] == a[..n];
      if n < |a| {
        assert p[n..] == a[n..] + "/" + b;
        SegmentsJoin(a[n..], b);
      } else {
        assert p[n..] == "/" + b && ("/" + b)[1..] == b;
        assert a[n..] == "";
      }
    }
  }

  /** A file under the destination directory gets its name below that directory. */
  lemma RelativeUnder(dest: string, rest: string)
    ensures Relative(dest, dest + "/" + rest) == JoinPath(Segments(rest))
  {
    var fs, rs := Segments(dest), Segments(rest);
    SegmentsJoin(dest, rest);
    var ts := fs + rs;
    assert Segments(dest + "/" + rest) == ts;
    var c := CommonPrefix(fs, ts);
    assert c == |fs|;
    var ups: seq<string> := seq(|fs| - c, _ => "..");
    assert ups == [];
    assert ups + ts[c..] == rs;
  }
}
