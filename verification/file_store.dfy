/** The filesystem as an immutable map from path to file contents, the
    `os.path.join` that builds the paths, and the replay of a list of file
    writes (`open(path, 'w')` followed by a full write). Directories are
    implicit: `os.makedirs` has no observable effect on this map. */
module FileStore {
  import opened Prelude
  import opened Json

  /** What a file holds: a JSON document written by `json.dump`, or text. */
  datatype Content = JsonDoc(doc: Json) | Text(text: string)

  type FileSystem = map<string, Content>

  /** One `open(path, 'w')` that replaces the whole file with `content`. */
  datatype Write = Write(path: string, content: Content)

  predicate IsAbsolute(name: string) {
    |name| > 0 && name[0] == '/'
  }

  /** `dir` followed by a separator unless it is empty or already ends in one. */
  function DirPrefix(dir: string): string {
    if |dir| == 0 || dir[|dir| - 1] == '/' then dir else dir + "/"
  }

  /** `os.path.join(dir, name)` on POSIX: an absolute `name` discards `dir`. */
  function PathJoin(dir: string, name: string): (p: string)
    ensures |p| >= |name| && p[|p| - |name|..] == name
    ensures !IsAbsolute(name) ==> p == DirPrefix(dir) + name
  {
    if IsAbsolute(name) then name else DirPrefix(dir) + name
  }

  /** Joining relative names onto one directory never merges two names. */
  lemma PathJoinInjective(dir: string, a: string, b: string)
    requires !IsAbsolute(a) && !IsAbsolute(b)
    requires PathJoin(dir, a) == PathJoin(dir, b)
    ensures a == b
  {
    var d := DirPrefix(dir);
    assert a == (d + a)[|d|..] == (d + b)[|d|..] == b;
  }

  /** Distinct relative names stay distinct once joined onto one directory. */
  lemma PathJoinDistinct(dir: string, a: string, b: string)
    requires !IsAbsolute(a) && !IsAbsolute(b) && a != b
    ensures PathJoin(dir, a) != PathJoin(dir, b)
  {
    var d := DirPrefix(dir);
    assert (d + a)[|d|..] == a;
    assert (d + b)[|d|..] == b;
  }

  /** Appending the same extension keeps distinct stems distinct. */
  lemma ExtensionDistinct(a: string, b: string, ext: string)
    requires a != b
    ensures a + ext != b + ext
  {
    assert (a + ext)[..|a|] == a;
    assert (b + ext)[..|b|] == b;
  }

  function WrittenPaths(ws: seq<Write>): set<string> {
    set i | 0 <= i < |ws| :: ws[i].path
  }

  /** The paths `<dir>/<stem>.json` of the given stems. */
  function JsonPathsUnder(dir: string, stems: seq<string>): set<string> {
    set k | 0 <= k < |stems| :: PathJoin(dir, stems[k] + ".json")
  }

  /** Writes made one per stem, to `<dir>/<stem>.json`, touch exactly the
      paths of those stems. */
  lemma WrittenJsonPaths(ws: seq<Write>, dir: string, stems: seq<string>)
    requires |ws| == |stems|
    requires forall k :: 0 <= k < |ws| ==> ws[k].path == PathJoin(dir, stems[k] + ".json")
    ensures WrittenPaths(ws) == JsonPathsUnder(dir, stems)
  {
    forall p | p in WrittenPaths(ws) ensures p in JsonPathsUnder(dir, stems) {
      var k :| 0 <= k < |ws| && ws[k].path == p;
      assert PathJoin(dir, stems[k] + ".json") == p;
    }
    forall p | p in JsonPathsUnder(dir, stems) ensures p in WrittenPaths(ws) {
      var k :| 0 <= k < |stems| && PathJoin(dir, stems[k] + ".json") == p;
      assert ws[k].path == p;
    }
  }

  /** The filesystem after performing the writes `ws` in order. */
  function ApplyWrites(fs: FileSystem, ws: seq<Write>): FileSystem
    decreases |ws|
  {
    if |ws| == 0 then fs else ApplyWrites(fs[ws[0].path := ws[0].content], ws[1..])
  }

  /** Replaying writes keeps every existing path and adds exactly the
      written ones. */
  lemma {:induction false} ApplyWritesKeys(fs: FileSystem, ws: seq<Write>)
    ensures ApplyWrites(fs, ws).Keys == fs.Keys + WrittenPaths(ws)
    decreases |ws|
  {
    if |ws| > 0 {
      ApplyWritesKeys(fs[ws[0].path := ws[0].content], ws[1..]);
      assert WrittenPaths(ws) == {ws[0].path} + WrittenPaths(ws[1..]) by {
        forall p | p in WrittenPaths(ws) ensures p in {ws[0].path} + WrittenPaths(ws[1..]) {
          var i :| 0 <= i < |ws| && ws[i].path == p;
          if i > 0 { assert ws[1..][i - 1].path == p; }
        }
        forall p | p in WrittenPaths(ws[1..]) ensures p in WrittenPaths(ws) {
          var i :| 0 <= i < |ws[1..]| && ws[1..][i].path == p;
          assert ws[i + 1].path == p;
        }
      }
    }
  }

  /** A path no write targets keeps its old contents (or stays absent). */
  lemma {:induction false} ApplyWritesElsewhere(fs: FileSystem, ws: seq<Write>, p: string)
    requires forall i :: 0 <= i < |ws| ==> ws[i].path != p
    ensures p in ApplyWrites(fs, ws) <==> p in fs
    ensures p in fs ==> ApplyWrites(fs, ws)[p] == fs[p]
    decreases |ws|
  {
    if |ws| > 0 {
      ApplyWritesElsewhere(fs[ws[0].path := ws[0].content], ws[1..], p);
    }
  }

  /** The last write to a path decides what the path holds. */
  lemma {:induction false} LastWriteWins(fs: FileSystem, ws: seq<Write>, i: nat)
    requires i < |ws|
    requires forall k :: i < k < |ws| ==> ws[k].path != ws[i].path
    ensures ws[i].path in ApplyWrites(fs, ws)
    ensures ApplyWrites(fs, ws)[ws[i].path] == ws[i].content
    decreases |ws|
  {
    if i == 0 {
      ApplyWritesElsewhere(fs[ws[0].path := ws[0].content], ws[1..], ws[0].path);
    } else {
      LastWriteWins(fs[ws[0].path := ws[0].content], ws[1..], i - 1);
    }
  }

  /** If every write to `p` carries the same contents `c`, and some write
      targets `p`, then `p` ends up holding `c`. */
  lemma UniformWrites(fs: FileSystem, ws: seq<Write>, p: string, c: Content)
    requires exists i :: 0 <= i < |ws| && ws[i].path == p
    requires forall i :: 0 <= i < |ws| && ws[i].path == p ==> ws[i].content == c
    ensures p in ApplyWrites(fs, ws) && ApplyWrites(fs, ws)[p] == c
  {
    var i :| 0 <= i < |ws| && ws[i].path == p;
    while exists k :: i < k < |ws| && ws[k].path == p
      invariant 0 <= i < |ws| && ws[i].path == p
      decreases |ws| - i
    {
      var j :| i < j < |ws| && ws[j].path == p;
      i := j;
    }
    LastWriteWins(fs, ws, i);
  }

  /** Replaying writes over `fs` is the same as overlaying, onto `fs`, what
      the writes alone produce. */
  lemma {:induction false} ApplyWritesOverlay(fs: FileSystem, ws: seq<Write>)
    ensures ApplyWrites(fs, ws) == fs + ApplyWrites(map[], ws)
    decreases |ws|
  {
    if |ws| > 0 {
      var p, c := ws[0].path, ws[0].content;
      ApplyWritesOverlay(fs[p := c], ws[1..]);
      ApplyWritesOverlay(map[][p := c], ws[1..]);
      UpdateThenOverlay(fs, p, c, ApplyWrites(map[], ws[1..]));
    }
  }

  lemma UpdateThenOverlay(fs: FileSystem, p: string, c: Content, w: FileSystem)
    ensures fs[p := c] + w == fs + (map[][p := c] + w)
  {
  }

  /** Performing the same writes twice leaves the same filesystem as once. */
  lemma ApplyWritesIdempotent(fs: FileSystem, ws: seq<Write>)
    ensures ApplyWrites(ApplyWrites(fs, ws), ws) == ApplyWrites(fs, ws)
  {
    var w := ApplyWrites(map[], ws);
    ApplyWritesOverlay(fs, ws);
    ApplyWritesOverlay(fs + w, ws);
    assert (fs + w) + w == fs + w;
  }

  /** Writes performed in two batches equal the writes performed in one. */
  lemma {:induction false} ApplyWritesAppend(fs: FileSystem, a: seq<Write>, b: seq<Write>)
    ensures ApplyWrites(fs, a + b) == ApplyWrites(ApplyWrites(fs, a), b)
    decreases |a|
  {
    if |a| > 0 {
      assert (a + b)[0] == a[0];
      assert (a + b)[1..] == a[1..] + b;
      ApplyWritesAppend(fs[a[0].path := a[0].content], a[1..], b);
    } else {
      assert a + b == b;
    }
  }
}
