/** `src/cluster_words.py`: grouping the rows of a matrix by the labels
    KMeans assigns them, writing one text file per (cluster, label), running
    the clustering for a schedule of cluster counts, and printing one line
    per cluster. KMeans itself is a parameter. */
module ClusterWords {
  import opened Prelude
  import opened FileStore
  import opened Vectorizer

  /** One item of the dict `cluster_words` returns: the key and its list. */
  datatype Cluster = Cluster(id: nat, terms: seq<string>)

  /** `KMeans(n_clusters=k).fit(matrix).labels_.tolist()`. */
  type KMeans = (Matrix, int) -> Py<seq<int>>

  // ---------------------------------------------------------------------------
  // cluster_words

  /** What `get_feature_names_out()` yields, or `[]` without that method. */
  function FeatureNames(model: Model): seq<string> {
    match model.featureNames
    case Some(names) => names
    case None => []
  }

  /** The label of row `idx`: its feature name while there is one, else
      `Topic_<idx>`. */
  function TermLabel(terms: seq<string>, idx: nat): string {
    if idx < |terms| then terms[idx] else "Topic_" + NatToString(idx)
  }

  /** The rows below `n` labelled `c`, in ascending order. */
  function Members(labels: seq<int>, c: int, n: nat): (r: seq<nat>)
    requires n <= |labels|
    ensures forall i :: 0 <= i < |r| ==> r[i] < n && labels[r[i]] == c
    ensures forall i :: 0 <= i < n && labels[i] == c ==> i in r
    ensures forall i, j :: 0 <= i < j < |r| ==> r[i] < r[j]
  {
    if n == 0 then []
    else Members(labels, c, n - 1) + (if labels[n - 1] == c then [n - 1] else [])
  }

  /** The labels of the rows `idxs`. */
  function LabelsOf(terms: seq<string>, idxs: seq<nat>): seq<string> {
    seq(|idxs|, i requires 0 <= i < |idxs| => TermLabel(terms, idxs[i]))
  }

  /** `{i: [] for i in range(k)}`. */
  function EmptyLists(k: nat): (r: seq<seq<string>>)
    ensures |r| == k && forall i :: 0 <= i < k ==> r[i] == []
  {
    if k == 0 then [] else [[]] + EmptyLists(k - 1)
  }

  /** The lists after the loop has handled rows `0..n-1`: row `idx` appends
      its label to the list of its cluster; a cluster outside `0..k-1` is a
      KeyError. */
  function BucketsAfter(labels: seq<int>, terms: seq<string>, k: nat, n: nat): (r: Py<seq<seq<string>>>)
    requires n <= |labels|
    ensures r.Returns? ==> |r.value| == k
  {
    if n == 0 then Returns(EmptyLists(k))
    else
      match BucketsAfter(labels, terms, k, n - 1)
      case Raises => Raises
      case Returns(b) =>
        var c := labels[n - 1];
        if 0 <= c < k then Returns(b[c := b[c] + [TermLabel(terms, n - 1)]]) else Raises
  }

  predicate InRange(labels: seq<int>, k: int, n: nat)
    requires n <= |labels|
  {
    forall i :: 0 <= i < n ==> 0 <= labels[i] < k
  }

  /** The loop succeeds exactly when every label names a key, and then list
      `c` holds the labels of the rows of cluster `c`, in row order. */
  lemma {:induction false} BucketsAreMembers(labels: seq<int>, terms: seq<string>, k: nat, n: nat)
    requires n <= |labels|
    ensures BucketsAfter(labels, terms, k, n).Returns? <==> InRange(labels, k, n)
    ensures BucketsAfter(labels, terms, k, n).Returns? ==>
              forall c :: 0 <= c < k ==>
                BucketsAfter(labels, terms, k, n).value[c] == LabelsOf(terms, Members(labels, c, n))
    decreases n
  {
    if n > 0 {
      BucketsAreMembers(labels, terms, k, n - 1);
      if BucketsAfter(labels, terms, k, n - 1).Returns? && 0 <= labels[n - 1] < k {
        BucketsStep(labels, terms, k, n - 1, n);
      }
    }
  }

  /** One row of the loop, given the lists before it. */
  lemma BucketsStep(labels: seq<int>, terms: seq<string>, k: nat, m: nat, n: nat)
    requires n == m + 1 && n <= |labels| && 0 <= labels[m] < k
    requires BucketsAfter(labels, terms, k, m).Returns?
    requires forall c :: 0 <= c < k ==>
               BucketsAfter(labels, terms, k, m).value[c] == LabelsOf(terms, Members(labels, c, m))
    ensures BucketsAfter(labels, terms, k, n).Returns?
    ensures forall c :: 0 <= c < k ==>
              BucketsAfter(labels, terms, k, n).value[c] == LabelsOf(terms, Members(labels, c, n))
  {
    var l := labels[m];
    forall c | 0 <= c < k
      ensures BucketsAfter(labels, terms, k, n).value[c] == LabelsOf(terms, Members(labels, c, n))
    {
      if c == l {
        var before := Members(labels, c, m);
        assert Members(labels, c, n) == before + [m];
        assert LabelsOf(terms, before + [m]) == LabelsOf(terms, before) + [TermLabel(terms, m)];
      } else {
        assert Members(labels, c, n) == Members(labels, c, m);
      }
    }
  }

  /** Sum of the lengths of the lists. */
  function TotalSize(b: seq<seq<string>>): nat {
    if |b| == 0 then 0 else |b[0]| + TotalSize(b[1..])
  }

  lemma {:induction false} TotalSizeAppend(b: seq<seq<string>>, c: nat, x: string)
    requires c < |b|
    ensures TotalSize(b[c := b[c] + [x]]) == TotalSize(b) + 1
    decreases |b|
  {
    if c > 0 {
      TotalSizeAppend(b[1..], c - 1, x);
      assert b[c := b[c] + [x]][1..] == b[1..][c - 1 := b[c] + [x]];
    }
  }

  lemma {:induction false} TotalSizeEmpty(k: nat)
    ensures TotalSize(EmptyLists(k)) == 0
    decreases k
  {
    if k > 0 {
      TotalSizeEmpty(k - 1);
      assert EmptyLists(k)[1..] == EmptyLists(k - 1);
    }
  }

  /** Every row contributes exactly one label: the lists hold `n` labels in all. */
  lemma {:induction false} BucketsTotal(labels: seq<int>, terms: seq<string>, k: nat, n: nat)
    requires n <= |labels|
    requires BucketsAfter(labels, terms, k, n).Returns?
    ensures TotalSize(BucketsAfter(labels, terms, k, n).value) == n
    decreases n
  {
    if n == 0 {
      TotalSizeEmpty(k);
    } else {
      BucketsTotal(labels, terms, k, n - 1);
      TotalSizeAppend(BucketsAfter(labels, terms, k, n - 1).value, labels[n - 1], TermLabel(terms, n - 1));
    }
  }

  /** `cluster_words(matrix, vectorizer, num_clusters)`: KMeans may raise,
      and so does a label outside `0..num_clusters-1`. A negative count
      gives no keys. */
  function ClusterWords(kmeans: KMeans, matrix: Matrix, model: Model, k: int): (r: Py<seq<Cluster>>)
    ensures kmeans(matrix, k).Raises? ==> r.Raises?
    ensures r.Returns? ==> |r.value| == (if k < 0 then 0 else k)
    ensures r.Returns? ==> forall c :: 0 <= c < |r.value| ==> r.value[c].id == c
  {
    match kmeans(matrix, k)
    case Raises => Raises
    case Returns(labels) =>
      var size := if k < 0 then 0 else k;
      match BucketsAfter(labels, FeatureNames(model), size, |labels|)
      case Raises => Raises
      case Returns(b) => Returns(seq(size, i requires 0 <= i < size => Cluster(i, b[i])))
  }

  /** The keys are exactly `0..k-1` in order, including clusters no row
      landed in; list `c` holds the labels of the rows KMeans put in `c`, in
      ascending row order; the lists hold one label per row. */
  lemma ClusterWordsSpec(kmeans: KMeans, matrix: Matrix, model: Model, k: int)
    requires kmeans(matrix, k).Returns?
    ensures var labels := kmeans(matrix, k).value;
      var r := ClusterWords(kmeans, matrix, model, k);
      && (r.Returns? <==> InRange(labels, k, |labels|))
      && (r.Returns? ==>
            && |r.value| == (if k < 0 then 0 else k)
            && (forall c :: 0 <= c < k ==> r.value[c].id == c)
            && (forall c :: 0 <= c < k ==>
                  r.value[c].terms == LabelsOf(FeatureNames(model), Members(labels, c, |labels|)))
            && TotalTerms(r.value) == |labels|)
  {
    var labels := kmeans(matrix, k).value;
    var size := if k < 0 then 0 else k;
    BucketsAreMembers(labels, FeatureNames(model), size, |labels|);
    if k < 0 && |labels| > 0 {
      assert !(0 <= labels[0] < k);
    }
    var b := BucketsAfter(labels, FeatureNames(model), size, |labels|);
    var r := ClusterWords(kmeans, matrix, model, k);
    if b.Returns? {
      assert r == Returns(seq(size, i requires 0 <= i < size => Cluster(i, b.value[i])));
      BucketsTotal(labels, FeatureNames(model), size, |labels|);
      TotalTermsIsTotalSize(r.value, b.value);
    }
  }

  /** Sum of the lengths of the clusters' lists. */
  function TotalTerms(cs: seq<Cluster>): nat {
    if |cs| == 0 then 0 else |cs[0].terms| + TotalTerms(cs[1..])
  }

  lemma {:induction false} TotalTermsIsTotalSize(cs: seq<Cluster>, b: seq<seq<string>>)
    requires |cs| == |b| && forall i :: 0 <= i < |b| ==> cs[i].terms == b[i]
    ensures TotalTerms(cs) == TotalSize(b)
    decreases |b|
  {
    if |b| > 0 {
      TotalTermsIsTotalSize(cs[1..], b[1..]);
    }
  }

  /** Each row lands in exactly one list: the one of its own cluster. */
  lemma RowInExactlyOneCluster(labels: seq<int>, idx: nat, c: int)
    requires idx < |labels|
    ensures idx in Members(labels, c, |labels|) <==> labels[idx] == c
  {
  }

  /** Without `get_feature_names_out`, every label is `Topic_<row>`. */
  lemma NoFeatureNamesGivesTopics(kmeans: KMeans, matrix: Matrix, model: Model, k: int, c: nat, j: nat)
    requires model.featureNames.None?
    requires ClusterWords(kmeans, matrix, model, k).Returns?
    requires c < |ClusterWords(kmeans, matrix, model, k).value|
    requires j < |ClusterWords(kmeans, matrix, model, k).value[c].terms|
    ensures exists idx: nat :: ClusterWords(kmeans, matrix, model, k).value[c].terms[j] == "Topic_" + NatToString(idx)
  {
    ClusterWordsSpec(kmeans, matrix, model, k);
    var labels := kmeans(matrix, k).value;
    var idx := Members(labels, c, |labels|)[j];
    assert ClusterWords(kmeans, matrix, model, k).value[c].terms[j] == "Topic_" + NatToString(idx);
  }

  // ---------------------------------------------------------------------------
  // generate_file_structure

  /** `os.path.join(base_dir, f'cluster_{cluster_id}')`. */
  function ClusterDir(baseDir: string, id: nat): string {
    PathJoin(baseDir, "cluster_" + NatToString(id))
  }

  /** The file written for one term of one cluster. */
  function TermWrite(baseDir: string, id: nat, term: string): Write {
    Write(PathJoin(ClusterDir(baseDir, id), term + ".txt"),
          Text("Term: " + term + "\nCluster ID: " + NatToString(id) + "\n"))
  }

  /** The writes for one cluster, one per term in list order. */
  function TermWrites(baseDir: string, c: Cluster): seq<Write> {
    seq(|c.terms|, j requires 0 <= j < |c.terms| => TermWrite(baseDir, c.id, c.terms[j]))
  }

  function ClusterWrites(baseDir: string): Cluster -> seq<Write> {
    (c: Cluster) => TermWrites(baseDir, c)
  }

  /** Every file write of `generate_file_structure(clusters, base_dir)`, in order. */
  function StructureWrites(clusters: seq<Cluster>, baseDir: string): seq<Write> {
    FlatMap(ClusterWrites(baseDir), clusters)
  }

  /** `generate_file_structure(clusters, base_dir)` as a filesystem update;
      directory creation leaves no trace in the map. */
  function GenerateFileStructure(clusters: seq<Cluster>, baseDir: string, fs: FileSystem): (r: FileSystem)
    ensures fs.Keys <= r.Keys
  {
    var ws := StructureWrites(clusters, baseDir);
    ApplyWritesKeys(fs, ws);
    ApplyWrites(fs, ws)
  }

  /** A cluster's directory is the base prefix followed by `cluster_<id>`,
      and it never ends in a separator. */
  lemma ClusterDirShape(baseDir: string, id: nat)
    ensures ClusterDir(baseDir, id) == DirPrefix(baseDir) + ("cluster_" + NatToString(id))
    ensures DirPrefix(ClusterDir(baseDir, id)) == ClusterDir(baseDir, id) + "/"
  {
    var d := NatToString(id);
    var n := "cluster_" + d;
    assert n[0] == 'c';
    var dir := ClusterDir(baseDir, id);
    assert dir[|dir| - 1] == n[|n| - 1] == d[|d| - 1];
    assert IsDigit(d[|d| - 1]);
  }

  lemma Regroup(a: string, b: string, c: string, d: string, e: string)
    ensures ((a + (b + c)) + d) + e == (a + b) + (c + d + e)
  {
  }

  /** A relative term's file is `<base>/cluster_<id>/<term>.txt`. */
  lemma TermPathShape(baseDir: string, id: nat, term: string)
    requires !IsAbsolute(term)
    ensures TermWrite(baseDir, id, term).path
              == (DirPrefix(baseDir) + "cluster_") + (NatToString(id) + ['/'] + (term + ".txt"))
  {
    var name := term + ".txt";
    assert !IsAbsolute(name) by {
      if |term| == 0 { assert name[0] == '.'; } else { assert name[0] == term[0]; }
    }
    ClusterDirShape(baseDir, id);
    assert TermWrite(baseDir, id, term).path == (ClusterDir(baseDir, id) + "/") + name;
    Regroup(DirPrefix(baseDir), "cluster_", NatToString(id), "/", name);
  }

  /** A term that names a file directly inside its cluster's directory:
      one with a `/` would name a file elsewhere, and two such terms can
      name one file through different strings (`x` and `./x`). */
  predicate PlainTerm(term: string) {
    '/' !in term
  }

  /** The paths of distinct (cluster, plain term) pairs never coincide. */
  lemma TermPathInjective(baseDir: string, id1: nat, t1: string, id2: nat, t2: string)
    requires PlainTerm(t1) && PlainTerm(t2)
    requires TermWrite(baseDir, id1, t1).path == TermWrite(baseDir, id2, t2).path
    ensures id1 == id2 && t1 == t2
  {
    PlainTermIsRelative(t1);
    PlainTermIsRelative(t2);
    var p := DirPrefix(baseDir) + "cluster_";
    var x := NatToString(id1) + ['/'] + (t1 + ".txt");
    var y := NatToString(id2) + ['/'] + (t2 + ".txt");
    TermPathShape(baseDir, id1, t1);
    TermPathShape(baseDir, id2, t2);
    assert x == (p + x)[|p|..] == (p + y)[|p|..] == y;
    NoSlashInDigits(id1);
    NoSlashInDigits(id2);
    SplitAtFirst(NatToString(id1), NatToString(id2), t1 + ".txt", t2 + ".txt", '/');
    NatToStringInjective(id1, id2);
    assert t1 == (t1 + ".txt")[..|t1|];
    assert t2 == (t2 + ".txt")[..|t2|];
  }

  lemma NoSlashInDigits(n: nat)
    ensures '/' !in NatToString(n)
  {
    var s := NatToString(n);
    forall k | 0 <= k < |s| ensures s[k] != '/' {
      assert IsDigit(s[k]);
    }
  }

  /** The writes are exactly the (cluster, term) pairs. */
  lemma StructureWritesMembers(clusters: seq<Cluster>, baseDir: string, w: Write)
    requires w in StructureWrites(clusters, baseDir)
    ensures exists c, j :: 0 <= c < |clusters| && 0 <= j < |clusters[c].terms|
              && w == TermWrite(baseDir, clusters[c].id, clusters[c].terms[j])
  {
    FlatMapMember(ClusterWrites(baseDir), clusters, w);
  }

  lemma PlainTermIsRelative(term: string)
    requires PlainTerm(term)
    ensures !IsAbsolute(term)
  {
    if |term| > 0 {
      assert term[0] in term;
    }
  }

  predicate PlainTerms(clusters: seq<Cluster>) {
    forall c, j :: 0 <= c < |clusters| && 0 <= j < |clusters[c].terms| ==> PlainTerm(clusters[c].terms[j])
  }

  /** Every (id, term) gets `base/cluster_<id>/<term>.txt` holding exactly
      `Term: <term>\nCluster ID: <id>\n`, provided no term holds a `/`. */
  lemma EveryTermHasItsFile(clusters: seq<Cluster>, baseDir: string, fs: FileSystem, c: nat, j: nat)
    requires PlainTerms(clusters)
    requires c < |clusters| && j < |clusters[c].terms|
    ensures var id, term := clusters[c].id, clusters[c].terms[j];
      var path := PathJoin(PathJoin(baseDir, "cluster_" + NatToString(id)), term + ".txt");
      var fs' := GenerateFileStructure(clusters, baseDir, fs);
      path in fs' && fs'[path] == Text("Term: " + term + "\nCluster ID: " + NatToString(id) + "\n")
  {
    var ws := StructureWrites(clusters, baseDir);
    var w := TermWrite(baseDir, clusters[c].id, clusters[c].terms[j]);
    assert ClusterWrites(baseDir)(clusters[c]) == TermWrites(baseDir, clusters[c]);
    assert TermWrites(baseDir, clusters[c])[j] == w;
    FlatMapContains(ClusterWrites(baseDir), clusters, c, w);
    var i :| 0 <= i < |ws| && ws[i] == w;
    forall k | 0 <= k < |ws| && ws[k].path == w.path ensures ws[k].content == w.content {
      StructureWritesMembers(clusters, baseDir, ws[k]);
      var c', j' :| 0 <= c' < |clusters| && 0 <= j' < |clusters[c'].terms|
        && ws[k] == TermWrite(baseDir, clusters[c'].id, clusters[c'].terms[j']);
      TermPathInjective(baseDir, clusters[c'].id, clusters[c'].terms[j'], clusters[c].id, clusters[c].terms[j]);
    }
    UniformWrites(fs, ws, w.path, w.content);
  }

  /** Paths no term maps to keep their contents: the update only adds. */
  lemma StructureLeavesOthers(clusters: seq<Cluster>, baseDir: string, fs: FileSystem, p: string)
    requires forall c, j :: 0 <= c < |clusters| && 0 <= j < |clusters[c].terms| ==>
               TermWrite(baseDir, clusters[c].id, clusters[c].terms[j]).path != p
    ensures p in GenerateFileStructure(clusters, baseDir, fs) <==> p in fs
    ensures p in fs ==> GenerateFileStructure(clusters, baseDir, fs)[p] == fs[p]
  {
    var ws := StructureWrites(clusters, baseDir);
    forall i | 0 <= i < |ws| ensures ws[i].path != p {
      StructureWritesMembers(clusters, baseDir, ws[i]);
    }
    ApplyWritesElsewhere(fs, ws, p);
  }

  /** Generating the same structure twice leaves what generating it once does. */
  lemma StructureIdempotent(clusters: seq<Cluster>, baseDir: string, fs: FileSystem)
    ensures GenerateFileStructure(clusters, baseDir, GenerateFileStructure(clusters, baseDir, fs))
              == GenerateFileStructure(clusters, baseDir, fs)
  {
    ApplyWritesIdempotent(fs, StructureWrites(clusters, baseDir));
  }

  // ---------------------------------------------------------------------------
  // refine_clusters

  /** What the refinement loop leaves behind and whether an exception ended it. */
  datatype Refined = Refined(fs: FileSystem, raised: bool)

  /** `f'output_iteration_{iteration}'`. */
  function IterationDir(iteration: nat): string {
    "output_iteration_" + NatToString(iteration)
  }

  /** The clustering attempted by each iteration: iteration `i` asks for
      `initial + i` clusters. */
  function Attempts(kmeans: KMeans, matrix: Matrix, model: Model, initial: int): nat -> Py<seq<Cluster>> {
    (i: nat) => ClusterWords(kmeans, matrix, model, initial + i)
  }

  /** The state after the first `n` iterations of the loop, given what each
      iteration's clustering yields; iteration `i` writes into
      `output_iteration_<i>`. Nothing catches an exception, so the first one
      ends the loop. */
  function RefineLoop(attempt: nat -> Py<seq<Cluster>>, n: nat, fs: FileSystem): Refined {
    if n == 0 then Refined(fs, false)
    else
      var before := RefineLoop(attempt, n - 1, fs);
      if before.raised then before
      else
        match attempt(n - 1)
        case Raises => Refined(before.fs, true)
        case Returns(clusters) => Refined(GenerateFileStructure(clusters, IterationDir(n - 1), before.fs), false)
  }

  /** `refine_clusters(matrix, vectorizer, num_iterations, initial_clusters)`,
      with `n` for `num_iterations` and `initial` for `initial_clusters`. */
  function RefineClusters(kmeans: KMeans, matrix: Matrix, model: Model, n: nat, initial: int, fs: FileSystem): (r: Refined)
    ensures !r.raised <==> AllSucceed(Attempts(kmeans, matrix, model, initial), n)
  {
    RefineLoopCompletes(Attempts(kmeans, matrix, model, initial), n, fs);
    RefineLoop(Attempts(kmeans, matrix, model, initial), n, fs)
  }

  /** The writes iteration `i` performs, given that its clustering succeeds. */
  function IterationWrites(attempt: nat -> Py<seq<Cluster>>, i: nat): seq<Write> {
    match attempt(i)
    case Raises => []
    case Returns(clusters) => StructureWrites(clusters, IterationDir(i))
  }

  /** All writes of iterations `0..n-1`, in order. */
  function ScheduleWrites(attempt: nat -> Py<seq<Cluster>>, n: nat): seq<Write> {
    if n == 0 then [] else ScheduleWrites(attempt, n - 1) + IterationWrites(attempt, n - 1)
  }

  predicate AllSucceed(attempt: nat -> Py<seq<Cluster>>, n: nat) {
    forall i: nat :: i < n ==> attempt(i).Returns?
  }

  /** The loop completes exactly when every iteration's clustering succeeds. */
  lemma {:induction false} RefineLoopCompletes(attempt: nat -> Py<seq<Cluster>>, n: nat, fs: FileSystem)
    ensures !RefineLoop(attempt, n, fs).raised <==> AllSucceed(attempt, n)
    decreases n
  {
    if n > 0 {
      RefineLoopCompletes(attempt, n - 1, fs);
      var before := RefineLoop(attempt, n - 1, fs);
      if AllSucceed(attempt, n) {
        assert AllSucceed(attempt, n - 1);
        assert attempt(n - 1).Returns?;
      }
      if !RefineLoop(attempt, n, fs).raised {
        assert !before.raised && attempt(n - 1).Returns?;
        forall i: nat | i < n ensures attempt(i).Returns? {
          if i < n - 1 { assert AllSucceed(attempt, n - 1); }
        }
      }
    }
  }

  /** A completed loop leaves the replay of every iteration's writes in order. */
  lemma {:induction false} RefineLoopSchedule(attempt: nat -> Py<seq<Cluster>>, n: nat, fs: FileSystem)
    ensures !RefineLoop(attempt, n, fs).raised ==>
              RefineLoop(attempt, n, fs).fs == ApplyWrites(fs, ScheduleWrites(attempt, n))
    decreases n
  {
    if n > 0 {
      RefineLoopSchedule(attempt, n - 1, fs);
      if !RefineLoop(attempt, n, fs).raised {
        RefineLoopStep(attempt, n, fs);
        ApplyWritesAppend(fs, ScheduleWrites(attempt, n - 1), IterationWrites(attempt, n - 1));
      }
    }
  }

  /** A completed iteration replays its own writes over what the earlier ones left. */
  lemma RefineLoopStep(attempt: nat -> Py<seq<Cluster>>, n: nat, fs: FileSystem)
    requires n > 0 && !RefineLoop(attempt, n, fs).raised
    ensures !RefineLoop(attempt, n - 1, fs).raised
    ensures RefineLoop(attempt, n, fs).fs == ApplyWrites(RefineLoop(attempt, n - 1, fs).fs, IterationWrites(attempt, n - 1))
  {
  }

  /** `refine_clusters` completes exactly when KMeans succeeds, with every
      label in range, for each of the counts `initial .. initial+n-1`; it
      then leaves every iteration's files, later iterations overwriting
      earlier ones. */
  lemma RefineSchedule(kmeans: KMeans, matrix: Matrix, model: Model, n: nat, initial: int, fs: FileSystem)
    ensures var attempt := Attempts(kmeans, matrix, model, initial);
      var r := RefineClusters(kmeans, matrix, model, n, initial, fs);
      && (!r.raised <==> forall i: nat :: i < n ==> attempt(i).Returns?)
      && (!r.raised ==> r.fs == ApplyWrites(fs, ScheduleWrites(attempt, n)))
  {
    RefineLoopCompletes(Attempts(kmeans, matrix, model, initial), n, fs);
    RefineLoopSchedule(Attempts(kmeans, matrix, model, initial), n, fs);
  }

  /** After the first failure, further iterations change nothing. */
  lemma {:induction false} RefineStopsAtFailure(attempt: nat -> Py<seq<Cluster>>, n: nat, m: nat, fs: FileSystem)
    requires n <= m
    requires RefineLoop(attempt, n, fs).raised
    ensures RefineLoop(attempt, m, fs) == RefineLoop(attempt, n, fs)
    decreases m - n
  {
    if n < m {
      RefineStopsAtFailure(attempt, n, m - 1, fs);
    }
  }

  // ---------------------------------------------------------------------------
  // visualize_clusters

  /** The start of the line printed for cluster `id`. */
  function Header(id: nat): string {
    "Cluster " + NatToString(id) + ": "
  }

  /** The line printed for one cluster. */
  function VisualizeLine(c: Cluster): string {
    Header(c.id) + Join(c.terms, ", ")
  }

  /** `visualize_clusters(clusters)`: one line per key, in dict order. Each
      line starts with its cluster's header, a cluster without labels prints
      the header alone, and comma-free labels can be read back from the rest
      of the line. */
  function VisualizeClusters(clusters: seq<Cluster>): (lines: seq<string>)
    ensures |lines| == |clusters|
    ensures forall i :: 0 <= i < |clusters| ==> ReadsBack(clusters[i], lines[i])
  {
    LinesReadBack(clusters);
    seq(|clusters|, i requires 0 <= i < |clusters| => VisualizeLine(clusters[i]))
  }

  /** `line` is `c`'s header followed by text that splits back into `c`'s
      labels (nothing at all when it has none), when they hold no comma. */
  predicate ReadsBack(c: Cluster, line: string) {
    var h := Header(c.id);
    && |h| <= |line| && line[..|h|] == h
    && (|c.terms| == 0 ==> line == h)
    && (|c.terms| > 0 && CommaFree(c.terms) ==> SplitTerms(line[|h|..]) == c.terms)
  }

  lemma LinesReadBack(clusters: seq<Cluster>)
    ensures forall i :: 0 <= i < |clusters| ==> ReadsBack(clusters[i], VisualizeLine(clusters[i]))
  {
    forall i | 0 <= i < |clusters| ensures ReadsBack(clusters[i], VisualizeLine(clusters[i])) {
      LineReadsBack(clusters[i]);
    }
  }

  lemma LineReadsBack(c: Cluster)
    ensures ReadsBack(c, VisualizeLine(c))
  {
    var h := Header(c.id);
    assert VisualizeLine(c)[..|h|] == h;
    if |c.terms| > 0 && CommaFree(c.terms) {
      VisualizeLineReadsBack(c);
    }
  }

  /** Splitting on ", " where every comma starts a separator. */
  function SplitTerms(s: string): seq<string>
    decreases |s|
  {
    if ',' !in s then [s]
    else
      var i := FirstComma(s);
      if i + 2 <= |s| then [s[..i]] + SplitTerms(s[i + 2..]) else [s[..i]]
  }

  function FirstComma(s: string): (i: nat)
    requires ',' in s
    ensures i < |s| && s[i] == ',' && ',' !in s[..i]
  {
    if s[0] == ',' then 0 else 1 + FirstComma(s[1..])
  }

  lemma {:induction false} FirstCommaAt(s: string, i: nat)
    requires i < |s| && s[i] == ',' && ',' !in s[..i]
    ensures FirstComma(s) == i
    decreases i
  {
    if i > 0 {
      assert s[0] == s[..i][0];
      assert s[1..][..i - 1] == s[1..i];
      assert forall c :: c in s[1..i] ==> c in s[..i];
      FirstCommaAt(s[1..], i - 1);
    }
  }

  predicate CommaFree(terms: seq<string>) {
    forall i :: 0 <= i < |terms| ==> ',' !in terms[i]
  }

  /** A comma-free first label is split off its line at the first separator. */
  lemma SplitTermsCons(t: string, rest: string)
    requires ',' !in t
    ensures SplitTerms(t + ", " + rest) == [t] + SplitTerms(rest)
  {
    var s := t + ", " + rest;
    assert s[|t|] == ',' && s[..|t|] == t;
    FirstCommaAt(s, |t|);
    assert s[|t| + 2..] == rest;
  }

  /** The list part of a line splits back into the cluster's labels when
      there is at least one and none contains a comma. */
  lemma {:induction false} JoinedTermsSplitBack(terms: seq<string>)
    requires |terms| > 0 && CommaFree(terms)
    ensures SplitTerms(Join(terms, ", ")) == terms
    decreases |terms|
  {
    if |terms| == 1 {
      SplitOne(terms);
    } else {
      CommaFreeTail(terms);
      JoinedTermsSplitBack(terms[1..]);
      JoinedTermsStep(terms);
    }
  }

  lemma SplitOne(terms: seq<string>)
    requires |terms| == 1 && CommaFree(terms)
    ensures SplitTerms(Join(terms, ", ")) == terms
  {
    assert ',' !in terms[0];
    assert terms == [terms[0]];
  }

  lemma CommaFreeTail(terms: seq<string>)
    requires |terms| > 0 && CommaFree(terms)
    ensures CommaFree(terms[1..])
  {
    assert forall i :: 0 <= i < |terms| - 1 ==> terms[1..][i] == terms[i + 1];
  }

  lemma JoinedTermsStep(terms: seq<string>)
    requires |terms| > 1 && CommaFree(terms)
    requires SplitTerms(Join(terms[1..], ", ")) == terms[1..]
    ensures SplitTerms(Join(terms, ", ")) == terms
  {
    var t, rest := terms[0], terms[1..];
    assert ',' !in t;
    assert Join(terms, ", ") == t + ", " + Join(rest, ", ");
    SplitTermsCons(t, Join(rest, ", "));
    assert terms == [t] + rest;
  }

  /** Each printed line is "Cluster <id>: " followed by the labels, which
      can be read back from it. */
  lemma VisualizeLineReadsBack(c: Cluster)
    requires |c.terms| > 0 && CommaFree(c.terms)
    ensures var prefix := Header(c.id);
      var line := VisualizeLine(c);
      |prefix| <= |line| && line[..|prefix|] == prefix && SplitTerms(line[|prefix|..]) == c.terms
  {
    var prefix := Header(c.id);
    var line := VisualizeLine(c);
    assert line == prefix + Join(c.terms, ", ");
    assert line[|prefix|..] == Join(c.terms, ", ");
    JoinedTermsSplitBack(c.terms);
  }
}
