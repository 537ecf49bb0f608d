/** `main.py`: the batch driver. Step 1 splits every `.json` file of the
    input directory into one file per conversation; step 2 runs each of
    those through the gate (user content present, all strings, at least two
    documents with tokens), the three vectorizers, the cluster-count clamp,
    `cluster_words`, `generate_file_structure` and `visualize_clusters`.
    One `try` wraps both steps, so the first exception ends the run. */
module Pipeline {
  import opened Prelude
  import opened Json
  import opened FileStore
  import opened Vectorizer
  import opened ClusterWords
  import JsonUtils
  import TextPreprocessor

  /** The libraries the driver reaches: NLTK, scikit-learn's vectorizers and KMeans. */
  datatype Env = Env(nlp: TextPreprocessor.Nlp, lib: Library, kmeans: KMeans)

  /** `num_topics` of the LDA call. */
  const NumTopics: nat := 10

  /** `filename.endswith(".json")`. */
  predicate IsJsonName(name: string) {
    |name| >= 5 && name[|name| - 5..] == ".json"
  }

  /** `load_json(path)`: the parsed document, or `{}` when the file is
      missing or does not hold JSON. */
  function Load(fs: FileSystem, path: string): (data: Json)
    ensures path !in fs ==> !Truthy(data)
  {
    if path in fs && fs[path].JsonDoc? then fs[path].doc else JObj([])
  }

  // ---------------------------------------------------------------------------
  // The cluster-count clamp

  /** `max(2, min(5, rows))`. */
  function NumClusters(rows: int): (k: int)
    ensures 2 <= k <= 5
    ensures 2 <= rows <= 5 ==> k == rows
    ensures rows < 2 ==> k > rows
    ensures rows > 5 ==> k == 5
  {
    if rows < 2 then 2 else if rows > 5 then 5 else rows
  }

  // ---------------------------------------------------------------------------
  // Gating one file's user content

  /** Why a file was passed over. */
  datatype SkipReason = NotLoaded | NoContent | NotAllStrings | NoTexts | TooFewDocuments

  /** The gate's verdict: a reason to skip, or the documents to vectorize. */
  datatype Gate = Rejected(reason: SkipReason) | Documents(docs: seq<string>)

  predicate AllStrings(content: seq<Json>) {
    forall i :: 0 <= i < |content| ==> content[i].JStr?
  }

  /** `preprocess_text(content)` with its default flags. */
  function Preprocess(nlp: TextPreprocessor.Nlp): string -> seq<string> {
    (s: string) => TextPreprocessor.PreprocessText(nlp, s, TextPreprocessor.DefaultStemming, TextPreprocessor.DefaultLemmatization)
  }

  /** `[preprocess_text(content) for content in user_content]`. */
  function Texts(preprocess: string -> seq<string>, content: seq<Json>): seq<seq<string>>
    requires AllStrings(content)
  {
    seq(|content|, i requires 0 <= i < |content| => preprocess(content[i].s))
  }

  predicate HasTokens(tokens: seq<string>) {
    |tokens| > 0
  }

  /** Non-empty, with no blank at either end. */
  predicate Trimmed(s: string) {
    |s| > 0 && s[0] != ' ' && s[|s| - 1] != ' '
  }

  predicate AllTrimmed(tokens: seq<string>) {
    forall j :: 0 <= j < |tokens| ==> Trimmed(tokens[j])
  }

  /** `[' '.join(tokens) for tokens in ...]`: one document per token list,
      and a document never starts or ends with a blank when its tokens
      do not. */
  function JoinEach(kept: seq<seq<string>>): (docs: seq<string>)
    ensures |docs| == |kept|
    ensures forall i :: 0 <= i < |kept| && |kept[i]| > 0 && AllTrimmed(kept[i]) ==> Trimmed(docs[i])
  {
    forall i | 0 <= i < |kept| && |kept[i]| > 0 && AllTrimmed(kept[i])
      ensures Trimmed(Join(kept[i], " "))
    {
      TrimmedJoin(kept[i]);
    }
    seq(|kept|, i requires 0 <= i < |kept| => Join(kept[i], " "))
  }

  lemma TrimmedJoin(tokens: seq<string>)
    requires |tokens| > 0 && AllTrimmed(tokens)
    ensures Trimmed(Join(tokens, " "))
  {
    var doc, first, last := Join(tokens, " "), tokens[0], tokens[|tokens| - 1];
    JoinEnds(tokens, " ");
    assert Trimmed(first) && Trimmed(last);
    assert doc[0] == doc[..|first|][0] == first[0];
    assert doc[|doc| - 1] == doc[|doc| - |last|..][|last| - 1] == last[|last| - 1];
  }

  /** The checks of the loop body before vectorizing: empty content, a
      non-string item, an empty text list (which cannot happen once content
      is non-empty), and fewer than two token lists left after dropping the
      empty ones. */
  function GateContent(preprocess: string -> seq<string>, content: seq<Json>): (g: Gate)
    ensures g != Rejected(NoTexts) && g != Rejected(NotLoaded)
  {
    if |content| == 0 then Rejected(NoContent)
    else if !AllStrings(content) then Rejected(NotAllStrings)
    else
      var texts := Texts(preprocess, content);
      if |texts| == 0 then Rejected(NoTexts)
      else
        var kept := Filter(texts, HasTokens);
        if |kept| < 2 then Rejected(TooFewDocuments) else Documents(JoinEach(kept))
  }

  /** The gate lets a file through exactly when its content is non-empty,
      all strings, and at least two items preprocess to some token. The
      documents are then those items' tokens joined with single spaces, in
      content order, none from an item without tokens. */
  lemma GateSpec(preprocess: string -> seq<string>, content: seq<Json>)
    ensures |content| == 0 ==> GateContent(preprocess, content) == Rejected(NoContent)
    ensures (exists i :: 0 <= i < |content| && !content[i].JStr?) ==>
              GateContent(preprocess, content) == Rejected(NotAllStrings)
    ensures GateContent(preprocess, content).Documents? <==>
              AllStrings(content) && |Filter(Texts(preprocess, content), HasTokens)| >= 2
    ensures GateContent(preprocess, content).Documents? ==>
              var kept := Filter(Texts(preprocess, content), HasTokens);
              var docs := GateContent(preprocess, content).docs;
              && |docs| == |kept| >= 2
              && IsSubseq(kept, Texts(preprocess, content))
              && forall i :: 0 <= i < |docs| ==> |kept[i]| > 0 && docs[i] == Join(kept[i], " ")
  {
    if |content| > 0 && AllStrings(content) {
      FilterIsSubseq(Texts(preprocess, content), HasTokens);
    }
  }

  lemma AllStringsAppend(a: seq<Json>, b: seq<Json>)
    ensures AllStrings(a + b) <==> AllStrings(a) && AllStrings(b)
  {
    if AllStrings(a + b) {
      forall i | 0 <= i < |a| ensures a[i].JStr? { assert a[i] == (a + b)[i]; }
      forall i | 0 <= i < |b| ensures b[i].JStr? { assert b[i] == (a + b)[|a| + i]; }
    }
  }

  lemma TextsAppend(preprocess: string -> seq<string>, a: seq<Json>, b: seq<Json>)
    requires AllStrings(a) && AllStrings(b)
    ensures AllStrings(a + b)
    ensures Texts(preprocess, a + b) == Texts(preprocess, a) + Texts(preprocess, b)
  {
    AllStringsAppend(a, b);
  }

  /** The gate looks at non-empty content only through whether it is all
      strings and through the token lists that survive the filter. */
  lemma GateByKept(preprocess: string -> seq<string>, c1: seq<Json>, c2: seq<Json>)
    requires |c1| > 0 && |c2| > 0
    requires AllStrings(c1) <==> AllStrings(c2)
    requires AllStrings(c1) ==> Filter(Texts(preprocess, c1), HasTokens) == Filter(Texts(preprocess, c2), HasTokens)
    ensures GateContent(preprocess, c1) == GateContent(preprocess, c2)
  {
  }

  /** A string item that preprocesses to no tokens changes nothing, as long
      as some other item remains: it is dropped before the count. */
  lemma GateIgnoresTokenless(preprocess: string -> seq<string>, a: seq<Json>, x: string, b: seq<Json>)
    requires |a + b| > 0 && preprocess(x) == []
    ensures GateContent(preprocess, a + [JStr(x)] + b) == GateContent(preprocess, a + b)
  {
    var whole := a + [JStr(x)] + b;
    AllStringsAppend(a, b);
    AllStringsAppend(a + [JStr(x)], b);
    AllStringsAppend(a, [JStr(x)]);
    assert AllStrings([JStr(x)]);
    if AllStrings(a + b) {
      var ta, tb := Texts(preprocess, a), Texts(preprocess, b);
      TextsAppend(preprocess, a, [JStr(x)]);
      var t1 := Texts(preprocess, a + [JStr(x)]);
      assert t1 == ta + [[]];
      TextsAppend(preprocess, a + [JStr(x)], b);
      TextsAppend(preprocess, a, b);
      FilterAppend(t1, tb, HasTokens);
      FilterAppend(ta, [[]], HasTokens);
      FilterAppend(ta, tb, HasTokens);
      assert Filter(t1, HasTokens) == Filter(ta, HasTokens) by {
        assert Filter([[]], HasTokens) == [];
        assert Filter(ta, HasTokens) + [] == Filter(ta, HasTokens);
      }
    }
    GateByKept(preprocess, whole, a + b);
  }

  // ---------------------------------------------------------------------------
  // One conversation file

  /** What the loop body does with one file: skip it, finish it (the files
      written and the lines printed), or raise. */
  datatype Outcome = Skipped(reason: SkipReason) | Processed(fs: FileSystem, lines: seq<string>) | Failed

  /** Vectorizing, clamping, clustering and writing the gated documents.
      No wrapper catches anything, so each library failure raises; the
      `is None` checks never fire. */
  function ClusterDocuments(env: Env, docs: seq<string>, outputBase: string, fs: FileSystem): Outcome {
    match VectorizeTfidf(env.lib, docs)
    case Raises => Failed
    case Returns((tfidf, model)) =>
      if VectorizeCount(env.lib, docs).Raises? then Failed
      else if VectorizeLda(env.lib, docs, NumTopics).Raises? then Failed
      else
        match ClusterWords.ClusterWords(env.kmeans, tfidf, model, NumClusters(Rows(tfidf)))
        case Raises => Failed
        case Returns(clusters) =>
          Processed(GenerateFileStructure(clusters, outputBase, fs), VisualizeClusters(clusters))
  }

  /** The body of the step-2 loop for one loaded document. */
  function ProcessFile(env: Env, data: Json, outputBase: string, fs: FileSystem): (o: Outcome)
    ensures o != Skipped(NoTexts)
    ensures o.Processed? ==> Truthy(data) && |JsonUtils.ExtractUserAuthoredContent(data)| >= 2
  {
    if !Truthy(data) then Skipped(NotLoaded)
    else
      var content := JsonUtils.ExtractUserAuthoredContent(data);
      GateSpec(Preprocess(env.nlp), content);
      match GateContent(Preprocess(env.nlp), content)
      case Rejected(reason) => Skipped(reason)
      case Documents(docs) => ClusterDocuments(env, docs, outputBase, fs)
  }

  /** The vectorizers fit one joined document, so the TF-IDF matrix has a
      single row and the clamp asks for two clusters: more than there are rows. */
  lemma ClampExceedsRows(env: Env, docs: seq<string>)
    requires VectorizeTfidf(env.lib, docs).Returns?
    ensures var rows := Rows(VectorizeTfidf(env.lib, docs).value.0);
      rows == 1 && NumClusters(rows) == 2 && NumClusters(rows) > rows
  {
  }

  /** KMeans as scikit-learn implements it: asking for more clusters than
      there are rows raises. */
  ghost predicate StrictKMeans(kmeans: KMeans) {
    forall m: Matrix, k: int :: k > Rows(m) ==> kmeans(m, k).Raises?
  }

  /** With such a KMeans no file is ever clustered: every file that passes
      the gate and vectorizes raises at `cluster_words`. */
  lemma StrictKMeansNeverClusters(env: Env, data: Json, outputBase: string, fs: FileSystem)
    requires StrictKMeans(env.kmeans)
    ensures !ProcessFile(env, data, outputBase, fs).Processed?
  {
    if Truthy(data) {
      var g := GateContent(Preprocess(env.nlp), JsonUtils.ExtractUserAuthoredContent(data));
      if g.Documents? && VectorizeTfidf(env.lib, g.docs).Returns? {
        var tfidf := VectorizeTfidf(env.lib, g.docs).value.0;
        ClampExceedsRows(env, g.docs);
        assert env.kmeans(tfidf, NumClusters(Rows(tfidf))).Raises?;
      }
    }
  }

  // ---------------------------------------------------------------------------
  // The two loops of main

  /** Step 1: each `.json` name of the input listing is loaded and, when
      truthy, split into conversation files under `outputDir`. That function
      catches its own exceptions, so this step never raises. */
  function ImportAll(names: seq<string>, inputDir: string, outputDir: string, fs: FileSystem): FileSystem {
    if |names| == 0 then fs
    else
      var data := Load(fs, PathJoin(inputDir, names[0]));
      var fs' := if IsJsonName(names[0]) && Truthy(data)
                 then JsonUtils.ExtractConversationsByTitle(data, outputDir, fs) else fs;
      ImportAll(names[1..], inputDir, outputDir, fs')
  }

  /** Step 1 looks only at the `.json` names of its listing. */
  lemma {:induction false} ImportAllIgnoresOtherNames(names: seq<string>, inputDir: string, outputDir: string, fs: FileSystem)
    ensures ImportAll(names, inputDir, outputDir, fs) == ImportAll(Filter(names, IsJsonName), inputDir, outputDir, fs)
    decreases |names|
  {
    if |names| > 0 {
      var rest := names[1..];
      var data := Load(fs, PathJoin(inputDir, names[0]));
      var fs' := if IsJsonName(names[0]) && Truthy(data)
                 then JsonUtils.ExtractConversationsByTitle(data, outputDir, fs) else fs;
      ImportAllIgnoresOtherNames(rest, inputDir, outputDir, fs');
      if IsJsonName(names[0]) {
        var kept := Filter(names, IsJsonName);
        assert kept == [names[0]] + Filter(rest, IsJsonName);
        assert kept[0] == names[0] && kept[1..] == Filter(rest, IsJsonName);
      } else {
        assert Filter(names, IsJsonName) == Filter(rest, IsJsonName);
      }
    }
  }

  /** What step 2 leaves: the filesystem, the lines printed by
      `visualize_clusters`, and whether an exception ended the run. */
  datatype Run = Run(fs: FileSystem, lines: seq<string>, raised: bool)

  /** The loop body of step 2 for one listed name. */
  function FileStep(env: Env, outputDir: string, outputBase: string): (string, FileSystem) -> Outcome {
    (name: string, fs: FileSystem) => ProcessFile(env, Load(fs, PathJoin(outputDir, name)), outputBase, fs)
  }

  /** The step-2 loop for any loop body: non-`.json` names are passed over,
      and the first exception ends the loop, since the only handler is the
      one around all of `main`. */
  function Loop(step: (string, FileSystem) -> Outcome, names: seq<string>, fs: FileSystem): (r: Run)
    ensures (forall i :: 0 <= i < |names| ==> !IsJsonName(names[i])) ==> r == Run(fs, [], false)
  {
    if |names| == 0 then Run(fs, [], false)
    else if !IsJsonName(names[0]) then Loop(step, names[1..], fs)
    else
      match step(names[0], fs)
      case Failed => Run(fs, [], true)
      case Skipped(_) => Loop(step, names[1..], fs)
      case Processed(fs', lines) =>
        var rest := Loop(step, names[1..], fs');
        Run(rest.fs, lines + rest.lines, rest.raised)
  }

  /** Step 2 over the output listing. */
  function ProcessAll(env: Env, names: seq<string>, outputDir: string, outputBase: string, fs: FileSystem): Run {
    Loop(FileStep(env, outputDir, outputBase), names, fs)
  }

  /** `main()`, given the script's directory and the two directory listings
      (`os.listdir` order is arbitrary, so each listing is a parameter). */
  function Main(env: Env, root: string, inputNames: seq<string>, outputNames: seq<string>, fs: FileSystem): (r: Run)
    ensures (forall i :: 0 <= i < |outputNames| ==> !IsJsonName(outputNames[i])) ==>
              r == Run(ImportAll(inputNames, PathJoin(root, "data"), PathJoin(root, "conversations"), fs), [], false)
  {
    var outputDir := PathJoin(root, "conversations");
    var imported := ImportAll(inputNames, PathJoin(root, "data"), outputDir, fs);
    ProcessAll(env, outputNames, outputDir, PathJoin(root, "output"), imported)
  }

  /** Names that are not `.json` files are passed over. */
  lemma {:induction false} LoopIgnoresOtherNames(step: (string, FileSystem) -> Outcome, names: seq<string>, fs: FileSystem)
    ensures Loop(step, names, fs) == Loop(step, Filter(names, IsJsonName), fs)
    decreases |names|
  {
    if |names| > 0 {
      var rest := names[1..];
      assert Filter(names, IsJsonName) == (if IsJsonName(names[0]) then [names[0]] else []) + Filter(rest, IsJsonName);
      if IsJsonName(names[0]) {
        var kept := Filter(names, IsJsonName);
        assert kept[0] == names[0] && kept[1..] == Filter(rest, IsJsonName);
        match step(names[0], fs)
        case Failed =>
        case Skipped(_) => LoopIgnoresOtherNames(step, rest, fs);
        case Processed(fs', _) => LoopIgnoresOtherNames(step, rest, fs');
      } else {
        assert Filter(names, IsJsonName) == Filter(rest, IsJsonName);
        LoopIgnoresOtherNames(step, rest, fs);
      }
    }
  }

  /** Running the loop over `a + b` is running it over `a` and, unless that
      raised, continuing over `b` from the state `a` left; so once a file
      raises, no later file is looked at. */
  lemma {:induction false} LoopAppend(step: (string, FileSystem) -> Outcome, a: seq<string>, b: seq<string>, fs: FileSystem)
    ensures var first := Loop(step, a, fs);
      var whole := Loop(step, a + b, fs);
      if first.raised then whole == first
      else
        var second := Loop(step, b, first.fs);
        whole == Run(second.fs, first.lines + second.lines, second.raised)
    decreases |a|, 1
  {
    if |a| == 0 {
      assert a + b == b;
    } else if IsJsonName(a[0]) {
      LoopAppendJson(step, a, b, fs);
    } else {
      assert (a + b)[0] == a[0] && (a + b)[1..] == a[1..] + b;
      LoopAppend(step, a[1..], b, fs);
    }
  }

  /** The case of `LoopAppend` where the first name is a `.json` file. */
  lemma {:induction false} LoopAppendJson(step: (string, FileSystem) -> Outcome, a: seq<string>, b: seq<string>, fs: FileSystem)
    requires |a| > 0 && IsJsonName(a[0])
    ensures var first := Loop(step, a, fs);
      var whole := Loop(step, a + b, fs);
      if first.raised then whole == first
      else
        var second := Loop(step, b, first.fs);
        whole == Run(second.fs, first.lines + second.lines, second.raised)
    decreases |a|, 0
  {
    assert (a + b)[0] == a[0] && (a + b)[1..] == a[1..] + b;
    match step(a[0], fs)
    case Failed =>
    case Skipped(_) => LoopAppend(step, a[1..], b, fs);
    case Processed(fs', lines) =>
      LoopAppend(step, a[1..], b, fs');
      var rest := Loop(step, a[1..], fs');
      if !rest.raised {
        var second := Loop(step, b, rest.fs);
        assert lines + (rest.lines + second.lines) == (lines + rest.lines) + second.lines;
      }
  }

  /** A loop body that never finishes a file leaves the filesystem as it
      was and prints nothing. */
  lemma {:induction false} LoopWithoutClustering(step: (string, FileSystem) -> Outcome, names: seq<string>, fs: FileSystem)
    requires forall name, fs' :: !step(name, fs').Processed?
    ensures Loop(step, names, fs).fs == fs && Loop(step, names, fs).lines == []
    decreases |names|
  {
    if |names| > 0 {
      LoopWithoutClustering(step, names[1..], fs);
    }
  }

  /** With a KMeans that refuses more clusters than rows, step 2 prints
      nothing and writes nothing, whatever the listing holds. */
  lemma StrictKMeansWritesNothing(env: Env, names: seq<string>, outputDir: string, outputBase: string, fs: FileSystem)
    requires StrictKMeans(env.kmeans)
    ensures ProcessAll(env, names, outputDir, outputBase, fs).fs == fs
    ensures ProcessAll(env, names, outputDir, outputBase, fs).lines == []
  {
    var step := FileStep(env, outputDir, outputBase);
    forall name, fs' ensures !step(name, fs').Processed? {
      StrictKMeansNeverClusters(env, Load(fs', PathJoin(outputDir, name)), outputBase, fs');
    }
    LoopWithoutClustering(step, names, fs);
  }

  /** End to end: with such a KMeans, `main` leaves only what step 1 wrote,
      the per-conversation files, and no cluster file or printed cluster. */
  lemma StrictKMeansMainOnlySplits(env: Env, root: string, inputNames: seq<string>, outputNames: seq<string>, fs: FileSystem)
    requires StrictKMeans(env.kmeans)
    ensures var outputDir := PathJoin(root, "conversations");
      var run := Main(env, root, inputNames, outputNames, fs);
      run.fs == ImportAll(inputNames, PathJoin(root, "data"), outputDir, fs) && run.lines == []
  {
    var outputDir := PathJoin(root, "conversations");
    StrictKMeansWritesNothing(env, outputNames, outputDir, PathJoin(root, "output"),
                              ImportAll(inputNames, PathJoin(root, "data"), outputDir, fs));
  }
}
