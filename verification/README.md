# context_clarity_clusters: a Dafny model of the clustering pipeline

This project models the logic of the chat-log clustering pipeline. The pipeline reads exported chat
conversations (JSON), splits them into one file per conversation, and pulls out the messages the user
wrote. It then normalises and tokenizes those messages, vectorizes them, groups the rows with KMeans
and writes one text file per (cluster, term). The model is purely functional. JSON values are a
datatype (`Json.Json`). The filesystem is an immutable map from path to contents
(`FileStore.FileSystem`), and a batch of file writes is replayed onto it. Python exceptions are the
`Raises` case of `Prelude.Py`. The NLP and ML libraries are function-typed parameters: NLTK's
tokenizer, stemmer, lemmatizer and stopword set, scikit-learn's vectorizer fits and KMeans.

Modules, following the repository's files:

- `Prelude`: outcomes (`Py`, `Option`), Python's `str.isspace`, decimal rendering, `Filter`,
  subsequences, `Join`, and the flat-map and map-until-exception folds the loops are built from.
- `Json`: the JSON value, plus Python's `in`, `[]`, `.get`, iteration and truthiness on it.
- `FileStore`: `os.path.join` on POSIX and the replay of whole-file writes.
- `ChatExport`: field access on the export's node records.
- `JsonUtils`: `src/utils/json_utils.py`. Its filename sanitizer filters characters, its naming has no
  collision handling, and its user-content extraction is all-or-nothing.
- `JsonLoader`: `src/json_loader.py`. Its sanitizer replaces characters, it adds a per-title repeat
  suffix, and its extraction skips malformed nodes one at a time.
- `TextPreprocessor`: `src/text_preprocessor.py`.
- `Vectorizer`: `src/vectorizer.py`. A matrix is recorded by the documents it was fit on, one per row.
- `ClusterWords`: `src/cluster_words.py`.
- `Pipeline`: `main.py`. This covers both loops of `main`, the per-file gate and the cluster-count clamp.

Behaviour of the code worth noting:

- `cluster_words` has no exception handler. A KMeans failure, or a label outside `0..k-1`, raises to
  the caller instead of giving an empty result.
- The three vectorizer wrappers have no handler either. A failed fit raises, so the `is None` checks
  in `main` never fire.
- `refine_clusters` has no handler, so the first failing iteration ends the loop. The iterations are
  not independent.
- `json_utils.extract_conversations_by_title` adds no collision suffix: two titles that sanitize alike
  write the same file, and the later record wins.
- Every vectorizer joins its whole argument into ONE document. The TF-IDF matrix therefore always has
  one row, and the clamp `max(2, min(5, rows))` asks KMeans for 2 clusters. scikit-learn's KMeans
  rejects more clusters than rows, so with such a KMeans `main` never writes a cluster file
  (`Pipeline.StrictKMeansMainOnlySplits`).

## Model

| member | source | states |
|---|---|---|
| JsonUtils.SanitizeFilename | src/utils/json_utils.py:24-26 | the result is the input's allowed characters (ASCII letters and digits, `' '`, `'.'`, `'_'`) in order, minus a trailing run of spaces: a prefix of that filtered string whose dropped tail is all `' '`; it never ends in whitespace |
| JsonUtils.SanitizeFilenameIsSubseq | src/utils/json_utils.py:26 | the sanitized name is an order-preserving subsequence of the input |
| JsonUtils.SanitizeFilenameIdempotent | src/utils/json_utils.py:26 | sanitizing twice equals sanitizing once |
| JsonUtils.StemOfStringTitle | src/utils/json_utils.py:26 | on a str title, the character-by-character generator of the source equals the filter-then-rstrip definition |
| JsonUtils.ConversationPaths | src/utils/json_utils.py:41-44 | with string (or missing) titles every record is saved, record i to `<dir>/<sanitize(title)>.json` with the record as contents, where `title` is `'untitled'` only when the key is missing (an empty title stays empty); there is no collision suffix |
| JsonUtils.ExtractConversationsByTitle | src/utils/json_utils.py:28-46 | saving conversations never deletes a file: every path present before is present after |
| JsonUtils.TitleStemRaises | src/utils/json_utils.py:42 | the title lookup raises for a record that is not a dict, and for a title that is null, a boolean or a number |
| JsonUtils.SaveStopsAtFirstBadTitle | src/utils/json_utils.py:41-46 | the loop stops at the first record whose title raises: the paths afterwards are the old ones plus the stems of the records before it, and nothing of it or any later record |
| JsonUtils.NonContainerSavesNothing | src/utils/json_utils.py:36-41 | input that is neither a list nor a dict saves nothing: the filesystem is unchanged |
| JsonUtils.SingleRecordIsOneElementList | src/utils/json_utils.py:36-39 | a single dict is saved exactly as the one-element list holding it |
| JsonUtils.SameTitleOverwrites | src/utils/json_utils.py:36-44 | a record whose sanitized title no later record repeats is what its file holds; an earlier record with the same sanitized title targets that path and is overwritten |
| JsonUtils.LastTitleWriteWins | src/utils/json_utils.py:41-44 | replaying the save loop's writes leaves, at a record's path, the last record whose title sanitizes alike |
| JsonUtils.StemPathDistinct | src/utils/json_utils.py:42-43 | titles with different sanitized forms get different paths |
| JsonUtils.NodeContent | src/utils/json_utils.py:68-71 | a node contributes something only if it has a `message` with an `author` whose role is `'user'` |
| JsonUtils.UserNodeContributesAllParts | src/utils/json_utils.py:69-71 | a user node contributes every element of its `parts` list, untyped and in order |
| JsonUtils.NonUserNodeContributesNothing | src/utils/json_utils.py:68-69 | a node without `message`, without `author`, or with another role contributes nothing |
| JsonUtils.UserNodeWithoutContentRaises | src/utils/json_utils.py:70 | a user node lacking `content` raises |
| JsonUtils.AuthorWithoutRoleRaises | src/utils/json_utils.py:69 | an author lacking `role` raises |
| JsonUtils.ConversationContent | src/utils/json_utils.py:63-72 | a dict without `mapping` gives `[]`; with one, it raises exactly when the mapping is not a dict or some node raises; a list or str conversation gives `[]` or raises, and any other value raises |
| JsonUtils.MappingContentAppend | src/utils/json_utils.py:67-71 | the mapping's nodes contribute in its order: splitting its entries into two parts splits the output the same way, and either part raising raises the whole |
| JsonUtils.ConversationWithoutMapping | src/utils/json_utils.py:66 | a conversation without `mapping` contributes nothing |
| JsonUtils.ExtractAppend | src/utils/json_utils.py:52-58 | on a list, the result is the in-order concatenation of the per-conversation results when none raises, and `[]` otherwise |
| JsonUtils.OneFailureEmptiesAll | src/utils/json_utils.py:59-61 | an exception in any node of any conversation makes the whole call return `[]` |
| JsonUtils.SingleConversationIsOneElementList | src/utils/json_utils.py:55-56 | a single dict is treated like a one-element list |
| JsonUtils.NonContainerGivesNothing | src/utils/json_utils.py:50-58 | input that is neither a list nor a dict gives `[]` |
| JsonUtils.ExtractUserAuthoredContent | src/utils/json_utils.py:48-61 | input that is neither a list nor a dict, and a single conversation without `mapping`, give `[]` |
| JsonLoader.SanitizeFilename | src/json_loader.py:23 | the length is kept; each of the nine reserved characters (backslash, slash, `*`, `?`, `:`, `"`, `<`, `>` and the vertical bar) becomes `'_'`, and every other character stays at its position |
| JsonLoader.SanitizeFilenameClean | src/json_loader.py:23 | no reserved character survives, and sanitizing is idempotent |
| JsonLoader.AssignNamesIsSpec | src/json_loader.py:36-44 | the dict-of-counters loop computes the same names as the count-of-earlier-occurrences definition |
| JsonLoader.GenerateNames | src/json_loader.py:36-44 | one name per title, each starting with its title, and the first title is used as is |
| JsonLoader.GenerateNamesSpec | src/json_loader.py:36-44 | name i is the title itself on its first occurrence and `<title>_<n>` on its n-th repeat |
| JsonLoader.NamesDistinctIff | src/json_loader.py:39-46 | the generated names are pairwise distinct exactly when no title equals another title's suffixed form |
| JsonLoader.RepeatShadowedByLiteralTitle | src/json_loader.py:39-46 | titles `["a","a","a_1"]` yield `"a_1"` twice |
| JsonLoader.LoaderTitle | src/json_loader.py:38-39 | a title it produces contains no reserved character; a dict without `title` gets the sanitized default `untitled_conversation` |
| JsonLoader.MissingTitleDefault | src/json_loader.py:38-39 | a dict without `title` is named exactly `untitled_conversation`, which sanitizing leaves unchanged |
| JsonLoader.LoaderTitleRaises | src/json_loader.py:37-39 | the title lookup raises exactly when the record is not a dict or its `title` is present but not a str |
| JsonLoader.NamedWrites | src/json_loader.py:46-48 | one write per titled record; for titles starting with no reserved character, two records land in the same file exactly when their generated names are equal |
| JsonLoader.ListRaisesAtFirstBadTitle | src/json_loader.py:37-39 | on a list, the loop raises exactly when it stops short of the last record; the record it stops at has a title lookup that raises, and every earlier record had its title |
| JsonLoader.ListWritesUpToFirstBadTitle | src/json_loader.py:37-48 | on a list, the paths afterwards are the old ones plus the generated name of each record before the first bad title; that record and all later ones are never saved |
| JsonLoader.DistinctNamesKeepRecord | src/json_loader.py:46-48 | with distinct names, every record's own file holds it |
| JsonLoader.EveryRecordPersisted | src/json_loader.py:36-48 | when no title shadows a suffix, every record survives under its generated name |
| JsonLoader.RepeatedTitleRecordLost | src/json_loader.py:36-48 | titles `a, a, a_1`: the second record's file is overwritten by the third |
| JsonLoader.LastRecordWins | src/json_loader.py:46-48 | the last record that got a title is what its file holds |
| JsonLoader.ExtractConversationsByTitle | src/json_loader.py:25-49 | the call raises exactly when `data` is not iterable or some record's title lookup raises; no existing file is deleted |
| JsonLoader.NodeText | src/json_loader.py:70-84 | a node yields text exactly when it is a user node whose `content.parts` is a non-empty list starting with a string, and the text is that `parts[0]` |
| JsonLoader.EntryText | src/json_loader.py:70-84 | at most one string per mapping entry |
| JsonLoader.MappingTextsFromUserNodes | src/json_loader.py:70-84 | at most one string per node, each the text of some user node of the mapping |
| JsonLoader.SkippedNodeIsLocal | src/json_loader.py:70-81 | a node that yields nothing can be removed without changing what its siblings yield |
| JsonLoader.RecordTexts | src/json_loader.py:65-68 | a record raises exactly when it is not a dict |
| JsonLoader.ExtractUserAuthoredContent | src/json_loader.py:61-85 | non-list input gives `[]`; the call raises exactly when some record is not a dict |
| JsonLoader.MalformedMappingIsLocal | src/json_loader.py:66-68 | a record whose mapping is not a dict is skipped without affecting the other records |
| TextPreprocessor.LowerChar | src/text_preprocessor.py:20 | lowercasing a character yields one or two characters, no ASCII capital, and keeps whether it is whitespace; an ASCII capital becomes its small letter, and a character `str.lower` fixes is unchanged |
| TextPreprocessor.LowerAsciiText | src/text_preprocessor.py:20 | on ASCII letters and spaces, lowercasing folds each capital in place and keeps the length |
| TextPreprocessor.CollapseWhitespace | src/text_preprocessor.py:21 | every whitespace character becomes `' '`, and the result is empty only for empty input |
| TextPreprocessor.CollapseNoAdjacentSpaces | src/text_preprocessor.py:21 | no two spaces of the collapsed text are adjacent |
| TextPreprocessor.CollapseKeepsText | src/text_preprocessor.py:21 | collapsing keeps every non-whitespace character in order |
| TextPreprocessor.NormalizeText | src/text_preprocessor.py:18-23 | the output contains only `a`-`z` and `' '` |
| TextPreprocessor.NormalizeFoldsCapitals | src/text_preprocessor.py:18-23 | on ASCII letters with isolated single spaces, normalising keeps the length and maps each character to its lower-case form: `"Hello World"` becomes `"hello world"` |
| TextPreprocessor.NormalizeWithoutWhitespace | src/text_preprocessor.py:20-22 | without whitespace, normalising is lowercasing followed by keeping the ASCII letters |
| TextPreprocessor.DoubleSpaceSurvives | src/text_preprocessor.py:21-22 | collapsing runs before the removal, so a letter, space, punctuation mark, space, letter (`"a , b"`) normalises to the letters around a double space (`"a  b"`) |
| TextPreprocessor.DoubleSpaceCollapses | src/text_preprocessor.py:21 | two letters around a double space (`"a  b"`) normalise to the letters around one space |
| TextPreprocessor.NormalizeNotIdempotent | src/text_preprocessor.py:21-22 | on every such `"a , b"` text, normalising twice differs from normalising once |
| TextPreprocessor.NormalizeFixesSingleSpaced | src/text_preprocessor.py:18-23 | text of lower-case letters and isolated spaces is left unchanged |
| TextPreprocessor.NormalizeIdempotentWithoutDoubleSpace | src/text_preprocessor.py:18-23 | normalising is idempotent on outputs without a double space |
| TextPreprocessor.RemoveStopwords | src/text_preprocessor.py:29-31 | no stopword remains |
| TextPreprocessor.RemoveStopwordsSpec | src/text_preprocessor.py:29-31 | each non-stopword keeps its multiplicity, the result is a subsequence of the input, and removal is idempotent |
| TextPreprocessor.PreprocessOrder | src/text_preprocessor.py:44-50 | the stages run normalise, tokenize, remove stopwords, stem if asked, lemmatize if asked |
| TextPreprocessor.PlainOutputHasNoStopwords | src/text_preprocessor.py:46-50 | with stemming and lemmatization off, the output has no stopwords |
| TextPreprocessor.StemmingCanReintroduceStopword | src/text_preprocessor.py:46-48 | a token that stems to a stopword reaches the output |
| TextPreprocessor.LemmatizingCanReintroduceStopword | src/text_preprocessor.py:41-50 | with the default flags, a token that lemmatizes to a stopword reaches the output |
| TextPreprocessor.PreprocessText | src/text_preprocessor.py:41-54 | a tokenizer exception yields no tokens; otherwise there are never more tokens than the tokenizer produced |
| TextPreprocessor.FailureGivesNoTokens | src/text_preprocessor.py:43-54 | when the tokenizer raises, or stemming is on and some kept token's stem raises, or lemmatization is on and some token's lemma raises, the pipeline raises and yields no tokens at all |
| Vectorizer.VectorizeTfidf | src/vectorizer.py:4-16 | the call raises exactly when the fit raises; the matrix has one row, the documents joined with spaces |
| Vectorizer.VectorizeCount | src/vectorizer.py:18-30 | the call raises exactly when the fit raises; the matrix has one row, the documents joined with spaces |
| Vectorizer.VectorizeLda | src/vectorizer.py:32-47 | the call raises exactly when the count fit or the LDA fit raises; the topic matrix has one row |
| ClusterWords.Members | src/cluster_words.py:22-24 | the rows labelled c, all of them, in strictly ascending order |
| ClusterWords.BucketsAreMembers | src/cluster_words.py:20-24 | the grouping loop succeeds exactly when every label is a key, and then list c holds the labels of the rows of cluster c in row order |
| ClusterWords.BucketsTotal | src/cluster_words.py:22-24 | the lists hold one label per row in all |
| ClusterWords.ClusterWords | src/cluster_words.py:4-26 | a KMeans exception raises; a result has one cluster per key `0..k-1` in order (none for negative `k`) |
| ClusterWords.ClusterWordsSpec | src/cluster_words.py:16-26 | the keys are exactly `0..k-1`, empty clusters included; list c holds `terms[idx]` or `Topic_<idx>` for the indices KMeans labelled c, ascending; the lists hold one entry per label (scikit-learn gives one label per matrix row; the model's KMeans parameter does not tie the two) |
| ClusterWords.RowInExactlyOneCluster | src/cluster_words.py:22-24 | a row is in the member list of a cluster exactly when it is labelled with that cluster |
| ClusterWords.NoFeatureNamesGivesTopics | src/cluster_words.py:19-23 | a model without `get_feature_names_out` gives only `Topic_<idx>` labels |
| ClusterWords.TermPathShape | src/cluster_words.py:40-45 | a relative term's file is `<base>/cluster_<id>/<term>.txt` |
| ClusterWords.TermPathInjective | src/cluster_words.py:40-45 | distinct (cluster, term) pairs get distinct path strings, for terms holding no `/` |
| ClusterWords.EveryTermHasItsFile | src/cluster_words.py:39-47 | when no term holds a `/`, every (id, term) gets `base/cluster_<id>/<term>.txt` holding exactly `Term: <term>\nCluster ID: <id>\n` |
| ClusterWords.GenerateFileStructure | src/cluster_words.py:28-49 | writing the structure never deletes a file: every path present before is present after |
| ClusterWords.StructureLeavesOthers | src/cluster_words.py:36-47 | paths no term maps to are unchanged |
| ClusterWords.StructureIdempotent | src/cluster_words.py:36-47 | generating the structure twice leaves the same state as once |
| ClusterWords.RefineClusters | src/cluster_words.py:51-64 | the refinement completes exactly when the clustering of every iteration succeeds |
| ClusterWords.RefineLoopCompletes | src/cluster_words.py:61-63 | the refinement loop completes exactly when every iteration's clustering succeeds |
| ClusterWords.RefineLoopSchedule | src/cluster_words.py:61-63 | a completed loop leaves every iteration's files, replayed in iteration order |
| ClusterWords.RefineSchedule | src/cluster_words.py:51-63 | iteration i asks for `initial + i` clusters and writes under `output_iteration_<i>`; the loop completes iff all of them succeed |
| ClusterWords.RefineStopsAtFailure | src/cluster_words.py:61-63 | after the first exception, further iterations change nothing |
| ClusterWords.VisualizeClusters | src/cluster_words.py:73-74 | one line per key in dict order; each starts with `Cluster <id>: `, is that header alone for a cluster without labels, and otherwise splits back on `, ` into the cluster's labels when none holds a comma |
| ClusterWords.VisualizeLineReadsBack | src/cluster_words.py:74 | the labels of a line can be split back out of it when none contains a comma |
| Pipeline.NumClusters | main.py:89 | the clamp lies in `[2,5]`, equals `rows` when `2 <= rows <= 5`, and exceeds `rows` when `rows < 2` |
| Pipeline.JoinEach | main.py:65 | one document per token list; a document never starts or ends with a blank when its tokens are non-empty and do not |
| Pipeline.GateContent | main.py:43-56 | the empty-text-list check never fires |
| Pipeline.GateSpec | main.py:43-65 | empty content or a non-string item skips the file; otherwise it passes iff at least two items have tokens, and the documents are those token lists joined with single spaces, in content order |
| Pipeline.GateIgnoresTokenless | main.py:59-63 | a string item without tokens changes nothing as long as another item remains |
| Pipeline.ClampExceedsRows | main.py:68-89 | the TF-IDF matrix has one row, so the clamp asks for 2 clusters, more than there are rows |
| Pipeline.ProcessFile | main.py:30-94 | the empty-text-list skip never happens, and a file is clustered only if it loaded truthy and holds at least two user messages |
| Pipeline.StrictKMeansNeverClusters | main.py:68-94 | if KMeans rejects more clusters than rows, no file is ever clustered |
| Pipeline.ImportAllIgnoresOtherNames | main.py:16-27 | step 1 reads only `.json` names |
| Pipeline.LoopIgnoresOtherNames | main.py:30-31 | step 2 reads only `.json` names |
| Pipeline.Loop | main.py:30-97 | a listing without `.json` names leaves the modelled filesystem as it was, yields no cluster line and does not raise |
| Pipeline.LoopAppend | main.py:10-97 | step 2 over `a + b` is step 2 over `a`, then over `b` unless `a` raised; after an exception no later file is processed |
| Pipeline.LoopWithoutClustering | main.py:30-94 | if no file is clustered, step 2 changes no modelled file and yields no cluster line |
| Pipeline.StrictKMeansWritesNothing | main.py:30-97 | with such a KMeans, step 2 changes no modelled file and yields no cluster line |
| Pipeline.Main | main.py:9-97 | when the output listing has no `.json` name, `main` leaves exactly the modelled files step 1 wrote, yields no cluster line and does not raise |
| Pipeline.StrictKMeansMainOnlySplits | main.py:9-97 | with such a KMeans, the only modelled files `main` leaves are the per-conversation files of step 1, and no cluster line is printed |
| FileStore.ApplyWritesIdempotent | src/cluster_words.py:44-47 | replaying the same whole-file writes twice equals replaying them once |
| FileStore.LastWriteWins | src/utils/json_utils.py:44 | the last write to a path decides what it holds |

## Left out

- File and console I/O: `load_json`/`save_json` formatting (indent, `ensure_ascii`), `log_error`
  (which appends to `error_log.txt`, so "no modelled file changes" leaves that log aside),
  `print_matrix_info`, the `print` calls and `save_user_generated_content`. `os.makedirs` leaves no
  trace in the path-to-contents map. A failed write is not modelled: a term containing `/` that names
  a missing sub-directory, or missing permissions. Python's `open` would raise there.
- `load_json` returns the stored document, or `{}` when the file is missing or is not a JSON document.
  The model does not parse text.
- `os.listdir` order is arbitrary, so both listings of `main` are parameters. The step-2 listing
  (`outputNames`) is free in content as well as order: the model does not tie it to the files step 1
  wrote or to what the output directory held before, so a listing naming files that do not exist
  (each loads as `{}` and is skipped) is allowed. The script's directory
  (`os.path.dirname(__file__)`) is a parameter too.
- NLTK (`word_tokenize`, Porter stemmer, WordNet lemmatizer, the stopword corpus, `nltk.download`) and
  scikit-learn (vectorizer fits, LDA, KMeans) are abstract parameters. Matrices keep only their rows.
- TextPreprocessor.LowerChar: models `str.lower` exactly on ASCII capitals, the Kelvin sign and
  U+0130. Every other character is kept. Only letters `a`-`z` survive the next filter, so
  `normalize_text` is exact, but `Lower` alone is not Python's full Unicode lowercasing.
- JsonUtils.SanitizeFilename: `str.isalnum` is restricted to ASCII letters and digits, so non-ASCII
  letters and digits are dropped, where Python keeps them.
- JSON numbers are integers only. Objects are association lists whose keys are assumed unique.
- ClusterWords.TermPathInjective: paths are compared as strings. A term holding `/` names a file in
  another directory (or in a missing one, where `open` raises), and two such terms can alias one real
  file (`"x"` and `"./x"`), so the lemma is stated only for terms without `/`. Feature names of the
  default token pattern and `Topic_<idx>` labels hold none.
- ClusterWords.EveryTermHasItsFile: stated only when no term holds `/`, for the same reason; the
  model does not resolve `.` or `..` path segments.
- ClusterWords.TermPathShape: stated for terms that are not absolute paths. An absolute term escapes
  the base directory, and `os.path.join` is modelled so that it does.
- `clarity_cluster.py`, a fixed driver script whose clamp is the one of `main.py:89`.
- `debug_utils.py` is not part of this model.
