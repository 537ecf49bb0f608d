/** `src/json_loader.py`: the other extractor. Its file names replace
    reserved characters, repeated titles get a numeric suffix, and its
    user-content extraction is defensive: it takes only a string `parts[0]`
    and skips each malformed node on its own. */
module JsonLoader {
  import opened Prelude
  import opened Json
  import opened ChatExport
  import opened FileStore

  // ---------------------------------------------------------------------------
  // sanitize_filename

  /** The nine characters the source replaces: backslash, slash, star,
      question mark, colon, double quote, less-than, greater-than, bar. */
  predicate IsReserved(c: char) {
    c == '\\' || c == '/' || c == '*' || c == '?' || c == ':'
    || c == '"' || c == '<' || c == '>' || c == '|'
  }

  /** `sanitize_filename`: each reserved character becomes an underscore. */
  function SanitizeFilename(name: string): (r: string)
    ensures |r| == |name|
    ensures forall i :: 0 <= i < |name| ==> r[i] == if IsReserved(name[i]) then '_' else name[i]
  {
    if |name| == 0 then ""
    else [if IsReserved(name[0]) then '_' else name[0]] + SanitizeFilename(name[1..])
  }

  /** No reserved character survives, and a second pass changes nothing. */
  lemma SanitizeFilenameClean(name: string)
    ensures forall i :: 0 <= i < |name| ==> !IsReserved(SanitizeFilename(name)[i])
    ensures SanitizeFilename(SanitizeFilename(name)) == SanitizeFilename(name)
  {
  }

  // ---------------------------------------------------------------------------
  // extract_conversations_by_title: name generation

  /** The name of a title seen `n` times before: itself the first time,
      `<title>_<n>` for the n-th repeat. */
  function Suffixed(title: string, n: nat): string {
    if n == 0 then title else title + "_" + NatToString(n)
  }

  /** The loop body over `title_counts`: a title not yet counted is used as
      is and counted 0; a counted title bumps its count and takes it as suffix. */
  function AssignNames(titles: seq<string>, counts: map<string, nat>): (names: seq<string>)
    ensures |names| == |titles|
    ensures forall i :: 0 <= i < |titles| ==> titles[i] <= names[i]
  {
    if |titles| == 0 then []
    else
      var t := titles[0];
      if t in counts then
        var n := counts[t] + 1;
        [t + "_" + NatToString(n)] + AssignNames(titles[1..], counts[t := n])
      else
        [t] + AssignNames(titles[1..], counts[t := 0])
  }

  /** The file-name stems the loop produces for a sequence of sanitized titles. */
  function GenerateNames(titles: seq<string>): (names: seq<string>)
    ensures |names| == |titles|
    ensures forall i :: 0 <= i < |titles| ==> titles[i] <= names[i]
    ensures |titles| > 0 ==> names[0] == titles[0]
  {
    AssignNames(titles, map[])
  }

  /** `counts` is `title_counts` after the loop has seen `prefix`: it holds
      exactly the titles of `prefix`, each with one less than its number of
      occurrences. */
  ghost predicate CountsMatch(counts: map<string, nat>, prefix: seq<string>) {
    forall t :: (t in counts <==> t in multiset(prefix))
                && (t in counts ==> counts[t] == multiset(prefix)[t] - 1)
  }

  lemma CountsStep(counts: map<string, nat>, prefix: seq<string>, t: string)
    requires CountsMatch(counts, prefix)
    ensures t in counts ==> CountsMatch(counts[t := counts[t] + 1], prefix + [t])
    ensures t !in counts ==> CountsMatch(counts[t := 0], prefix + [t])
  {
    assert multiset(prefix + [t]) == multiset(prefix) + multiset{t};
  }

  /** The names as a direct definition: each title suffixed with its number
      of earlier occurrences, counting those in `prefix` too. */
  function SpecNames(prefix: seq<string>, titles: seq<string>): (names: seq<string>)
    ensures |names| == |titles|
    decreases |titles|
  {
    if |titles| == 0 then []
    else [Suffixed(titles[0], multiset(prefix)[titles[0]])] + SpecNames(prefix + [titles[0]], titles[1..])
  }

  /** The loop over the dict computes the direct definition. */
  lemma {:induction false} AssignNamesIsSpec(counts: map<string, nat>, prefix: seq<string>, titles: seq<string>)
    requires CountsMatch(counts, prefix)
    ensures AssignNames(titles, counts) == SpecNames(prefix, titles)
    decreases |titles|
  {
    if |titles| > 0 {
      var t := titles[0];
      var counts' := if t in counts then counts[t := counts[t] + 1] else counts[t := 0];
      CountsStep(counts, prefix, t);
      FirstName(counts, prefix, t);
      AssignNamesIsSpec(counts', prefix + [t], titles[1..]);
    }
  }

  lemma {:induction false} SpecNamesAt(prefix: seq<string>, titles: seq<string>, i: nat)
    requires i < |titles|
    ensures SpecNames(prefix, titles)[i] == Suffixed(titles[i], multiset(prefix + titles[..i])[titles[i]])
    decreases |titles|
  {
    if i > 0 {
      SpecNamesAt(prefix + [titles[0]], titles[1..], i - 1);
      PrefixStep(prefix, titles, i);
    } else {
      assert prefix + titles[..0] == prefix;
    }
  }

  lemma PrefixStep(prefix: seq<string>, titles: seq<string>, i: nat)
    requires 0 < i <= |titles|
    ensures (prefix + [titles[0]]) + titles[1..][..i - 1] == prefix + titles[..i]
  {
    assert titles[..i] == [titles[0]] + titles[1..][..i - 1];
  }

  lemma FirstName(counts: map<string, nat>, prefix: seq<string>, t: string)
    requires CountsMatch(counts, prefix)
    ensures (if t in counts then t + "_" + NatToString(counts[t] + 1) else t)
              == Suffixed(t, multiset(prefix)[t])
  {
  }

  /** The i-th name is the i-th title suffixed with how often it occurred before. */
  lemma GenerateNamesSpec(titles: seq<string>, i: nat)
    requires i < |titles|
    ensures |GenerateNames(titles)| == |titles|
    ensures GenerateNames(titles)[i] == Suffixed(titles[i], multiset(titles[..i])[titles[i]])
  {
    AssignNamesIsSpec(map[], [], titles);
    SpecNamesAt([], titles, i);
    assert [] + titles[..i] == titles[..i];
  }

  predicate Distinct(names: seq<string>) {
    forall i, j :: 0 <= i < j < |names| ==> names[i] != names[j]
  }

  /** How often `titles[j]` occurred before position j. */
  function Seen(titles: seq<string>, j: nat): nat
    requires j < |titles|
  {
    multiset(titles[..j])[titles[j]]
  }

  /** No title equals the suffixed name some repeat of a title receives. */
  predicate NoTitleShadowsSuffix(titles: seq<string>) {
    forall i, j :: 0 <= i < |titles| && 0 <= j < |titles| && Seen(titles, j) > 0 ==>
      titles[i] != Suffixed(titles[j], Seen(titles, j))
  }

  /** The generated names are pairwise distinct exactly when no title equals
      another title's suffixed form. */
  lemma NamesDistinctIff(titles: seq<string>)
    ensures Distinct(GenerateNames(titles)) <==> NoTitleShadowsSuffix(titles)
  {
    var names := GenerateNames(titles);
    forall k | 0 <= k < |titles| ensures names[k] == Suffixed(titles[k], Seen(titles, k)) {
      GenerateNamesSpec(titles, k);
    }
    if NoTitleShadowsSuffix(titles) {
      forall i, j | 0 <= i < j < |titles| ensures names[i] != names[j] {
        DistinctPair(titles, names, i, j);
      }
    }
    if Distinct(names) {
      forall i, j | 0 <= i < |titles| && 0 <= j < |titles| && Seen(titles, j) > 0
        ensures titles[i] != Suffixed(titles[j], Seen(titles, j))
      {
        ShadowCollides(titles, names, i, j);
      }
    }
  }

  /** A title equal to a suffixed name collides with that repeat's name: the
      title's first occurrence keeps it unsuffixed. */
  lemma ShadowCollides(titles: seq<string>, names: seq<string>, i: nat, j: nat)
    requires i < |titles| && j < |titles| && |names| == |titles| && Seen(titles, j) > 0
    requires forall k :: 0 <= k < |titles| ==> names[k] == Suffixed(titles[k], Seen(titles, k))
    requires Distinct(names)
    ensures titles[i] != Suffixed(titles[j], Seen(titles, j))
  {
    var f := FirstOccurrence(titles, i);
    assert f != j;
    assert names[f] != names[j] by {
      if f < j { assert names[f] != names[j]; } else { assert names[j] != names[f]; }
    }
    assert names[f] == titles[i];
  }

  lemma SuffixedDiffers(t: string, n: nat)
    requires n > 0
    ensures Suffixed(t, n) != t
  {
    assert |Suffixed(t, n)| > |t|;
  }

  /** The first index at which the value `titles[i]` occurs. */
  lemma FirstOccurrence(titles: seq<string>, i: nat) returns (f: nat)
    requires i < |titles|
    ensures f <= i && titles[f] == titles[i] && Seen(titles, f) == 0
  {
    f := 0;
    while titles[f] != titles[i]
      invariant f <= i
      invariant multiset(titles[..f])[titles[i]] == 0
      decreases i - f
    {
      assert titles[..f + 1] == titles[..f] + [titles[f]];
      f := f + 1;
    }
  }

  /** A title seen before position j occurs in `titles[..j]`. */
  lemma SeenBefore(titles: seq<string>, i: nat, j: nat)
    requires i < j < |titles| && titles[i] == titles[j]
    ensures Seen(titles, j) >= Seen(titles, i) + 1
  {
    assert titles[..j] == titles[..i] + [titles[i]] + titles[i + 1..j];
  }

  lemma DistinctPair(titles: seq<string>, names: seq<string>, i: nat, j: nat)
    requires i < j < |titles| && |names| == |titles|
    requires forall k :: 0 <= k < |titles| ==> names[k] == Suffixed(titles[k], Seen(titles, k))
    requires NoTitleShadowsSuffix(titles)
    ensures names[i] != names[j]
  {
    var ci, cj := Seen(titles, i), Seen(titles, j);
    if ci > 0 && cj > 0 {
      if names[i] == names[j] {
        SuffixesEqual(titles[i], titles[j], ci, cj);
        SeenBefore(titles, i, j);
      }
    } else if ci == 0 && cj == 0 {
      if titles[i] == titles[j] {
        SeenBefore(titles, i, j);
      }
    }
  }

  /** Two suffixed names agree only when both the title and the count agree. */
  lemma SuffixesEqual(a: string, b: string, m: nat, n: nat)
    requires m > 0 && n > 0 && Suffixed(a, m) == Suffixed(b, n)
    ensures a == b && m == n
  {
    var x, y := NatToString(m), NatToString(n);
    assert a + ['_'] + x == b + ['_'] + y;
    NoUnderscoreInDigits(m);
    NoUnderscoreInDigits(n);
    SplitAtLast(a, b, x, y, '_');
    NatToStringInjective(m, n);
  }

  lemma NoUnderscoreInDigits(n: nat)
    ensures '_' !in NatToString(n)
  {
    var s := NatToString(n);
    forall k | 0 <= k < |s| ensures s[k] != '_' {
      assert IsDigit(s[k]);
    }
  }

  /** Three records titled "a", "a", "a_1" get the names "a", "a_1", "a_1":
      the third file overwrites the second. */
  lemma RepeatShadowedByLiteralTitle()
    ensures GenerateNames(["a", "a", "a_1"]) == ["a", "a_1", "a_1"]
  {
    var titles := ["a", "a", "a_1"];
    assert "a" + "_" + NatToString(1) == "a_1";
    var m0: map<string, nat> := map[];
    assert titles[1..][1..] == titles[2..] == ["a_1"];
    assert AssignNames(titles[2..], m0["a" := 0]["a" := 1]) == ["a_1"];
    assert AssignNames(titles[1..], m0["a" := 0]) == ["a_1", "a_1"];
  }

  // ---------------------------------------------------------------------------
  // extract_conversations_by_title: the save loop

  /** `sanitize_filename(record.get('title', 'untitled_conversation'))`:
      `record.get` needs a dict and `re.sub` needs a str. */
  function LoaderTitle(record: Json): (r: Py<string>)
    ensures r.Returns? ==> forall k :: 0 <= k < |r.value| ==> !IsReserved(r.value[k])
    ensures record.JObj? && Lookup(record.fields, "title").None? ==> r == Returns(SanitizeFilename("untitled_conversation"))
  {
    match Get(record, "title", JStr("untitled_conversation"))
    case Raises => Raises
    case Returns(title) => if title.JStr? then Returns(SanitizeFilename(title.s)) else Raises
  }

  /** A name without reserved characters is its own sanitized form. */
  lemma CleanNameUnchanged(name: string)
    requires forall i :: 0 <= i < |name| ==> !IsReserved(name[i])
    ensures SanitizeFilename(name) == name
  {
  }

  /** So a record without a title is saved as `untitled_conversation`. */
  lemma MissingTitleDefault(record: Json)
    requires record.JObj? && Lookup(record.fields, "title").None?
    ensures LoaderTitle(record) == Returns("untitled_conversation")
  {
    CleanNameUnchanged("untitled_conversation");
  }

  /** The title lookup raises exactly when the record is not a dict or its
      `title` is present but not a str. */
  lemma LoaderTitleRaises(record: Json)
    ensures LoaderTitle(record).Raises? <==>
              !record.JObj? || (Lookup(record.fields, "title").Some? && !Lookup(record.fields, "title").value.JStr?)
  {
  }

  /** One `json.dump` per record that got a title, to `<name>.json`. Two
      records whose titles start clean land in one file exactly when their
      generated names coincide. */
  function NamedWrites(records: seq<Json>, titles: seq<string>, outputDir: string): (ws: seq<Write>)
    requires |titles| <= |records|
    ensures |ws| == |titles|
    ensures forall i, j :: 0 <= i < |titles| && 0 <= j < |titles| && StartsClean(titles[i]) && StartsClean(titles[j]) ==>
              (ws[i].path == ws[j].path <==> GenerateNames(titles)[i] == GenerateNames(titles)[j])
  {
    var names := GenerateNames(titles);
    forall i, j | 0 <= i < |titles| && 0 <= j < |titles| && StartsClean(titles[i]) && StartsClean(titles[j])
      ensures PathJoin(outputDir, names[i] + ".json") == PathJoin(outputDir, names[j] + ".json") <==> names[i] == names[j]
    {
      NamePathsApart(titles, outputDir, i, j);
    }
    seq(|titles|, i requires 0 <= i < |titles| =>
      Write(PathJoin(outputDir, names[i] + ".json"), JsonDoc(records[i])))
  }

  /** Distinct names of clean titles give distinct files. */
  lemma NamePathsApart(titles: seq<string>, outputDir: string, i: nat, j: nat)
    requires i < |titles| && j < |titles| && StartsClean(titles[i]) && StartsClean(titles[j])
    ensures var names := GenerateNames(titles);
      PathJoin(outputDir, names[i] + ".json") == PathJoin(outputDir, names[j] + ".json") <==> names[i] == names[j]
  {
    var names := GenerateNames(titles);
    if names[i] != names[j] {
      NameNotAbsolute(titles, i);
      NameNotAbsolute(titles, j);
      ExtensionDistinct(names[i], names[j], ".json");
      PathJoinDistinct(outputDir, names[i] + ".json", names[j] + ".json");
    }
  }

  /** What the save loop leaves behind and whether an exception escaped it
      (this variant has no handler: the exception reaches the caller). */
  datatype Run = Run(fs: FileSystem, raised: bool)

  /** `extract_conversations_by_title(data, output_dir)`. */
  function ExtractConversationsByTitle(data: Json, outputDir: string, fs: FileSystem): (r: Run)
    ensures fs.Keys <= r.fs.Keys
    ensures r.raised <==>
              (Iterate(data).Raises? ||
               exists i :: 0 <= i < |Iterate(data).value| && LoaderTitle(Iterate(data).value[i]).Raises?)
  {
    match Iterate(data)
    case Raises => Run(fs, true)
    case Returns(records) =>
      var (titles, raised) := MapUntilRaise(LoaderTitle, records);
      var ws := NamedWrites(records, titles, outputDir);
      ApplyWritesKeys(fs, ws);
      Run(ApplyWrites(fs, ws), raised)
  }

  /** A title starts with no reserved character, so its name is relative. */
  predicate StartsClean(title: string) {
    |title| == 0 || !IsReserved(title[0])
  }

  lemma NameNotAbsolute(titles: seq<string>, k: nat)
    requires k < |titles| && StartsClean(titles[k])
    ensures !IsAbsolute(GenerateNames(titles)[k] + ".json")
  {
    GenerateNamesSpec(titles, k);
  }

  lemma TitlesStartClean(records: seq<Json>)
    ensures var titles := MapUntilRaise(LoaderTitle, records).0;
      forall k :: 0 <= k < |titles| ==> StartsClean(titles[k])
  {
    var titles := MapUntilRaise(LoaderTitle, records).0;
    forall k | 0 <= k < |titles| ensures StartsClean(titles[k]) {
      assert LoaderTitle(records[k]) == Returns(titles[k]);
    }
  }

  /** With distinct names, the i-th write is the last one to its path. */
  lemma DistinctNamesKeepRecord(records: seq<Json>, titles: seq<string>, outputDir: string, fs: FileSystem, i: nat)
    requires i < |titles| <= |records|
    requires Distinct(GenerateNames(titles))
    requires forall k :: 0 <= k < |titles| ==> StartsClean(titles[k])
    ensures var ws := NamedWrites(records, titles, outputDir);
      var path := PathJoin(outputDir, GenerateNames(titles)[i] + ".json");
      path in ApplyWrites(fs, ws) && ApplyWrites(fs, ws)[path] == JsonDoc(records[i])
  {
    var names := GenerateNames(titles);
    var ws := NamedWrites(records, titles, outputDir);
    forall k | i < k < |ws| ensures ws[k].path != ws[i].path {
      assert names[i] != names[k];
    }
    LastWriteWins(fs, ws, i);
  }

  /** The save loop on a list, unfolded: the titles obtained before the
      first raising lookup decide the writes. */
  lemma UnfoldOnList(records: seq<Json>, outputDir: string, fs: FileSystem)
    ensures var r := MapUntilRaise(LoaderTitle, records);
      ExtractConversationsByTitle(JArr(records), outputDir, fs)
        == Run(ApplyWrites(fs, NamedWrites(records, r.0, outputDir)), r.1)
  {
    assert Iterate(JArr(records)) == Returns(records);
  }

  /** On a list, the loop raises exactly when it stops short of the last
      record, and then the record it stopped at is one whose title lookup
      raises; every record before it had its title. */
  lemma ListRaisesAtFirstBadTitle(records: seq<Json>, outputDir: string, fs: FileSystem)
    ensures var titles := MapUntilRaise(LoaderTitle, records).0;
      var run := ExtractConversationsByTitle(JArr(records), outputDir, fs);
      && (run.raised <==> |titles| < |records|)
      && (run.raised ==> LoaderTitle(records[|titles|]).Raises?)
      && (forall k :: 0 <= k < |titles| ==> LoaderTitle(records[k]) == Returns(titles[k]))
  {
    UnfoldOnList(records, outputDir, fs);
  }

  /** On a list, the files afterwards are the old ones plus one per record
      before the first bad title, under that record's generated name: the
      record whose title raises and every record after it are never saved. */
  lemma ListWritesUpToFirstBadTitle(records: seq<Json>, outputDir: string, fs: FileSystem)
    ensures var titles := MapUntilRaise(LoaderTitle, records).0;
      ExtractConversationsByTitle(JArr(records), outputDir, fs).fs.Keys
        == fs.Keys + JsonPathsUnder(outputDir, GenerateNames(titles))
  {
    var titles := MapUntilRaise(LoaderTitle, records).0;
    var ws := NamedWrites(records, titles, outputDir);
    UnfoldOnList(records, outputDir, fs);
    ApplyWritesKeys(fs, ws);
    WrittenJsonPaths(ws, outputDir, GenerateNames(titles));
  }

  /** When no title shadows a suffixed name, every record ends up in its own
      file, holding that record. */
  lemma EveryRecordPersisted(records: seq<Json>, outputDir: string, fs: FileSystem, i: nat)
    requires i < |records|
    requires !MapUntilRaise(LoaderTitle, records).1
    requires NoTitleShadowsSuffix(MapUntilRaise(LoaderTitle, records).0)
    ensures var titles := MapUntilRaise(LoaderTitle, records).0;
      var path := PathJoin(outputDir, GenerateNames(titles)[i] + ".json");
      var run := ExtractConversationsByTitle(JArr(records), outputDir, fs);
      !run.raised && path in run.fs && run.fs[path] == JsonDoc(records[i])
  {
    var titles := MapUntilRaise(LoaderTitle, records).0;
    NamesDistinctIff(titles);
    TitlesStartClean(records);
    DistinctNamesKeepRecord(records, titles, outputDir, fs, i);
    UnfoldOnList(records, outputDir, fs);
  }

  lemma ThirdWriteWins(records: seq<Json>, outputDir: string, fs: FileSystem)
    requires |records| == 3
    ensures var ws := NamedWrites(records, ["a", "a", "a_1"], outputDir);
      var path := PathJoin(outputDir, "a_1.json");
      path in ApplyWrites(fs, ws) && ApplyWrites(fs, ws)[path] == JsonDoc(records[2])
  {
    var titles := ["a", "a", "a_1"];
    RepeatShadowedByLiteralTitle();
    LastRecordWins(records, titles, outputDir, fs);
    var last := GenerateNames(titles)[|titles| - 1];
    assert last == "a_1";
    assert last + ".json" == "a_1.json";
  }

  /** The last record that got a title is what its file holds. */
  lemma LastRecordWins(records: seq<Json>, titles: seq<string>, outputDir: string, fs: FileSystem)
    requires 0 < |titles| <= |records|
    ensures var ws := NamedWrites(records, titles, outputDir);
      var path := PathJoin(outputDir, GenerateNames(titles)[|titles| - 1] + ".json");
      path in ApplyWrites(fs, ws) && ApplyWrites(fs, ws)[path] == JsonDoc(records[|titles| - 1])
  {
    LastWriteWins(fs, NamedWrites(records, titles, outputDir), |titles| - 1);
  }

  /** Under the three titles "a", "a", "a_1" the second record is lost: its
      file is overwritten by the third. */
  lemma RepeatedTitleRecordLost(r0: Json, r1: Json, r2: Json, outputDir: string, fs: FileSystem)
    requires LoaderTitle(r0) == Returns("a") && LoaderTitle(r1) == Returns("a")
    requires LoaderTitle(r2) == Returns("a_1")
    ensures var run := ExtractConversationsByTitle(JArr([r0, r1, r2]), outputDir, fs);
      var path := PathJoin(outputDir, "a_1.json");
      !run.raised && path in run.fs && run.fs[path] == JsonDoc(r2)
  {
    var records := [r0, r1, r2];
    var titles := ["a", "a", "a_1"];
    MapUntilRaiseAllReturn(LoaderTitle, records, titles);
    UnfoldOnList(records, outputDir, fs);
    ThirdWriteWins(records, outputDir, fs);
  }

  // ---------------------------------------------------------------------------
  // extract_user_authored_content

  /** The text one mapping value contributes: `parts[0]` when every step of
      the path is a dict, the role is "user", and `parts` is a non-empty list
      whose first element is a str; nothing otherwise. */
  function NodeText(value: Json): (r: Option<string>)
    ensures r.Some? <==> IsUserNode(value) && PartsOf(value).Some? && PartsOf(value).value.JArr?
                         && |PartsOf(value).value.items| > 0 && PartsOf(value).value.items[0].JStr?
    ensures r.Some? ==> r.value == PartsOf(value).value.items[0].s
  {
    if !value.JObj? then None
    else
      match Field(value, "message")
      case None => None
      case Some(message) =>
        if !message.JObj? then None
        else
          match Field(message, "author")
          case None => None
          case Some(author) =>
            if !author.JObj? || Field(author, "role") != Some(JStr("user")) then None
            else
              match Field(message, "content")
              case None => None
              case Some(content) =>
                if !content.JObj? then None
                else
                  match Field(content, "parts")
                  case Some(JArr(parts)) =>
                    if |parts| > 0 && parts[0].JStr? then Some(parts[0].s) else None
                  case _ => None
  }

  /** What one `(key, value)` of the mapping appends to the output. */
  function EntryText(entry: (string, Json)): (r: seq<string>)
    ensures |r| <= 1
  {
    match NodeText(entry.1)
    case Some(t) => [t]
    case None => []
  }

  /** The loop over `mapping.items()`: each value is judged on its own. */
  function MappingTexts(entries: seq<(string, Json)>): seq<string> {
    FlatMap(EntryText, entries)
  }

  /** At most one string per node, and each string is `parts[0]` of a user node. */
  lemma MappingTextsFromUserNodes(entries: seq<(string, Json)>)
    ensures |MappingTexts(entries)| <= |entries|
    ensures forall t :: t in MappingTexts(entries) ==>
              exists i :: 0 <= i < |entries| && IsUserNode(entries[i].1) && NodeText(entries[i].1) == Some(t)
  {
    FlatMapAtMostOne(EntryText, entries);
    forall t | t in MappingTexts(entries)
      ensures exists i :: 0 <= i < |entries| && IsUserNode(entries[i].1) && NodeText(entries[i].1) == Some(t)
    {
      FlatMapMember(EntryText, entries, t);
      var i :| 0 <= i < |entries| && t in EntryText(entries[i]);
      assert NodeText(entries[i].1) == Some(t);
    }
  }

  /** A mapping value that contributes nothing can be removed without
      changing what its siblings contribute. */
  lemma SkippedNodeIsLocal(a: seq<(string, Json)>, entry: (string, Json), b: seq<(string, Json)>)
    requires NodeText(entry.1).None?
    ensures MappingTexts(a + [entry] + b) == MappingTexts(a + b)
  {
    FlatMapSkip(EntryText, a, entry, b);
  }

  /** `record.get('mapping', {})` on one record: a non-dict record raises
      (AttributeError); a non-dict mapping is skipped. */
  function RecordTexts(record: Json): (r: Py<seq<string>>)
    ensures r.Raises? <==> !record.JObj?
  {
    match Get(record, "mapping", JObj([]))
    case Raises => Raises
    case Returns(mapping) => if mapping.JObj? then Returns(MappingTexts(mapping.fields)) else Returns([])
  }

  /** `extract_user_authored_content(data)`: non-list input gives `[]`; a
      record that is not a dict lets the AttributeError escape. */
  function ExtractUserAuthoredContent(data: Json): (r: Py<seq<string>>)
    ensures !data.JArr? ==> r == Returns([])
    ensures r.Raises? <==> data.JArr? && exists i :: 0 <= i < |data.items| && !data.items[i].JObj?
  {
    if !data.JArr? then Returns([]) else FlatMapAll(RecordTexts, data.items)
  }

  /** A record whose mapping is not a dict is skipped, and records around it
      contribute exactly what they would without it. */
  lemma MalformedMappingIsLocal(a: seq<Json>, record: Json, b: seq<Json>)
    requires record.JObj? && Field(record, "mapping").Some? && !Field(record, "mapping").value.JObj?
    ensures ExtractUserAuthoredContent(JArr(a + [record] + b)) == ExtractUserAuthoredContent(JArr(a + b))
  {
    assert RecordTexts(record) == Returns([]);
    FlatMapAllSkip(RecordTexts, a, record, b);
  }
}
