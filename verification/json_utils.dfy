/** `src/utils/json_utils.py`: the extractor the batch driver uses. Its file
    names filter characters out, it has no collision handling, and its
    user-content extraction is permissive (every element of `parts`) but
    all-or-nothing (one exception anywhere empties the whole result). */
module JsonUtils {
  import opened Prelude
  import opened Json
  import opened ChatExport
  import opened FileStore

  // ---------------------------------------------------------------------------
  // sanitize_filename

  predicate IsAsciiAlnum(c: char) {
    IsAsciiLetter(c) || IsDigit(c)
  }

  /** The characters `sanitize_filename` lets through. */
  predicate KeepInFilename(c: char) {
    IsAsciiAlnum(c) || c == ' ' || c == '.' || c == '_'
  }

  /** Keep the allowed characters, then strip trailing whitespace. */
  function SanitizeFilename(name: string): (r: string)
    ensures forall i :: 0 <= i < |r| ==> KeepInFilename(r[i])
    ensures |r| <= |name|
    ensures |r| == 0 || !IsSpace(r[|r| - 1])
    ensures var kept := Filter(name, KeepInFilename);
      |r| <= |kept| && r == kept[..|r|] && forall i :: |r| <= i < |kept| ==> kept[i] == ' '
  {
    var kept := Filter(name, KeepInFilename);
    var r := RStrip(kept);
    forall i | |r| <= i < |kept| ensures kept[i] == ' ' {
      KeptSpaceIsBlank(kept[i]);
    }
    r
  }

  /** The only whitespace character the sanitizer lets through is `' '`. */
  lemma KeptSpaceIsBlank(c: char)
    requires KeepInFilename(c) && IsSpace(c)
    ensures c == ' '
  {
  }

  /** The output is the input with characters deleted, never reordered. */
  lemma SanitizeFilenameIsSubseq(name: string)
    ensures IsSubseq(SanitizeFilename(name), name)
  {
    var kept := Filter(name, KeepInFilename);
    FilterIsSubseq(name, KeepInFilename);
    SubseqPrefix(kept, |RStrip(kept)|, name);
  }

  lemma SanitizeFilenameIdempotent(name: string)
    ensures SanitizeFilename(SanitizeFilename(name)) == SanitizeFilename(name)
  {
    var r := SanitizeFilename(name);
    FilterAllKept(r, KeepInFilename);
  }

  // ---------------------------------------------------------------------------
  // extract_conversations_by_title

  /** An element the title's generator keeps: `c.isalnum() or c in (' ', '.', '_')`.
      Iterating a str yields one-character strings, so for those this is
      `KeepInFilename`; a list or dict title yields longer strings. */
  predicate KeepPiece(p: string) {
    || (|p| > 0 && forall i :: 0 <= i < |p| ==> IsAsciiAlnum(p[i]))
    || p == " " || p == "." || p == "_"
  }

  /** The elements of an iteration, which must all be strings (`c.isalnum()`
      is an AttributeError on anything else). */
  function StringItems(items: seq<Json>): (r: Py<seq<string>>)
    ensures r.Returns? <==> forall i :: 0 <= i < |items| ==> items[i].JStr?
    ensures r.Returns? ==> |r.value| == |items|
    ensures r.Returns? ==> forall i :: 0 <= i < |items| ==> items[i] == JStr(r.value[i])
  {
    if |items| == 0 then Returns([])
    else if !items[0].JStr? then Raises
    else
      match StringItems(items[1..])
      case Raises => Raises
      case Returns(rest) => Returns([items[0].s] + rest)
  }

  /** `"".join(c for c in title if ...).rstrip()` over the pieces iteration yields. */
  function SanitizePieces(pieces: seq<string>): string {
    RStrip(Concat(Filter(pieces, KeepPiece)))
  }

  /** The one-character strings of `s`. */
  function Chars(s: string): (r: seq<string>)
    ensures |r| == |s|
    ensures forall i :: 0 <= i < |s| ==> r[i] == [s[i]]
  {
    if |s| == 0 then [] else [[s[0]]] + Chars(s[1..])
  }

  lemma {:induction false} ConcatKeptChars(s: string)
    ensures Concat(Filter(Chars(s), KeepPiece)) == Filter(s, KeepInFilename)
  {
    if |s| > 0 {
      ConcatKeptChars(s[1..]);
      assert Chars(s)[1..] == Chars(s[1..]);
      KeepPieceChar(s[0]);
      if KeepPiece([s[0]]) {
        assert Filter(Chars(s), KeepPiece) == [[s[0]]] + Filter(Chars(s[1..]), KeepPiece);
      } else {
        assert Filter(Chars(s), KeepPiece) == Filter(Chars(s[1..]), KeepPiece);
      }
    }
  }

  /** A one-character piece is kept exactly when its character is allowed. */
  lemma KeepPieceChar(c: char)
    ensures KeepPiece([c]) == KeepInFilename(c)
  {
    assert [c][0] == c;
    assert [c] == " " <==> c == ' ';
    assert [c] == "." <==> c == '.';
    assert [c] == "_" <==> c == '_';
  }

  /** `sanitize_filename(title)` for any loaded title value: a str is
      iterated character by character; a list or dict yields its elements
      or keys; anything else is not iterable. */
  function StemOfTitle(title: Json): Py<string> {
    match Iterate(title)
    case Raises => Raises
    case Returns(items) =>
      match StringItems(items)
      case Raises => Raises
      case Returns(pieces) => Returns(SanitizePieces(pieces))
  }

  /** On a string title the piecewise generator is `SanitizeFilename`. */
  lemma StemOfStringTitle(s: string)
    ensures StemOfTitle(JStr(s)) == Returns(SanitizeFilename(s))
  {
    var items := CharItems(s);
    var pieces := StringItems(items).value;
    assert pieces == Chars(s);
    ConcatKeptChars(s);
  }

  /** The path component derived from a record's title:
      `sanitize_filename(conversation.get('title', 'untitled'))`. */
  function TitleStem(record: Json): Py<string> {
    match Get(record, "title", JStr("untitled"))
    case Raises => Raises
    case Returns(title) => StemOfTitle(title)
  }

  /** `data` as the list of records to save: a list is used as is, a single
      dict is one record, anything else gives no records. */
  function ConversationRecords(data: Json): seq<Json> {
    match data
    case JArr(items) => items
    case JObj(_) => [data]
    case _ => []
  }

  /** The stems of the records the save loop gets through: it stops at the
      first record whose title raises (the `try` around the whole loop ends
      it), and `.1` records that stop. */
  function TitleStems(records: seq<Json>): seq<string> {
    MapUntilRaise(TitleStem, records).0
  }

  /** One `save_json(conversation, <dir>/<stem>.json)` per record saved. */
  function TitleWrites(records: seq<Json>, outputDir: string): seq<Write> {
    var stems := TitleStems(records);
    seq(|stems|, i requires 0 <= i < |stems| =>
      Write(PathJoin(outputDir, stems[i] + ".json"), JsonDoc(records[i])))
  }

  /** `extract_conversations_by_title(data, output_dir)` as a filesystem update. */
  function ExtractConversationsByTitle(data: Json, outputDir: string, fs: FileSystem): (r: FileSystem)
    ensures fs.Keys <= r.Keys
  {
    var ws := TitleWrites(ConversationRecords(data), outputDir);
    ApplyWritesKeys(fs, ws);
    ApplyWrites(fs, ws)
  }

  /** The values a `for` loop accepts: strings, lists and dicts. */
  predicate Iterable(v: Json) {
    v.JStr? || v.JArr? || v.JObj?
  }

  /** A title lookup raises on a record that is not a dict (no `.get`) and
      on a title that is null, a boolean or a number (not iterable). */
  lemma TitleStemRaises(record: Json)
    ensures !record.JObj? ==> TitleStem(record).Raises?
    ensures record.JObj? && Lookup(record.fields, "title").Some? && !Iterable(Lookup(record.fields, "title").value)
            ==> TitleStem(record).Raises?
  {
  }

  /** The `try` around the whole loop ends it at the first record whose
      title raises: the paths afterwards are the old ones plus the stems of
      the records before it, and nothing of it or of any later record. */
  lemma SaveStopsAtFirstBadTitle(data: Json, outputDir: string, fs: FileSystem, i: nat)
    requires var records := ConversationRecords(data);
      i < |records| && TitleStem(records[i]).Raises?
    ensures var records := ConversationRecords(data);
      var stems := TitleStems(records);
      && |stems| <= i
      && (|stems| < |records| ==> TitleStem(records[|stems|]).Raises?)
      && ExtractConversationsByTitle(data, outputDir, fs).Keys == fs.Keys + JsonPathsUnder(outputDir, stems)
  {
    var records := ConversationRecords(data);
    var ws := TitleWrites(records, outputDir);
    ApplyWritesKeys(fs, ws);
    TitleWritesPaths(records, outputDir);
  }

  lemma TitleWritesPaths(records: seq<Json>, outputDir: string)
    ensures WrittenPaths(TitleWrites(records, outputDir)) == JsonPathsUnder(outputDir, TitleStems(records))
  {
    WrittenJsonPaths(TitleWrites(records, outputDir), outputDir, TitleStems(records));
  }

  /** Input that is neither a list nor a dict saves nothing. */
  lemma NonContainerSavesNothing(data: Json, outputDir: string, fs: FileSystem)
    requires !data.JArr? && !data.JObj?
    ensures ExtractConversationsByTitle(data, outputDir, fs) == fs
  {
    assert TitleWrites([], outputDir) == [];
  }

  /** A single dict is saved exactly as the one-element list holding it. */
  lemma SingleRecordIsOneElementList(data: Json, outputDir: string, fs: FileSystem)
    requires data.JObj?
    ensures ExtractConversationsByTitle(data, outputDir, fs)
              == ExtractConversationsByTitle(JArr([data]), outputDir, fs)
  {
  }

  /** A record whose title is a string is saved under the sanitized title
      plus ".json", with no collision suffix. */
  predicate HasStringTitle(record: Json) {
    record.JObj? && (Lookup(record.fields, "title").None? || Lookup(record.fields, "title").value.JStr?)
  }

  function TitleOrDefault(record: Json): string
    requires record.JObj?
  {
    match Lookup(record.fields, "title")
    case Some(JStr(s)) => s
    case _ => "untitled"
  }

  lemma ConversationPaths(records: seq<Json>, outputDir: string)
    requires forall i :: 0 <= i < |records| ==> HasStringTitle(records[i])
    ensures !MapUntilRaise(TitleStem, records).1
    ensures |TitleWrites(records, outputDir)| == |records|
    ensures forall i :: 0 <= i < |records| ==>
              TitleWrites(records, outputDir)[i]
                == Write(PathJoin(outputDir, SanitizeFilename(TitleOrDefault(records[i])) + ".json"),
                         JsonDoc(records[i]))
  {
    forall i | 0 <= i < |records|
      ensures TitleStem(records[i]) == Returns(SanitizeFilename(TitleOrDefault(records[i])))
    {
      StemOfStringTitle(TitleOrDefault(records[i]));
    }
  }

  /** Record `j`, when no later record's title sanitizes like its own, is
      what its path holds afterwards; an earlier record `i` whose title
      sanitizes alike was written to that same path and is overwritten
      (`i == j` is the case of a record whose title nobody repeats). */
  lemma SameTitleOverwrites(data: Json, outputDir: string, fs: FileSystem, i: nat, j: nat)
    requires var records := ConversationRecords(data);
      && i <= j < |records|
      && (forall k :: 0 <= k < |records| ==> HasStringTitle(records[k]))
      && SanitizeFilename(TitleOrDefault(records[i])) == SanitizeFilename(TitleOrDefault(records[j]))
      && (forall k :: j < k < |records| ==>
            SanitizeFilename(TitleOrDefault(records[k])) != SanitizeFilename(TitleOrDefault(records[j])))
    ensures var records := ConversationRecords(data);
      var path := PathJoin(outputDir, SanitizeFilename(TitleOrDefault(records[i])) + ".json");
      path in ExtractConversationsByTitle(data, outputDir, fs)
      && ExtractConversationsByTitle(data, outputDir, fs)[path] == JsonDoc(records[j])
  {
    var records := ConversationRecords(data);
    LastTitleWriteWins(records, outputDir, fs, i, j);
  }

  /** The replay of the save loop's writes leaves record `j` at its path. */
  lemma LastTitleWriteWins(records: seq<Json>, outputDir: string, fs: FileSystem, i: nat, j: nat)
    requires && i <= j < |records|
             && (forall k :: 0 <= k < |records| ==> HasStringTitle(records[k]))
             && HasStringTitle(records[i]) && HasStringTitle(records[j])
             && SanitizeFilename(TitleOrDefault(records[i])) == SanitizeFilename(TitleOrDefault(records[j]))
             && (forall k :: j < k < |records| ==>
                   HasStringTitle(records[k]) &&
                   SanitizeFilename(TitleOrDefault(records[k])) != SanitizeFilename(TitleOrDefault(records[j])))
    ensures var path := PathJoin(outputDir, SanitizeFilename(TitleOrDefault(records[i])) + ".json");
      path in ApplyWrites(fs, TitleWrites(records, outputDir))
      && ApplyWrites(fs, TitleWrites(records, outputDir))[path] == JsonDoc(records[j])
  {
    var ws := TitleWrites(records, outputDir);
    ConversationPaths(records, outputDir);
    LaterWritesElsewhere(records, outputDir, j);
    LastWriteWins(fs, ws, j);
  }

  /** No later record is written where record `j` is. */
  lemma LaterWritesElsewhere(records: seq<Json>, outputDir: string, j: nat)
    requires j < |records|
    requires forall k :: 0 <= k < |records| ==> HasStringTitle(records[k])
    requires forall k :: j < k < |records| ==>
               HasStringTitle(records[k]) && HasStringTitle(records[j]) &&
               SanitizeFilename(TitleOrDefault(records[k])) != SanitizeFilename(TitleOrDefault(records[j]))
    ensures |TitleWrites(records, outputDir)| == |records|
    ensures forall k :: j < k < |records| ==>
              TitleWrites(records, outputDir)[k].path != TitleWrites(records, outputDir)[j].path
  {
    var ws := TitleWrites(records, outputDir);
    ConversationPaths(records, outputDir);
    forall k | j < k < |records| ensures ws[k].path != ws[j].path {
      StemPathDistinct(outputDir, TitleOrDefault(records[k]), TitleOrDefault(records[j]));
    }
  }

  /** Distinct sanitized titles give distinct paths. */
  lemma StemPathDistinct(dir: string, a: string, b: string)
    requires SanitizeFilename(a) != SanitizeFilename(b)
    ensures PathJoin(dir, SanitizeFilename(a) + ".json") != PathJoin(dir, SanitizeFilename(b) + ".json")
  {
    var sa, sb := SanitizeFilename(a), SanitizeFilename(b);
    NoSlashInSanitized(a);
    NoSlashInSanitized(b);
    ExtensionDistinct(sa, sb, ".json");
    PathJoinDistinct(dir, sa + ".json", sb + ".json");
  }

  lemma NoSlashInSanitized(s: string)
    ensures !IsAbsolute(SanitizeFilename(s) + ".json")
  {
    var r := SanitizeFilename(s);
    if |r| > 0 {
      assert KeepInFilename(r[0]);
    }
  }

  // ---------------------------------------------------------------------------
  // extract_user_authored_content and _extract_user_content_from_mapping

  /** What one `(message_id, message_data)` entry of a mapping adds to the
      result, following Python's `in`, `[]`, `.get` and `list.extend`. */
  function NodeContent(node: Json): (r: Py<seq<Json>>)
    ensures r.Returns? && |r.value| > 0 ==> IsUserNode(node)
  {
    match In("message", node)
    case Raises => Raises
    case Returns(hasMessage) =>
      if !hasMessage then Returns([])
      else
        match Subscript(node, "message")
        case Raises => Raises
        case Returns(message) =>
          match In("author", message)
          case Raises => Raises
          case Returns(hasAuthor) =>
            if !hasAuthor then Returns([])
            else
              match Subscript(message, "author")
              case Raises => Raises
              case Returns(author) =>
                match Subscript(author, "role")
                case Raises => Raises
                case Returns(role) =>
                  if role != JStr("user") then Returns([])
                  else
                    match Subscript(message, "content")
                    case Raises => Raises
                    case Returns(content) =>
                      match Get(content, "parts", JArr([]))
                      case Raises => Raises
                      case Returns(parts) => Iterate(parts)
  }

  function EntryContent(entry: (string, Json)): Py<seq<Json>> {
    NodeContent(entry.1)
  }

  /** The `.items()` loop over `mapping` cannot finish: it is not a dict, or
      one of its nodes raises. */
  predicate MappingRaises(mapping: Json) {
    !mapping.JObj? || exists i :: 0 <= i < |mapping.fields| && NodeContent(mapping.fields[i].1).Raises?
  }

  /** `_extract_user_content_from_mapping(conversation)`: a dict without
      `mapping` gives nothing; with one, the loop raises exactly when the
      mapping is not a dict or some node raises. A list or str conversation
      can only raise (when `'mapping' in` it holds) or give nothing, and
      any other value raises at the `in` test. */
  function ConversationContent(conversation: Json): (r: Py<seq<Json>>)
    ensures conversation.JObj? && Field(conversation, "mapping").None? ==> r == Returns([])
    ensures conversation.JObj? && Field(conversation, "mapping").Some? ==>
              (r.Raises? <==> MappingRaises(Field(conversation, "mapping").value))
    ensures !conversation.JObj? ==> r.Raises? || r == Returns([])
    ensures !(conversation.JObj? || conversation.JArr? || conversation.JStr?) ==> r.Raises?
  {
    match In("mapping", conversation)
    case Raises => Raises
    case Returns(hasMapping) =>
      if !hasMapping then Returns([])
      else
        match Subscript(conversation, "mapping")
        case Raises => Raises
        case Returns(mapping) =>
          if mapping.JObj? then FlatMapAll(EntryContent, mapping.fields) else Raises
  }

  /** `extract_user_authored_content(data)`: any exception yields `[]`. */
  function ExtractUserAuthoredContent(data: Json): (r: seq<Json>)
    ensures !data.JArr? && !data.JObj? ==> r == []
    ensures data.JObj? && Field(data, "mapping").None? ==> r == []
  {
    var outcome :=
      match data
      case JArr(conversations) => FlatMapAll(ConversationContent, conversations)
      case JObj(_) => ConversationContent(data)
      case _ => Returns([]);
    match outcome
    case Returns(content) => content
    case Raises => []
  }

  /** A user node contributes every element of its `parts` list, whatever
      their types, in order. */
  lemma UserNodeContributesAllParts(node: Json, parts: seq<Json>)
    requires IsUserNode(node)
    requires Field(Field(node, "message").value, "content").Some?
    requires Field(Field(node, "message").value, "content").value.JObj?
    requires PartsOf(node) == Some(JArr(parts))
    ensures NodeContent(node) == Returns(parts)
  {
  }

  /** A dict node contributes nothing when its path stops before a "user"
      role: no `message`, a dict message without `author`, or a role other
      than "user". */
  lemma NonUserNodeContributesNothing(node: Json)
    requires node.JObj?
    requires var message := Field(node, "message");
      || message.None?
      || (message.value.JObj? && Field(message.value, "author").None?)
      || (message.value.JObj? && Field(message.value, "author").Some?
          && Field(message.value, "author").value.JObj?
          && Field(Field(message.value, "author").value, "role").Some?
          && Field(Field(message.value, "author").value, "role") != Some(JStr("user")))
    ensures NodeContent(node) == Returns([])
  {
  }

  /** A user node whose message has no `content` raises a KeyError. */
  lemma UserNodeWithoutContentRaises(node: Json)
    requires IsUserNode(node)
    requires Field(Field(node, "message").value, "content").None?
    ensures NodeContent(node).Raises?
  {
  }

  /** An author dict without a `role` raises a KeyError. */
  lemma AuthorWithoutRoleRaises(node: Json)
    requires Field(node, "message").Some? && Field(node, "message").value.JObj?
    requires Field(Field(node, "message").value, "author").Some?
    requires Field(Field(node, "message").value, "author").value.JObj?
    requires Field(Field(Field(node, "message").value, "author").value, "role").None?
    ensures NodeContent(node).Raises?
  {
  }

  /** A dict conversation without `mapping` contributes nothing. */
  lemma ConversationWithoutMapping(conversation: Json)
    requires conversation.JObj? && Field(conversation, "mapping").None?
    ensures ConversationContent(conversation) == Returns([])
  {
  }

  /** The nodes of a mapping contribute in the mapping's order: splitting
      its entries into `a` then `b` splits the output the same way. */
  lemma MappingContentAppend(conversation: Json, a: seq<(string, Json)>, b: seq<(string, Json)>)
    requires conversation.JObj? && Field(conversation, "mapping") == Some(JObj(a + b))
    ensures ConversationContent(conversation).Raises? <==>
              FlatMapAll(EntryContent, a).Raises? || FlatMapAll(EntryContent, b).Raises?
    ensures ConversationContent(conversation).Returns? ==>
              ConversationContent(conversation).value
                == FlatMapAll(EntryContent, a).value + FlatMapAll(EntryContent, b).value
  {
    FlatMapAllAppend(EntryContent, a, b);
  }

  /** The result over a list is the in-order concatenation of the results
      over its parts, and an exception in either part empties it. */
  lemma ExtractAppend(a: seq<Json>, b: seq<Json>)
    ensures ExtractUserAuthoredContent(JArr(a + b))
              == if FlatMapAll(ConversationContent, a).Returns? && FlatMapAll(ConversationContent, b).Returns?
                 then ExtractUserAuthoredContent(JArr(a)) + ExtractUserAuthoredContent(JArr(b))
                 else []
  {
    FlatMapAllAppend(ConversationContent, a, b);
  }

  /** One node that raises anywhere in one conversation of the list empties
      the whole result, including what other conversations contributed. */
  lemma OneFailureEmptiesAll(conversations: seq<Json>, i: nat, j: nat)
    requires i < |conversations|
    requires conversations[i].JObj? && Field(conversations[i], "mapping").Some?
    requires Field(conversations[i], "mapping").value.JObj?
    requires j < |Field(conversations[i], "mapping").value.fields|
    requires NodeContent(Field(conversations[i], "mapping").value.fields[j].1).Raises?
    ensures ExtractUserAuthoredContent(JArr(conversations)) == []
  {
    var fields := Field(conversations[i], "mapping").value.fields;
    assert EntryContent(fields[j]).Raises?;
    assert ConversationContent(conversations[i]).Raises?;
  }

  /** A single dict is treated exactly like a one-element list holding it. */
  lemma SingleConversationIsOneElementList(conversation: Json)
    requires conversation.JObj?
    ensures ExtractUserAuthoredContent(conversation) == ExtractUserAuthoredContent(JArr([conversation]))
  {
    FlatMapAllSingle(ConversationContent, conversation);
  }

  /** Input that is neither a list nor a dict gives `[]`. */
  lemma NonContainerGivesNothing(data: Json)
    requires !data.JArr? && !data.JObj?
    ensures ExtractUserAuthoredContent(data) == []
  {
  }
}
