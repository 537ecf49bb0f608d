/** `src/text_preprocessor.py`: a fixed pipeline from a user message to a
    list of tokens. Normalisation is modelled exactly; the tokenizer, the
    stemmer, the lemmatizer and the stopword set come from NLTK and
    scikit-learn and are parameters. */
module TextPreprocessor {
  import opened Prelude

  // ---------------------------------------------------------------------------
  // normalize_text

  /** What `str.lower` does to one character, as far as the later filter can
      tell: ASCII capitals become small letters, KELVIN SIGN becomes "k" and
      LATIN CAPITAL LETTER I WITH DOT ABOVE becomes "i" plus a combining dot.
      No other character lowers to an ASCII letter or to whitespace, and none
      stops being a letter-or-whitespace, so keeping the rest unchanged makes
      no difference once non-letters are removed. */
  function LowerChar(c: char): (r: string)
    ensures 1 <= |r| <= 2
    ensures 'A' <= c <= 'Z' ==> r == [AsciiLower(c)] && 'a' <= r[0] <= 'z'
    ensures LowerFixed(c) ==> r == [c]
    ensures forall i :: 0 <= i < |r| ==> !('A' <= r[i] <= 'Z')
    ensures forall i :: 0 <= i < |r| ==> (IsSpace(r[i]) <==> IsSpace(c))
  {
    if 'A' <= c <= 'Z' then [(c as int + 32) as char]
    else if c == '\U{212A}' then "k"
    else if c == '\U{0130}' then "i\U{0307}"
    else [c]
  }

  /** An ASCII capital's small letter; every other character as it is. */
  function AsciiLower(c: char): char {
    if 'A' <= c <= 'Z' then (c as int + 32) as char else c
  }

  /** `text.lower()`, character by character. */
  function Lower(text: string): string {
    FlatMap(LowerChar, text)
  }

  /** The text after its leading whitespace. */
  function SkipSpaces(s: string): (r: string)
    ensures |r| <= |s| && r == s[|s| - |r|..]
    ensures |r| == 0 || !IsSpace(r[0])
    ensures forall i :: 0 <= i < |s| - |r| ==> IsSpace(s[i])
  {
    if |s| > 0 && IsSpace(s[0]) then
      var r := SkipSpaces(s[1..]);
      assert forall i :: 1 <= i < |s| - |r| ==> s[i] == s[1..][i - 1];
      r
    else s
  }

  /** `re.sub(r'\s+', ' ', text)`: every maximal run of whitespace becomes
      one space. */
  function CollapseWhitespace(s: string): (r: string)
    ensures |r| <= |s|
    ensures |r| > 0 <==> |s| > 0
    ensures |s| > 0 ==> (IsSpace(r[0]) <==> IsSpace(s[0]))
    ensures forall i :: 0 <= i < |r| && IsSpace(r[i]) ==> r[i] == ' '
    decreases |s|
  {
    if |s| == 0 then ""
    else if IsSpace(s[0]) then " " + CollapseWhitespace(SkipSpaces(s))
    else [s[0]] + CollapseWhitespace(s[1..])
  }

  /** No two whitespace characters stand next to each other. */
  predicate NoAdjacentSpaces(r: string) {
    forall i :: 0 <= i < |r| - 1 ==> !(IsSpace(r[i]) && IsSpace(r[i + 1]))
  }

  /** After collapsing, no whitespace run is longer than one character. */
  lemma {:induction false} CollapseNoAdjacentSpaces(s: string)
    ensures NoAdjacentSpaces(CollapseWhitespace(s))
    decreases |s|
  {
    if |s| > 0 {
      if IsSpace(s[0]) {
        var t := SkipSpaces(s);
        CollapseNoAdjacentSpaces(t);
        ConsKeepsNoAdjacent(' ', CollapseWhitespace(t));
      } else {
        CollapseNoAdjacentSpaces(s[1..]);
        ConsKeepsNoAdjacent(s[0], CollapseWhitespace(s[1..]));
      }
    }
  }

  lemma ConsKeepsNoAdjacent(c: char, r: string)
    requires NoAdjacentSpaces(r)
    requires |r| == 0 || !IsSpace(c) || !IsSpace(r[0])
    ensures NoAdjacentSpaces([c] + r)
  {
    var cr := [c] + r;
    forall i | 0 <= i < |cr| - 1 ensures !(IsSpace(cr[i]) && IsSpace(cr[i + 1])) {
      if i > 0 {
        assert cr[i] == r[i - 1] && cr[i + 1] == r[i];
      }
    }
  }

  predicate NotSpace(c: char) {
    !IsSpace(c)
  }

  /** Collapsing keeps every non-whitespace character, in order. */
  lemma {:induction false} CollapseKeepsText(s: string)
    ensures Filter(CollapseWhitespace(s), NotSpace) == Filter(s, NotSpace)
    decreases |s|
  {
    if |s| > 0 {
      if IsSpace(s[0]) {
        CollapseKeepsText(SkipSpaces(s));
        CollapseKeepsTextRun(s);
      } else {
        CollapseKeepsText(s[1..]);
        CollapseKeepsTextChar(s);
      }
    }
  }

  /** A leading whitespace run becomes one space; neither counts. */
  lemma CollapseKeepsTextRun(s: string)
    requires |s| > 0 && IsSpace(s[0])
    requires Filter(CollapseWhitespace(SkipSpaces(s)), NotSpace) == Filter(SkipSpaces(s), NotSpace)
    ensures Filter(CollapseWhitespace(s), NotSpace) == Filter(s, NotSpace)
  {
    var t := SkipSpaces(s);
    var k := |s| - |t|;
    SplitAt(s, k);
    SpaceRunFiltersAway(s, k);
    RunThenRest(s, s[..k], t, CollapseWhitespace(t));
  }

  lemma SpaceRunFiltersAway(s: string, k: nat)
    requires k <= |s| && forall i :: 0 <= i < k ==> IsSpace(s[i])
    ensures Filter(s[..k], NotSpace) == []
  {
    FilterNone(s[..k]);
  }

  lemma RunThenRest(s: string, run: string, t: string, collapsed: string)
    requires s == run + t
    requires Filter(run, NotSpace) == []
    requires Filter(collapsed, NotSpace) == Filter(t, NotSpace)
    ensures Filter(" " + collapsed, NotSpace) == Filter(s, NotSpace)
  {
    FilterAppend(" ", collapsed, NotSpace);
    FilterAppend(run, t, NotSpace);
    assert Filter(" ", NotSpace) == [] by { assert IsSpace(' '); }
  }

  /** A leading non-whitespace character is kept by both. */
  lemma CollapseKeepsTextChar(s: string)
    requires |s| > 0 && !IsSpace(s[0])
    requires Filter(CollapseWhitespace(s[1..]), NotSpace) == Filter(s[1..], NotSpace)
    ensures Filter(CollapseWhitespace(s), NotSpace) == Filter(s, NotSpace)
  {
    assert CollapseWhitespace(s) == [s[0]] + CollapseWhitespace(s[1..]);
    CharThenRest(s, CollapseWhitespace(s[1..]));
  }

  lemma CharThenRest(s: string, collapsed: string)
    requires |s| > 0 && NotSpace(s[0])
    requires Filter(collapsed, NotSpace) == Filter(s[1..], NotSpace)
    ensures Filter([s[0]] + collapsed, NotSpace) == Filter(s, NotSpace)
  {
    FilterCons(s[0], collapsed, NotSpace);
    assert s == [s[0]] + s[1..];
    FilterCons(s[0], s[1..], NotSpace);
  }

  lemma {:induction false} FilterNone(s: string)
    requires forall i :: 0 <= i < |s| ==> IsSpace(s[i])
    ensures Filter(s, NotSpace) == []
    decreases |s|
  {
    if |s| > 0 {
      FilterNone(s[1..]);
    }
  }

  /** The characters `[^a-zA-Z\s]` does not match. */
  predicate LetterOrSpace(c: char) {
    IsAsciiLetter(c) || IsSpace(c)
  }

  predicate IsNormalChar(c: char) {
    ('a' <= c <= 'z') || c == ' '
  }

  /** `normalize_text(text)`: lowercase, collapse whitespace runs, then drop
      every character that is neither an ASCII letter nor whitespace. */
  function NormalizeText(text: string): (r: string)
    ensures forall i :: 0 <= i < |r| ==> IsNormalChar(r[i])
  {
    var collapsed := CollapseWhitespace(Lower(text));
    LowerHasNoCapital(text);
    var r := Filter(collapsed, LetterOrSpace);
    FilterMembers(collapsed, LetterOrSpace);
    assert forall i :: 0 <= i < |r| ==> r[i] in collapsed;
    r
  }

  lemma LowerHasNoCapital(text: string)
    ensures forall i :: 0 <= i < |CollapseWhitespace(Lower(text))| ==>
              !('A' <= CollapseWhitespace(Lower(text))[i] <= 'Z')
  {
    var lowered := Lower(text);
    forall c | c in lowered ensures !('A' <= c <= 'Z') {
      FlatMapMember(LowerChar, text, c);
    }
    CollapseFromInput(lowered);
  }

  /** Every character of the collapsed text is a space or comes from the input. */
  lemma {:induction false} CollapseFromInput(s: string)
    ensures forall i :: 0 <= i < |CollapseWhitespace(s)| ==>
              CollapseWhitespace(s)[i] == ' ' || CollapseWhitespace(s)[i] in s
    decreases |s|
  {
    if |s| > 0 {
      if IsSpace(s[0]) {
        var t := SkipSpaces(s);
        CollapseFromInput(t);
        assert forall c :: c in t ==> c in s;
      } else {
        CollapseFromInput(s[1..]);
      }
    }
  }

  /** On text without whitespace, normalising keeps exactly the letters,
      lowercased. */
  lemma NormalizeWithoutWhitespace(text: string)
    requires forall i :: 0 <= i < |text| ==> !IsSpace(text[i])
    ensures NormalizeText(text) == Filter(Lower(text), IsAsciiLetter)
  {
    var lowered := Lower(text);
    forall i | 0 <= i < |lowered| ensures !IsSpace(lowered[i]) {
      FlatMapMember(LowerChar, text, lowered[i]);
      var k :| 0 <= k < |text| && lowered[i] in LowerChar(text[k]);
    }
    CollapseNoSpace(lowered);
    FilterSame(lowered);
  }

  lemma {:induction false} CollapseNoSpace(s: string)
    requires forall i :: 0 <= i < |s| ==> !IsSpace(s[i])
    ensures CollapseWhitespace(s) == s
    decreases |s|
  {
    if |s| > 0 {
      CollapseNoSpace(s[1..]);
    }
  }

  lemma {:induction false} FilterSame(s: string)
    requires forall i :: 0 <= i < |s| ==> !IsSpace(s[i])
    ensures Filter(s, LetterOrSpace) == Filter(s, IsAsciiLetter)
    decreases |s|
  {
    if |s| > 0 {
      FilterSame(s[1..]);
    }
  }

  /** No character that `str.lower` changes into something else. */
  predicate LowerFixed(c: char) {
    !('A' <= c <= 'Z') && c != '\U{212A}' && c != '\U{0130}'
  }

  lemma {:induction false} LowerIdentity(s: string)
    requires forall i :: 0 <= i < |s| ==> LowerFixed(s[i])
    ensures Lower(s) == s
    decreases |s|
  {
    if |s| > 0 {
      LowerIdentity(s[1..]);
    }
  }

  /** Every whitespace character is a plain space and no two are adjacent. */
  predicate SpacedOut(s: string) {
    (forall i :: 0 <= i < |s| && IsSpace(s[i]) ==> s[i] == ' ')
    && (forall i :: 0 <= i < |s| - 1 ==> !(IsSpace(s[i]) && IsSpace(s[i + 1])))
  }

  lemma SpacedOutTail(s: string)
    requires |s| > 0 && SpacedOut(s)
    ensures SpacedOut(s[1..])
  {
    assert forall i :: 0 <= i < |s| - 1 ==> s[1..][i] == s[i + 1];
  }

  /** Collapsing changes nothing when there is nothing to collapse. */
  lemma {:induction false} CollapseIdentity(s: string)
    requires SpacedOut(s)
    ensures CollapseWhitespace(s) == s
    decreases |s|
  {
    if |s| > 0 {
      SpacedOutTail(s);
      CollapseIdentity(s[1..]);
      if IsSpace(s[0]) {
        CollapseIdentitySpace(s);
      } else {
        CollapseIdentityChar(s);
      }
    }
  }

  /** A lone space in front stays. */
  lemma CollapseIdentitySpace(s: string)
    requires |s| > 0 && IsSpace(s[0]) && SpacedOut(s)
    requires CollapseWhitespace(s[1..]) == s[1..]
    ensures CollapseWhitespace(s) == s
  {
    assert s[0] == ' ';
    assert |s| == 1 || !IsSpace(s[1]);
    assert SkipSpaces(s[1..]) == s[1..];
    assert s == [s[0]] + s[1..];
  }

  /** A non-whitespace character in front stays. */
  lemma CollapseIdentityChar(s: string)
    requires |s| > 0 && !IsSpace(s[0])
    requires CollapseWhitespace(s[1..]) == s[1..]
    ensures CollapseWhitespace(s) == s
  {
    assert s == [s[0]] + s[1..];
  }

  /** A run of two spaces collapses to one. */
  lemma CollapseDoubleSpace(a: char, b: char)
    requires !IsSpace(a) && !IsSpace(b)
    ensures CollapseWhitespace([a, ' ', ' ', b]) == [a, ' ', b]
  {
    var s := [a, ' ', ' ', b];
    CollapseCons(s);
    assert s[0] == a && s[1..] == [' ', ' ', b];
    CollapseSpacesBefore(b);
    assert [a] + [' ', b] == [a, ' ', b];
  }

  lemma CollapseCons(s: string)
    requires |s| > 0 && !IsSpace(s[0])
    ensures CollapseWhitespace(s) == [s[0]] + CollapseWhitespace(s[1..])
  {
  }

  lemma CollapseSpacesBefore(b: char)
    requires !IsSpace(b)
    ensures CollapseWhitespace([' ', ' ', b]) == [' ', b]
  {
    assert SkipSpaces([b]) == [b];
    assert SkipSpaces([' ', b]) == [b] by {
      assert [' ', b][1..] == [b];
    }
    assert SkipSpaces([' ', ' ', b]) == [b] by {
      assert [' ', ' ', b][1..] == [' ', b];
    }
    assert CollapseWhitespace([b]) == [b] by {
      assert [b][1..] == [];
    }
  }

  /** `[a, ' ', c, ' ', b]` with single spaces and no other whitespace. */
  lemma SpacedOutFive(a: char, c: char, b: char)
    requires !IsSpace(a) && !IsSpace(b) && !IsSpace(c)
    ensures SpacedOut([a, ' ', c, ' ', b])
  {
  }

  /** The filter drops a punctuation mark and keeps the spaces around it. */
  lemma FilterFive(a: char, c: char, b: char)
    requires IsAsciiLetter(a) && IsAsciiLetter(b) && !LetterOrSpace(c)
    ensures Filter([a, ' ', c, ' ', b], LetterOrSpace) == [a, ' ', ' ', b]
  {
    assert LetterOrSpace(' ');
    FilterDropsMiddle(a, ' ', c, ' ', b, LetterOrSpace);
  }

  lemma FilterDropsMiddle<T>(a: T, x: T, c: T, y: T, b: T, keep: T -> bool)
    requires keep(a) && keep(x) && !keep(c) && keep(y) && keep(b)
    ensures Filter([a, x, c, y, b], keep) == [a, x, y, b]
  {
    FilterAppend([a, x], [c] + [y, b], keep);
    FilterPair(a, x, keep);
    FilterCons(c, [y, b], keep);
    FilterPair(y, b, keep);
    assert [a, x] + ([c] + [y, b]) == [a, x, c, y, b];
    assert [a, x] + [y, b] == [a, x, y, b];
  }

  lemma FilterPair<T>(y: T, b: T, keep: T -> bool)
    requires keep(y) && keep(b)
    ensures Filter([y, b], keep) == [y, b]
  {
    assert [y, b][1..] == [b];
    assert [b][1..] == [];
  }

  /** Collapsing runs before removal, so a punctuation mark between two
      spaces leaves a double space behind: `"a , b"` becomes `"a  b"`. */
  lemma DoubleSpaceSurvives(a: char, c: char, b: char)
    requires 'a' <= a <= 'z' && 'a' <= b <= 'z'
    requires !LetterOrSpace(c) && LowerFixed(c)
    ensures NormalizeText([a, ' ', c, ' ', b]) == [a, ' ', ' ', b]
  {
    var s := [a, ' ', c, ' ', b];
    LowerIdentity(s);
    SpacedOutFive(a, c, b);
    CollapseIdentity(s);
    FilterFive(a, c, b);
  }

  /** A second pass collapses a double space: `"a  b"` becomes `"a b"`. */
  lemma DoubleSpaceCollapses(a: char, b: char)
    requires 'a' <= a <= 'z' && 'a' <= b <= 'z'
    ensures NormalizeText([a, ' ', ' ', b]) == [a, ' ', b]
  {
    LowerIdentity([a, ' ', ' ', b]);
    CollapseDoubleSpace(a, b);
    FilterAllKept([a, ' ', b], LetterOrSpace);
  }

  /** So normalising is not idempotent: on `"a , b"` a second pass collapses
      the double space the first pass produced. */
  lemma NormalizeNotIdempotent(a: char, c: char, b: char)
    requires 'a' <= a <= 'z' && 'a' <= b <= 'z'
    requires !LetterOrSpace(c) && LowerFixed(c)
    ensures NormalizeText(NormalizeText([a, ' ', c, ' ', b])) != NormalizeText([a, ' ', c, ' ', b])
  {
    DoubleSpaceSurvives(a, c, b);
    DoubleSpaceCollapses(a, b);
    assert |[a, ' ', b]| != |[a, ' ', ' ', b]|;
  }

  /** Text made of small letters and single spaces is left unchanged. */
  predicate IsSingleSpaced(s: string) {
    (forall i :: 0 <= i < |s| ==> IsNormalChar(s[i]))
    && (forall i :: 0 <= i < |s| - 1 ==> !(s[i] == ' ' && s[i + 1] == ' '))
  }

  lemma NormalizeFixesSingleSpaced(s: string)
    requires IsSingleSpaced(s)
    ensures NormalizeText(s) == s
  {
    LowerIdentity(s);
    assert SpacedOut(s) by {
      forall i | 0 <= i < |s| && IsSpace(s[i]) ensures s[i] == ' ' {
        assert IsNormalChar(s[i]);
      }
    }
    CollapseIdentity(s);
    FilterAllKept(s, LetterOrSpace);
  }

  /** ASCII letters and single spaces: every capital is folded to its small
      letter and nothing else changes. */
  lemma NormalizeFoldsCapitals(text: string)
    requires forall i :: 0 <= i < |text| ==> IsAsciiLetter(text[i]) || text[i] == ' '
    requires forall i :: 0 <= i < |text| - 1 ==> !(text[i] == ' ' && text[i + 1] == ' ')
    ensures |NormalizeText(text)| == |text|
    ensures forall i :: 0 <= i < |text| ==> NormalizeText(text)[i] == AsciiLower(text[i])
  {
    var lowered := seq(|text|, i requires 0 <= i < |text| => AsciiLower(text[i]));
    LowerAsciiText(text);
    assert IsSingleSpaced(lowered);
    NormalizeLowered(text, lowered);
  }

  lemma NormalizeLowered(text: string, lowered: string)
    requires Lower(text) == lowered && IsSingleSpaced(lowered)
    ensures NormalizeText(text) == lowered
  {
    assert SpacedOut(lowered) by {
      forall i | 0 <= i < |lowered| && IsSpace(lowered[i]) ensures lowered[i] == ' ' {
        assert IsNormalChar(lowered[i]);
      }
    }
    CollapseIdentity(lowered);
    FilterAllKept(lowered, LetterOrSpace);
  }

  /** On ASCII letters and spaces, `str.lower` folds each capital on its own. */
  lemma {:induction false} LowerAsciiText(text: string)
    requires forall i :: 0 <= i < |text| ==> IsAsciiLetter(text[i]) || text[i] == ' '
    ensures Lower(text) == seq(|text|, i requires 0 <= i < |text| => AsciiLower(text[i]))
    decreases |text|
  {
    if |text| > 0 {
      LowerAsciiText(text[1..]);
      assert LowerChar(text[0]) == [AsciiLower(text[0])];
    }
  }

  /** Idempotent on the outputs that hold no double space. */
  lemma NormalizeIdempotentWithoutDoubleSpace(text: string)
    requires forall i :: 0 <= i < |NormalizeText(text)| - 1 ==>
               !(NormalizeText(text)[i] == ' ' && NormalizeText(text)[i + 1] == ' ')
    ensures NormalizeText(NormalizeText(text)) == NormalizeText(text)
  {
    NormalizeFixesSingleSpaced(NormalizeText(text));
  }

  // ---------------------------------------------------------------------------
  // remove_stopwords

  /** `[token for token in tokens if token not in stop_words]`. */
  function RemoveStopwords(tokens: seq<string>, stopWords: set<string>): (r: seq<string>)
    ensures forall i :: 0 <= i < |r| ==> r[i] !in stopWords
  {
    Filter(tokens, t => t !in stopWords)
  }

  /** Exactly the tokens outside the stopword set survive, each as often as
      in the input, in the input's order; a second pass removes nothing more. */
  lemma RemoveStopwordsSpec(tokens: seq<string>, stopWords: set<string>, t: string)
    ensures multiset(RemoveStopwords(tokens, stopWords))[t]
              == if t in stopWords then 0 else multiset(tokens)[t]
    ensures IsSubseq(RemoveStopwords(tokens, stopWords), tokens)
    ensures RemoveStopwords(RemoveStopwords(tokens, stopWords), stopWords) == RemoveStopwords(tokens, stopWords)
  {
    FilterMultiplicity(tokens, t => t !in stopWords, t);
    FilterIsSubseq(tokens, t => t !in stopWords);
    FilterIdempotent(tokens, t => t !in stopWords);
  }

  // ---------------------------------------------------------------------------
  // preprocess_text

  /** The library pieces the pipeline calls: NLTK's `word_tokenize`,
      `PorterStemmer.stem`, `WordNetLemmatizer.lemmatize` (each may raise),
      and the union of the NLTK and scikit-learn English stopword lists. */
  datatype Nlp = Nlp(
    tokenize: string -> Py<seq<string>>,
    stem: string -> Py<string>,
    lemmatize: string -> Py<string>,
    stopWords: set<string>)

  const DefaultStemming := false
  const DefaultLemmatization := true

  /** The tokens after each stage; any exception raised along the way. */
  function Stages(nlp: Nlp, text: string, useStemming: bool, useLemmatization: bool): Py<seq<string>> {
    match nlp.tokenize(NormalizeText(text))
    case Raises => Raises
    case Returns(tokens) =>
      var kept := RemoveStopwords(tokens, nlp.stopWords);
      match (if useStemming then MapAll(nlp.stem, kept) else Returns(kept))
      case Raises => Raises
      case Returns(stemmed) =>
        if useLemmatization then MapAll(nlp.lemmatize, stemmed) else Returns(stemmed)
  }

  /** `preprocess_text(text, use_stemming, use_lemmatization)`: the handler
      turns any exception into an empty token list. */
  function PreprocessText(nlp: Nlp, text: string, useStemming: bool, useLemmatization: bool): (r: seq<string>)
    ensures nlp.tokenize(NormalizeText(text)).Raises? ==> r == []
    ensures nlp.tokenize(NormalizeText(text)).Returns? ==> |r| <= |nlp.tokenize(NormalizeText(text)).value|
  {
    match Stages(nlp, text, useStemming, useLemmatization)
    case Returns(tokens) => tokens
    case Raises => []
  }

  /** The stages run in the order normalise, tokenize, remove stopwords,
      stem, lemmatize: each output token is the lemma of the stem of the
      i-th surviving token. */
  lemma PreprocessOrder(nlp: Nlp, text: string, useStemming: bool, useLemmatization: bool)
    requires nlp.tokenize(NormalizeText(text)).Returns?
    requires Stages(nlp, text, useStemming, useLemmatization).Returns?
    ensures var kept := RemoveStopwords(nlp.tokenize(NormalizeText(text)).value, nlp.stopWords);
      var out := PreprocessText(nlp, text, useStemming, useLemmatization);
      |out| == |kept|
      && forall i :: 0 <= i < |kept| ==>
           var s := if useStemming then nlp.stem(kept[i]).value else kept[i];
           (useStemming ==> nlp.stem(kept[i]).Returns?)
           && out[i] == if useLemmatization then nlp.lemmatize(s).value else s
  {
    var kept := RemoveStopwords(nlp.tokenize(NormalizeText(text)).value, nlp.stopWords);
    var stemmed := if useStemming then MapAll(nlp.stem, kept) else Returns(kept);
    assert stemmed.Returns?;
  }

  /** With both transforms off, the output is free of stopwords. */
  lemma PlainOutputHasNoStopwords(nlp: Nlp, text: string)
    ensures forall t :: t in PreprocessText(nlp, text, false, false) ==> t !in nlp.stopWords
  {
  }

  /** Stemming runs after stopword removal, so a token that stems to a
      stopword reaches the output. */
  lemma StemmingCanReintroduceStopword(nlp: Nlp, text: string, w: string, x: string)
    requires nlp.tokenize(NormalizeText(text)) == Returns([w])
    requires w !in nlp.stopWords && nlp.stem(w) == Returns(x) && x in nlp.stopWords
    ensures PreprocessText(nlp, text, true, false) == [x]
  {
    assert RemoveStopwords([w], nlp.stopWords) == [w];
  }

  /** Likewise lemmatizing, which is on by default. */
  lemma LemmatizingCanReintroduceStopword(nlp: Nlp, text: string, w: string, x: string)
    requires nlp.tokenize(NormalizeText(text)) == Returns([w])
    requires w !in nlp.stopWords && nlp.lemmatize(w) == Returns(x) && x in nlp.stopWords
    ensures PreprocessText(nlp, text, DefaultStemming, DefaultLemmatization) == [x]
  {
    assert RemoveStopwords([w], nlp.stopWords) == [w];
  }

  /** An exception in any stage empties the whole result: the tokenizer
      raising, stemming on and some kept token's stem raising, or
      lemmatization on, every stem returning, and some stemmed token's
      lemma raising. */
  lemma FailureGivesNoTokens(nlp: Nlp, text: string, useStemming: bool, useLemmatization: bool)
    requires var tokens := nlp.tokenize(NormalizeText(text));
      || tokens.Raises?
      || (var kept := RemoveStopwords(tokens.value, nlp.stopWords);
          || (useStemming && exists i :: 0 <= i < |kept| && nlp.stem(kept[i]).Raises?)
          || (useLemmatization
              && (useStemming ==> forall i :: 0 <= i < |kept| ==> nlp.stem(kept[i]).Returns?)
              && exists i :: 0 <= i < |kept| &&
                   nlp.lemmatize(if useStemming then nlp.stem(kept[i]).value else kept[i]).Raises?))
    ensures Stages(nlp, text, useStemming, useLemmatization).Raises?
    ensures PreprocessText(nlp, text, useStemming, useLemmatization) == []
  {
    var tokens := nlp.tokenize(NormalizeText(text));
    if tokens.Returns? {
      var kept := RemoveStopwords(tokens.value, nlp.stopWords);
      var stemmed := if useStemming then MapAll(nlp.stem, kept) else Returns(kept);
      if stemmed.Returns? {
        var i :| 0 <= i < |kept| &&
          nlp.lemmatize(if useStemming then nlp.stem(kept[i]).value else kept[i]).Raises?;
        assert nlp.lemmatize(stemmed.value[i]).Raises?;
      }
    }
  }
}
