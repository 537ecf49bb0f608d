/** `src/vectorizer.py`: three wrappers around scikit-learn. Each joins its
    whole argument into ONE document before fitting, so every matrix it
    returns has exactly one row, however many documents the caller passed. */
module Vectorizer {
  import opened Prelude

  /** A fitted matrix, recorded by the documents (one per row) it was fit on. */
  datatype Matrix = Matrix(documents: seq<string>)

  function Rows(m: Matrix): nat {
    |m.documents|
  }

  /** A fitted vectorizer or topic model; `featureNames` is what
      `get_feature_names_out()` returns, absent when it has no such method. */
  datatype Model = Model(featureNames: Option<seq<string>>)

  /** The scikit-learn fits, each of which may raise (an empty vocabulary,
      for instance): `TfidfVectorizer().fit_transform`,
      `CountVectorizer().fit_transform`, and
      `LatentDirichletAllocation(n_components, random_state=0).fit_transform`
      applied to a count matrix. */
  datatype Library = Library(
    tfidf: seq<string> -> Py<Model>,
    count: seq<string> -> Py<Model>,
    lda: (Matrix, nat) -> Py<Model>)

  /** `[' '.join(tokens)]`: the single-document corpus every wrapper fits. */
  function Corpus(tokens: seq<string>): (c: seq<string>)
    ensures |c| == 1
  {
    [Join(tokens, " ")]
  }

  /** `vectorize_text_tfidf(tokens)`. */
  function VectorizeTfidf(lib: Library, tokens: seq<string>): (r: Py<(Matrix, Model)>)
    ensures r.Raises? <==> lib.tfidf(Corpus(tokens)).Raises?
    ensures r.Returns? ==> Rows(r.value.0) == 1 && r.value.0.documents[0] == Join(tokens, " ")
  {
    match lib.tfidf(Corpus(tokens))
    case Raises => Raises
    case Returns(model) => Returns((Matrix(Corpus(tokens)), model))
  }

  /** `vectorize_text_count(tokens)`. */
  function VectorizeCount(lib: Library, tokens: seq<string>): (r: Py<(Matrix, Model)>)
    ensures r.Raises? <==> lib.count(Corpus(tokens)).Raises?
    ensures r.Returns? ==> Rows(r.value.0) == 1 && r.value.0.documents[0] == Join(tokens, " ")
  {
    match lib.count(Corpus(tokens))
    case Raises => Raises
    case Returns(model) => Returns((Matrix(Corpus(tokens)), model))
  }

  /** `vectorize_text_lda(tokens, num_topics)`: the topic matrix has one row
      per row of the count matrix it is fit on. */
  function VectorizeLda(lib: Library, tokens: seq<string>, numTopics: nat): (r: Py<(Matrix, Model)>)
    ensures r.Raises? <==> lib.count(Corpus(tokens)).Raises? || lib.lda(Matrix(Corpus(tokens)), numTopics).Raises?
    ensures r.Returns? ==> Rows(r.value.0) == 1
  {
    match VectorizeCount(lib, tokens)
    case Raises => Raises
    case Returns((counts, _)) =>
      match lib.lda(counts, numTopics)
      case Raises => Raises
      case Returns(model) => Returns((counts, model))
  }
}
