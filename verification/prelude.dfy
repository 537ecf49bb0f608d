/** Shared vocabulary of the model: the outcome of a Python call that may raise,
    Python's notion of whitespace, decimal rendering of integers (`str(n)`),
    filtering, joining and a few facts about sequences. */
module Prelude {

  /** The outcome of a Python expression: it either returns a value or raises.
      The kind of exception never matters to the modelled code, which either
      catches everything or lets everything propagate. */
  datatype Py<+T> = Returns(value: T) | Raises

  /** A value that may be absent (a dict lookup that misses). */
  datatype Option<+T> = None | Some(value: T)

  /** Python's `str.isspace`, which is also what `\s` matches in a `str`
      regular expression and what `str.rstrip()` removes. */
  predicate IsSpace(c: char) {
    || ('\t' <= c <= '\r')
    || ('\U{1C}' <= c <= '\U{1F}')
    || c == ' ' || c == '\U{85}' || c == '\U{A0}' || c == '\U{1680}'
    || ('\U{2000}' <= c <= '\U{200A}')
    || c == '\U{2028}' || c == '\U{2029}' || c == '\U{202F}' || c == '\U{205F}'
    || c == '\U{3000}'
  }

  predicate IsDigit(c: char) {
    '0' <= c <= '9'
  }

  predicate IsAsciiLetter(c: char) {
    ('a' <= c <= 'z') || ('A' <= c <= 'Z')
  }

  function DigitChar(d: nat): (c: char)
    requires d < 10
    ensures IsDigit(c)
    ensures c as int - '0' as int == d
  {
    (d + '0' as int) as char
  }

  /** Python's `str(n)` for a non-negative integer. */
  function NatToString(n: nat): (s: string)
    ensures |s| >= 1
    ensures forall i :: 0 <= i < |s| ==> IsDigit(s[i])
    ensures n >= 10 ==> |s| >= 2
  {
    if n < 10 then [DigitChar(n)] else NatToString(n / 10) + [DigitChar(n % 10)]
  }

  /** The value of a string of decimal digits: the reading side of `NatToString`. */
  function DigitsValue(s: string): nat
    requires forall i :: 0 <= i < |s| ==> IsDigit(s[i])
  {
    if |s| == 0 then 0
    else
      assert IsDigit(s[|s| - 1]);
      DigitsValue(s[..|s| - 1]) * 10 + (s[|s| - 1] as int - '0' as int)
  }

  lemma {:induction false} DigitsValueOfNatToString(n: nat)
    ensures DigitsValue(NatToString(n)) == n
  {
    if n >= 10 {
      var s := NatToString(n);
      assert s[..|s| - 1] == NatToString(n / 10);
      DigitsValueOfNatToString(n / 10);
    }
  }

  /** Distinct numbers render to distinct strings. */
  lemma NatToStringInjective(a: nat, b: nat)
    requires NatToString(a) == NatToString(b)
    ensures a == b
  {
    DigitsValueOfNatToString(a);
    DigitsValueOfNatToString(b);
  }

  /** The elements of `s` that satisfy `keep`, in their original order. */
  function Filter<T>(s: seq<T>, keep: T -> bool): (r: seq<T>)
    ensures |r| <= |s|
    ensures forall i :: 0 <= i < |r| ==> keep(r[i])
  {
    if |s| == 0 then []
    else (if keep(s[0]) then [s[0]] else []) + Filter(s[1..], keep)
  }

  /** A sequence is its prefix followed by the rest. */
  lemma SplitAt<T>(s: seq<T>, k: nat)
    requires k <= |s|
    ensures s == s[..k] + s[k..]
  {
  }

  /** Everything the filter keeps comes from its input. */
  lemma {:induction false} FilterMembers<T>(s: seq<T>, keep: T -> bool)
    ensures forall i :: 0 <= i < |Filter(s, keep)| ==> Filter(s, keep)[i] in s
  {
    if |s| > 0 {
      FilterMembers(s[1..], keep);
      assert forall x :: x in s[1..] ==> x in s;
    }
  }

  /** One step of the filter, from the front. */
  lemma FilterCons<T>(x: T, s: seq<T>, keep: T -> bool)
    ensures Filter([x] + s, keep) == (if keep(x) then [x] else []) + Filter(s, keep)
  {
    assert ([x] + s)[1..] == s;
  }

  lemma {:induction false} FilterAppend<T>(a: seq<T>, b: seq<T>, keep: T -> bool)
    ensures Filter(a + b, keep) == Filter(a, keep) + Filter(b, keep)
  {
    if |a| > 0 {
      assert (a + b)[0] == a[0];
      assert (a + b)[1..] == a[1..] + b;
      FilterAppend(a[1..], b, keep);
    } else {
      assert a + b == b;
    }
  }

  /** Filtering keeps each element as often as it occurs, and drops the rest entirely. */
  lemma {:induction false} FilterMultiplicity<T>(s: seq<T>, keep: T -> bool, x: T)
    ensures multiset(Filter(s, keep))[x] == if keep(x) then multiset(s)[x] else 0
  {
    if |s| > 0 {
      assert s == [s[0]] + s[1..];
      FilterMultiplicity(s[1..], keep, x);
    }
  }

  /** Filtering a sequence whose every element passes changes nothing. */
  lemma {:induction false} FilterAllKept<T>(s: seq<T>, keep: T -> bool)
    requires forall i :: 0 <= i < |s| ==> keep(s[i])
    ensures Filter(s, keep) == s
  {
    if |s| > 0 {
      FilterAllKept(s[1..], keep);
    }
  }

  lemma FilterIdempotent<T>(s: seq<T>, keep: T -> bool)
    ensures Filter(Filter(s, keep), keep) == Filter(s, keep)
  {
    FilterAllKept(Filter(s, keep), keep);
  }

  /** `a` can be obtained from `b` by deleting elements (order is kept). */
  predicate IsSubseq<T(==)>(a: seq<T>, b: seq<T>)
    decreases |b|
  {
    if |a| == 0 then true
    else if |b| == 0 then false
    else if a[0] == b[0] then IsSubseq(a[1..], b[1..])
    else IsSubseq(a, b[1..])
  }

  lemma {:induction false} FilterIsSubseq<T>(s: seq<T>, keep: T -> bool)
    ensures IsSubseq(Filter(s, keep), s)
  {
    if |s| > 0 {
      FilterIsSubseq(s[1..], keep);
      if !keep(s[0]) {
        assert Filter(s, keep) == Filter(s[1..], keep);
        SubseqWeaken(Filter(s[1..], keep), s);
      } else {
        assert Filter(s, keep) == [s[0]] + Filter(s[1..], keep);
      }
    }
  }

  /** If `a` is a subsequence of `b`, so is `a` with its head removed. */
  lemma {:induction false} SubseqTail<T>(a: seq<T>, b: seq<T>)
    requires |a| > 0 && IsSubseq(a, b)
    ensures IsSubseq(a[1..], b)
    decreases |b|, 1
  {
    if a[0] != b[0] {
      SubseqTail(a, b[1..]);
    }
    SubseqWeaken(a[1..], b);
  }

  /** A subsequence of a suffix is a subsequence of the whole. */
  lemma {:induction false} SubseqWeaken<T>(a: seq<T>, b: seq<T>)
    requires |b| > 0 && IsSubseq(a, b[1..])
    ensures IsSubseq(a, b)
    decreases |b|, 0
  {
    if |a| > 0 && a[0] == b[0] {
      SubseqTail(a, b[1..]);
    }
  }

  /** If `a` is a subsequence of `b`, so is every prefix of `a`. */
  lemma {:induction false} SubseqPrefix<T>(a: seq<T>, k: nat, b: seq<T>)
    requires k <= |a| && IsSubseq(a, b)
    ensures IsSubseq(a[..k], b)
    decreases |b|
  {
    if k > 0 {
      if a[0] == b[0] {
        SubseqPrefix(a[1..], k - 1, b[1..]);
        assert a[..k][1..] == a[1..][..k - 1];
      } else {
        SubseqPrefix(a, k, b[1..]);
      }
    }
  }

  /** Python's `"".join(parts)`. */
  function Concat(parts: seq<string>): string
  {
    if |parts| == 0 then "" else parts[0] + Concat(parts[1..])
  }

  /** Python's `sep.join(parts)`. */
  function Join(parts: seq<string>, sep: string): string
  {
    if |parts| == 0 then ""
    else if |parts| == 1 then parts[0]
    else parts[0] + sep + Join(parts[1..], sep)
  }

  /** A join starts with its first part and ends with its last. */
  lemma {:induction false} JoinEnds(parts: seq<string>, sep: string)
    requires |parts| > 0
    ensures var j, first, last := Join(parts, sep), parts[0], parts[|parts| - 1];
      && |first| <= |j| && j[..|first|] == first
      && |last| <= |j| && j[|j| - |last|..] == last
    decreases |parts|
  {
    if |parts| > 1 {
      JoinEnds(parts[1..], sep);
      var rest := Join(parts[1..], sep);
      assert Join(parts, sep) == parts[0] + sep + rest;
      assert parts[1..][|parts| - 2] == parts[|parts| - 1];
    }
  }

  /** A loop that applies `f` to each element in order and stops at the
      first element for which `f` raises: the results obtained before that
      point, and whether the loop was cut short. */
  function MapUntilRaise<A, B>(f: A -> Py<B>, xs: seq<A>): (r: (seq<B>, bool))
    ensures |r.0| <= |xs|
    ensures forall i :: 0 <= i < |r.0| ==> f(xs[i]) == Returns(r.0[i])
    ensures r.1 <==> |r.0| < |xs|
    ensures r.1 ==> f(xs[|r.0|]).Raises?
  {
    if |xs| == 0 then ([], false)
    else
      match f(xs[0])
      case Raises => ([], true)
      case Returns(y) =>
        var rest := MapUntilRaise(f, xs[1..]);
        ([y] + rest.0, rest.1)
  }

  /** When no call raises, the loop runs to the end and collects every result. */
  lemma {:induction false} MapUntilRaiseAllReturn<A, B>(f: A -> Py<B>, xs: seq<A>, ys: seq<B>)
    requires |ys| == |xs|
    requires forall i :: 0 <= i < |xs| ==> f(xs[i]) == Returns(ys[i])
    ensures MapUntilRaise(f, xs) == (ys, false)
  {
    if |xs| > 0 {
      assert f(xs[0]) == Returns(ys[0]);
      forall i | 0 <= i < |xs| - 1 ensures f(xs[1..][i]) == Returns(ys[1..][i]) {
        assert xs[1..][i] == xs[i + 1];
      }
      MapUntilRaiseAllReturn(f, xs[1..], ys[1..]);
      assert ys == [ys[0]] + ys[1..];
    }
  }

  /** `[f(x) for x in xs]` where any call may raise, which raises the whole. */
  function MapAll<A, B>(f: A -> Py<B>, xs: seq<A>): (r: Py<seq<B>>)
    ensures r.Raises? <==> exists i :: 0 <= i < |xs| && f(xs[i]).Raises?
    ensures r.Returns? ==> |r.value| == |xs|
    ensures r.Returns? ==> forall i :: 0 <= i < |xs| ==> f(xs[i]) == Returns(r.value[i])
  {
    if |xs| == 0 then Returns([])
    else
      match f(xs[0])
      case Raises => Raises
      case Returns(y) =>
        match MapAll(f, xs[1..])
        case Raises => Raises
        case Returns(rest) => Returns([y] + rest)
  }

  /** `for x in xs: out.extend(f(x))` where any call may raise, which raises the whole. */
  function FlatMapAll<A, B>(f: A -> Py<seq<B>>, xs: seq<A>): (r: Py<seq<B>>)
    ensures r.Raises? <==> exists i :: 0 <= i < |xs| && f(xs[i]).Raises?
  {
    if |xs| == 0 then Returns([])
    else
      match f(xs[0])
      case Raises => Raises
      case Returns(first) =>
        match FlatMapAll(f, xs[1..])
        case Raises => Raises
        case Returns(rest) => Returns(first + rest)
  }

  /** The loop over `a + b` produces the output over `a` followed by the output over `b`. */
  lemma {:induction false} FlatMapAllAppend<A, B>(f: A -> Py<seq<B>>, a: seq<A>, b: seq<A>)
    ensures FlatMapAll(f, a + b).Raises? <==> FlatMapAll(f, a).Raises? || FlatMapAll(f, b).Raises?
    ensures FlatMapAll(f, a + b).Returns? ==>
              FlatMapAll(f, a + b).value == FlatMapAll(f, a).value + FlatMapAll(f, b).value
    decreases |a|
  {
    if |a| == 0 {
      assert a + b == b;
    } else {
      assert (a + b)[0] == a[0];
      assert (a + b)[1..] == a[1..] + b;
      FlatMapAllAppend(f, a[1..], b);
    }
  }

  lemma FlatMapAllSingle<A, B>(f: A -> Py<seq<B>>, x: A)
    ensures FlatMapAll(f, [x]) == f(x)
  {
    assert [x][1..] == [];
    match f(x)
    case Raises =>
    case Returns(v) => assert v + [] == v;
  }

  /** `for x in xs: out.extend(f(x))` where no call raises. */
  function FlatMap<A, B>(f: A -> seq<B>, xs: seq<A>): (r: seq<B>)
    ensures |xs| == 0 ==> r == []
  {
    if |xs| == 0 then [] else f(xs[0]) + FlatMap(f, xs[1..])
  }

  /** The loop over `a + b` produces the output over `a` followed by the output over `b`. */
  lemma {:induction false} FlatMapAppend<A, B>(f: A -> seq<B>, a: seq<A>, b: seq<A>)
    ensures FlatMap(f, a + b) == FlatMap(f, a) + FlatMap(f, b)
    decreases |a|
  {
    if |a| == 0 {
      assert a + b == b;
    } else {
      assert (a + b)[0] == a[0];
      assert (a + b)[1..] == a[1..] + b;
      FlatMapAppend(f, a[1..], b);
    }
  }

  /** An element that yields nothing can be dropped without changing the output. */
  lemma FlatMapSkip<A, B>(f: A -> seq<B>, a: seq<A>, x: A, b: seq<A>)
    requires f(x) == []
    ensures FlatMap(f, a + [x] + b) == FlatMap(f, a + b)
  {
    FlatMapAppend(f, a + [x], b);
    FlatMapAppend(f, a, [x]);
    FlatMapAppend(f, a, b);
    assert FlatMap(f, [x]) == f(x) + FlatMap(f, [x][1..]);
  }

  /** Every output element comes from the output of some input element. */
  lemma {:induction false} FlatMapMember<A, B>(f: A -> seq<B>, xs: seq<A>, y: B)
    requires y in FlatMap(f, xs)
    ensures exists i :: 0 <= i < |xs| && y in f(xs[i])
    decreases |xs|
  {
    if y !in f(xs[0]) {
      FlatMapMember(f, xs[1..], y);
      var i :| 0 <= i < |xs[1..]| && y in f(xs[1..][i]);
      assert xs[1..][i] == xs[i + 1];
    }
  }

  /** Whatever an element yields is part of the output. */
  lemma {:induction false} FlatMapContains<A, B>(f: A -> seq<B>, xs: seq<A>, i: nat, y: B)
    requires i < |xs| && y in f(xs[i])
    ensures y in FlatMap(f, xs)
    decreases |xs|
  {
    if i > 0 {
      FlatMapContains(f, xs[1..], i - 1, y);
    }
  }

  /** When each element yields at most one output, there are at most as many outputs as inputs. */
  lemma {:induction false} FlatMapAtMostOne<A, B>(f: A -> seq<B>, xs: seq<A>)
    requires forall i :: 0 <= i < |xs| ==> |f(xs[i])| <= 1
    ensures |FlatMap(f, xs)| <= |xs|
    decreases |xs|
  {
    if |xs| > 0 {
      assert |f(xs[0])| <= 1;
      forall i | 0 <= i < |xs[1..]| ensures |f(xs[1..][i])| <= 1 {
        assert xs[1..][i] == xs[i + 1];
      }
      FlatMapAtMostOne(f, xs[1..]);
    }
  }

  /** An element that yields nothing without raising can be dropped without
      changing the outcome. */
  lemma FlatMapAllSkip<A, B>(f: A -> Py<seq<B>>, a: seq<A>, x: A, b: seq<A>)
    requires f(x) == Returns([])
    ensures FlatMapAll(f, a + [x] + b) == FlatMapAll(f, a + b)
  {
    FlatMapAllAppend(f, a + [x], b);
    FlatMapAllAppend(f, a, [x]);
    FlatMapAllAppend(f, a, b);
    FlatMapAllSingle(f, x);
    if FlatMapAll(f, a).Returns? {
      assert FlatMapAll(f, a + [x]) == FlatMapAll(f, a) by {
        assert FlatMapAll(f, a).value + [] == FlatMapAll(f, a).value;
      }
    }
  }

  /** Python's `str.rstrip()`: the longest prefix that does not end in whitespace. */
  function RStrip(s: string): (r: string)
    ensures |r| <= |s| && r == s[..|r|]
    ensures |r| == 0 || !IsSpace(r[|r| - 1])
    ensures forall i :: |r| <= i < |s| ==> IsSpace(s[i])
  {
    if |s| > 0 && IsSpace(s[|s| - 1]) then RStrip(s[..|s| - 1]) else s
  }

  /** Splitting a sequence at the last occurrence of a separator that neither
      tail contains recovers both halves. */
  lemma SplitAtLast<T>(a: seq<T>, b: seq<T>, x: seq<T>, y: seq<T>, sep: T)
    requires a + [sep] + x == b + [sep] + y
    requires sep !in x && sep !in y
    ensures a == b && x == y
  {
    var s := a + [sep] + x;
    assert forall i :: |s| - |x| <= i < |s| ==> s[i] == x[i - (|s| - |x|)];
    assert forall i :: |s| - |y| <= i < |s| ==> s[i] == y[i - (|s| - |y|)];
    assert s[|s| - |x| - 1] == sep && s[|s| - |y| - 1] == sep;
    assert |x| == |y|;
    assert a == s[..|a|] == b;
    assert x == s[|a| + 1..] == y;
  }

  /** Splitting a sequence at the first occurrence of a separator that neither
      head contains recovers both halves. */
  lemma SplitAtFirst<T>(a: seq<T>, b: seq<T>, x: seq<T>, y: seq<T>, sep: T)
    requires a + [sep] + x == b + [sep] + y
    requires sep !in a && sep !in b
    ensures a == b && x == y
  {
    var s := a + [sep] + x;
    assert forall i :: 0 <= i < |a| ==> s[i] == a[i];
    assert forall i :: 0 <= i < |b| ==> s[i] == b[i];
    assert s[|a|] == sep && s[|b|] == sep;
    assert |a| == |b|;
    assert a == s[..|a|] == b;
    assert x == s[|a| + 1..] == y;
  }
}
