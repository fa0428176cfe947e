/**
 * Dotted version comparison. A version is split at its dots and every part converted by
 * `number`, which stands for JavaScript's Number and may give NaN or an infinity.
 */
module VersionOrder {
  import opened Prelude

  datatype Component = NaN | Num(value: real) | Infinity | MinusInfinity

  function Split(text: string): (parts: seq<string>)
    ensures |parts| > 0
  {
    if |text| == 0 then [""]
    else if Last(text) == '.' then Split(Front(text)) + [""]
    else
      var parts := Split(Front(text));
      Front(parts) + [Last(parts) + [Last(text)]]
  }

  function Parse(text: string, number: string -> Component): (c: seq<Component>)
    ensures |c| > 0
  {
    var parts := Split(text);
    seq(|parts|, i requires 0 <= i < |parts| => number(parts[i]))
  }

  /** A missing component reads as zero. */
  function At(c: seq<Component>, i: nat): Component {
    if i < |c| then c[i] else Num(0.0)
  }

  /** `===`: NaN equals nothing, itself included. */
  predicate Same(x: Component, y: Component) {
    !x.NaN? && x == y
  }

  /** `>` */
  predicate Above(x: Component, y: Component) {
    match (x, y)
    case (Num(v), Num(w)) => v > w
    case (Infinity, Num(_)) => true
    case (Infinity, MinusInfinity) => true
    case (Num(_), MinusInfinity) => true
    case _ => false
  }

  /** Equal components before `k`. */
  ghost predicate AgreeBelow(a: seq<Component>, b: seq<Component>, k: nat) {
    forall i :: 0 <= i < k ==> Same(At(a, i), At(b, i))
  }

  ghost predicate FirstAbove(a: seq<Component>, b: seq<Component>, k: nat) {
    AgreeBelow(a, b, k) && Above(At(a, k), At(b, k))
  }

  /** Zero-padded lexicographic order on infinitely many components. */
  ghost predicate LexAtLeast(a: seq<Component>, b: seq<Component>) {
    (exists k: nat :: FirstAbove(a, b, k)) || forall i: nat :: Same(At(a, i), At(b, i))
  }

  method SemverAtLeast(actual: string, min: string, number: string -> Component) returns (r: bool)
    ensures r <==> LexAtLeast(Parse(actual, number), Parse(min, number))
  {
    var a, b := Parse(actual, number), Parse(min, number);
    for i := 0 to if |a| >= |b| then |a| else |b|
      invariant AgreeBelow(a, b, i)
    {
      var av, bv := At(a, i), At(b, i);
      if !Same(av, bv) {
        r := Above(av, bv);
        if r {
          assert FirstAbove(a, b, i);
        } else {
          forall k: nat ensures !FirstAbove(a, b, k) {
            assert k > i ==> !AgreeBelow(a, b, k);
          }
        }
        return;
      }
    }
    forall i: nat ensures Same(At(a, i), At(b, i)) {
    }
    return true;
  }

  /** At the first components that differ, `a` does not have the larger number. */
  ghost predicate FallsShortAt(a: seq<Component>, b: seq<Component>, k: nat) {
    AgreeBelow(a, b, k) && !Same(At(a, k), At(b, k)) && !Above(At(a, k), At(b, k))
  }

  lemma FallsShortOrReaches(a: seq<Component>, b: seq<Component>)
    ensures LexAtLeast(a, b) <==> forall k: nat :: !FallsShortAt(a, b, k)
  {
    if LexAtLeast(a, b) {
      forall k: nat ensures !FallsShortAt(a, b, k) {
        if j: nat :| FirstAbove(a, b, j) {
          assert j < k ==> !AgreeBelow(a, b, k);
          assert k < j && AgreeBelow(a, b, j) ==> Same(At(a, k), At(b, k));
        } else {
          assert Same(At(a, k), At(b, k));
        }
      }
    } else {
      AgreesOrFallsShort(a, b, |a| + |b|);
      if AgreeBelow(a, b, |a| + |b|) {
        AgreeOnAll(a, b);
      }
    }
  }

  lemma {:induction false} AgreesOrFallsShort(a: seq<Component>, b: seq<Component>, n: nat)
    requires !LexAtLeast(a, b)
    ensures AgreeBelow(a, b, n) || exists k: nat :: FallsShortAt(a, b, k)
  {
    if n > 0 {
      AgreesOrFallsShort(a, b, n - 1);
      if AgreeBelow(a, b, n - 1) && !Same(At(a, n - 1), At(b, n - 1)) {
        assert !FirstAbove(a, b, n - 1);
        assert FallsShortAt(a, b, n - 1);
      }
    }
  }

  /** The same text, or a first difference that is not in favour of `actual`. */
  method SemverAtMost(actual: string, max: string, number: string -> Component) returns (r: bool)
    ensures r <==> AtMost(actual, max, number)
    ensures Numeric(Parse(actual, number)) && Numeric(Parse(max, number)) ==>
      (r <==> StrictlyBelow(actual, max, number) || actual == max)
  {
    var atLeast := SemverAtLeast(actual, max, number);
    r := !atLeast || actual == max;
    FallsShortOrReaches(Parse(actual, number), Parse(max, number));
    if Numeric(Parse(actual, number)) && Numeric(Parse(max, number)) {
      AtMostIsBelowOrSameText(actual, max, number);
    }
  }

  ghost predicate AtLeast(actual: string, min: string, number: string -> Component) {
    LexAtLeast(Parse(actual, number), Parse(min, number))
  }

  ghost predicate AtMost(actual: string, max: string, number: string -> Component) {
    actual == max || exists k: nat :: FallsShortAt(Parse(actual, number), Parse(max, number), k)
  }

  ghost predicate Numeric(c: seq<Component>) {
    forall i :: 0 <= i < |c| ==> !c[i].NaN?
  }

  // ---------------------------------------------------------------- order laws

  lemma ReflexiveIffNumeric(a: seq<Component>)
    ensures LexAtLeast(a, a) <==> Numeric(a)
  {
    if !Numeric(a) {
      var i :| 0 <= i < |a| && a[i].NaN?;
      assert !Same(At(a, i), At(a, i));
      forall k: nat ensures !FirstAbove(a, a, k) {
      }
    }
  }

  function Join(parts: seq<string>): string
    requires |parts| > 0
  {
    if |parts| == 1 then parts[0] else Join(Front(parts)) + "." + Last(parts)
  }

  lemma {:induction false} JoinWithLastExtended(parts: seq<string>, c: char)
    requires |parts| > 0
    ensures Join(Front(parts) + [Last(parts) + [c]]) == Join(parts) + [c]
  {
    var extended := Front(parts) + [Last(parts) + [c]];
    assert Front(extended) == Front(parts) && Last(extended) == Last(parts) + [c];
    if |parts| > 1 {
      assert Join(Front(parts)) + "." + (Last(parts) + [c]) == Join(Front(parts)) + "." + Last(parts) + [c];
    }
  }

  lemma JoinWithEmpty(parts: seq<string>)
    requires |parts| > 0
    ensures Join(parts + [""]) == Join(parts) + ['.']
  {
    assert Front(parts + [""]) == parts && Last(parts + [""]) == "";
  }

  lemma SplitNext(before: string, c: char)
    ensures Split(before + [c]) ==
            if c == '.' then Split(before) + [""]
            else Front(Split(before)) + [Last(Split(before)) + [c]]
  {
    var text := before + [c];
    assert Front(text) == before && Last(text) == c;
  }

  /** Splitting loses nothing: joined with dots, the parts give the text back. */
  lemma {:induction false} SplitRoundTrip(text: string)
    ensures Join(Split(text)) == text
  {
    if |text| > 0 {
      var before, c := Front(text), Last(text);
      assert text == before + [c];
      SplitRoundTrip(before);
      SplitNext(before, c);
      if c == '.' {
        JoinWithEmpty(Split(before));
      } else {
        JoinWithLastExtended(Split(before), c);
      }
    }
  }

  /** And it is at every dot: no part has one. */
  lemma {:induction false} PartsHaveNoDots(text: string)
    ensures forall i :: 0 <= i < |Split(text)| ==> '.' !in Split(text)[i]
  {
    if |text| > 0 {
      var before := Split(Front(text));
      PartsHaveNoDots(Front(text));
      forall i | 0 <= i < |Split(text)| ensures '.' !in Split(text)[i] {
        if i < |before| - 1 {
          assert Split(text)[i] == before[i];
        }
      }
    }
  }

  /** At the first difference the larger number wins, and no number beats an infinity above it. */
  lemma LargerComponentWins(a: seq<Component>, b: seq<Component>, k: nat)
    requires AgreeBelow(a, b, k)
    requires (At(a, k).Num? && At(b, k).Num? && At(a, k).value > At(b, k).value)
          || (At(a, k).Infinity? && (At(b, k).Num? || At(b, k).MinusInfinity?))
          || (At(a, k).Num? && At(b, k).MinusInfinity?)
    ensures LexAtLeast(a, b) && !LexAtLeast(b, a)
  {
    assert FirstAbove(a, b, k);
    DecidedAt(a, b, k);
  }

  /** A component that is no number, met before any difference, decides against both. */
  lemma NaNDecidesAgainstBoth(a: seq<Component>, b: seq<Component>, k: nat)
    requires AgreeBelow(a, b, k) && (At(a, k).NaN? || At(b, k).NaN?)
    ensures !LexAtLeast(a, b) && !LexAtLeast(b, a)
  {
    assert forall i :: 0 <= i < k ==> Same(At(b, i), At(a, i));
    assert FallsShortAt(a, b, k) && FallsShortAt(b, a, k);
    FallsShortOrReaches(a, b);
    FallsShortOrReaches(b, a);
  }

  /** Where two numeric versions first differ, if they do. */
  lemma {:induction false} FirstDifference(a: seq<Component>, b: seq<Component>, n: nat)
    requires Numeric(a) && Numeric(b)
    ensures AgreeBelow(a, b, n) || exists k: nat :: k < n && (FirstAbove(a, b, k) || FirstAbove(b, a, k))
  {
    if n > 0 {
      FirstDifference(a, b, n - 1);
      if AgreeBelow(a, b, n - 1) && !Same(At(a, n - 1), At(b, n - 1)) {
        assert FirstAbove(a, b, n - 1) || FirstAbove(b, a, n - 1);
      }
    }
  }

  lemma AgreeOnAll(a: seq<Component>, b: seq<Component>)
    requires AgreeBelow(a, b, |a| + |b|)
    ensures forall i: nat :: Same(At(a, i), At(b, i))
  {
  }

  lemma DecidedAt(a: seq<Component>, b: seq<Component>, k: nat)
    requires FirstAbove(a, b, k)
    ensures LexAtLeast(a, b) && !LexAtLeast(b, a)
    ensures !Same(At(a, k), At(b, k))
  {
    forall j: nat ensures !FirstAbove(b, a, j) {
      assert j < k ==> Same(At(a, j), At(b, j));
      assert k < j && AgreeBelow(b, a, j) ==> Same(At(b, k), At(a, k));
    }
    assert Above(At(a, k), At(b, k));
    assert !Same(At(b, k), At(a, k));
  }

  /** Any two numeric versions compare one way, both ways only when all components agree. */
  lemma TotalOnNumeric(a: seq<Component>, b: seq<Component>)
    requires Numeric(a) && Numeric(b)
    ensures LexAtLeast(a, b) || LexAtLeast(b, a)
    ensures LexAtLeast(a, b) && LexAtLeast(b, a) <==> forall i: nat :: Same(At(a, i), At(b, i))
    ensures !LexAtLeast(a, b) <==> exists k: nat :: FirstAbove(b, a, k)
  {
    FirstDifference(a, b, |a| + |b|);
    if AgreeBelow(a, b, |a| + |b|) {
      AgreeOnAll(a, b);
      forall k: nat ensures !FirstAbove(a, b, k) && !FirstAbove(b, a, k) {
        assert Same(At(a, k), At(b, k));
      }
      forall i: nat ensures Same(At(b, i), At(a, i)) {
        assert Same(At(a, i), At(b, i));
      }
    } else if k: nat :| FirstAbove(a, b, k) {
      DecidedAt(a, b, k);
      forall j: nat ensures !FirstAbove(b, a, j) {
        if FirstAbove(b, a, j) { DecidedAt(b, a, j); }
      }
    } else {
      var k: nat :| FirstAbove(b, a, k);
      DecidedAt(b, a, k);
      assert !Same(At(a, k), At(b, k));
    }
  }

  /** Transitive for versions of any lengths; NaN anywhere only makes the premises harder. */
  lemma Transitive(a: seq<Component>, b: seq<Component>, c: seq<Component>)
    requires LexAtLeast(a, b) && LexAtLeast(b, c)
    ensures LexAtLeast(a, c)
  {
    if k: nat :| FirstAbove(a, b, k) {
      if j: nat :| FirstAbove(b, c, j) {
        var m: nat := Min(j, k);
        assert AgreeBelow(a, c, m);
        assert FirstAbove(a, c, m);
      } else {
        assert Same(At(b, k), At(c, k));
        assert FirstAbove(a, c, k);
      }
    } else if j: nat :| FirstAbove(b, c, j) {
      assert Same(At(a, j), At(b, j));
      assert FirstAbove(a, c, j);
    } else {
      forall i: nat ensures Same(At(a, i), At(c, i)) {
        assert Same(At(a, i), At(b, i)) && Same(At(b, i), At(c, i));
      }
    }
  }

  // ---------------------------------------------------------------- the upper bound

  ghost predicate StrictlyBelow(actual: string, max: string, number: string -> Component) {
    exists k: nat :: FirstAbove(Parse(max, number), Parse(actual, number), k)
  }

  /** On numeric versions the upper bound admits what is strictly below, and the same text. */
  lemma AtMostIsBelowOrSameText(actual: string, max: string, number: string -> Component)
    requires Numeric(Parse(actual, number)) && Numeric(Parse(max, number))
    ensures AtMost(actual, max, number) <==> StrictlyBelow(actual, max, number) || actual == max
  {
    FallsShortOrReaches(Parse(actual, number), Parse(max, number));
    TotalOnNumeric(Parse(actual, number), Parse(max, number));
  }

  ghost predicate SameVersion(actual: string, max: string, number: string -> Component) {
    forall i: nat :: Same(At(Parse(actual, number), i), At(Parse(max, number), i))
  }

  /** It is the converse of the lower bound exactly where equal versions are written alike. */
  lemma AtMostIsConverseIffSameSpelling(actual: string, max: string, number: string -> Component)
    requires Numeric(Parse(actual, number)) && Numeric(Parse(max, number))
    ensures (AtMost(actual, max, number) <==> AtLeast(max, actual, number))
      <==> (SameVersion(actual, max, number) ==> actual == max)
  {
    FallsShortOrReaches(Parse(actual, number), Parse(max, number));
    TotalOnNumeric(Parse(actual, number), Parse(max, number));
    if actual == max {
      ReflexiveIffNumeric(Parse(actual, number));
    }
  }

  /** Writing one more ".0" behind any numeric version leaves it equal and yet not "at most". */
  lemma TrailingZeroIsNotAtMost(text: string, number: string -> Component)
    requires Numeric(Parse(text, number)) && number("0") == Num(0.0)
    ensures SameVersion(text + ".0", text, number)
    ensures AtLeast(text, text + ".0", number) && AtLeast(text + ".0", text, number)
    ensures !AtMost(text + ".0", text, number)
  {
    FallsShortOrReaches(Parse(text + ".0", number), Parse(text, number));
    var longer := text + ".0";
    assert Front(longer) == text + "." && Front(text + ".") == text;
    assert Split(text + ".") == Split(text) + [""];
    assert Front(Split(text + ".")) == Split(text) && Last(Split(text + ".")) + ['0'] == "0";
    assert Last(longer) == '0' && Split(longer) == Split(text) + ["0"];
    assert Parse(longer, number) == Parse(text, number) + [Num(0.0)];
    forall i: nat ensures Same(At(Parse(longer, number), i), At(Parse(text, number), i)) {
    }
    forall i: nat ensures Same(At(Parse(text, number), i), At(Parse(longer, number), i)) {
    }
    assert |longer| != |text|;
  }

  /** A version with a component that is no number is not at least itself, but at most anything it never reaches. */
  lemma NotANumberFailsTheLowerBound(text: string, number: string -> Component)
    requires !Numeric(Parse(text, number))
    ensures !AtLeast(text, text, number) && AtMost(text, text, number)
  {
    FallsShortOrReaches(Parse(text, number), Parse(text, number));
    ReflexiveIffNumeric(Parse(text, number));
  }
}
