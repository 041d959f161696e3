/**
  The airport name search `getAirports` of utils.js, from the point where the
  dataset's GeoJSON FeatureCollection (section 3.3 of RFC 7946) has been
  fetched: keep every feature whose lower-cased `properties.name` includes the
  lower-cased query, in source order, and return the first five of them.
 */
module Airports {
  import opened Wrappers
  import opened JsString

  /** The end index of `.slice(0, 5)`. */
  const MaxResults: nat := 5

  /** A GeoJSON Point geometry (section 3.1.2 of RFC 7946): one position, longitude first. */
  datatype Geometry = Point(longitude: real, latitude: real)

  /** The `properties` object of an airport feature; the search reads only `name`. */
  datatype Properties = Properties(name: Option<string>)

  /**
    A GeoJSON Feature (section 3.2 of RFC 7946). Its `geometry` and its
    `properties` may each be null. Members the search never reads are left out.
   */
  datatype Feature = Feature(geometry: Option<Geometry>, properties: Option<Properties>)

  /**
    The TypeError the filter callback throws, which rejects the promise of
    `getAirports`: `properties.name` is undefined, so `.toLowerCase()` cannot
    be called on it. `featureIndex` is the position of that feature.
   */
  datatype SearchError = TypeError(featureIndex: nat)

  /** The callback throws on this feature: it has properties but no name. */
  predicate Unnamed(f: Feature)
  {
    f.properties.Some? && f.properties.value.name.None?
  }

  /** The search's meaning: the feature has a name that contains the query, ignoring case. */
  ghost predicate MatchesQuery(f: Feature, query: string)
  {
    && f.properties.Some?
    && f.properties.value.name.Some?
    && Contains(ToLower(f.properties.value.name.value), ToLower(query))
  }

  ghost predicate NoUnnamed(fs: seq<Feature>)
  {
    forall i :: 0 <= i < |fs| ==> !Unnamed(fs[i])
  }

  /** `k` is the position of the first feature the callback throws on. */
  ghost predicate FirstUnnamedAt(fs: seq<Feature>, k: nat)
  {
    k < |fs| && Unnamed(fs[k]) && forall i :: 0 <= i < k ==> !Unnamed(fs[i])
  }

  /** How many features match the query. */
  ghost function MatchCount(fs: seq<Feature>, query: string): nat
  {
    if fs == [] then 0
    else (if MatchesQuery(fs[0], query) then 1 else 0) + MatchCount(fs[1..], query)
  }

  /** `xs` is `ys` with some elements left out and the rest in their order. */
  ghost predicate IsSubsequence<T>(xs: seq<T>, ys: seq<T>)
    decreases |ys|
  {
    || xs == []
    || (&& ys != []
        && (|| (xs[0] == ys[0] && IsSubsequence(xs[1..], ys[1..]))
            || IsSubsequence(xs, ys[1..])))
  }

  /**
    The callback passed to `filter`: `None` when it throws, otherwise whether
    the feature is kept. An absent `properties` ends the optional chain with
    `undefined`, which is falsy.
   */
  function KeepFeature(f: Feature, query: string): (r: Option<bool>)
    ensures r.None? <==> Unnamed(f)
    ensures r.Some? ==> (r.value <==> MatchesQuery(f, query))
  {
    match f.properties
    case None => Some(false)
    case Some(p) =>
      match p.name
      case None => None
      case Some(name) =>
        Some(Includes(ToLower(name), ToLower(query)))
  }

  /**
    `features.filter(callback)`: the callback runs on every feature in order,
    and the first throw ends the whole call.
   */
  function Filter(fs: seq<Feature>, query: string): (r: Result<seq<Feature>, SearchError>)
    ensures r.Err? <==> !NoUnnamed(fs)
    ensures r.Err? ==> FirstUnnamedAt(fs, r.error.featureIndex)
    ensures r.Ok? ==> |r.value| == MatchCount(fs, query)
    ensures r.Ok? ==> forall j :: 0 <= j < |r.value| ==> MatchesQuery(r.value[j], query)
    ensures r.Ok? ==> forall i :: 0 <= i < |fs| && MatchesQuery(fs[i], query) ==> fs[i] in r.value
    ensures r.Ok? ==> IsSubsequence(r.value, fs)
    decreases |fs|
  {
    if fs == [] then Ok([]) else Step(KeepFeature(fs[0], query), fs[0], Filter(fs[1..], query))
  }

  /**
    One step of the filter: the callback's verdict on the first feature `x`,
    combined with the result for the features after it.
   */
  function Step(verdict: Option<bool>, x: Feature, rest: Result<seq<Feature>, SearchError>): Result<seq<Feature>, SearchError>
  {
    match verdict
    case None => Err(TypeError(0))
    case Some(keep) =>
      match rest
      case Err(e) => Err(TypeError(e.featureIndex + 1))
      case Ok(kept) => Ok(if keep then [x] + kept else kept)
  }

  /** `xs.slice(0, n)`: the first `n` elements, or all of them when there are fewer. */
  function Take<T>(xs: seq<T>, n: nat): (r: seq<T>)
    ensures |r| == Min(n, |xs|)
    ensures forall i :: 0 <= i < |r| ==> r[i] == xs[i]
  {
    if |xs| <= n then xs else xs[..n]
  }

  /** Every prefix of a subsequence is a subsequence. */
  lemma {:induction false} SubsequencePrefix<T>(xs: seq<T>, ys: seq<T>, k: nat)
    requires IsSubsequence(xs, ys) && k <= |xs|
    ensures IsSubsequence(xs[..k], ys)
    decreases |ys|
  {
    if k == |xs| {
      assert xs[..k] == xs;
    } else if k == 0 {
    } else if xs[0] == ys[0] && IsSubsequence(xs[1..], ys[1..]) {
      SubsequencePrefix(xs[1..], ys[1..], k - 1);
      assert xs[..k][1..] == xs[1..][..k - 1];
    } else {
      SubsequencePrefix(xs, ys[1..], k);
    }
  }

  /** `getAirports(query)` on the fetched `data.features`. */
  function GetAirports(features: seq<Feature>, query: string): (r: Result<seq<Feature>, SearchError>)
    ensures r.Err? <==> exists i :: 0 <= i < |features| && Unnamed(features[i])
    ensures r.Err? ==> FirstUnnamedAt(features, r.error.featureIndex)
    ensures r.Ok? ==> |r.value| <= MaxResults
    ensures r.Ok? ==> |r.value| == Min(MaxResults, MatchCount(features, query))
    ensures r.Ok? ==> forall j :: 0 <= j < |r.value| ==> MatchesQuery(r.value[j], query)
    ensures r.Ok? ==> IsSubsequence(r.value, features)
    ensures r.Ok? && MatchCount(features, query) < MaxResults ==>
              forall i :: 0 <= i < |features| && MatchesQuery(features[i], query) ==> features[i] in r.value
  {
    match Filter(features, query)
    case Err(e) => Err(e)
    case Ok(matches) =>
      SubsequencePrefix(matches, features, Min(MaxResults, |matches|));
      assert Take(matches, MaxResults) == matches[..Min(MaxResults, |matches|)];
      Ok(Take(matches, MaxResults))
  }

  /**
    Reference for "the first n matches": walk the features from the front and
    stop as soon as n matches have been collected.
   */
  ghost function FirstMatches(fs: seq<Feature>, query: string, n: nat): (r: seq<Feature>)
    ensures |r| == Min(n, MatchCount(fs, query))
    decreases |fs|
  {
    if n == 0 || fs == [] then []
    else if MatchesQuery(fs[0], query) then [fs[0]] + FirstMatches(fs[1..], query, n - 1)
    else FirstMatches(fs[1..], query, n)
  }

  lemma {:induction false} TakeFilterIsFirstMatches(fs: seq<Feature>, query: string, n: nat)
    requires NoUnnamed(fs)
    ensures Filter(fs, query).Ok?
    ensures Take(Filter(fs, query).value, n) == FirstMatches(fs, query, n)
    decreases |fs|
  {
    if fs != [] {
      assert NoUnnamed(fs[1..]) by {
        forall i | 0 <= i < |fs[1..]| ensures !Unnamed(fs[1..][i]) {
          assert fs[1..][i] == fs[i + 1];
        }
      }
      TakeFilterIsFirstMatches(fs[1..], query, if n == 0 then 0 else n - 1);
      TakeFilterIsFirstMatches(fs[1..], query, n);
      var rest := Filter(fs[1..], query).value;
      if n > 0 && MatchesQuery(fs[0], query) {
        assert Take([fs[0]] + rest, n) == [fs[0]] + Take(rest, n - 1);
      }
    }
  }

  /**
    Filtering everything and then slicing gives the same answer as stopping at
    the fifth match: no later match is returned while an earlier one is dropped.
   */
  lemma GetAirportsIsFirstMatches(features: seq<Feature>, query: string)
    requires NoUnnamed(features)
    ensures GetAirports(features, query) == Ok(FirstMatches(features, query, MaxResults))
  {
    TakeFilterIsFirstMatches(features, query, MaxResults);
  }

  lemma {:induction false} FilterCaseInsensitive(fs: seq<Feature>, q1: string, q2: string)
    requires ToLower(q1) == ToLower(q2)
    ensures Filter(fs, q1) == Filter(fs, q2)
    decreases |fs|
  {
    if fs != [] {
      FilterCaseInsensitive(fs[1..], q1, q2);
    }
  }

  /** Two queries that lower-case to the same string give the same answer. */
  lemma CaseInsensitive(features: seq<Feature>, q1: string, q2: string)
    requires ToLower(q1) == ToLower(q2)
    ensures GetAirports(features, q1) == GetAirports(features, q2)
  {
    FilterCaseInsensitive(features, q1, q2);
  }

  /** In particular the query may be lower-cased beforehand. */
  lemma LowerCasedQuery(features: seq<Feature>, query: string)
    ensures GetAirports(features, ToLower(query)) == GetAirports(features, query)
  {
    ToLowerIdempotent(query);
    CaseInsensitive(features, ToLower(query), query);
  }

  /** Shifts an error index that falls at or after position `at` by one. */
  function ShiftFrom(r: Result<seq<Feature>, SearchError>, at: nat): Result<seq<Feature>, SearchError>
  {
    match r
    case Ok(v) => Ok(v)
    case Err(e) => Err(TypeError(if e.featureIndex < at then e.featureIndex else e.featureIndex + 1))
  }

  /** Moving later error indices commutes with a filter step. */
  lemma StepShift(verdict: Option<bool>, x: Feature, rest: Result<seq<Feature>, SearchError>, at: nat)
    ensures Step(verdict, x, ShiftFrom(rest, at)) == ShiftFrom(Step(verdict, x, rest), at + 1)
  {
  }

  lemma FilterSkipsPropertyless(f: Feature, b: seq<Feature>, query: string)
    requires f.properties.None?
    ensures Filter([f] + b, query) == ShiftFrom(Filter(b, query), 0)
  {
  }

  lemma {:induction false} FilterPropertyless(a: seq<Feature>, f: Feature, b: seq<Feature>, query: string)
    requires f.properties.None?
    ensures Filter(a + [f] + b, query) == ShiftFrom(Filter(a + b, query), |a|)
    decreases |a|
  {
    if a == [] {
      assert a + [f] + b == [f] + b && a + b == b;
      FilterSkipsPropertyless(f, b, query);
      if Filter(b, query).Ok? {
        assert [] + Filter(b, query).value == Filter(b, query).value;
      }
    } else {
      var with, without := a + [f] + b, a + b;
      assert with[0] == a[0] && without[0] == a[0];
      assert with[1..] == a[1..] + [f] + b;
      assert without[1..] == a[1..] + b;
      FilterPropertyless(a[1..], f, b, query);
      StepShift(KeepFeature(a[0], query), a[0], Filter(a[1..] + b, query), |a| - 1);
    }
  }

  /**
    A feature without `properties` is skipped silently: removing it changes
    neither the features returned nor whether the call throws; only the index
    of a later throw moves by one.
   */
  lemma PropertylessSkipped(a: seq<Feature>, f: Feature, b: seq<Feature>, query: string)
    requires f.properties.None?
    ensures GetAirports(a + [f] + b, query) == ShiftFrom(GetAirports(a + b, query), |a|)
  {
    FilterPropertyless(a, f, b, query);
  }

  /** The empty query matches exactly the features that have a name. */
  lemma EmptyQueryMatchesNamed(f: Feature)
    ensures MatchesQuery(f, "") <==> f.properties.Some? && f.properties.value.name.Some?
  {
    if f.properties.Some? && f.properties.value.name.Some? {
      assert ToLower("") == "";
      ContainsEmpty(ToLower(f.properties.value.name.value));
    }
  }

  /** The features that carry properties, in source order. */
  ghost function WithProperties(fs: seq<Feature>): seq<Feature>
  {
    if fs == [] then []
    else (if fs[0].properties.Some? then [fs[0]] else []) + WithProperties(fs[1..])
  }

  lemma {:induction false} FilterEmptyQuery(fs: seq<Feature>)
    requires NoUnnamed(fs)
    ensures Filter(fs, "") == Ok(WithProperties(fs))
    decreases |fs|
  {
    if fs != [] {
      assert NoUnnamed(fs[1..]) by {
        forall i | 0 <= i < |fs[1..]| ensures !Unnamed(fs[1..][i]) {
          assert fs[1..][i] == fs[i + 1];
        }
      }
      FilterEmptyQuery(fs[1..]);
      EmptyQueryMatchesNamed(fs[0]);
      assert !Unnamed(fs[0]);
      assert KeepFeature(fs[0], "") == Some(fs[0].properties.Some?);
      if fs[0].properties.None? {
        assert WithProperties(fs) == [] + WithProperties(fs[1..]) == WithProperties(fs[1..]);
        assert Filter(fs, "") == Filter(fs[1..], "");
      }
    }
  }

  /** With the empty query the answer is the first five features that carry properties. */
  lemma EmptyQuery(features: seq<Feature>)
    requires NoUnnamed(features)
    ensures GetAirports(features, "") == Ok(Take(WithProperties(features), MaxResults))
  {
    FilterEmptyQuery(features);
  }

  const Denver := Feature(Some(Point(-104.673, 39.8617)), Some(Properties(Some("Denver International Airport"))))
  const NoProperties := Feature(Some(Point(0.0, 0.0)), None)
  const NameMissing := Feature(Some(Point(0.0, 0.0)), Some(Properties(None)))

  /** Querying "den" finds Denver International Airport and skips the feature without properties. */
  lemma DenverFound()
    ensures GetAirports([NoProperties, Denver], "den") == Ok([Denver])
    ensures GetAirports([NoProperties, Denver], "DEN") == Ok([Denver])
  {
    var name := "Denver International Airport";
    assert ToLower("den") == "den";
    assert ToLower(name)[..3] == "den";
    assert OccursAt(ToLower(name), ToLower("den"), 0);
    assert MatchesQuery(Denver, "den");
    var one, two := [Denver], [NoProperties, Denver];
    assert one[1..] == [] && two[1..] == one;
    assert KeepFeature(Denver, "den") == Some(true);
    assert KeepFeature(NoProperties, "den") == Some(false);
    assert Filter(one[1..], "den") == Ok([]);
    assert Filter(one, "den") == Ok([Denver] + []);
    assert [Denver] + [] == [Denver];
    assert Filter(two[1..], "den") == Ok([Denver]);
    assert Filter(two, "den") == Ok([Denver]);
    CaseInsensitive([NoProperties, Denver], "DEN", "den");
  }

  /**
    The callback still runs after five matches have been found, so a nameless
    feature after them rejects the call.
   */
  lemma ThrowsAfterFiveMatches()
    ensures GetAirports([Denver, Denver, Denver, Denver, Denver, NameMissing], "den") == Err(TypeError(5))
  {
    var fs := [Denver, Denver, Denver, Denver, Denver, NameMissing];
    assert Unnamed(fs[5]);
  }
}
