/**
 * Loading the target catalogue from the parameter server (src/main.cpp, main, lines 116-121).
 *
 * The parameter server is modelled as a map from parameter names to lists of numbers;
 * a name that is absent leaves the receiving vector as it was declared, that is empty,
 * and nothing reports it.  A list is taken as it is, whatever its length.
 */
module Catalogue {
  import opened Goals

  type Params = map<string, seq<real>>

  const TargetPrefix: string := "/aruco_lookup_locations/target_"

  /** The loading loop runs `for (int i = 1; i < 5; i++)`. */
  const FirstIndex: nat := 1
  const EndIndex: nat := 5

  function DigitChar(d: nat): (c: char)
    requires d < 10
    ensures '0' <= c <= '9'
  {
    ('0' as int + d) as char
  }

  /** Decimal rendering of a natural number, as std::to_string does for non-negative ints. */
  function NatToString(n: nat): (s: string)
    ensures 1 <= |s|
    ensures n < 10 <==> |s| == 1
    ensures forall k :: 0 <= k < |s| ==> '0' <= s[k] <= '9'
  {
    if n < 10 then [DigitChar(n)] else NatToString(n / 10) + [DigitChar(n % 10)]
  }

  /** Different numbers are rendered as different strings. */
  lemma {:induction false} NatToStringInjective(a: nat, b: nat)
    requires NatToString(a) == NatToString(b)
    ensures a == b
  {
    var s := NatToString(a);
    if a >= 10 && b >= 10 {
      assert s[|s| - 1] == DigitChar(a % 10) == DigitChar(b % 10);
      assert NatToString(a / 10) == s[..|s| - 1] == NatToString(b / 10);
      NatToStringInjective(a / 10, b / 10);
    } else if a < 10 && b < 10 {
      assert s[0] == DigitChar(a) == DigitChar(b);
    }
  }

  /** The name of the i-th target parameter. */
  function TargetParamName(i: nat): (name: string)
    ensures |name| > |TargetPrefix|
    ensures name[..|TargetPrefix|] == TargetPrefix
  {
    TargetPrefix + NatToString(i)
  }

  /** Each index reads its own parameter: no two indices share a name. */
  lemma TargetParamNamesDistinct(i: nat, j: nat)
    requires i != j
    ensures TargetParamName(i) != TargetParamName(j)
  {
    if TargetParamName(i) == TargetParamName(j) {
      assert NatToString(i) == TargetParamName(i)[|TargetPrefix|..];
      assert NatToString(j) == TargetParamName(j)[|TargetPrefix|..];
      NatToStringInjective(i, j);
    }
  }

  /** nh.getParam(name, target) on a freshly declared, empty vector. */
  function GetParam(params: Params, name: string): (t: Target)
    ensures name in params ==> t == params[name]
    ensures name !in params ==> t == []
  {
    if name in params then params[name] else []
  }

  /** The targets read for indices lo, lo + 1, ..., hi - 1, in that order. */
  function FetchTargets(params: Params, lo: nat, hi: nat): (ts: seq<Target>)
    ensures |ts| == if lo < hi then hi - lo else 0
    ensures forall k :: 0 <= k < |ts| ==> ts[k] == GetParam(params, TargetParamName(lo + k))
    decreases hi - lo
  {
    if hi <= lo then [] else [GetParam(params, TargetParamName(lo))] + FetchTargets(params, lo + 1, hi)
  }

  /** Extending the index range by one appends exactly the next parameter's target. */
  lemma FetchTargetsSnoc(params: Params, lo: nat, hi: nat)
    requires lo <= hi
    ensures FetchTargets(params, lo, hi + 1) == FetchTargets(params, lo, hi) + [GetParam(params, TargetParamName(hi))]
  {
    var a := FetchTargets(params, lo, hi + 1);
    var b := FetchTargets(params, lo, hi) + [GetParam(params, TargetParamName(hi))];
    assert |a| == |b|;
    forall k | 0 <= k < |a| ensures a[k] == b[k] {
      if k < hi - lo {
        assert b[k] == FetchTargets(params, lo, hi)[k];
      }
    }
  }

  /** The catalogue the loading loop produces: four entries, target_1 to target_4 in order. */
  function LoadedTargets(params: Params): (ts: seq<Target>)
    ensures |ts| == 4
    ensures forall k :: 0 <= k < 4 ==> ts[k] == GetParam(params, TargetParamName(k + 1))
  {
    FetchTargets(params, FirstIndex, EndIndex)
  }

  /** Every target parameter is present and holds at least x and y. */
  predicate CompleteConfiguration(params: Params)
  {
    forall i: nat :: FirstIndex <= i < EndIndex ==>
      TargetParamName(i) in params && |params[TargetParamName(i)]| >= 2
  }

  /** A complete configuration loads a catalogue in which every goal can be built. */
  lemma CompleteConfigurationIsWellFormed(params: Params)
    requires CompleteConfiguration(params)
    ensures WellFormedCatalogue(LoadedTargets(params))
  {
    var ts := LoadedTargets(params);
    forall i | 0 <= i < |ts| ensures |ts[i]| >= 2 {
      assert ts[i] == GetParam(params, TargetParamName(i + 1));
    }
  }

  /**
   * A missing target parameter is loaded silently as an empty entry, so the goal for
   * that position of the catalogue cannot be built.
   */
  lemma MissingParameterBreaksCatalogue(params: Params, i: nat)
    requires FirstIndex <= i < EndIndex
    requires TargetParamName(i) !in params
    ensures |LoadedTargets(params)| == 4
    ensures LoadedTargets(params)[i - 1] == []
    ensures !CanFetch(LoadedTargets(params), i - 1)
  {
    assert LoadedTargets(params)[i - 1] == GetParam(params, TargetParamName(i));
  }
}
