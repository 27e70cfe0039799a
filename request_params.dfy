/** The parameter objects `fetchOWM` (app/services/api.ts:325-329) and
    `getDarkSkyWeather` (461-465) pass to `request`: defaults first, then the
    caller's own properties spread over them (`{lang, appid, ...queryParams}`). */
module RequestParams {
  import opened JsValues
  import opened QueryStrings
  import opened QueryStringProperties

  /** `{...target, ...source}`: each property of `source`, in order, is
      assigned onto `target`, so a key already present keeps its place and
      takes the new value, and a new key is added at the end. */
  function Spread(target: Dict<ParamValue>, source: Dict<ParamValue>): (r: Dict<ParamValue>)
    requires DistinctKeys(source)
    ensures forall k :: Lookup(r, k) == if Lookup(source, k).Some? then Lookup(source, k) else Lookup(target, k)
    decreases |source|
  {
    if source == [] then target
    else
      var (k, v) := source[0];
      SourceTail(source);
      Spread(Put(target, k, v), source[1..])
  }

  /** The properties after the first one: still distinct, without the first
      key, and agreeing with the whole on every other key. */
  lemma SourceTail(source: Dict<ParamValue>)
    requires DistinctKeys(source) && source != []
    ensures DistinctKeys(source[1..])
    ensures Lookup(source[1..], source[0].0).None?
    ensures forall k :: k != source[0].0 ==> Lookup(source, k) == Lookup(source[1..], k)
  {
    forall i | 0 <= i < |source[1..]| ensures source[1..][i].0 != source[0].0 {
      assert source[1..][i] == source[i + 1];
    }
  }

  /** Assigning a property keeps the existing keys, in order, at the front. */
  lemma PutKeepsOrder(d: Dict<ParamValue>, k: string, v: ParamValue)
    ensures |Put(d, k, v)| >= |d| && Keys(Put(d, k, v))[..|d|] == Keys(d)
  {
    var r := Put(d, k, v);
    if Lookup(d, k).None? {
      assert r == d + [(k, v)];
      forall i | 0 <= i < |d| ensures Keys(r)[i] == Keys(d)[i] {
        assert r[i] == d[i];
      }
    }
  }

  /** Spreading keeps the target's keys, in order, at the front, and repeats
      no key. */
  lemma {:induction false} SpreadShape(target: Dict<ParamValue>, source: Dict<ParamValue>)
    requires DistinctKeys(source)
    ensures |Spread(target, source)| >= |target|
    ensures Keys(Spread(target, source))[..|target|] == Keys(target)
    ensures DistinctKeys(target) ==> DistinctKeys(Spread(target, source))
    decreases |source|
  {
    if source != [] {
      var (k, v) := source[0];
      SourceTail(source);
      var next := Put(target, k, v);
      PutKeepsOrder(target, k, v);
      if DistinctKeys(target) {
        PutKeepsKeysDistinct(target, k, v);
      }
      SpreadShape(next, source[1..]);
      var r := Spread(target, source);
      assert r == Spread(next, source[1..]);
      assert Keys(r)[..|target|] == Keys(r)[..|next|][..|target|];
    }
  }

  /** `{k1: v1, k2: v2, ...queryParams}`: two defaults, which keep the first
      two places, then the caller's own properties. */
  function WithDefaults(k1: string, v1: ParamValue, k2: string, v2: ParamValue, queryParams: Dict<ParamValue>): (r: Dict<ParamValue>)
    requires k1 != k2 && DistinctKeys(queryParams)
    ensures DistinctKeys(r)
    ensures |r| >= 2 && r[0].0 == k1 && r[1].0 == k2
    ensures Lookup(r, k1) == if Lookup(queryParams, k1).Some? then Lookup(queryParams, k1) else Some(v1)
    ensures Lookup(r, k2) == if Lookup(queryParams, k2).Some? then Lookup(queryParams, k2) else Some(v2)
    ensures forall k :: k != k1 && k != k2 ==> Lookup(r, k) == Lookup(queryParams, k)
  {
    var defaults := [(k1, v1), (k2, v2)];
    var r := Spread(defaults, queryParams);
    assert DistinctKeys(r) && |r| >= 2 && r[0].0 == k1 && r[1].0 == k2 by {
      assert Keys(defaults) == [k1, k2];
      assert DistinctKeys(defaults);
      SpreadShape(defaults, queryParams);
      assert Keys(r)[..2] == [k1, k2];
      assert Keys(r)[0] == r[0].0 && Keys(r)[1] == r[1].0;
    }
    assert Lookup(defaults, k1) == Some(v1) && Lookup(defaults, k2) == Some(v2);
    assert forall k :: k != k1 && k != k2 ==> Lookup(defaults, k).None?;
    r
  }

  /** `fetchOWM`'s `{lang, appid: apiKey, ...queryParams}`. */
  function OwmParams(lang: ParamValue, apiKey: ParamValue, queryParams: Dict<ParamValue>): (r: Dict<ParamValue>)
    requires DistinctKeys(queryParams)
    ensures DistinctKeys(r)
    ensures |r| >= 2 && r[0].0 == "lang" && r[1].0 == "appid"
    ensures Lookup(r, "appid") == if Lookup(queryParams, "appid").Some? then Lookup(queryParams, "appid") else Some(apiKey)
    ensures Lookup(r, "lang") == if Lookup(queryParams, "lang").Some? then Lookup(queryParams, "lang") else Some(lang)
    ensures forall k :: k != "lang" && k != "appid" ==> Lookup(r, k) == Lookup(queryParams, k)
  {
    WithDefaults("lang", lang, "appid", apiKey, queryParams)
  }

  /** `getDarkSkyWeather`'s `{lang, units: 'ca', ...queryParams}`. */
  function DarkSkyParams(lang: ParamValue, queryParams: Dict<ParamValue>): (r: Dict<ParamValue>)
    requires DistinctKeys(queryParams)
    ensures DistinctKeys(r)
    ensures |r| >= 2 && r[0].0 == "lang" && r[1].0 == "units"
    ensures Lookup(r, "units") == if Lookup(queryParams, "units").Some? then Lookup(queryParams, "units") else Some(Primitive("ca"))
    ensures Lookup(r, "lang") == if Lookup(queryParams, "lang").Some? then Lookup(queryParams, "lang") else Some(lang)
    ensures forall k :: k != "lang" && k != "units" ==> Lookup(r, k) == Lookup(queryParams, k)
  {
    WithDefaults("lang", lang, "units", Primitive("ca"), queryParams)
  }

  /** A caller that passes `appid: undefined` removes the API key from the
      request URL altogether: no fragment of the query carries the key
      `appid` (keys are assumed free of `=`). */
  lemma UndefinedOverrideDropsDefault(lang: ParamValue, apiKey: ParamValue, queryParams: Dict<ParamValue>)
    requires DistinctKeys(queryParams)
    requires forall j :: 0 <= j < |queryParams| ==> EqualsFree(queryParams[j].0)
    requires Lookup(queryParams, "appid") == Some(ParamValue.Undefined)
    ensures forall m :: 0 <= m < |ParamFragments(ObjectParams(OwmParams(lang, apiKey, queryParams)))| ==>
      FragmentKey(ParamFragments(ObjectParams(OwmParams(lang, apiKey, queryParams)))[m]) != "appid"
  {
    var r := OwmParams(lang, apiKey, queryParams);
    OwmKeysEqualsFree(lang, apiKey, queryParams);
    UndefinedKeysAbsent(r);
  }

  /** The keys of `fetchOWM`'s parameters are the two defaults and the caller's. */
  lemma OwmKeysEqualsFree(lang: ParamValue, apiKey: ParamValue, queryParams: Dict<ParamValue>)
    requires DistinctKeys(queryParams)
    requires forall j :: 0 <= j < |queryParams| ==> EqualsFree(queryParams[j].0)
    ensures var r := OwmParams(lang, apiKey, queryParams);
            forall i :: 0 <= i < |r| ==> EqualsFree(r[i].0)
  {
    var r := OwmParams(lang, apiKey, queryParams);
    forall i | 0 <= i < |r| ensures EqualsFree(r[i].0) {
      if r[i].0 != "lang" && r[i].0 != "appid" {
        assert Lookup(r, r[i].0).Some?;
        assert Lookup(queryParams, r[i].0).Some?;
        var q :| 0 <= q < |queryParams| && queryParams[q].0 == r[i].0;
      }
    }
  }
}
