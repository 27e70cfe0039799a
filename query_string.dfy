/** `queryString(params, location)` of app/services/api.ts (lines 51-105).

    The builder splits the URL at every `?` and `&`, normalises each piece
    (empty key: dropped; `k=`: bare `k`; `k=v=w`: `k=v`), appends the caller's
    parameters, and joins the first two collected fragments with `?` and the
    remaining ones with `&`. */
module QueryStrings {
  import opened JsValues
  import opened UriText

  /** A value of a parameter object, after JavaScript's own conversions:
      `Primitive(text)` is a non-object value whose `String(v)` is `text`,
      `Object(json)` an object whose `JSON.stringify(v)` is `json`. */
  datatype ParamValue = Undefined | Primitive(text: string) | Object(json: string)

  /** An element of an array parameter: a string is pushed as it is, a pair
      `[k, v]` as `String(k) + '=' + String(v)`, anything else is ignored. */
  datatype ArrayItem = Raw(s: string) | Pair(key: string, value: string) | Ignored

  /** The `params` argument. `ScalarParams` stands for every value that is
      neither a string, an array nor an object with properties (a number, a
      boolean, `null`): it contributes nothing. Its truthiness is kept
      because `request` tests it before calling the builder. Arrays and
      objects are always truthy. */
  datatype Params = ArrayParams(items: seq<ArrayItem>) | ObjectParams(fields: Dict<ParamValue>) | ScalarParams(truthy: bool)

  const QueryDelims: set<char> := {'?', '&'}

  // ---------------------------------------------------------------------
  // Specification

  /** What one piece of the split URL contributes (lines 65-73). */
  function NormalizeFragment(frag: string): (r: Option<string>)
    ensures r.Some? ==> r.value != "" && r.value[0] != '='
  {
    var theParts := SplitOn(frag, {'='});
    if theParts[0] == "" then None
    else if |theParts| > 1 && theParts[1] != "" then Some(theParts[0] + "=" + theParts[1])
    else Some(theParts[0])
  }

  /** The fragments kept from the pieces of the URL, in order. */
  function KeptFragments(pieces: seq<string>): seq<string> {
    if pieces == [] then []
    else
      var init := KeptFragments(pieces[..|pieces| - 1]);
      match NormalizeFragment(pieces[|pieces| - 1])
      case None => init
      case Some(f) => init + [f]
  }

  function ExistingFragments(location: string): seq<string> {
    KeptFragments(SplitOn(location, QueryDelims))
  }

  function ArrayFragments(items: seq<ArrayItem>): seq<string> {
    if items == [] then []
    else
      var init := ArrayFragments(items[..|items| - 1]);
      match items[|items| - 1]
      case Raw(s) => init + [s]
      case Pair(k, v) => init + [k + "=" + v]
      case Ignored => init
  }

  /** `encodeURIComponent(JSON.stringify(v))` or `encodeURIComponent(v)`. */
  function EncodedValue(v: ParamValue): string
    requires !v.Undefined?
  {
    match v
    case Primitive(text) => EncodeURIComponent(text)
    case Object(json) => EncodeURIComponent(json)
  }

  /** The contents of `obj` after the first loop over an object parameter:
      every defined field, encoded, in the order of the fields. */
  function DefinedEntries(fields: Dict<ParamValue>): Dict<string> {
    if fields == [] then []
    else
      var init := DefinedEntries(fields[..|fields| - 1]);
      var (k, v) := fields[|fields| - 1];
      if v.Undefined? then init else init + [(k, EncodedValue(v))]
  }

  function EntryFragments(entries: Dict<string>): seq<string> {
    if entries == [] then []
    else EntryFragments(entries[..|entries| - 1]) + [entries[|entries| - 1].0 + "=" + entries[|entries| - 1].1]
  }

  function ParamFragments(params: Params): seq<string> {
    match params
    case ArrayParams(items) => ArrayFragments(items)
    case ObjectParams(fields) => EntryFragments(DefinedEntries(fields))
    case ScalarParams(_) => []
  }

  /** Line 104: the first two fragments joined by `?`, then `&` and the rest
      joined by `&`. Nothing is dropped: the result is the first fragment, then
      `?` and the remaining fragments joined by `&`. */
  function Assemble(parts: seq<string>): (url: string)
    ensures |parts| == 0 ==> url == ""
    ensures |parts| == 1 ==> url == parts[0]
    ensures |parts| >= 2 ==> url == parts[0] + "?" + Join(parts[1..], "&")
  {
    var n := if |parts| < 2 then |parts| else 2;
    var url := Join(parts[..n], "?") + (if |parts| > n then "&" + Join(parts[n..], "&") else "");
    assert |parts| >= 2 ==> url == parts[0] + "?" + Join(parts[1..], "&") by {
      if |parts| >= 2 {
        assert parts[..2][1..] == [parts[1]];
        assert Join(parts[..2], "?") == parts[0] + "?" + parts[1];
        if |parts| > 2 {
          assert parts[1..][1..] == parts[2..];
          assert Join(parts[1..], "&") == parts[1] + "&" + Join(parts[2..], "&");
        } else {
          assert parts[1..] == [parts[1]];
        }
      }
    }
    url
  }

  function CollectedFragments(params: Params, location: string): seq<string> {
    ExistingFragments(location) + ParamFragments(params)
  }

  function QueryStringSpec(params: Params, location: string): string {
    Assemble(CollectedFragments(params, location))
  }

  // ---------------------------------------------------------------------
  // The builder

  method QueryString(params: Params, location: string) returns (url: string)
    requires params.ObjectParams? ==> DistinctKeys(params.fields)
    ensures url == QueryStringSpec(params, location)
  {
    var parts := LocationFragments(location);
    match params {
      case ArrayParams(items) => parts := PushArrayParams(parts, items);
      case ObjectParams(fields) => parts := PushObjectParams(parts, fields);
      case ScalarParams(_) =>
    }
    assert parts == CollectedFragments(params, location);
    // `parts.splice(0, 2)` removes and returns the first two fragments.
    var n := if |parts| < 2 then |parts| else 2;
    var head := parts[..n];
    parts := parts[n..];
    url := Join(head, "?") + (if |parts| > 0 then "&" + Join(parts, "&") else "");
  }

  /** Lines 60-74: the fragments of the URL, normalised, empty keys skipped. */
  method LocationFragments(location: string) returns (parts: seq<string>)
    ensures parts == ExistingFragments(location)
  {
    var locSplit := SplitOn(location, QueryDelims);
    parts := [];
    var i := 0;
    while i < |locSplit|
      invariant 0 <= i <= |locSplit|
      invariant parts == KeptFragments(locSplit[..i])
    {
      assert locSplit[..i + 1][..i] == locSplit[..i];
      var theParts := SplitOn(locSplit[i], {'='});
      if theParts[0] == "" {
        i := i + 1;
        continue;
      }
      if |theParts| > 1 && theParts[1] != "" {
        parts := parts + [theParts[0] + "=" + theParts[1]];
      } else {
        parts := parts + [theParts[0]];
      }
      i := i + 1;
    }
    assert locSplit[..|locSplit|] == locSplit;
  }

  /** Lines 75-85: an array parameter's strings and pairs, in order. */
  method PushArrayParams(parts0: seq<string>, items: seq<ArrayItem>) returns (parts: seq<string>)
    ensures parts == parts0 + ArrayFragments(items)
  {
    parts := parts0;
    var j := 0;
    while j < |items|
      invariant 0 <= j <= |items|
      invariant parts == parts0 + ArrayFragments(items[..j])
    {
      assert items[..j + 1][..j] == items[..j];
      match items[j] {
        case Raw(s) => parts := parts + [s];
        case Pair(k, v) => parts := parts + [k + "=" + v];
        case Ignored =>
      }
      j := j + 1;
    }
    assert items[..|items|] == items;
  }

  /** Lines 86-101: fill `obj` with the encoded defined fields (deleting the
      undefined ones), then push `key=value` for each entry of `obj`. */
  method PushObjectParams(parts0: seq<string>, fields: Dict<ParamValue>) returns (parts: seq<string>)
    requires DistinctKeys(fields)
    ensures parts == parts0 + EntryFragments(DefinedEntries(fields))
  {
    var obj: Dict<string> := [];
    var j := 0;
    while j < |fields|
      invariant 0 <= j <= |fields|
      invariant obj == DefinedEntries(fields[..j])
    {
      assert fields[..j + 1][..j] == fields[..j];
      var (key, value) := fields[j];
      DefinedEntriesFrom(fields[..j], key);
      if value.Undefined? {
        obj := Delete(obj, key);
      } else {
        obj := Put(obj, key, EncodedValue(value));
      }
      j := j + 1;
    }
    assert fields[..|fields|] == fields;
    // Every value in `obj` is a string, so `obj[key] === true` never holds
    // and each entry is pushed as `key=value`.
    parts := parts0;
    var m := 0;
    while m < |obj|
      invariant 0 <= m <= |obj|
      invariant parts == parts0 + EntryFragments(obj[..m])
    {
      assert obj[..m + 1][..m] == obj[..m];
      parts := parts + [obj[m].0 + "=" + obj[m].1];
      m := m + 1;
    }
    assert obj[..|obj|] == obj;
  }

  /** A key of the fields that comes later is not yet in `obj`. */
  lemma {:induction false} DefinedEntriesFrom(fields: Dict<ParamValue>, k: string)
    requires forall i :: 0 <= i < |fields| ==> fields[i].0 != k
    ensures Lookup(DefinedEntries(fields), k).None?
  {
    if fields != [] {
      DefinedEntriesFrom(fields[..|fields| - 1], k);
    }
  }
}

// Properties of the builder, stated over its specification.
module QueryStringProperties {
  import opened JsValues
  import opened UriText
  import opened QueryStrings

  /** The key a later `queryString` reads from a fragment: the text before its first `=`. */
  function FragmentKey(frag: string): string {
    SplitOn(frag, {'='})[0]
  }

  function FieldFragment(k: string, v: ParamValue): string
    requires !v.Undefined?
  {
    k + "=" + EncodedValue(v)
  }

  function CountDefined(fields: Dict<ParamValue>): nat {
    if fields == [] then 0
    else CountDefined(fields[..|fields| - 1]) + if fields[|fields| - 1].1.Undefined? then 0 else 1
  }

  predicate EqualsFree(s: string) {
    NoneOf(s, {'='})
  }

  // ----- Normalising one piece of the URL (lines 65-73) -----

  /** A piece is kept as it is when it is a bare key or `key=value`, loses an
      empty value (`k=` and `k==w` become `k`), loses everything from a second
      `=` on, and is dropped when it is empty or its key is empty. */
  lemma NormalizeFragmentCases(k: string, v: string, w: string)
    requires k != "" && EqualsFree(k) && EqualsFree(v)
    ensures NormalizeFragment(k) == Some(k)
    ensures NormalizeFragment(k + "=") == Some(k)
    ensures v != "" ==> NormalizeFragment(k + "=" + v) == Some(k + "=" + v)
    ensures v != "" ==> NormalizeFragment(k + "=" + v + "=" + w) == Some(k + "=" + v)
    ensures NormalizeFragment(k + "==" + w) == Some(k)
    ensures NormalizeFragment("") == None
    ensures NormalizeFragment("=" + w) == None
  {
    NormalizeBareKey(k);
    assert k + "==" + w == k + "=" + "" + "=" + w;
    NormalizeKeyValue(k, "", w, k + "==" + w);
    SplitDelimiterFree("", {'='});
    assert k + "=" + "" == k + "=";
    NormalizeKeyValue(k, "", "", k + "=");
    NormalizeEmptyKey(w);
    if v != "" {
      NormalizeKeyValue(k, v, "", k + "=" + v);
      NormalizeKeyValue(k, v, w, k + "=" + v + "=" + w);
    }
  }

  lemma NormalizeBareKey(k: string)
    requires k != "" && EqualsFree(k)
    ensures NormalizeFragment(k) == Some(k)
  {
    SplitDelimiterFree(k, {'='});
  }

  /** `k=v` and `k=v=w` (w empty or not) keep `k=v`, or just `k` when v is empty. */
  lemma NormalizeKeyValue(k: string, v: string, w: string, frag: string)
    requires k != "" && EqualsFree(k) && EqualsFree(v)
    requires frag == k + "=" + v || frag == k + "=" + v + "=" + w
    ensures NormalizeFragment(frag) == if v == "" then Some(k) else Some(k + "=" + v)
  {
    var tail := if frag == k + "=" + v then v else v + "=" + w;
    assert frag == k + ['='] + tail;
    SplitAfterPiece(k, '=', tail, {'='});
    if frag == k + "=" + v {
      SplitDelimiterFree(v, {'='});
    } else {
      assert tail == v + ['='] + w;
      SplitAfterPiece(v, '=', w, {'='});
    }
  }

  lemma NormalizeEmptyKey(w: string)
    ensures NormalizeFragment("=" + w) == None
  {
    SplitAfterPiece("", '=', w, {'='});
    assert "=" + w == "" + ['='] + w;
  }

  // ----- Assembly (line 104) -----

  /** Splitting the assembled URL at `?` and `&` gives back every fragment,
      once and in order, when no fragment contains either delimiter. */
  lemma AssembleSplit(parts: seq<string>)
    requires |parts| >= 1
    requires forall i :: 0 <= i < |parts| ==> NoneOf(parts[i], QueryDelims)
    ensures SplitOn(Assemble(parts), QueryDelims) == parts
  {
    if |parts| == 1 {
      SplitDelimiterFree(parts[0], QueryDelims);
    } else {
      SplitJoin(parts[1..], '&', QueryDelims);
      SplitAfterPiece(parts[0], '?', Join(parts[1..], "&"), QueryDelims);
      assert parts[0] + "?" + Join(parts[1..], "&") == parts[0] + ['?'] + Join(parts[1..], "&");
      assert [parts[0]] + parts[1..] == parts;
    }
  }

  // ----- Object parameters (lines 86-101) -----

  /** Appending a field appends its fragment when it is defined, and nothing otherwise. */
  lemma ObjectFragmentsSnoc(init: Dict<ParamValue>, k: string, v: ParamValue)
    ensures ParamFragments(ObjectParams(init + [(k, v)])) ==
      ParamFragments(ObjectParams(init)) + if v.Undefined? then [] else [FieldFragment(k, v)]
  {
    var fields := init + [(k, v)];
    assert fields[..|fields| - 1] == init;
    if !v.Undefined? {
      var d := DefinedEntries(init) + [(k, EncodedValue(v))];
      assert d[..|d| - 1] == DefinedEntries(init);
    }
  }

  /** The fragments of an object parameter are its defined fields,
      `key=encoded value`, in field order: the defined field at index j gives
      the fragment at position "number of defined fields before j". */
  lemma {:induction false} ObjectFragmentsInOrder(fields: Dict<ParamValue>)
    ensures |ParamFragments(ObjectParams(fields))| == CountDefined(fields)
    ensures forall j :: 0 <= j < |fields| && !fields[j].1.Undefined? ==>
      CountDefined(fields[..j]) < CountDefined(fields) &&
      ParamFragments(ObjectParams(fields))[CountDefined(fields[..j])] == FieldFragment(fields[j].0, fields[j].1)
  {
    if fields != [] {
      var init := fields[..|fields| - 1];
      var (k, v) := fields[|fields| - 1];
      assert fields == init + [(k, v)];
      ObjectFragmentsInOrder(init);
      ObjectFragmentsSnoc(init, k, v);
      var f := ParamFragments(ObjectParams(fields));
      forall j | 0 <= j < |fields| && !fields[j].1.Undefined?
        ensures CountDefined(fields[..j]) < CountDefined(fields)
        ensures f[CountDefined(fields[..j])] == FieldFragment(fields[j].0, fields[j].1)
      {
        if j < |init| {
          assert fields[..j] == init[..j];
          assert fields[j] == init[j];
        } else {
          assert fields[..j] == init;
        }
      }
    }
  }

  /** A defined field of a prefix is a defined field of the whole. */
  lemma OriginInPrefix(init: Dict<ParamValue>, fields: Dict<ParamValue>, j: nat)
    requires |init| <= |fields| && init == fields[..|init|]
    requires j < |init| && !init[j].1.Undefined?
    ensures exists j' :: 0 <= j' < |fields| && !fields[j'].1.Undefined? && FieldFragment(init[j].0, init[j].1) == FieldFragment(fields[j'].0, fields[j'].1)
  {
    assert fields[j] == init[j];
  }

  /** Every fragment of an object parameter comes from one of its defined fields. */
  lemma {:induction false} ObjectFragmentsOrigin(fields: Dict<ParamValue>)
    ensures forall m :: 0 <= m < |ParamFragments(ObjectParams(fields))| ==>
      exists j :: 0 <= j < |fields| && !fields[j].1.Undefined? &&
        ParamFragments(ObjectParams(fields))[m] == FieldFragment(fields[j].0, fields[j].1)
  {
    if fields != [] {
      var init := fields[..|fields| - 1];
      var (k, v) := fields[|fields| - 1];
      assert fields == init + [(k, v)];
      ObjectFragmentsOrigin(init);
      ObjectFragmentsSnoc(init, k, v);
      var fi := ParamFragments(ObjectParams(init));
      var f := ParamFragments(ObjectParams(fields));
      forall m | 0 <= m < |f|
        ensures exists j :: 0 <= j < |fields| && !fields[j].1.Undefined? && f[m] == FieldFragment(fields[j].0, fields[j].1)
      {
        if m < |fi| {
          assert f[m] == fi[m];
          var j :| 0 <= j < |init| && !init[j].1.Undefined? && fi[m] == FieldFragment(init[j].0, init[j].1);
          OriginInPrefix(init, fields, j);
        } else {
          OriginInPrefix(fields, fields, |fields| - 1);
        }
      }
    } else {
      assert DefinedEntries(fields) == [];
      assert ParamFragments(ObjectParams(fields)) == [];
    }
  }

  /** No fragment carries the key of a field whose value is `undefined`, when
      keys are distinct (as in any JS object) and contain no `=`. */
  lemma UndefinedKeysAbsent(fields: Dict<ParamValue>)
    requires DistinctKeys(fields)
    requires forall j :: 0 <= j < |fields| ==> EqualsFree(fields[j].0)
    ensures forall j, m :: 0 <= j < |fields| && fields[j].1.Undefined? && 0 <= m < |ParamFragments(ObjectParams(fields))| ==>
      FragmentKey(ParamFragments(ObjectParams(fields))[m]) != fields[j].0
  {
    ObjectFragmentsOrigin(fields);
    var f := ParamFragments(ObjectParams(fields));
    forall j, m | 0 <= j < |fields| && fields[j].1.Undefined? && 0 <= m < |f|
      ensures FragmentKey(f[m]) != fields[j].0
    {
      var j' :| 0 <= j' < |fields| && !fields[j'].1.Undefined? && f[m] == FieldFragment(fields[j'].0, fields[j'].1);
      SplitAfterPiece(fields[j'].0, '=', EncodedValue(fields[j'].1), {'='});
      assert f[m] == fields[j'].0 + ['='] + EncodedValue(fields[j'].1);
    }
  }

  // ----- The whole URL -----

  /** A fragment in the form the builder itself produces: delimiter-free,
      with a non-empty key, and either bare or with one non-empty value. */
  predicate NormalFragment(p: string) {
    NoneOf(p, QueryDelims) &&
    ((p != "" && EqualsFree(p)) ||
     exists i :: 0 < i < |p| - 1 && p[i] == '=' && EqualsFree(p[..i]) && EqualsFree(p[i + 1..]))
  }

  lemma NormalFixedPoint(p: string)
    requires NormalFragment(p)
    ensures NormalizeFragment(p) == Some(p)
  {
    if p != "" && EqualsFree(p) {
      NormalizeBareKey(p);
    } else {
      var i :| 0 < i < |p| - 1 && p[i] == '=' && EqualsFree(p[..i]) && EqualsFree(p[i + 1..]);
      var k, v := p[..i], p[i + 1..];
      assert p == k + "=" + v;
      NormalizeKeyValue(k, v, "", p);
    }
  }

  lemma {:induction false} KeptNormal(ps: seq<string>)
    requires forall i :: 0 <= i < |ps| ==> NormalFragment(ps[i])
    ensures KeptFragments(ps) == ps
  {
    if ps != [] {
      KeptNormal(ps[..|ps| - 1]);
      NormalFixedPoint(ps[|ps| - 1]);
    }
  }

  lemma {:induction false} PiecesInherit(s: string, d: set<char>, e: set<char>)
    requires NoneOf(s, e)
    ensures forall i :: 0 <= i < |SplitOn(s, d)| ==> NoneOf(SplitOn(s, d)[i], e)
  {
    if s != [] {
      PiecesInherit(s[1..], d, e);
    }
  }

  /** Every fragment kept from the URL is already in normal form. */
  lemma {:induction false} ExistingNormal(location: string)
    ensures forall i :: 0 <= i < |ExistingFragments(location)| ==> NormalFragment(ExistingFragments(location)[i])
  {
    var pieces := SplitOn(location, QueryDelims);
    KeptPiecesNormal(pieces);
  }

  lemma {:induction false} KeptPiecesNormal(pieces: seq<string>)
    requires forall i :: 0 <= i < |pieces| ==> NoneOf(pieces[i], QueryDelims)
    ensures forall i :: 0 <= i < |KeptFragments(pieces)| ==> NormalFragment(KeptFragments(pieces)[i])
  {
    if pieces != [] {
      KeptPiecesNormal(pieces[..|pieces| - 1]);
      var frag := pieces[|pieces| - 1];
      var theParts := SplitOn(frag, {'='});
      PiecesInherit(frag, {'='}, QueryDelims);
      if theParts[0] != "" && |theParts| > 1 && theParts[1] != "" {
        var p := theParts[0] + "=" + theParts[1];
        assert p[..|theParts[0]|] == theParts[0];
        assert p[|theParts[0]| + 1..] == theParts[1];
        assert NormalFragment(p);
      }
    }
  }

  /** The fragments of an object parameter are in normal form when its keys
      are non-empty and free of `?`, `&` and `=`, and no defined value
      converts to the empty string. */
  lemma ObjectFragmentsNormal(fields: Dict<ParamValue>)
    requires forall j :: 0 <= j < |fields| ==> fields[j].0 != "" && NoneOf(fields[j].0, {'?', '&', '='})
    requires forall j :: 0 <= j < |fields| ==> fields[j].1 != Primitive("") && fields[j].1 != Object("")
    ensures forall m :: 0 <= m < |ParamFragments(ObjectParams(fields))| ==> NormalFragment(ParamFragments(ObjectParams(fields))[m])
  {
    ObjectFragmentsOrigin(fields);
    var f := ParamFragments(ObjectParams(fields));
    forall m | 0 <= m < |f| ensures NormalFragment(f[m]) {
      var j :| 0 <= j < |fields| && !fields[j].1.Undefined? && f[m] == FieldFragment(fields[j].0, fields[j].1);
      FieldFragmentNormal(fields[j].0, fields[j].1);
    }
  }

  lemma FieldFragmentNormal(k: string, v: ParamValue)
    requires k != "" && NoneOf(k, {'?', '&', '='})
    requires !v.Undefined? && v != Primitive("") && v != Object("")
    ensures NormalFragment(FieldFragment(k, v))
  {
    var e := EncodedValue(v);
    EncodedHasNoQueryDelimiters(if v.Primitive? then v.text else v.json);
    var p := FieldFragment(k, v);
    assert p == k + ['='] + e;
    NoneOfAround(k, '=', e, QueryDelims);
    assert EqualsFree(k) && EqualsFree(e);
    assert p[..|k|] == k && p[|k| + 1..] == e && p[|k|] == '=';
  }

  /** A delimiter-free text, a non-delimiter and another delimiter-free text. */
  lemma NoneOfAround(a: string, c: char, b: string, d: set<char>)
    requires NoneOf(a, d) && NoneOf(b, d) && c !in d
    ensures NoneOf(a + [c] + b, d)
  {
    var p := a + [c] + b;
    forall i | 0 <= i < |p| ensures p[i] !in d {
      if i < |a| {
        assert p[i] == a[i];
      } else if i > |a| {
        assert p[i] == b[i - |a| - 1];
      }
    }
  }

  /** Splitting the produced URL at `?` and `&` gives back exactly the URL's
      normalised fragments followed by the parameter fragments. */
  lemma QueryStringSplit(params: Params, location: string)
    requires |CollectedFragments(params, location)| >= 1
    requires forall m :: 0 <= m < |ParamFragments(params)| ==> NoneOf(ParamFragments(params)[m], QueryDelims)
    ensures SplitOn(QueryStringSpec(params, location), QueryDelims) == CollectedFragments(params, location)
  {
    ExistingNormal(location);
    AssembleSplit(CollectedFragments(params, location));
  }

  /** The output is a fixed point: running the builder again on it, with no
      parameters, returns it unchanged, when every parameter fragment is in
      normal form. */
  lemma QueryStringIdempotent(params: Params, location: string, truthy: bool)
    requires forall m :: 0 <= m < |ParamFragments(params)| ==> NormalFragment(ParamFragments(params)[m])
    ensures QueryStringSpec(ScalarParams(truthy), QueryStringSpec(params, location)) == QueryStringSpec(params, location)
  {
    var parts := CollectedFragments(params, location);
    ExistingNormal(location);
    if parts == [] {
      assert QueryStringSpec(params, location) == "";
      assert SplitOn("", QueryDelims) == [""];
      assert KeptFragments([""]) == KeptFragments([]) ;
    } else {
      var url := QueryStringSpec(params, location);
      AssembleSplit(parts);
      KeptNormal(parts);
      assert ExistingFragments(url) == parts;
      assert CollectedFragments(ScalarParams(truthy), url) == parts + [];
      assert parts + [] == parts;
    }
  }
}

/** Worked examples: base `url?z=1` with `{a: "1", b: undefined}` gives
    `url?z=1&a=1` (`WorkedExample`); with an object value `c` added it gives
    `url?z=1&a=1&c=` followed by the percent-encoded JSON text of `c`
    (`ObjectExample`), and for `c = {x: 1}`, whose JSON text is `{"x":1}`,
    that encoding is `%7B%22x%22%3A1%7D` (`JsonEncoding`). */
module QueryStringExample {
  import opened JsValues
  import opened UriText
  import opened QueryStrings
  import opened QueryStringProperties

  lemma EncodeCons(c: char, s: string, cs: string)
    requires cs == [c] + s
    ensures EncodeURIComponent(cs) == EncodeChar(c) + EncodeURIComponent(s)
  {
    assert cs[0] == c && cs[1..] == s;
  }

  /** `"url?z=1"` splits into `url` and `z=1`. */
  lemma ExistingPieces()
    ensures SplitOn("url?z=1", QueryDelims) == ["url", "z=1"]
  {
    assert NoneOf("url", QueryDelims);
    assert NoneOf("z=1", QueryDelims);
    SplitDelimiterFree("z=1", QueryDelims);
    assert "url?z=1" == "url" + ['?'] + "z=1";
    SplitAfterPiece("url", '?', "z=1", QueryDelims);
  }

  /** Both pieces are kept unchanged. */
  lemma ExistingPiecesKept()
    ensures NormalizeFragment("url") == Some("url")
    ensures NormalizeFragment("z=1") == Some("z=1")
  {
    assert NoneOf("url", {'='});
    NormalizeBareKey("url");
    assert "z=1" == "z" + "=" + "1";
    assert NoneOf("z", {'='}) && NoneOf("1", {'='});
    NormalizeKeyValue("z", "1", "", "z=1");
  }

  lemma ExistingExample()
    ensures ExistingFragments("url?z=1") == ["url", "z=1"]
  {
    ExistingPieces();
    ExistingPiecesKept();
    var pieces := ["url", "z=1"];
    assert pieces[..1] == ["url"];
    assert KeptFragments(["url"]) == ["url"] by {
      assert ["url"][..0] == [];
    }
  }

  lemma FirstField()
    ensures ParamFragments(ObjectParams([("a", Primitive("1"))])) == ["a=1"]
  {
    var a := ("a", Primitive("1"));
    assert FieldFragment(a.0, a.1) == "a=1" by { EncodeCons('1', "", "1"); }
    assert ParamFragments(ObjectParams([])) == [];
    ObjectFragmentsSnoc([], a.0, a.1);
    assert [] + [a] == [a];
  }

  lemma UndefinedField()
    ensures ParamFragments(ObjectParams([("a", Primitive("1")), ("b", ParamValue.Undefined)])) == ["a=1"]
  {
    FirstField();
    ObjectFragmentsSnoc([("a", Primitive("1"))], "b", ParamValue.Undefined);
    assert [("a", Primitive("1"))] + [("b", ParamValue.Undefined)] == [("a", Primitive("1")), ("b", ParamValue.Undefined)];
  }

  lemma AssembleExample()
    ensures Assemble(["url", "z=1", "a=1"]) == "url?z=1&a=1"
  {
    var parts := ["url", "z=1", "a=1"];
    assert parts[..2] == ["url", "z=1"];
    assert ["url", "z=1"][1..] == ["z=1"];
    assert Join(["url", "z=1"], "?") == "url?z=1";
    assert parts[2..] == ["a=1"];
    assert Join(parts[2..], "&") == "a=1";
  }

  /** A worked example: the URL's own parameter comes first, the defined
      field is appended with `&`, and the undefined one is skipped. */
  lemma WorkedExample()
    ensures QueryStringSpec(ObjectParams([("a", Primitive("1")), ("b", ParamValue.Undefined)]), "url?z=1")
      == "url?z=1&a=1"
  {
    ExistingExample();
    UndefinedField();
    AssembleExample();
    assert ["url", "z=1"] + ["a=1"] == ["url", "z=1", "a=1"];
  }

  // ----- An object-valued field: `encodeURIComponent('{"x":1}')` -----

  /** An ASCII character outside the unreserved set is one `%XX` escape. */
  lemma EncodeAsciiEscape(c: char, hi: nat, lo: nat, r: string)
    requires !Unreserved(c) && c as int == 16 * hi + lo && lo < 16 && hi < 8
    requires r == ['%', HexDigit(hi), HexDigit(lo)]
    ensures EncodeChar(c) == r
  {
    assert Utf8(c as int) == [c as int];
    assert PercentBytes([c as int])[..3] == r;
  }

  lemma PunctuationEncoding()
    ensures EncodeChar('{') == "%7B" && EncodeChar('}') == "%7D"
    ensures EncodeChar('"') == "%22" && EncodeChar(':') == "%3A"
  {
    EncodeAsciiEscape('{', 7, 11, "%7B");
    EncodeAsciiEscape('}', 7, 13, "%7D");
    EncodeAsciiEscape('"', 2, 2, "%22");
    EncodeAsciiEscape(':', 3, 10, "%3A");
  }

  // The encoding of `{"x":1}`, one character at a time from the end.

  lemma JsonTail1()
    ensures EncodeURIComponent("}") == "%7D"
  {
    PunctuationEncoding();
    EncodeCons('}', "", "}");
  }

  lemma JsonTail2()
    ensures EncodeURIComponent("1}") == "1%7D"
  {
    JsonTail1();
    EncodeCons('1', "}", "1}");
  }

  lemma JsonTail3()
    ensures EncodeURIComponent(":1}") == "%3A1%7D"
  {
    JsonTail2();
    PunctuationEncoding();
    EncodeCons(':', "1}", ":1}");
  }

  lemma JsonTail4()
    ensures EncodeURIComponent("\":1}") == "%22%3A1%7D"
  {
    JsonTail3();
    PunctuationEncoding();
    EncodeCons('"', ":1}", "\":1}");
  }

  lemma JsonTail5()
    ensures EncodeURIComponent("x\":1}") == "x%22%3A1%7D"
  {
    JsonTail4();
    EncodeCons('x', "\":1}", "x\":1}");
  }

  lemma JsonTail6()
    ensures EncodeURIComponent("\"x\":1}") == "%22x%22%3A1%7D"
  {
    JsonTail5();
    PunctuationEncoding();
    EncodeCons('"', "x\":1}", "\"x\":1}");
  }

  lemma JsonEncoding()
    ensures EncodeURIComponent("{\"x\":1}") == "%7B%22x%22%3A1%7D"
  {
    JsonTail6();
    PunctuationEncoding();
    EncodeCons('{', "\"x\":1}", "{\"x\":1}");
  }

  /** An object-valued field is appended after the others as `c=` and its
      encoded JSON text. */
  lemma ObjectFieldExample(json: string)
    ensures ParamFragments(ObjectParams([("a", Primitive("1")), ("b", ParamValue.Undefined), ("c", Object(json))]))
      == ["a=1", "c=" + EncodeURIComponent(json)]
  {
    var a, b, c := ("a", Primitive("1")), ("b", ParamValue.Undefined), ("c", Object(json));
    UndefinedField();
    ObjectFragmentsSnoc([a, b], c.0, c.1);
    assert [a, b] + [c] == [a, b, c];
    assert FieldFragment(c.0, c.1) == "c=" + EncodeURIComponent(json) by {
      assert "c" + "=" == "c=";
    }
  }

  lemma AssembleObjectExample(e: string)
    ensures Assemble(["url", "z=1", "a=1", "c=" + e]) == "url?z=1&a=1&c=" + e
  {
    var f := "c=" + e;
    var rest := ["z=1", "a=1", f];
    assert ["url", "z=1", "a=1", f][1..] == rest;
    assert rest[1..] == ["a=1", f];
    assert rest[1..][1..] == [f];
    assert Join(rest[1..], "&") == "a=1" + "&" + f;
    assert Join(rest, "&") == "z=1" + "&" + ("a=1" + "&" + f);
    assert "url" + "?" + "z=1" + "&" + "a=1" + "&" + "c=" == "url?z=1&a=1&c=";
  }

  lemma ObjectCollected(json: string)
    ensures CollectedFragments(ObjectParams([("a", Primitive("1")), ("b", ParamValue.Undefined), ("c", Object(json))]), "url?z=1")
      == ["url", "z=1", "a=1", "c=" + EncodeURIComponent(json)]
  {
    var f := "c=" + EncodeURIComponent(json);
    ExistingExample();
    ObjectFieldExample(json);
    assert ["url", "z=1"] + ["a=1", f] == ["url", "z=1", "a=1", f];
  }

  /** Any object value is sent as its percent-encoded JSON text. */
  lemma ObjectExample(json: string)
    ensures QueryStringSpec(ObjectParams([("a", Primitive("1")), ("b", ParamValue.Undefined), ("c", Object(json))]), "url?z=1")
      == "url?z=1&a=1&c=" + EncodeURIComponent(json)
  {
    ObjectCollected(json);
    AssembleObjectExample(EncodeURIComponent(json));
  }
}
