/** How `handleRequestResponse` (app/services/api.ts:222-289) turns an HTTP
    response into a resolved value or a rejection, and `handleRequestRetry`
    (214-220). The response is abstract: a status code and a body that either
    parsed as JSON or did not. */
module Responses {
  import opened JsValues

  // ---------------------------------------------------------------------
  // The regular expression /<title>(.*)\n*<\/title>/ and its exec.

  const TitleOpen := "<title>"
  const TitleClose := "</title>"

  /** The characters `.` does not match. */
  predicate LineTerminator(c: char) {
    c == '\n' || c == '\r' || c == '\U{2028}' || c == '\U{2029}'
  }

  predicate NoLineTerminator(s: string) {
    forall q :: 0 <= q < |s| ==> !LineTerminator(s[q])
  }

  predicate StartsWithAt(s: string, i: nat, w: string) {
    i + |w| <= |s| && s[i..i + |w|] == w
  }

  /** `\n*<\/title>` matches at position j. */
  predicate ClosesAt(s: string, j: nat)
    requires j <= |s|
    decreases |s| - j
  {
    StartsWithAt(s, j, TitleClose) || (j < |s| && s[j] == '\n' && ClosesAt(s, j + 1))
  }

  /** The whole pattern matches at position i with `c` as the capture. */
  predicate TitleAt(s: string, i: nat, c: string) {
    StartsWithAt(s, i, TitleOpen) && i + |TitleOpen| + |c| <= |s|
    && s[i + |TitleOpen|..i + |TitleOpen| + |c|] == c
    && NoLineTerminator(c) && ClosesAt(s, i + |TitleOpen| + |c|)
  }

  /** The first line terminator at or after p, or the end. */
  function LineEnd(s: string, p: nat): (e: nat)
    requires p <= |s|
    ensures p <= e <= |s|
    ensures NoLineTerminator(s[p..e])
    ensures e < |s| ==> LineTerminator(s[e])
    decreases |s| - p
  {
    if p == |s| || LineTerminator(s[p]) then p else LineEnd(s, p + 1)
  }

  /** `\n*<\/title>` matches k characters after p. */
  predicate ClosesAfter(s: string, p: nat, k: nat) {
    p + k <= |s| && ClosesAt(s, p + k)
  }

  /** Greedy `(.*)`: the longest length up to k after which `\n*<\/title>` matches. */
  function LongestCapture(s: string, p: nat, k: nat): (r: Option<nat>)
    requires p + k <= |s|
    ensures r.Some? ==> r.value <= k && ClosesAfter(s, p, r.value)
    ensures r.Some? ==> forall k' :: r.value < k' <= k ==> !ClosesAfter(s, p, k')
    ensures r.None? ==> forall k' :: 0 <= k' <= k ==> !ClosesAfter(s, p, k')
  {
    if ClosesAt(s, p + k) then Some(k)
    else if k == 0 then None
    else LongestCapture(s, p, k - 1)
  }

  /** The match, if any, that starts at position i. */
  function CaptureAt(s: string, i: nat): Option<string>
    requires i <= |s|
  {
    if !StartsWithAt(s, i, TitleOpen) then None
    else
      var p := i + |TitleOpen|;
      match LongestCapture(s, p, LineEnd(s, p) - p)
      case None => None
      case Some(k) => Some(s[p..p + k])
  }

  /** Scanning start positions from i on, as `exec` does. */
  function FindTitle(s: string, i: nat): Option<string>
    requires i <= |s|
    decreases |s| - i
  {
    match CaptureAt(s, i)
    case Some(c) => Some(c)
    case None => if i == |s| then None else FindTitle(s, i + 1)
  }

  /** `match ? match[1] : null` for `/<title>(.*)\n*<\/title>/.exec(s)`. */
  function TitleCapture(s: string): (c: Option<string>)
    ensures c.Some? ==> exists j: nat :: j <= |s| && LeftmostLongest(s, 0, j, c.value)
    ensures c.Some? ==> NoLineTerminator(c.value)
    ensures c.None? ==> forall j: nat, c' :: j <= |s| ==> !TitleAt(s, j, c')
  {
    FindTitleSpec(s, 0);
    FindTitle(s, 0)
  }

  lemma CaptureAtSound(s: string, i: nat)
    requires i <= |s| && CaptureAt(s, i).Some?
    ensures TitleAt(s, i, CaptureAt(s, i).value)
    ensures forall c :: TitleAt(s, i, c) ==> |c| <= |CaptureAt(s, i).value|
  {
    CaptureAtMatches(s, i);
    var p := i + |TitleOpen|;
    var k := LongestCapture(s, p, LineEnd(s, p) - p).value;
    assert |CaptureAt(s, i).value| == k;
    forall c' | TitleAt(s, i, c') ensures |c'| <= k {
      CaptureLimit(s, p, |c'|);
      assert ClosesAfter(s, p, |c'|);
    }
  }

  /** The capture found at a position is a match there. */
  lemma CaptureAtMatches(s: string, i: nat)
    requires i <= |s| && CaptureAt(s, i).Some?
    ensures TitleAt(s, i, CaptureAt(s, i).value)
  {
    var p := i + |TitleOpen|;
    var e := LineEnd(s, p);
    var k := LongestCapture(s, p, e - p).value;
    var c := CaptureAt(s, i).value;
    assert c == s[p..p + k];
    assert NoLineTerminator(c) by {
      assert c == s[p..e][..k];
    }
  }

  /** A capture never crosses the first line terminator: every run free of
      line terminators from p ends at or before it. */
  lemma {:induction false} CaptureLimit(s: string, p: nat, n: nat)
    requires p + n <= |s| && NoLineTerminator(s[p..p + n])
    ensures p + n <= LineEnd(s, p)
    decreases n
  {
    if n > 0 {
      assert s[p] == s[p..p + n][0];
      assert s[p + 1..p + n] == s[p..p + n][1..];
      CaptureLimit(s, p + 1, n - 1);
    }
  }

  lemma CaptureAtComplete(s: string, i: nat, c: string)
    requires i <= |s| && TitleAt(s, i, c)
    ensures CaptureAt(s, i).Some?
  {
    var p := i + |TitleOpen|;
    CaptureLimit(s, p, |c|);
    assert ClosesAfter(s, p, |c|);
  }

  /** exec finds the leftmost start position at which the pattern matches,
      and there the longest capture; it finds nothing exactly when the pattern
      matches nowhere. The capture never contains a line terminator. */
  lemma {:induction false} FindTitleSpec(s: string, i: nat)
    requires i <= |s|
    ensures FindTitle(s, i).Some? ==> exists j: nat :: i <= j <= |s| && LeftmostLongest(s, i, j, FindTitle(s, i).value)
    ensures FindTitle(s, i).None? ==> forall j: nat, c :: i <= j <= |s| ==> !TitleAt(s, j, c)
    decreases |s| - i
  {
    match CaptureAt(s, i)
    case Some(c) =>
      CaptureAtSound(s, i);
      assert LeftmostLongest(s, i, i, c);
    case None =>
      forall c ensures !TitleAt(s, i, c) {
        if TitleAt(s, i, c) {
          CaptureAtComplete(s, i, c);
        }
      }
      if i < |s| {
        FindTitleSpec(s, i + 1);
        if FindTitle(s, i).Some? {
          var j :| i + 1 <= j <= |s| && LeftmostLongest(s, i + 1, j, FindTitle(s, i).value);
          assert LeftmostLongest(s, i, j, FindTitle(s, i).value);
        }
      }
  }

  /** `c` is captured at start j, no start from i up to j matches, and no
      longer capture matches at j. */
  ghost predicate LeftmostLongest(s: string, i: nat, j: nat, c: string) {
    TitleAt(s, j, c)
    && (forall j': nat, c' :: i <= j' < j ==> !TitleAt(s, j', c'))
    && (forall c' :: TitleAt(s, j, c') ==> |c'| <= |c|)
  }

  // ---------------------------------------------------------------------
  // Classification.

  /** The body: `response.content.toJSON()` succeeded, or it threw and the
      raw content is kept. */
  datatype Body = Parsed(json: JsValue) | Unparsable(text: string)

  /** What a successful request resolves to: the parsed JSON, or the raw
      content object (`response.content`). */
  datatype Payload = Json(value: JsValue) | Content(text: string)

  /** The ways a request is rejected: an `HTTPError` with its status and
      message, a TypeError thrown by a property read or call on `undefined`,
      or the `NoNetworkError` of a request made while offline. */
  datatype RequestError =
    | HttpError(statusCode: JsValue, message: JsValue)
    | TypeError
    | NoNetwork

  datatype Outcome = Resolved(payload: Payload) | Rejected(error: RequestError)

  /** `Math.round(status / 100)` for an integer status: the integer nearest
      to status / 100, halves rounding up. */
  function StatusClass(status: int): (r: int)
    ensures (r as real) - 0.5 <= (status as real) / 100.0 < (r as real) + 0.5
  {
    var r := (2 * status + 100) / 200;
    assert 200 * r <= 2 * status + 100 < 200 * r + 200;
    assert (r as real) * 200.0 <= 2.0 * (status as real) + 100.0 < (r as real) * 200.0 + 200.0;
    r
  }

  /** A status counts as success exactly from 150 to 249. */
  lemma SuccessRange(status: int)
    ensures StatusClass(status) == 2 <==> 150 <= status <= 249
  {
    if 150 <= status <= 249 {
      assert 400 <= 2 * status + 100 < 600;
    } else if status < 150 {
      assert 2 * status + 100 < 400;
    } else {
      assert 2 * status + 100 >= 600;
    }
  }

  /** The classification of a finished request: success resolves with the
      parsed JSON (or the raw content), anything else rejects. */
  function HandleRequestResponse(status: int, body: Body, retry: nat): (o: Outcome)
    ensures o.Resolved? <==> 150 <= status <= 249
    ensures o.Rejected? && body.Unparsable? ==> o.error.HttpError? && o.error.statusCode == Num(status as real)
    ensures o.Rejected? && body.Parsed? && !Truthy(body.json) ==> o == Rejected(TypeError)
  {
    SuccessRange(status);
    if StatusClass(status) == 2 then
      match body
      case Parsed(v) => Resolved(Json(if Truthy(v) then v else Undefined))
      case Unparsable(text) => Resolved(Content(text))
    else
      match body
      case Unparsable(text) =>
        var title := TitleCapture(text);
        Rejected(HttpError(Num(status as real), Str(if title.Some? then title.value else text)))
      case Parsed(v) =>
        // `content` is undefined here, so `content.toString()` throws
        if !Truthy(v) then Rejected(TypeError)
        else JsonError(status, retry, if v.Arr? then (if |v.items| > 0 then v.items[0] else Undefined) else v)
  }

  /** The rejection built from a JSON error body (already unwrapped from an
      array). A 401 whose `error` is 'invalid_grant' is handed to
      `handleRequestRetry`, as the code evidently intends (see
      `InvalidGrantAsWritten` for what line 260 does instead). */
  function JsonError(status: int, retry: nat, body: JsValue): (o: Outcome)
    ensures o.Rejected?
  {
    if body.Undefined? || body.Null? then Rejected(TypeError)
    else if status == 401 && Get(body, "error").value == Str("invalid_grant") then Rejected(HandleRequestRetry(retry))
    else
      var error := OrAll([Get(body, "error_description").value, Get(body, "error").value, body]);
      assert !(error.Undefined? || error.Null?) by {
        OrAllIsFirstTruthyOrLast([Get(body, "error_description").value, Get(body, "error").value, body]);
      }
      var statusCode := Or(Get(error, "code").value, Num(status as real));
      var message := OrAll(MessageChain(error));
      Rejected(HttpError(statusCode, message))
  }

  /** `error.error_description || error.form || error.message || error.error || error`. */
  function MessageChain(error: JsValue): (chain: seq<JsValue>)
    requires !(error.Undefined? || error.Null?)
    ensures |chain| == 5 && chain[4] == error
  {
    [Get(error, "error_description").value, Get(error, "form").value, Get(error, "message").value,
     Get(error, "error").value, error]
  }

  /** `handleRequestRetry` rejects with status 401 and message 'HTTP error',
      whatever the request and the retry count. */
  function HandleRequestRetry(retry: nat): (e: RequestError)
    ensures e.HttpError? && e.statusCode == Num(401.0) && e.message == Str("HTTP error")
  {
    HttpError(Num(401.0), Str("HTTP error"))
  }

  // ---------------------------------------------------------------------
  // Properties.

  /** A truthy string, number or boolean error body has none of the
      properties read at lines 263-266, so every `||` falls through to the
      value itself: it becomes the message, and the status is the response's. */
  lemma PrimitiveJsonError(status: int, v: JsValue, retry: nat)
    requires !(150 <= status <= 249) && Truthy(v) && (v.Str? || v.Num? || v.Bool?)
    ensures HandleRequestResponse(status, Parsed(v), retry) == Rejected(HttpError(Num(status as real), v))
  {
    SuccessRange(status);
    OrAllIsFirstTruthyOrLast([Get(v, "error_description").value, Get(v, "error").value, v]);
    OrAllIsFirstTruthyOrLast(MessageChain(v));
  }

  /** A response resolves exactly when its status is from 150 to 249; then
      the parsed JSON is returned if it is truthy, the raw content if the
      body did not parse, and undefined for a falsy JSON value. */
  lemma ResolvedIffSuccess(status: int, body: Body, retry: nat)
    ensures HandleRequestResponse(status, body, retry).Resolved? <==> 150 <= status <= 249
    ensures 150 <= status <= 249 ==>
      HandleRequestResponse(status, body, retry).payload ==
        match body
        case Parsed(v) => Json(if Truthy(v) then v else Undefined)
        case Unparsable(text) => Content(text)
  {
    SuccessRange(status);
  }

  /** A body that is not JSON is rejected with the response's status, and with
      the page's title as the message when it has one, the whole text otherwise. */
  lemma NonJsonError(status: int, text: string, retry: nat)
    requires !(150 <= status <= 249)
    ensures var o := HandleRequestResponse(status, Unparsable(text), retry);
            o.Rejected? && o.error.HttpError? && o.error.statusCode == Num(status as real)
    ensures var o := HandleRequestResponse(status, Unparsable(text), retry);
            TitleCapture(text).Some? ==> o.error.message == Str(TitleCapture(text).value)
    ensures var o := HandleRequestResponse(status, Unparsable(text), retry);
            (forall j: nat, c :: j <= |text| ==> !TitleAt(text, j, c)) ==> o.error.message == Str(text)
  {
    SuccessRange(status);
  }

  /** A falsy JSON error body (null, false, 0, "") makes the source throw a
      TypeError instead of an HTTPError. */
  lemma FalsyJsonErrorThrows(status: int, v: JsValue, retry: nat)
    requires !(150 <= status <= 249) && !Truthy(v)
    ensures HandleRequestResponse(status, Parsed(v), retry) == Rejected(TypeError)
  {
    SuccessRange(status);
  }

  /** An error body that is an array is answered as its first element would be. */
  lemma ArrayErrorUsesFirstElement(status: int, first: JsValue, rest: seq<JsValue>, retry: nat)
    requires !(150 <= status <= 249) && Truthy(first) && !first.Arr?
    ensures HandleRequestResponse(status, Parsed(Arr([first] + rest)), retry) == HandleRequestResponse(status, Parsed(first), retry)
  {
    SuccessRange(status);
  }

  /** For a JSON object error body: a 401 with `error: 'invalid_grant'` takes
      the retry branch and is rejected as `handleRequestRetry` rejects; otherwise the status is `error.code || statusCode`,
      with `error` the first truthy of `error_description`, `error` and the
      body, and the message is the first truthy of that value's
      `error_description`, `form`, `message` and `error`, or the value itself. */
  lemma JsonErrorChain(status: int, fields: seq<(string, JsValue)>, retry: nat)
    requires !(150 <= status <= 249)
    ensures var o := HandleRequestResponse(status, Parsed(Obj(fields)), retry);
            var body := Obj(fields);
            if status == 401 && Get(body, "error") == Some(Str("invalid_grant")) then o == Rejected(HandleRequestRetry(retry))
            else
              && o.Rejected? && o.error.HttpError?
              && exists error ::
                   && IsFirstTruthyOrLast([Get(body, "error_description").value, Get(body, "error").value, body], error)
                   && !(error.Undefined? || error.Null?)
                   && IsFirstTruthyOrLast([Get(error, "code").value, Num(status as real)], o.error.statusCode)
                   && IsFirstTruthyOrLast(MessageChain(error), o.error.message)
  {
    SuccessRange(status);
    var body := Obj(fields);
    if !(status == 401 && Get(body, "error") == Some(Str("invalid_grant"))) {
      var error := OrAll([Get(body, "error_description").value, Get(body, "error").value, body]);
      OrAllIsFirstTruthyOrLast([Get(body, "error_description").value, Get(body, "error").value, body]);
      var o := HandleRequestResponse(status, Parsed(body), retry);
      assert o.error.statusCode == OrAll([Get(error, "code").value, Num(status as real)]);
      OrAllIsFirstTruthyOrLast([Get(error, "code").value, Num(status as real)]);
      OrAllIsFirstTruthyOrLast(MessageChain(error));
    }
  }

  // ---------------------------------------------------------------------
  // Line 260 as written.

  /** Line 260 calls `this.handleRequestRetry(...)` from `handleRequestResponse`,
      a plain function called without a receiver in strict-mode module code,
      so `this` is undefined and reading the property throws. */
  function InvalidGrantAsWritten(retry: nat): (o: Outcome)
    ensures o == Rejected(TypeError)
  {
    var thisArg := JsValue.Undefined;
    match Get(thisArg, "handleRequestRetry")
    case None => Rejected(TypeError)
    case Some(_) => Rejected(HandleRequestRetry(retry))
  }

  /** A 401 answer `{"error": "invalid_grant"}` is evidently meant to end in
      `handleRequestRetry`'s HTTPError 401 'HTTP error'; as written it ends in
      a TypeError instead. */
  lemma InvalidGrantFinding(retry: nat)
    ensures var o := HandleRequestResponse(401, Parsed(Obj([("error", Str("invalid_grant"))])), retry);
            && o == Rejected(HttpError(Num(401.0), Str("HTTP error")))
            && InvalidGrantAsWritten(retry) != o
  {
    SuccessRange(401);
    var body := Obj([("error", Str("invalid_grant"))]);
    assert Get(body, "error") == Some(Str("invalid_grant"));
  }
}
