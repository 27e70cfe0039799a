# ns-forecastie: the API service layer, modelled in Dafny

This project models the core of `app/services/api.ts` of the ns-forecastie
weather app:

- how request URLs are built (`queryString`);
- the default parameter objects that `fetchOWM` and `getDarkSkyWeather` send;
- the request pre-flight (`request` before the HTTP call, `getRequestHeaders`);
- how an HTTP response becomes a resolved value or a rejection
  (`handleRequestResponse`, `handleRequestRetry`);
- the connectivity observable `NetworkService`;
- the wind-direction icon (`windIcon`, `cardinals`) and `isDayTime`;
- the reshaping of a Dark Sky forecast: hourly records are distributed over
  the daily records (`getDarkSkyWeather`);
- the Photon geocoder's feature-to-place mapping (`photonSearch`).

Modules, one per file:

| file | module | contents |
|---|---|---|
| `js_values.dfy` | `JsValues` | JavaScript values, truthiness, `\|\|`, property reads that throw on `undefined`/`null`, insertion-ordered objects |
| `uri_text.dfy` | `UriText` | `split`/`join` on delimiter sets, `encodeURIComponent` (UTF-8 percent-encoding) |
| `query_string.dfy` | `QueryStrings`, `QueryStringProperties`, `QueryStringExample` | the URL builder as a method, its specification function, its properties and a worked example |
| `request_params.dfy` | `RequestParams` | object spread and the two default-then-override parameter objects |
| `requests.dfy` | `Requests` | `getRequestHeaders` and the pre-flight of `request` on a mutable options object |
| `responses.dfy` | `Responses` | the `<title>` regular expression, `Math.round(status / 100)`, the rejection chains, `handleRequestRetry` |
| `network.dfy` | `Network` | the `NetworkService` class with a ghost log of the events it notifies |
| `wind_icon.dfy` | `WindIcons` | the `cardinals` table and `windIcon`, with JavaScript's `%` and `Math.round` |
| `local_time.dfy` | `LocalTime` | local day arithmetic at a fixed UTC offset (`startOf('d')`, `endOf('d')`, `get('h')`), `isDayTime` |
| `forecast.dfy` | `Forecast` | the in-place reshaping of the forecast (`DarkSkyResult` with an `array` of daily records) |
| `photon.dfy` | `Photon` | `photonSearch`'s query and result mapping |

Where the code is imperative, the model is too:

- `queryString`'s loops are methods with loop invariants.
- The forecast reshaping works in place on an `array<Daily>`.
- `NetworkService` is a class whose setters update its fields.
- The options object of `request` is a class whose fields the pre-flight
  rewrites.

Each of these is proved against a specification function, and the
properties are proved about that function.

Two behaviours of the code that are easy to misread:

- **The last step of `queryString` (line 104).** `parts.splice(0, 2)`
  returns the first two fragments, and they are joined with `?`. They are
  not discarded. The result is the first fragment, then `?` and every other
  fragment joined by `&` (`QueryStrings.Assemble`).
- **The wind icon for a bearing of 0.** `windIcon` adds 180 before the
  lookup, so a bearing of 0 gives `wi-wind-south` and 180 gives
  `wi-wind-north` (`WindIcons.ReferenceBearings`).

## Model

| member | source | states |
|---|---|---|
| `JsValues.Or` | app/services/api.ts:262 | `a \|\| b` is `a` when `a` is truthy and `b` otherwise |
| `JsValues.OrAllIsFirstTruthyOrLast` | app/services/api.ts:262-266 | an `\|\|` chain yields its first truthy operand, or its last operand when none is truthy |
| `JsValues.Put` | app/services/api.ts:93-95 | `obj[k] = v` keeps an existing key's position and appends a new key; `k` maps to `v` and no other key changes |
| `JsValues.PutKeepsKeysDistinct` | app/services/api.ts:93-95 | assigning a property never creates a duplicate key |
| `JsValues.Delete` | app/services/api.ts:90 | `delete obj[k]` removes `k` and nothing else, and does nothing when `k` is absent |
| `JsValues.Get` | app/services/api.ts:259-266 | a property read throws exactly on `undefined` and `null`; an object yields its own property, or `undefined` when it has none, and other values yield `undefined` |
| `UriText.SplitOn` | app/services/api.ts:60 | `split` gives at least one piece, and no piece contains a delimiter |
| `UriText.JoinSplit` | app/services/api.ts:104 | joining with a delimiter undoes splitting on it |
| `UriText.SplitJoin` | app/services/api.ts:104 | splitting undoes joining when no part contains a delimiter |
| `UriText.EncodeURIComponent` | app/services/api.ts:93-95 | the encoding is at least as long as its input, and every character of it is unreserved, `%` or an upper-case hexadecimal digit |
| `UriText.EncodedHasNoQueryDelimiters` | app/services/api.ts:93-95 | an encoded value never contains `&`, `=`, `?` or `#` |
| `UriText.EncodeUnreservedIdentity` | app/services/api.ts:93-95 | a string of unreserved characters encodes to itself |
| `UriText.EncodeAppend` | app/services/api.ts:93-95 | encoding distributes over concatenation |
| `QueryStrings.NormalizeFragment` | app/services/api.ts:65-73 | a kept fragment is non-empty and does not start with `=` |
| `QueryStrings.LocationFragments` | app/services/api.ts:60-74 | the loop over the URL's pieces computes the normalised fragments of the URL, in order |
| `QueryStrings.PushArrayParams` | app/services/api.ts:75-85 | an array parameter appends its strings and its `k=v` pairs, in order, and ignores other items |
| `QueryStrings.PushObjectParams` | app/services/api.ts:86-101 | the two loops over an object parameter append `key=encoded value` for each defined field, in field order |
| `QueryStrings.QueryString` | app/services/api.ts:51-105 | the builder returns `QueryStringSpec`'s URL: the URL's fragments, then the parameter fragments, assembled as at line 104 |
| `QueryStringProperties.NormalizeFragmentCases` | app/services/api.ts:65-73 | a bare key and `k=v` are kept, `k=` and `k==w` become `k`, a second `=` and what follows are dropped, and an empty piece or an empty key is dropped |
| `QueryStrings.Assemble` | app/services/api.ts:104 | the splice-and-join of the collected fragments gives the first fragment, then `?`, then the rest joined by `&`; nothing is dropped, and one fragment comes back unchanged |
| `QueryStringProperties.ObjectFragmentsInOrder` | app/services/api.ts:86-101 | there is one fragment per defined field, and the field at index j gives the fragment at position "defined fields before j" |
| `QueryStringProperties.ObjectFragmentsOrigin` | app/services/api.ts:86-101 | every fragment comes from a defined field |
| `QueryStringProperties.UndefinedKeysAbsent` | app/services/api.ts:89-90 | no fragment carries the key of a field whose value is `undefined` |
| `QueryStringProperties.QueryStringSplit` | app/services/api.ts:51-105 | splitting the produced URL at `?` and `&` gives back exactly the URL's fragments followed by the parameter fragments |
| `QueryStringProperties.QueryStringIdempotent` | app/services/api.ts:51-105 | running the builder with parameters that contribute nothing (a number, a boolean or `null`) on its own output returns that output unchanged |
| `QueryStringExample.WorkedExample` | app/services/api.ts:51-105 | `url?z=1` with `{a: "1", b: undefined}` gives `url?z=1&a=1`: the URL's own parameter first, the defined field appended with `&`, the undefined one skipped |
| `QueryStringExample.ObjectExample` | app/services/api.ts:51-105 | adding an object-valued field `c` to that example appends `&c=` and the percent-encoded JSON text of `c`, whatever that text is |
| `QueryStringExample.JsonEncoding` | app/services/api.ts:93-95 | `encodeURIComponent('{"x":1}')` is `%7B%22x%22%3A1%7D` |
| `RequestParams.Spread` | app/services/api.ts:461-465 | `{...target, ...source}`: a key of `source` takes its value from `source`, and any other key keeps its `target` value |
| `RequestParams.SpreadShape` | app/services/api.ts:461-465 | the spread result is at least as long as `target`, `target`'s keys keep their order at the front, and distinct keys stay distinct |
| `RequestParams.OwmParams` | app/services/api.ts:325-329 | `lang` and `appid` come first, with their defaults unless the caller overrides them; every other key is the caller's |
| `RequestParams.DarkSkyParams` | app/services/api.ts:461-465 | `lang` and `units` (default `'ca'`) come first, with their defaults unless the caller overrides them; every other key is the caller's |
| `RequestParams.WithDefaults` | app/services/api.ts:325-329 | object spread over two defaults: the keys stay distinct, the defaults keep the first two places, an own property of the caller overrides its default, and every other key is the caller's |
| `RequestParams.UndefinedOverrideDropsDefault` | app/services/api.ts:325-329 | a caller's `appid: undefined` removes the API key from the query altogether |
| `Requests.GetRequestHeaders` | app/services/api.ts:290-297 | a missing or empty `Content-Type` becomes `application/json`, a non-empty one is kept, all other headers are kept, and missing headers start from an empty object |
| `Requests.HeadersIdempotent` | app/services/api.ts:290-297 | the result always has a non-empty `Content-Type`, and applying the function again changes nothing |
| `Requests.ExplicitContentTypeKept` | app/services/api.ts:292-294 | headers with a non-empty `Content-Type` are returned unchanged |
| `Requests.Preflight` | app/services/api.ts:298-306 | offline, it rejects with `NoNetworkError` and changes nothing; online, truthy `queryParams` are folded into the URL and removed, falsy or absent ones leave both the URL and `queryParams` as they were, and the headers are defaulted |
| `Responses.LongestCapture` | app/services/api.ts:245 | the greedy `(.*)` takes the longest capture followed by `\n*</title>` |
| `Responses.CaptureAtSound` | app/services/api.ts:245 | a capture found at a position is a match of `<title>(.*)\n*</title>` there, and it is at least as long as the capture of any match there |
| `Responses.CaptureAtComplete` | app/services/api.ts:245 | when the regular expression matches at a position, a capture is found there |
| `Responses.FindTitleSpec` | app/services/api.ts:245 | the search returns the leftmost match, with its longest capture |
| `Responses.TitleCapture` | app/services/api.ts:245 | `exec` of `/<title>(.*)\n*<\/title>/` yields the leftmost-longest capture, which contains no line terminator, and yields nothing exactly when the pattern matches nowhere |
| `Responses.StatusClass` | app/services/api.ts:236 | the integer formula is `Math.round(status / 100)`: within one half of status / 100, halves rounding up |
| `Responses.SuccessRange` | app/services/api.ts:236 | the rounded status is 2 exactly for 150 to 249 |
| `Responses.ResolvedIffSuccess` | app/services/api.ts:222-272 | a response resolves exactly when its status is 150 to 249, with the truthy JSON, `undefined` for falsy JSON, or the raw content when it is not JSON |
| `Responses.HandleRequestResponse` | app/services/api.ts:222-272 | a response resolves exactly when its status is 150 to 249; a rejected non-JSON body is an HTTP error carrying the response status; a rejected falsy JSON body throws a TypeError |
| `Responses.NonJsonError` | app/services/api.ts:238-253 | a non-JSON error body rejects with the status and with the page title as message, or the whole text when there is no title |
| `Responses.FalsyJsonErrorThrows` | app/services/api.ts:238-253 | a falsy JSON error body ends in a TypeError because `content` is undefined |
| `Responses.ArrayErrorUsesFirstElement` | app/services/api.ts:256-258 | an array error body is treated as its first element |
| `Responses.JsonError` | app/services/api.ts:259-268 | every JSON error body is rejected |
| `Responses.MessageChain` | app/services/api.ts:266 | the message chain has five operands, and the last is the error value itself |
| `Responses.JsonErrorChain` | app/services/api.ts:259-268 | a 401 `invalid_grant` goes to the retry rejection; otherwise `error` is the first truthy of `error_description`, `error` and the body, the status is `error.code \|\| statusCode`, and the message is the first truthy of the five-operand chain |
| `Responses.PrimitiveJsonError` | app/services/api.ts:259-268 | a truthy string, number or boolean error body is rejected as an HTTP error whose status is the response's and whose message is the value itself |
| `Responses.HandleRequestRetry` | app/services/api.ts:214-220 | rejects with status 401 and message `'HTTP error'`, whatever the retry count |
| `Responses.InvalidGrantAsWritten` | app/services/api.ts:259-261 | as written, the `invalid_grant` branch ends in a TypeError |
| `Responses.InvalidGrantFinding` | app/services/api.ts:259-261 | a 401 `{"error": "invalid_grant"}` is meant to end in HTTPError 401 `'HTTP error'`, which differs from the as-written outcome |
| `Network.NetworkService.constructor` | app/services/api.ts:159-161 | a new service has type none, is disconnected, is not monitoring and has notified nothing |
| `Network.NetworkService.SetConnected` | app/services/api.ts:165-177 | the setter stores the value and notifies `NetworkConnectionStateEvent`, with the current type, only when the value changes |
| `Network.NetworkService.SetConnectionType` | app/services/api.ts:181-187 | on a change it stores the type, sets `connected` to "type is not none", then notifies `'connection'`; otherwise nothing happens |
| `Network.NetworkService.Start` | app/services/api.ts:192-199 | it does nothing when already monitoring; otherwise it sets `monitoring` and takes the platform's type |
| `Network.NetworkService.Stop` | app/services/api.ts:200-206 | it clears `monitoring`, notifies nothing and keeps the connection state |
| `Network.NetworkService.OnConnectionStateChange` | app/services/api.ts:207-209 | a platform callback is the `connectionType` setter |
| `Network.SettersNotifyOnlyOnChange` | app/services/api.ts:165-187 | assigning the current value changes nothing and notifies nothing; any other value is stored and notified |
| `Network.TypeChangeDerivesConnected` | app/services/api.ts:181-187 | a type change leaves `connected == (type != none)`; the state event comes first exactly when `connected` flips, then one `'connection'` event follows |
| `Network.SettersIdempotent` | app/services/api.ts:165-187 | setting the same value twice is the same as setting it once |
| `Network.StartStopIdempotent` | app/services/api.ts:192-206 | a second `start` or `stop` changes nothing and notifies nothing |
| `Network.EventsCountChanges` | app/services/api.ts:165-187 | over any series of platform callbacks, one state event is notified per flip of `connected` and one `'connection'` event per change of type, and the state stays consistent with the last type |
| `Network.StartWithoutConnection` | app/services/api.ts:192-199 | starting while the platform reports no connection notifies nothing |
| `WindIcons.JsRem` | app/services/api.ts:455 | JavaScript's `%` lies strictly between `-n` and `n`, agrees with the mathematical remainder for non-negative operands, and for a negative dividend is non-positive and differs from it by a multiple of `n` |
| `WindIcons.WindIcon` | app/services/api.ts:453-456 | an icon exists exactly when the rounded index is 0 to 8, and it is then the table's entry at that index |
| `WindIcons.RoundIsNearest` | app/services/api.ts:455 | the integer index formula is `Math.round(r / 45)` |
| `WindIcons.IndexInTable` | app/services/api.ts:453-456 | every bearing from -180 up gives an index from 0 to 8, and so an icon |
| `WindIcons.NegativeBearingHasNoIcon` | app/services/api.ts:455 | a bearing of -300 gives a negative index and no icon |
| `WindIcons.DependsOnlyOnBearingMod360` | app/services/api.ts:454-456 | for a non-negative bearing the icon depends only on the bearing modulo 360 |
| `WindIcons.ReferenceBearings` | app/services/api.ts:453-456 | 180 gives north; 0, 45 and 359 give south; 90 gives west; 270 gives east |
| `WindIcons.NoSouthWestIcon` | app/services/api.ts:453 | the table lists south twice, so no bearing yields the south-west icon |
| `LocalTime.StartOfDay` | app/services/api.ts:503 | `startOf('d')` is local midnight: at or before the time, less than a day before it, on the same local day, a whole number of days from the zone's epoch, and one millisecond before it is the previous local day |
| `LocalTime.EndOfDay` | app/services/api.ts:489 | `endOf('d')` is the last millisecond of the same local day |
| `LocalTime.HourOf` | app/services/api.ts:42 | the local hour is 0 to 23 and is the hour of the local day that contains the instant |
| `LocalTime.StartsLaterDay` | app/services/api.ts:503-505 | `!startOf(h).isBefore(endOf(day))` holds exactly when `h` falls on a later local day |
| `LocalTime.IsDayTime` | app/services/api.ts:35-45 | with both sunrise and sunset, day time is strictly between them; otherwise it is the local window from 07:00 up to, but excluding, 20:00 |
| `Forecast.PrepareDays` | app/services/api.ts:470-476 | each daily record is scaled to milliseconds, gets its wind icon and an empty `hourly` list |
| `Forecast.PrepareHours` | app/services/api.ts:491-492 | each hourly record is scaled to milliseconds and gets its wind icon |
| `Forecast.Step` | app/services/api.ts:503-511 | one record keeps the lists well formed: every day has a list, the cursor names a day, and no list after the cursor has records |
| `Forecast.Bucket` | app/services/api.ts:490-512 | the distribution of a prefix of the records keeps the lists well formed |
| `Forecast.ReshapeSpec` | app/services/api.ts:469-514 | a result exists only with at least one day and an hourly block, and has one record per day |
| `Forecast.DarkSkyResult.constructor` | app/services/api.ts:458 | the payload object holds the given fields |
| `Forecast.ReshapeForecast` | app/services/api.ts:469-514 | the array is reshaped in place exactly as `ReshapeSpec` says, `hourly` is deleted and `currently.time` is scaled; it fails exactly where the source throws |
| `Forecast.PrepareDailyRecords` | app/services/api.ts:470-476 | the `forEach` over the days leaves each record prepared |
| `Forecast.DistributeHours` | app/services/api.ts:480-512 | the `forEach` over the hours fills each day's `hourly` with that day's list from `Bucket`, and fails exactly where `Bucket` does |
| `Forecast.PlaceHour` | app/services/api.ts:490-511 | one callback using the source's `startOf`/`dayEnd` test performs one `Step` of `Bucket` |
| `Forecast.BucketStaysFailed` | app/services/api.ts:507-510 | once a record runs past the last day, the whole distribution fails |
| `Forecast.CursorStep` | app/services/api.ts:503-509 | the cursor stays or advances by one; it advances exactly when the record is on a later local day; advancing past the last day fails |
| `Forecast.BucketPartition` | app/services/api.ts:490-512 | the day lists, concatenated in day order, are exactly the hourly records in order, apart from `index` |
| `Forecast.BucketIndices` | app/services/api.ts:510 | every record's `index` is its position in its day's list |
| `Forecast.BucketsByDay` | app/services/api.ts:490-512 | with days on consecutive dates and hours in time order that skip no day, the distribution succeeds and each day receives exactly the hours of its local day, numbered from 0 |
| `Forecast.ReshapeKeepsEveryHour` | app/services/api.ts:469-514 | after reshaping, the days' `hourly` lists together hold every prepared hourly record, in order |
| `Photon.At` | app/services/api.ts:536 | `coordinates[i]` is the number there, or `undefined` past the end |
| `Photon.ToPlace` | app/services/api.ts:533-537 | a place keeps the feature's properties as `sys`, takes its `name` property (or `undefined`), and reads a point `[lon, lat]` back as latitude from the second coordinate and longitude from the first |
| `Photon.PhotonPlaces` | app/services/api.ts:529-538 | one place per feature |
| `Photon.PlacesFollowFeatures` | app/services/api.ts:533-537 | place i comes from feature i: `sys` is the feature's properties, `name` is its `name`, `lat` is the second coordinate and `lon` the first |
| `Photon.PlacesAppend` | app/services/api.ts:533-537 | mapping preserves the order of the features |
| `Photon.PointRoundTrip` | app/services/api.ts:536 | a point `[lon, lat]` comes back in GeoJSON order |
| `Photon.PhotonParams` | app/services/api.ts:520-527 | the query object `{q, lat, lon, lang, limit: 40}` has distinct keys |
| `Photon.SearchWithoutPosition` | app/services/api.ts:520-527 | without a position the query carries only `q`, `lang` and `limit` |

## Left out

- HTTP transport, promises, `clog` logging and the request start time are
  not modelled. A response enters the model as a status and a body that
  either parsed as JSON or did not.
- The platform connectivity calls (`startMonitoring`, `stopMonitoring`,
  `getConnectionType`) are not modelled. The caller passes the connection
  type in. `notify` appends to a ghost event log, and the listeners are not
  modelled.
- Network.NetworkService.Stop: the call to `stopMonitoring` is not recorded,
  because the platform layer is not part of this model.
- Time zones and daylight saving time are not modelled. Local time is UTC
  plus a fixed offset in milliseconds (`LocalTime`).
- The `color` computed for each hourly record (lines 493-502) is not
  modelled: colour parsing and alpha come from outside this file.
- `JSON.stringify` is not modelled. An object parameter carries its JSON
  text (`ParamValue.Object`).
- `String(v)` for primitive parameters is not modelled. A primitive carries
  its text.
- The string-parameter branch of `queryString` (lines 55-58), which reads a
  parameter from a URL with a regular expression, is not modelled.
- QueryStrings.PushObjectParams: the `obj[key] === true` test at line 100
  is always false, because `obj` holds only encoded strings, so every entry
  is written as `key=value`.
- Numbers are reals and NaN is not modelled. Timestamps and bearings are
  integers.
- `requestParams` inside `HTTPError`, and the `CustomError` base class, are
  not modelled. A rejection carries only its status and message.
- Responses.HandleRequestResponse: `response.content` is modelled as its
  text. `toString()` of the content object is taken to be that text.
- `timeout`, `getString`, `TimeoutError`, `fetchOWM`'s and
  `getCityName`'s I/O, and commented-out code are not part of this model.
- `photonSearch` does not use its `queryParams` argument, so neither does
  the model. A response without `features`, or a feature without
  `geometry`, throws in the source; the model takes the features as given.
- Forecast.ReshapeForecast: `currently` is not modelled beyond its `time`
  field, and `minutly` is commented out in the source.
- `isDayTime` takes `dayjs` objects in the source. The model takes
  millisecond timestamps, and a missing sunrise or sunset is `None`.
- RequestParams.Spread: keys are assumed not to be array indices (`"0"`,
  `"42"`). JavaScript lists such keys first, in ascending order, in an object
  spread and in `for...in`, so for a caller's key like `"0"` the source sends
  it before `lang`. The model keeps insertion order throughout, so the
  "defaults come first" clauses of `RequestParams.WithDefaults`,
  `RequestParams.OwmParams` and `RequestParams.DarkSkyParams` hold only when
  no key of the caller is an array index. Which value each key gets does not depend on this.
- Strings are sequences of Unicode scalar values, not UTF-16 code units. A
  lone surrogate cannot be written, so the URIError that `encodeURIComponent`
  throws on one (lines 93-95) is not modelled.
- Requests.GetRequestHeaders: the source sets `Content-Type` on the caller's
  own `headers` object and returns that same object. The model builds a new
  dictionary, so the caller does not see the change through its own
  reference.
- A forecast payload without `daily.data`, or with an `hourly` block without
  `data`, throws at lines 470 and 490. The forecast types always carry these
  lists, so these TypeErrors are not modelled. A missing `hourly` block is
  modelled.

## Findings

| source | as written | input that shows it | evidently intended | confidence | as-written member | corrected member |
|---|---|---|---|---|---|---|
| app/services/api.ts:259-261 | `this.handleRequestRetry(requestParams, retry)` inside the plain function `handleRequestResponse`, which is called without a receiver in strict-mode module code. `this` is undefined, so the property read throws a TypeError | status 401 with the body `{"error": "invalid_grant"}` | call `handleRequestRetry`, which rejects with HTTPError 401 `'HTTP error'` | not executed; high, assuming the module is compiled as strict-mode code | `Responses.InvalidGrantAsWritten` | `Responses.JsonError` |
