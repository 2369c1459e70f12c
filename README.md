# Fortnite-API client — a Dafny model

This project models the `Client` class of the Fortnite-API TypeScript client (`src/index.ts`)
and the table of endpoint URLs it uses (`src/endpoints.ts`). For every public operation, the
model builds the request the client would send: the URL, with its endpoint and query string,
and whether the API key goes in the `Authorization` header. `fetch` is modelled after the
network round trip: given the JSON body the server answered, it decides whether the call
resolves with the body's `data` or rejects with a `FortniteAPIError`.

The request URL is stated through its meaning, not its spelling. The predicate
`FortniteApi.Sends(url, endpoint, pairs)` says that `url` is `endpoint`, then `?`, then a query
string that an `application/x-www-form-urlencoded` parser (as in the WHATWG URL Standard)
reads back as exactly `pairs`, in order, each key and value as its UTF-8 bytes. The serializer
and the parser are both modelled (`FormUrlEncoded`), and `FormUrlEncoded.ParseSerialize` proves
that parsing undoes serializing. So every operation's contract says which endpoint it calls and
which parameters it sends. This holds for any parameter values, including spaces, `&`, `=`,
`+` and non-ASCII text, with one exception: `filterCosmetics` with an `id` joins its query by
hand without escaping. For that case the contract states the exact URL for every input, and
states the parameters it sends only when no key or value contains `&`, `=`, `+` or `%`.

The JavaScript behaviour the client relies on is modelled in `JsRuntime`:
- an options object is an ordered list of own properties;
- `'k' in o` tests a key's presence, and reading an absent property gives `undefined`;
- `??`, truthiness, and `String(v)` for `undefined`, `null`, booleans, strings, arrays of strings and
  numbers that are safe integers (magnitude at most 2^53 - 1, which `String` prints as plain digits);
- the object spread `{ ...o, k: v }` keeps an existing key in its place and otherwise appends it;
- `String.prototype.replace` with a string pattern replaces the first occurrence and expands
  the `$$`, `$&`, `` $` `` and `$'` replacement patterns.

Module layout:
- `Wrappers`: `Option` and `Result`.
- `Sequences`: `Join`, `Split` and `IndexOf`, with the lemmas that relate them.
- `JsRuntime`: the JavaScript semantics listed above.
- `FormUrlEncoded`: UTF-8 encoding, the urlencoded serializer and parser, and their round trip.
- `Endpoints`: the endpoint URLs.
- `FortniteApi`: the error type, the `Client` class and its operations.
- `ClientProperties`: properties that relate several operations or pin down concrete URLs.

Where the code and the documented design differ, the model follows the code:
- A response is classified by whether its body has an `error` key, not by its `status`.
  A body with status 404 and no `error` resolves. A body with status 200 and an `error` rejects
  (`ClientProperties.ErrorKeyDecides`).
- `news` with a `mode` other than `br`, `stw` or `creative` does not fall back to all news.
  The lookup yields `undefined`, and the URL begins with the text `undefined`
  (`FortniteApi.NewsModeEndpoint`).
- `route` returns the bare endpoint for empty parameters only in array mode. In the default
  mode it returns the endpoint followed by a lone `?`, as `bannerColors` does.
- `filterCosmetics` with an empty `id` array still emits the array's empty piece, so the query
  starts with `&` (`ClientProperties.FilterNoIds`).

## Model

| member | source | states |
|---|---|---|
| FortniteApi.NewFortniteAPIError | src/index.ts:20-25 | The error is named `FortniteAPIError`. Its message is the body's `error`, its code is the body's `status`, and its route is the requested URL. Turning it back into a body gives the original status and error text. |
| FortniteApi.Client.constructor | src/index.ts:40-43 | The key is the given key, or null when none is given. The language is the given language, or `en` when none is given. |
| FortniteApi.Client.Route | src/index.ts:45-52 | In array mode with no parameters, the URL is the bare endpoint. In the default mode with no parameters, it is the endpoint followed by `?`. In every other case, it starts with the endpoint followed by `?`. |
| FortniteApi.Entries | src/index.ts:47 | `Object.entries` gives one entry per own property, in order, with each value converted by `String`. |
| JsRuntime.ToString | src/index.ts:47-51 | A number prints as decimal digits without a leading zero (zero prints as `0`), after a `-` when it is negative, and the digits read back as the number. A non-empty array of strings without commas prints as text that splits at `,` back into the elements. A string prints as itself. |
| FortniteApi.RouteDefaultSends | src/index.ts:46-47 | In the default mode, the URL sends exactly the parameters' entries, in order, with each value converted by `String`. |
| FortniteApi.RouteArraySends | src/index.ts:48-51 | In array mode, the URL sends each scalar parameter once and each element of an array parameter as a repeated key, in order. This holds when no key or value contains `&`, `=`, `+` or `%`. |
| FortniteApi.ParseArrayPiece | src/index.ts:51 | The hand-joined piece of one plain entry parses as the key once per array element, in order, or as the key with its `String` value for a scalar. |
| FortniteApi.ParseArrayPieces | src/index.ts:51 | The hand-joined pieces of plain entries parse as the entries with every array expanded in place. |
| ClientProperties.RouteModesAgree | src/index.ts:45-52 | For non-empty scalar parameters whose keys and values need no escaping, the two modes produce the same URL. For empty parameters, they differ. |
| FormUrlEncoded.ParseSerialize | src/index.ts:47 | Parsing the urlencoded serialization of any list of pairs gives back the same pairs, in order, as UTF-8 bytes. |
| FormUrlEncoded.SerializeUnreserved | src/index.ts:47 | A string made only of unreserved characters (letters, digits, `*`, `-`, `.` and `_`) serializes to itself. |
| FormUrlEncoded.Utf8CharDecodes | src/index.ts:47 | The UTF-8 encoding of every character decodes back to that character's code point. |
| JsRuntime.DecimalRoundTrip | src/index.ts:47 | The decimal text that `String` gives for a non-negative integer reads back as that integer. |
| FortniteApi.Client.Fetch | src/index.ts:53-57 | The `Authorization` header is sent exactly when the call asks for it and a key is set, and the header carries that key. The call rejects exactly when the body has an `error` key, with the body's status, message and the route. Otherwise it resolves with the body's `data`. |
| ClientProperties.ErrorRoundTrip | src/index.ts:53-57 | Fetching an error's own body rejects with that same error. |
| ClientProperties.ErrorKeyDecides | src/index.ts:55-56 | Status 404 without `error` resolves. Status 200 with `error` rejects. A missing status gives an error without a code. |
| FortniteApi.Client.Aes | src/index.ts:65-67 | Sends `keyFormat` (`hex` by default) to the AES endpoint, without the key. |
| FortniteApi.Client.Banners | src/index.ts:75-77 | Sends the given language, or the client's language, to the banners endpoint. |
| FortniteApi.Client.BannerColors | src/index.ts:83-85 | The URL is the banner-colors endpoint followed by a lone `?`, and it sends no parameters. |
| FortniteApi.CosmeticsEndpoint | src/index.ts:131-153 | The endpoint is all cosmetics exactly when `cosmeticType` is not one of the six listed strings. For `new`, `tracks`, `cars`, `instruments` and `lego`, it is the cosmetics endpoint followed by `/` and the type. |
| FortniteApi.Client.Cosmetics | src/index.ts:129-154 | Sends the effective language to the endpoint for `cosmeticType`: `new`, `tracks`, `cars`, `instruments`, `lego` or `legoKits`, or all cosmetics for any other value. |
| FortniteApi.Client.CreatorCode | src/index.ts:162-164 | Sends `name` to the creator-code endpoint. |
| FortniteApi.Client.ListCosmetics | src/index.ts:180-185 | Sends the effective language to the new-BR-cosmetics endpoint when `new` is truthy, and to the BR-cosmetics endpoint otherwise. |
| FortniteApi.Client.FindCosmetic | src/index.ts:192-199 | Without `id`, sends every option plus `language` to the search endpoint. With `id`, sends only the language to the by-id URL, which is built by `replace` on `{cosmetic-id}`. |
| ClientProperties.SearchQuery | src/index.ts:193-196 | The search query carries `language` exactly once, with the effective value. Every other option stays in its place. |
| ClientProperties.FindCosmeticById | src/index.ts:195-197 | For an id without `$`, the URL is the cosmetics-by-id prefix followed by the id, with a language-only query. |
| FortniteApi.Client.FilterCosmetics | src/index.ts:206-213 | Without `id`, sends every option plus `language` to the search-all endpoint. With `id`, the URL is the ids endpoint with `id` and `language` joined by hand. When the values are plain, that URL sends each id as a repeated `id` key, followed by `language`. |
| ClientProperties.FilterTwoIds | src/index.ts:206-213 | The ids `a` and `b` for an English client give `id=a&id=b&language=en`. |
| ClientProperties.FilterNoIds | src/index.ts:206-213 | An empty `id` array for an English client gives `&language=en`. |
| FortniteApi.Client.Map | src/index.ts:221-223 | Sends the given language, or the client's language, to the map endpoint. |
| FortniteApi.NewsModeEndpoint | src/index.ts:242-247 | The lookup yields `undefined` exactly when the mode is not `br`, `stw` or `creative`. For those three modes, it is the news endpoint followed by `/` and the mode. |
| FortniteApi.Client.News | src/index.ts:239-248 | Sends the effective language to all news when `mode` is undefined. Otherwise it sends it to the endpoint for that mode, which is `undefined` for an unknown mode. |
| FortniteApi.Client.Playlists | src/index.ts:264-269 | Sends the effective language to all playlists, or, with `id`, to the by-id URL built by `replace` on `{playlist-id}`. |
| ClientProperties.PlaylistById | src/index.ts:266-268 | For an id without `$`, the URL is the playlists prefix followed by the id, with a language-only query. |
| FortniteApi.Client.NewShop | src/index.ts:277-279 | Sends the given language, or the client's language, to the shop endpoint. |
| FortniteApi.Client.BrShop | src/index.ts:295-300 | Sends the effective language to the combined BR shop when `combined` is truthy, and to the BR shop otherwise. |
| FortniteApi.Client.Shop | src/index.ts:321-323 | The deprecated `shop` issues exactly the `brShop` request. |
| ClientProperties.DefaultLanguageUsed | src/index.ts:75-300 | With no per-call language, the client's language is sent by `cosmetics`, `listCosmetics`, `brShop`, `banners`, `map` and `newShop`. |
| ClientProperties.PerCallLanguageWins | src/index.ts:129-300 | With a per-call language, two clients with any default languages build identical requests for every operation that takes an options object with a language. |
| ClientProperties.LanguageArgumentWins | src/index.ts:75-279 | With a language argument, two clients with any default languages build identical requests for `banners`, `map` and `newShop`. |
| FortniteApi.Client.Stats | src/index.ts:333-354 | Without a key, the call fails with the missing-key error. With a key but no argument, it fails with the `TypeError` of the `in` operator. With options, the checks run in order: neither `name` nor `id`, then both, then `id` together with `accountType`. The call succeeds exactly when all pass, and then sends the key. By name, it sends every option to the stats endpoint. By id, it sends only `timeWindow` and `image` (each when defined, in that order) to the by-account-id URL. |
| FortniteApi.Client.StatsDefaulted | src/index.ts:325-336 | With the argument defaulting to `{}`, a call without options fails with the neither-name-nor-id error. Otherwise it keeps every promise `stats` makes for options. |
| FortniteApi.IdStatsEntries | src/index.ts:347-349 | The by-id query holds `timeWindow` and then `image`, each exactly when the option is defined, with its `String` value, and nothing else. |
| FortniteApi.MessagesDistinct | src/index.ts:334-340 | Each of the five `TypeError`s has its own message text. |
| FortniteApi.AccountIdTemplate | src/index.ts:350 | For an id without `$`, the by-account-id URL is the stats prefix followed by the id. |
| FortniteApi.CosmeticIdTemplate | src/index.ts:197 | For an id without `$`, the by-id cosmetic URL is the prefix followed by the id. |
| FortniteApi.PlaylistIdTemplate | src/index.ts:268 | For an id without `$`, the by-id playlist URL is the prefix followed by the id. |
| JsRuntime.FindFrom | src/index.ts:197 | The search returns the first position at or after the start where the pattern occurs, and none when it does not occur. |
| JsRuntime.Replace | src/index.ts:197 | Without an occurrence of the pattern, the text is unchanged. A replacement without `$` takes the place of the first occurrence. |
| JsRuntime.SubstitutionLiteral | src/index.ts:197 | A replacement template without `$` is inserted literally. |
| JsRuntime.ReplacePlaceholder | src/index.ts:197 | Replacing a placeholder whose first character does not occur before it, with a text without `$`, splices that text in its place. |
| JsRuntime.SetProp | src/index.ts:196 | After `{ ...o, k: v }`, `k` is present with value `v`. Every other key keeps its value. An existing `k` keeps its position, and a new one is appended. Distinct keys stay distinct. |

## Left out

- The transport of `fetch` is not modelled: the asynchronous HTTP request and `r.json()` are left out. The model starts from the parsed body. Network failures and malformed JSON are left out too.
- The `Authorization` header is modelled as the key itself. The rest of the request init object is not modelled.
- UTF-8 decoding in the parser is not modelled. The round trip is stated on the bytes the parser decodes, and `FormUrlEncoded.Utf8CharDecodes` covers each character's encoding separately.
- Lone surrogates are not modelled. Dafny characters are Unicode scalar values, so the USVString replacement with U+FFFD never arises.
- The URL parser that `fetch` runs on the final string is not modelled, including its own escaping of spaces, `#` and non-ASCII text in hand-joined array queries.
- Option values are modelled as `undefined`, `null`, booleans, safe integers, strings and arrays of strings. Nested objects, functions and symbols are left out, because the typed options never hold them.
- Numbers beyond the safe integers, and numbers with a fraction, are left out. `String` prints numbers of magnitude 10^21 or more in exponent form (`1e+21`), and fractions with a decimal point, and the number options of `findCosmetic` and `filterCosmetics` could carry such values. Every modelled number prints as plain digits.
- A call `stats(null)` is not modelled. It throws the same kind of `TypeError` as a call without an argument, with `null` in the text.
- `Object.entries` lists integer-like keys first. The model keeps insertion order for every key, because the options' keys are never integer-like.
- Inherited properties are not modelled. A `news` mode such as `toString` would find an `Object.prototype` member rather than `undefined`.
- FortniteApi.RouteArraySends: holds only for keys and values without `&`, `=`, `+` or `%`, because the hand-joined query does not escape them and the parser would split or decode them.
- FortniteApi.Client.FilterCosmetics: the parse statement holds only for plain values, for the same reason. The exact URL is stated for all inputs.
- `Endpoints.LEGOKits`: `src/index.ts:148` names an endpoint that is missing from `src/endpoints.ts`. The model gives it a stand-in URL, so in the source the `legoKits` case would call `undefined`.
- The TypeScript overloads, the option and response types (`src/types.ts`) and the deprecated endpoint aliases are left out. They add no runtime behaviour.
- The `TypeError` thrown by `stats` is modelled as a `StatsError` value. `FortniteApi.Message` gives each one's text; the text for a missing argument is the one the V8 engine gives, and other engines word it differently. The error's class and stack are not modelled.

## Findings

| source | as written | input that shows it | evidently intended | confidence | as-written member | corrected member |
|---|---|---|---|---|---|---|
| src/index.ts:326-336 | The overload `stats(options?)` allows a call without an argument, but the implementation gives `options` no default and applies `in` to it. | `client.stats()` on a client created with a key | The argument defaults to `{}`, as it does for `cosmetics`, `news`, `playlists` and `brShop`, so the call fails with the neither-name-nor-id error. | medium; not executed | FortniteApi.Client.Stats | FortniteApi.Client.StatsDefaulted |
