/**
 * The Fortnite-API client: how each operation turns the client's configuration and the caller's
 * options into a request URL, when the Authorization header is sent, and how a response body is
 * turned into data or a `FortniteAPIError`.
 */
module FortniteApi {
  import opened Wrappers
  import opened Sequences
  import opened JsRuntime
  import opened FormUrlEncoded
  import Endpoints

  /** The constructor's argument; `None` is an absent property. */
  datatype ClientOptions = ClientOptions(key: Option<string>, language: Option<string>)

  /** A GET request: its URL and whether the operation wants the Authorization header. */
  datatype Request = Request(url: string, authorization: bool)

  /** A parsed response body; `None` is an absent key. The payload type `D` is opaque. */
  datatype Body<D> = Body(status: Option<int>, error: Option<string>, data: Option<D>)

  /** A body that carries an `error` key. */
  datatype RawError = RawError(status: Option<int>, error: string)

  /** The error thrown for an error body; `code` is `None` when the body had no `status`. */
  datatype FortniteAPIError = FortniteAPIError(name: string, message: string, code: Option<int>, route: string)

  /** How the promise returned by a request settles. */
  datatype Settled<D> = Resolved(data: Option<D>) | Rejected(error: FortniteAPIError)

  /** The header sent with a request and how the request settles. */
  datatype Exchange<D> = Exchange(header: Option<string>, outcome: Settled<D>)

  /**
   * The `TypeError`s `stats` throws before building a request. `NoOptions` is the one the `in`
   * operator throws when `stats` is called without an argument.
   */
  datatype StatsError = MissingKey | NeitherNameNorId | NameAndId | IdAndAccountType | NoOptions

  const NoOptionsMessage := "Cannot use 'in' operator to search for 'name' in undefined"
  const MissingKeyMessage := "Client#stats() requires an authorization key passed into the Client constructor options. You may request one at https://dash.fortnite-api.com/account"
  const NeitherNameNorIdMessage := "Neither the \"name\" nor the \"id\" property of the Client#stats() argument were provided"
  const NameAndIdMessage := "The \"name\" and \"id\" properties of the Client#stats() argument are mutually exclusive"
  const IdAndAccountTypeMessage := "The \"id\" and \"accountType\" properties of the Client#stats() argument are mutually exclusive"

  /** The message of each `TypeError`; the `in` operator's text is the one V8 gives. */
  function Message(e: StatsError): string
  {
    match e
    case NoOptions => NoOptionsMessage
    case MissingKey => MissingKeyMessage
    case NeitherNameNorId => NeitherNameNorIdMessage
    case NameAndId => NameAndIdMessage
    case IdAndAccountType => IdAndAccountTypeMessage
  }

  /** The length of each message. */
  function MessageLength(e: StatsError): nat
  {
    match e
    case NoOptions => 58
    case MissingKey => 149
    case NeitherNameNorId => 85
    case NameAndId => 84
    case IdAndAccountType => 91
  }

  lemma MessageHasLength(e: StatsError)
    ensures |Message(e)| == MessageLength(e)
  {
    match e
    case NoOptions => assert |NoOptionsMessage| == 58;
    case MissingKey => assert |MissingKeyMessage| == 149;
    case NeitherNameNorId => assert |NeitherNameNorIdMessage| == 85;
    case NameAndId => assert |NameAndIdMessage| == 84;
    case IdAndAccountType => assert |IdAndAccountTypeMessage| == 91;
  }

  /** Each error has its own message, so a caller can tell the checks apart by the text alone. */
  lemma MessagesDistinct(e1: StatsError, e2: StatsError)
    requires e1 != e2
    ensures Message(e1) != Message(e2)
  {
    // The five texts have five different lengths.
    assert MessageLength(e1) != MessageLength(e2);
    MessageHasLength(e1);
    MessageHasLength(e2);
  }

  /** The error built from an error body and the URL that was requested. */
  function NewFortniteAPIError(raw: RawError, route: string): (e: FortniteAPIError)
    ensures e.name == "FortniteAPIError"
    ensures e.message == raw.error && e.code == raw.status && e.route == route
    ensures ErrorBody<int>(e) == Body(raw.status, Some(raw.error), None)
  {
    FortniteAPIError("FortniteAPIError", raw.error, raw.status, route)
  }

  /** The body a server sends for an error: the inverse of building the error. */
  function ErrorBody<D>(e: FortniteAPIError): Body<D>
  {
    Body(e.code, Some(e.message), None)
  }

  // ----- Query strings -----

  /** The URL is `endpoint?query` and the query parses to exactly these entries, in this order. */
  ghost predicate Sends(url: string, endpoint: string, pairs: seq<(string, string)>)
  {
    |endpoint| < |url| && url[..|endpoint|] == endpoint && url[|endpoint|] == '?'
    && Parse(url[|endpoint| + 1..]) == Utf8Pairs(pairs)
  }

  /** The entries `new URLSearchParams(Object.entries(params))` holds: every value as `String(v)`. */
  function Entries(params: Obj): (r: seq<(string, string)>)
    ensures |r| == |params|
    ensures forall i :: 0 <= i < |r| ==> r[i] == (params[i].0, ToString(params[i].1))
  {
    if |params| == 0 then [] else [(params[0].0, ToString(params[0].1))] + Entries(params[1..])
  }

  /** `key=v` for each element, in element order. */
  function KeyValues(key: string, vs: seq<string>): (r: seq<string>)
    ensures |r| == |vs|
    ensures forall i :: 0 <= i < |vs| ==> r[i] == key + "=" + vs[i]
  {
    if |vs| == 0 then [] else [key + "=" + vs[0]] + KeyValues(key, vs[1..])
  }

  /** One entry of a hand-joined query: an array expands to one `key=v` per element. */
  function ArrayPiece(key: string, value: JsValue): string
  {
    if value.Arr? then Join(KeyValues(key, value.elems), '&') else key + "=" + ToString(value)
  }

  function ArrayPieces(params: Obj): (r: seq<string>)
    ensures |r| == |params|
    ensures forall i :: 0 <= i < |r| ==> r[i] == ArrayPiece(params[i].0, params[i].1)
  {
    if |params| == 0 then [] else [ArrayPiece(params[0].0, params[0].1)] + ArrayPieces(params[1..])
  }

  /** The hand-joined query: the entries' pieces joined by `&`, without escaping. */
  function ArrayQuery(params: Obj): string
  {
    Join(ArrayPieces(params), '&')
  }

  /** The entries a hand-joined query stands for: the key repeated once per array element. */
  function Expanded(params: Obj): seq<(string, string)>
  {
    if |params| == 0 then []
    else
      var (k, v) := params[0];
      (if v.Arr? then KeyPairs(k, v.elems) else [(k, ToString(v))]) + Expanded(params[1..])
  }

  function KeyPairs(key: string, vs: seq<string>): (r: seq<(string, string)>)
    ensures |r| == |vs|
    ensures forall i :: 0 <= i < |vs| ==> r[i] == (key, vs[i])
  {
    if |vs| == 0 then [] else [(key, vs[0])] + KeyPairs(key, vs[1..])
  }

  /** A string that needs no escaping to survive hand-joining. */
  predicate IsPlain(s: string)
  {
    '&' !in s && '=' !in s && '+' !in s && '%' !in s
  }

  predicate PlainParams(params: Obj)
  {
    forall i :: 0 <= i < |params| ==> IsPlain(params[i].0) && PlainValue(params[i].1)
  }

  predicate PlainValue(v: JsValue)
  {
    if v.Arr? then forall j :: 0 <= j < |v.elems| ==> IsPlain(v.elems[j]) else IsPlain(ToString(v))
  }

  /** In the default mode the URL sends every entry of the parameters, in order. */
  lemma RouteDefaultSends(endpoint: string, params: Obj)
    ensures Sends(Client.Route(endpoint, params, false), endpoint, Entries(params))
  {
    var url := Client.Route(endpoint, params, false);
    assert url[|endpoint| + 1..] == SerializePairs(Entries(params));
    ParseSerialize(Entries(params));
  }

  lemma {:induction false} ParseKeyValues(key: string, vs: seq<string>)
    requires IsPlain(key)
    requires forall j :: 0 <= j < |vs| ==> IsPlain(vs[j])
    ensures ParsePieces(KeyValues(key, vs)) == Utf8Pairs(KeyPairs(key, vs))
  {
    if |vs| > 0 {
      ParsePieceAt(key, vs[0]);
      PercentDecodePlain(key);
      PercentDecodePlain(vs[0]);
      assert KeyValues(key, vs)[1..] == KeyValues(key, vs[1..]);
      ParseKeyValues(key, vs[1..]);
    }
  }

  lemma ParseArrayPiece(key: string, value: JsValue)
    requires IsPlain(key) && PlainValue(value)
    ensures ParsePieces(Split(ArrayPiece(key, value), '&'))
         == Utf8Pairs(if value.Arr? then KeyPairs(key, value.elems) else [(key, ToString(value))])
  {
    if value.Arr? {
      var kvs := KeyValues(key, value.elems);
      if |kvs| == 0 {
        assert Split(ArrayPiece(key, value), '&') == [[]];
      } else {
        forall i | 0 <= i < |kvs| ensures '&' !in kvs[i] {
          assert kvs[i] == key + "=" + value.elems[i];
        }
        SplitJoinInverse(kvs, '&');
        ParseKeyValues(key, value.elems);
      }
    } else {
      var p := key + "=" + ToString(value);
      SplitNoSeparator(p, '&');
      assert p != [];
      ParsePieceAt(key, ToString(value));
      PercentDecodePlain(key);
      PercentDecodePlain(ToString(value));
    }
  }

  lemma {:induction false} ParseArrayPieces(params: Obj)
    requires PlainParams(params)
    ensures ParsePieces(FlattenSplits(ArrayPieces(params), '&')) == Utf8Pairs(Expanded(params))
  {
    if |params| > 0 {
      var (k, v) := params[0];
      var ps := ArrayPieces(params);
      assert ps[1..] == ArrayPieces(params[1..]);
      ParsePiecesAppend(Split(ps[0], '&'), FlattenSplits(ps[1..], '&'));
      ParseArrayPiece(k, v);
      ParseArrayPieces(params[1..]);
      Utf8PairsAppend(if v.Arr? then KeyPairs(k, v.elems) else [(k, ToString(v))], Expanded(params[1..]));
    }
  }

  /** In array mode, plain parameters are sent with each array element under its own copy of the key. */
  lemma RouteArraySends(endpoint: string, params: Obj)
    requires |params| > 0 && PlainParams(params)
    ensures Sends(Client.Route(endpoint, params, true), endpoint, Expanded(params))
  {
    var url := Client.Route(endpoint, params, true);
    assert url[|endpoint| + 1..] == ArrayQuery(params);
    SplitJoin(ArrayPieces(params), '&');
    ParseArrayPieces(params);
  }

  /** A placeholder that ends its template and whose first character occurs nowhere before it. */
  lemma TemplateAppend(prefix: string, pat: string, id: string)
    requires |pat| > 0 && pat[0] !in prefix && '$' !in id
    ensures Replace(prefix + pat, pat, id) == prefix + id
  {
    ReplacePlaceholder(prefix, pat, "", id);
    assert prefix + pat + "" == prefix + pat;
    assert prefix + id + "" == prefix + id;
  }

  const CosmeticsByIdPrefix := "https://fortnite-api.com/v2/cosmetics/br/"
  const PlaylistByIdPrefix := "https://fortnite-api.com/v1/playlists/"
  const BRStatsByAccountIdPrefix := "https://fortnite-api.com/v2/stats/br/v2/"

  lemma CosmeticsByIdShape()
    ensures Endpoints.CosmeticsById == CosmeticsByIdPrefix + "{cosmetic-id}" && '{' !in CosmeticsByIdPrefix
  {
  }

  lemma PlaylistByIdShape()
    ensures Endpoints.PlaylistById == PlaylistByIdPrefix + "{playlist-id}" && '{' !in PlaylistByIdPrefix
  {
  }

  lemma BRStatsByAccountIdShape()
    ensures Endpoints.BRStatsByAccountId == BRStatsByAccountIdPrefix + "{accountId}" && '{' !in BRStatsByAccountIdPrefix
  {
  }

  /** `{cosmetic-id}` ends its template, so an id without `$` is appended to the prefix. */
  lemma CosmeticIdTemplate(id: string)
    requires '$' !in id
    ensures Replace(Endpoints.CosmeticsById, "{cosmetic-id}", id) == CosmeticsByIdPrefix + id
  {
    CosmeticsByIdShape();
    TemplateAppend(CosmeticsByIdPrefix, "{cosmetic-id}", id);
  }

  /** `{playlist-id}` ends its template, so an id without `$` is appended to the prefix. */
  lemma PlaylistIdTemplate(id: string)
    requires '$' !in id
    ensures Replace(Endpoints.PlaylistById, "{playlist-id}", id) == PlaylistByIdPrefix + id
  {
    PlaylistByIdShape();
    TemplateAppend(PlaylistByIdPrefix, "{playlist-id}", id);
  }

  /** `{accountId}` ends its template, so an id without `$` is appended to the prefix. */
  lemma AccountIdTemplate(id: string)
    requires '$' !in id
    ensures Replace(Endpoints.BRStatsByAccountId, "{accountId}", id) == BRStatsByAccountIdPrefix + id
  {
    BRStatsByAccountIdShape();
    TemplateAppend(BRStatsByAccountIdPrefix, "{accountId}", id);
  }

  lemma IdsQuerySends(id: JsValue, lang: JsValue)
    ensures PlainValue(id) && PlainValue(lang) ==>
      Sends(Client.Route(Endpoints.CosmeticsSearchByIds, [("id", id), ("language", lang)], true),
            Endpoints.CosmeticsSearchByIds, Expanded([("id", id), ("language", lang)]))
  {
    if PlainValue(id) && PlainValue(lang) {
      assert IsPlain("id") && IsPlain("language");
      PlainPair("id", id, "language", lang);
      RouteArraySends(Endpoints.CosmeticsSearchByIds, [("id", id), ("language", lang)]);
    }
  }

  lemma PlainPair(k1: string, v1: JsValue, k2: string, v2: JsValue)
    requires IsPlain(k1) && PlainValue(v1) && IsPlain(k2) && PlainValue(v2)
    ensures PlainParams([(k1, v1), (k2, v2)])
  {
    var params := [(k1, v1), (k2, v2)];
    assert params[0] == (k1, v1) && params[1] == (k2, v2);
  }

  // ----- Endpoint selection -----

  /** The cosmetic types the `cosmetics` switch lists. */
  const CosmeticTypes: seq<string> := ["new", "tracks", "cars", "instruments", "lego", "legoKits"]

  /**
   * The `cosmeticType` switch: strict equality with each listed type, else all cosmetics. Every type
   * but `legoKits` is the cosmetics endpoint followed by `/` and the type.
   */
  function CosmeticsEndpoint(cosmeticType: JsValue): (r: string)
    ensures r == Endpoints.Cosmetics <==> !(cosmeticType.Str? && cosmeticType.s in CosmeticTypes)
    ensures cosmeticType.Str? && cosmeticType.s in CosmeticTypes[..5] ==> r == Endpoints.Cosmetics + "/" + cosmeticType.s
  {
    if cosmeticType == Str("new") then Endpoints.NewAllCosmetics
    else if cosmeticType == Str("tracks") then Endpoints.Tracks
    else if cosmeticType == Str("cars") then Endpoints.Cars
    else if cosmeticType == Str("instruments") then Endpoints.Instruments
    else if cosmeticType == Str("lego") then Endpoints.LEGO
    else if cosmeticType == Str("legoKits") then Endpoints.LEGOKits
    else Endpoints.Cosmetics
  }

  /**
   * The lookup `{ br, stw, creative }[mode]`; another key reads `undefined`, which the URL template
   * prints as "undefined".
   */
  function NewsModeEndpoint(mode: string): (r: string)
    ensures r == "undefined" <==> mode !in ["br", "stw", "creative"]
    ensures mode in ["br", "stw", "creative"] ==> r == Endpoints.News + "/" + mode
  {
    if mode == "br" then Endpoints.BRNews
    else if mode == "stw" then Endpoints.STWNews
    else if mode == "creative" then Endpoints.CreativeNews
    else "undefined"
  }

  /** The query of a stats lookup by id: `timeWindow` then `image`, each only when defined. */
  function IdStatsEntries(options: Obj): (r: seq<(string, string)>)
    ensures |r| == (if Get(options, "timeWindow").Undefined? then 0 else 1) + (if Get(options, "image").Undefined? then 0 else 1)
    ensures !Get(options, "timeWindow").Undefined? ==> r[0] == ("timeWindow", ToString(Get(options, "timeWindow")))
    ensures !Get(options, "image").Undefined? ==> r[|r| - 1] == ("image", ToString(Get(options, "image")))
    ensures forall i :: 0 <= i < |r| ==> (r[i].0 == "timeWindow" || r[i].0 == "image")
  {
    var timeWindow, image := Get(options, "timeWindow"), Get(options, "image");
    (if timeWindow.Undefined? then [] else [("timeWindow", ToString(timeWindow))])
    + (if image.Undefined? then [] else [("image", ToString(image))])
  }

  class Client {
    /** The API key sent with `stats`; `None` is `null`. */
    const key: Option<string>
    /** The language used when an operation is given none. */
    const language: string

    constructor (options: ClientOptions)
      ensures key == options.key
      ensures language == options.language.GetOr("en")
    {
      key := options.key;
      language := options.language.GetOr("en");
    }

    /**
     * The URL for an endpoint and its parameters. By default the parameters are printed by
     * `URLSearchParams`; with `hasArray` they are joined by hand, arrays as repeated keys.
     */
    static function Route(endpoint: string, params: Obj, hasArray: bool): (url: string)
      ensures hasArray && |params| == 0 ==> url == endpoint
      ensures !hasArray && |params| == 0 ==> url == endpoint + "?"
      ensures !(hasArray && |params| == 0) ==> |endpoint| < |url| && url[..|endpoint| + 1] == endpoint + "?"
    {
      if !hasArray then endpoint + "?" + SerializePairs(Entries(params))
      else if |params| == 0 then endpoint
      else endpoint + "?" + ArrayQuery(params)
    }

    /**
     * The part of `fetch` after the transport: the header it sends and what it makes of the parsed
     * body. A body with an `error` key rejects, whatever its `status`; any other body resolves to
     * its `data`.
     */
    function Fetch<D>(request: Request, body: Body<D>): (x: Exchange<D>)
      ensures x.header.Some? <==> request.authorization && key.Some?
      ensures x.header.Some? ==> x.header == key
      ensures x.outcome.Rejected? <==> body.error.Some?
      ensures body.error.Some? ==> (x.outcome.error.code == body.status
                                    && x.outcome.error.message == body.error.value
                                    && x.outcome.error.route == request.url)
      ensures body.error.None? ==> x.outcome.data == body.data
    {
      var header := if request.authorization && key.Some? then key else None;
      var outcome :=
        if body.error.Some? then Rejected(NewFortniteAPIError(RawError(body.status, body.error.value), request.url))
        else Resolved(body.data);
      Exchange(header, outcome)
    }

    /** `options.language ?? this.language` */
    function EffectiveLanguage(options: Obj): JsValue
    {
      Coalesce(Get(options, "language"), Str(language))
    }

    /** A `language` argument that defaults to `this.language` when it is `undefined`. */
    function LanguageArg(arg: JsValue): string
    {
      if arg.Undefined? then language else ToString(arg)
    }

    function Aes(keyFormat: JsValue): (r: Request)
      ensures Sends(r.url, Endpoints.AES, [("keyFormat", if keyFormat.Undefined? then "hex" else ToString(keyFormat))])
      ensures !r.authorization
    {
      var params := [("keyFormat", if keyFormat.Undefined? then Str("hex") else keyFormat)];
      RouteDefaultSends(Endpoints.AES, params);
      Request(Route(Endpoints.AES, params, false), false)
    }

    function Banners(lang: JsValue): (r: Request)
      ensures Sends(r.url, Endpoints.Banners, [("language", LanguageArg(lang))])
      ensures !r.authorization
    {
      var params := [("language", if lang.Undefined? then Str(language) else lang)];
      RouteDefaultSends(Endpoints.Banners, params);
      Request(Route(Endpoints.Banners, params, false), false)
    }

    function BannerColors(): (r: Request)
      ensures r.url == Endpoints.BannerColors + "?"
      ensures Sends(r.url, Endpoints.BannerColors, [])
      ensures !r.authorization
    {
      RouteDefaultSends(Endpoints.BannerColors, []);
      Request(Route(Endpoints.BannerColors, [], false), false)
    }

    function Cosmetics(options: Obj): (r: Request)
      ensures Sends(r.url, CosmeticsEndpoint(Get(options, "cosmeticType")), [("language", ToString(EffectiveLanguage(options)))])
      ensures !r.authorization
    {
      var params := [("language", EffectiveLanguage(options))];
      var endpoint := CosmeticsEndpoint(Get(options, "cosmeticType"));
      RouteDefaultSends(endpoint, params);
      Request(Route(endpoint, params, false), false)
    }

    function CreatorCode(name: JsValue): (r: Request)
      ensures Sends(r.url, Endpoints.CreatorCode, [("name", ToString(name))])
      ensures !r.authorization
    {
      RouteDefaultSends(Endpoints.CreatorCode, [("name", name)]);
      Request(Route(Endpoints.CreatorCode, [("name", name)], false), false)
    }

    function ListCosmetics(options: Obj): (r: Request)
      ensures Sends(r.url, if Truthy(Get(options, "new")) then Endpoints.NewBRCosmetics else Endpoints.BRCosmetics,
                    [("language", ToString(EffectiveLanguage(options)))])
      ensures !r.authorization
    {
      var params := [("language", EffectiveLanguage(options))];
      var endpoint := if Truthy(Get(options, "new")) then Endpoints.NewBRCosmetics else Endpoints.BRCosmetics;
      RouteDefaultSends(endpoint, params);
      Request(Route(endpoint, params, false), false)
    }

    function FindCosmetic(options: Obj): (r: Request)
      ensures Get(options, "id").Undefined? ==>
        Sends(r.url, Endpoints.CosmeticsSearch, Entries(SetProp(options, "language", EffectiveLanguage(options))))
      ensures !Get(options, "id").Undefined? ==>
        Sends(r.url, Replace(Endpoints.CosmeticsById, "{cosmetic-id}", ToString(Get(options, "id"))),
              [("language", ToString(EffectiveLanguage(options)))])
      ensures !r.authorization
    {
      var lang := EffectiveLanguage(options);
      var id := Get(options, "id");
      if id.Undefined? then
        var params := SetProp(options, "language", lang);
        RouteDefaultSends(Endpoints.CosmeticsSearch, params);
        Request(Route(Endpoints.CosmeticsSearch, params, false), false)
      else
        var endpoint := Replace(Endpoints.CosmeticsById, "{cosmetic-id}", ToString(id));
        RouteDefaultSends(endpoint, [("language", lang)]);
        Request(Route(endpoint, [("language", lang)], false), false)
    }

    function FilterCosmetics(options: Obj): (r: Request)
      ensures Get(options, "id").Undefined? ==>
        Sends(r.url, Endpoints.CosmeticsSearchAll, Entries(SetProp(options, "language", EffectiveLanguage(options))))
      ensures !Get(options, "id").Undefined? ==>
        r.url == Endpoints.CosmeticsSearchByIds + "?" + ArrayQuery([("id", Get(options, "id")), ("language", EffectiveLanguage(options))])
      ensures !Get(options, "id").Undefined? && PlainValue(Get(options, "id")) && PlainValue(EffectiveLanguage(options)) ==>
        Sends(r.url, Endpoints.CosmeticsSearchByIds, Expanded([("id", Get(options, "id")), ("language", EffectiveLanguage(options))]))
      ensures !r.authorization
    {
      var lang := EffectiveLanguage(options);
      var id := Get(options, "id");
      if id.Undefined? then
        var params := SetProp(options, "language", lang);
        RouteDefaultSends(Endpoints.CosmeticsSearchAll, params);
        Request(Route(Endpoints.CosmeticsSearchAll, params, false), false)
      else
        var params := [("id", id), ("language", lang)];
        IdsQuerySends(id, lang);
        Request(Route(Endpoints.CosmeticsSearchByIds, params, true), false)
    }

    function Map(lang: JsValue): (r: Request)
      ensures Sends(r.url, Endpoints.Map, [("language", LanguageArg(lang))])
      ensures !r.authorization
    {
      var params := [("language", if lang.Undefined? then Str(language) else lang)];
      RouteDefaultSends(Endpoints.Map, params);
      Request(Route(Endpoints.Map, params, false), false)
    }

    function News(options: Obj): (r: Request)
      ensures Sends(r.url,
                    if Get(options, "mode").Undefined? then Endpoints.News else NewsModeEndpoint(ToString(Get(options, "mode"))),
                    [("language", ToString(EffectiveLanguage(options)))])
      ensures !r.authorization
    {
      var params := [("language", EffectiveLanguage(options))];
      var mode := Get(options, "mode");
      var endpoint := if mode.Undefined? then Endpoints.News else NewsModeEndpoint(ToString(mode));
      RouteDefaultSends(endpoint, params);
      Request(Route(endpoint, params, false), false)
    }

    function Playlists(options: Obj): (r: Request)
      ensures Sends(r.url,
                    if Get(options, "id").Undefined? then Endpoints.Playlists
                    else Replace(Endpoints.PlaylistById, "{playlist-id}", ToString(Get(options, "id"))),
                    [("language", ToString(EffectiveLanguage(options)))])
      ensures !r.authorization
    {
      var params := [("language", EffectiveLanguage(options))];
      var id := Get(options, "id");
      var endpoint := if id.Undefined? then Endpoints.Playlists else Replace(Endpoints.PlaylistById, "{playlist-id}", ToString(id));
      RouteDefaultSends(endpoint, params);
      Request(Route(endpoint, params, false), false)
    }

    function NewShop(lang: JsValue): (r: Request)
      ensures Sends(r.url, Endpoints.Shop, [("language", LanguageArg(lang))])
      ensures !r.authorization
    {
      var params := [("language", if lang.Undefined? then Str(language) else lang)];
      RouteDefaultSends(Endpoints.Shop, params);
      Request(Route(Endpoints.Shop, params, false), false)
    }

    function BrShop(options: Obj): (r: Request)
      ensures Sends(r.url, if Truthy(Get(options, "combined")) then Endpoints.BRShopCombined else Endpoints.BRShop,
                    [("language", ToString(EffectiveLanguage(options)))])
      ensures !r.authorization
    {
      var params := [("language", EffectiveLanguage(options))];
      var combined := Truthy(Get(options, "combined"));
      var endpoint := if combined then Endpoints.BRShopCombined else Endpoints.BRShop;
      RouteDefaultSends(endpoint, params);
      Request(Route(endpoint, params, false), false)
    }

    /** The deprecated name of `brShop`. */
    function Shop(options: Obj): (r: Request)
      ensures r == BrShop(options)
      ensures Sends(r.url, if Truthy(Get(options, "combined")) then Endpoints.BRShopCombined else Endpoints.BRShop,
                    [("language", ToString(EffectiveLanguage(options)))])
      ensures !r.authorization
    {
      BrShop(options)
    }

    /**
     * What `stats` promises for an options object: the checks in order (a key, then exactly one of
     * `name` and `id`, then no `accountType` beside `id`), success exactly when all pass, and the
     * request then built: by name with every option, by id with only `timeWindow` and `image`.
     */
    ghost predicate StatsSpec(options: Obj, r: Result<Request, StatsError>)
    {
      && (key.None? ==> r == Failure(MissingKey))
      && (key.Some? && !Has(options, "name") && !Has(options, "id") ==> r == Failure(NeitherNameNorId))
      && (key.Some? && Has(options, "name") && Has(options, "id") ==> r == Failure(NameAndId))
      && (key.Some? && !Has(options, "name") && Has(options, "id") && Has(options, "accountType")
          ==> r == Failure(IdAndAccountType))
      && (r.Success? <==> key.Some? && Has(options, "name") != Has(options, "id")
                          && !(Has(options, "id") && Has(options, "accountType")))
      && (r.Success? ==> r.value.authorization)
      && (r.Success? && Has(options, "name") ==> Sends(r.value.url, Endpoints.BRStats, Entries(options)))
      && (r.Success? && Has(options, "id") ==>
            Sends(r.value.url, Replace(Endpoints.BRStatsByAccountId, "{accountId}", ToString(Get(options, "id"))),
                  IdStatsEntries(options)))
    }

    /**
     * `stats` as written. Its argument has no default, so a call without one (which the overloads
     * allow) passes the key check and then fails at the first `in` with the operator's own
     * `TypeError` rather than one of the validation errors.
     */
    method Stats(options: Option<Obj>) returns (r: Result<Request, StatsError>)
      ensures key.None? ==> r == Failure(MissingKey)
      ensures key.Some? && options.None? ==> r == Failure(NoOptions)
      ensures options.Some? ==> StatsSpec(options.value, r)
    {
      if key.None? {
        return Failure(MissingKey);
      }
      if options.None? {
        return Failure(NoOptions);
      }
      var o := options.value;

      var hasName := Has(o, "name");
      var hasId := Has(o, "id");
      if !hasName && !hasId {
        return Failure(NeitherNameNorId);
      } else if hasName && hasId {
        return Failure(NameAndId);
      } else if hasId && Has(o, "accountType") {
        return Failure(IdAndAccountType);
      }

      var route: string;
      if hasName {
        route := Route(Endpoints.BRStats, o, false);
        RouteDefaultSends(Endpoints.BRStats, o);
      } else {
        var params: Obj := [];
        if !Get(o, "timeWindow").Undefined? {
          params := SetProp(params, "timeWindow", Get(o, "timeWindow"));
        }
        if !Get(o, "image").Undefined? {
          params := SetProp(params, "image", Get(o, "image"));
        }
        assert Entries(params) == IdStatsEntries(o);
        var endpoint := Replace(Endpoints.BRStatsByAccountId, "{accountId}", ToString(Get(o, "id")));
        route := Route(endpoint, params, false);
        RouteDefaultSends(endpoint, params);
      }
      r := Success(Request(route, true));
    }

    /**
     * `stats` with the argument defaulting to `{}`, as the other option-taking operations do: a call
     * without options reports that neither `name` nor `id` was given.
     */
    method StatsDefaulted(options: Option<Obj>) returns (r: Result<Request, StatsError>)
      ensures key.Some? && options.None? ==> r == Failure(NeitherNameNorId)
      ensures StatsSpec(options.GetOr([]), r)
    {
      r := Stats(Some(options.GetOr([])));
    }
  }
}
