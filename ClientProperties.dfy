/** Properties of the client that relate several operations or pin down concrete URLs. */
module ClientProperties {
  import opened Wrappers
  import opened Sequences
  import opened JsRuntime
  import opened FormUrlEncoded
  import opened FortniteApi
  import Endpoints

  /**
   * The two encodings of `route` agree on a non-empty list of scalar parameters whose keys and
   * values need no escaping; on an empty list they differ (bare endpoint against a trailing `?`).
   */
  lemma RouteModesAgree(endpoint: string, params: Obj)
    requires |params| > 0
    requires forall i :: 0 <= i < |params| ==> !params[i].1.Arr?
    requires forall i :: 0 <= i < |params| ==> IsUnreservedString(params[i].0) && IsUnreservedString(ToString(params[i].1))
    ensures Client.Route(endpoint, params, true) == Client.Route(endpoint, params, false)
    ensures Client.Route(endpoint, [], true) != Client.Route(endpoint, [], false)
  {
    var a, b := ArrayPieces(params), Pieces(Entries(params));
    forall i | 0 <= i < |params| ensures a[i] == b[i] {
      SerializeUnreserved(params[i].0);
      SerializeUnreserved(ToString(params[i].1));
    }
    assert a == b;
    assert |Client.Route(endpoint, [], false)| == |endpoint| + 1;
  }

  /** Without a per-call language the instance's language is sent. */
  lemma DefaultLanguageUsed(c: Client, options: Obj)
    requires Get(options, "language").Undefined? || Get(options, "language").Null?
    ensures Sends(c.Cosmetics(options).url, CosmeticsEndpoint(Get(options, "cosmeticType")), [("language", c.language)])
    ensures Sends(c.ListCosmetics(options).url,
                  if Truthy(Get(options, "new")) then Endpoints.NewBRCosmetics else Endpoints.BRCosmetics,
                  [("language", c.language)])
    ensures Sends(c.BrShop(options).url,
                  if Truthy(Get(options, "combined")) then Endpoints.BRShopCombined else Endpoints.BRShop,
                  [("language", c.language)])
    ensures Sends(c.Banners(Undefined).url, Endpoints.Banners, [("language", c.language)])
    ensures Sends(c.Map(Undefined).url, Endpoints.Map, [("language", c.language)])
    ensures Sends(c.NewShop(Undefined).url, Endpoints.Shop, [("language", c.language)])
  {
  }

  /** A per-call language wins: two clients with any default languages build the same requests. */
  lemma PerCallLanguageWins(c1: Client, c2: Client, options: Obj, lang: string)
    requires Get(options, "language") == Str(lang)
    ensures c1.Cosmetics(options) == c2.Cosmetics(options)
    ensures c1.ListCosmetics(options) == c2.ListCosmetics(options)
    ensures c1.FindCosmetic(options) == c2.FindCosmetic(options)
    ensures c1.FilterCosmetics(options) == c2.FilterCosmetics(options)
    ensures c1.News(options) == c2.News(options)
    ensures c1.Playlists(options) == c2.Playlists(options)
    ensures c1.BrShop(options) == c2.BrShop(options)
  {
    assert c1.EffectiveLanguage(options) == c2.EffectiveLanguage(options) == Str(lang);
  }

  /** A language argument wins in the same way for the operations that take one directly. */
  lemma LanguageArgumentWins(c1: Client, c2: Client, lang: string)
    ensures c1.Banners(Str(lang)) == c2.Banners(Str(lang))
    ensures c1.Map(Str(lang)) == c2.Map(Str(lang))
    ensures c1.NewShop(Str(lang)) == c2.NewShop(Str(lang))
  {
  }

  /** How many entries carry key `k`. */
  function CountKey(pairs: seq<(string, string)>, k: string): nat
  {
    if |pairs| == 0 then 0 else (if pairs[0].0 == k then 1 else 0) + CountKey(pairs[1..], k)
  }

  lemma {:induction false} CountAbsent(o: Obj, k: string)
    requires !Has(o, k)
    ensures CountKey(Entries(o), k) == 0
  {
    if |o| > 0 {
      assert Keys(o) == [o[0].0] + Keys(o[1..]);
      assert Entries(o)[1..] == Entries(o[1..]);
      CountAbsent(o[1..], k);
    }
  }

  lemma {:induction false} CountPresent(o: Obj, k: string)
    requires IsObject(o) && Has(o, k)
    ensures CountKey(Entries(o), k) == 1
  {
    assert Keys(o) == [o[0].0] + Keys(o[1..]);
    assert Entries(o)[1..] == Entries(o[1..]);
    if o[0].0 == k {
      assert !Has(o[1..], k);
      CountAbsent(o[1..], k);
    } else {
      CountPresent(o[1..], k);
    }
  }

  /**
   * A search by options sends every option the caller gave, in its place, and `language` exactly
   * once, with the effective language.
   */
  lemma SearchQuery(c: Client, options: Obj)
    requires IsObject(options)
    ensures var q := Entries(SetProp(options, "language", c.EffectiveLanguage(options)));
      && CountKey(q, "language") == 1
      && (forall i :: 0 <= i < |options| && options[i].0 != "language" ==> q[i] == Entries(options)[i])
      && (forall i :: 0 <= i < |q| && q[i].0 == "language" ==> q[i].1 == ToString(c.EffectiveLanguage(options)))
  {
    var o := SetProp(options, "language", c.EffectiveLanguage(options));
    CountPresent(o, "language");
  }

  /** Looking a cosmetic up by an id without `$` requests `…/cosmetics/br/<id>?language=…`. */
  lemma FindCosmeticById(c: Client, options: Obj, id: string)
    requires Get(options, "id") == Str(id) && '$' !in id
    ensures Sends(c.FindCosmetic(options).url, CosmeticsByIdPrefix + id,
                  [("language", ToString(c.EffectiveLanguage(options)))])
  {
    CosmeticIdTemplate(id);
  }

  /** Looking a playlist up by an id without `$` requests `…/playlists/<id>?language=…`. */
  lemma PlaylistById(c: Client, options: Obj, id: string)
    requires Get(options, "id") == Str(id) && '$' !in id
    ensures Sends(c.Playlists(options).url, PlaylistByIdPrefix + id,
                  [("language", ToString(c.EffectiveLanguage(options)))])
  {
    PlaylistIdTemplate(id);
  }

  lemma TwoIdsQuery()
    ensures ArrayQuery([("id", Arr(["a", "b"])), ("language", Str("en"))]) == "id=a&id=b&language=en"
  {
    assert "id" + "=" + "a" == "id=a" && "id" + "=" + "b" == "id=b";
    assert KeyValues("id", ["a", "b"]) == ["id=a", "id=b"];
    assert Join(["id=a", "id=b"], '&') == "id=a&id=b";
    assert ArrayPiece("id", Arr(["a", "b"])) == "id=a&id=b";
    assert ArrayPiece("language", Str("en")) == "language" + "=" + "en" == "language=en";
    assert ArrayPieces([("id", Arr(["a", "b"])), ("language", Str("en"))]) == ["id=a&id=b", "language=en"];
  }

  lemma NoIdsQuery()
    ensures ArrayQuery([("id", Arr([])), ("language", Str("en"))]) == "&language=en"
  {
    assert ArrayPiece("id", Arr([])) == "";
    assert ArrayPiece("language", Str("en")) == "language" + "=" + "en" == "language=en";
    assert ArrayPieces([("id", Arr([])), ("language", Str("en"))]) == ["", "language=en"];
  }

  /** Filtering by the ids `a` and `b` for an English client: the id is repeated, in order. */
  lemma FilterTwoIds(c: Client, options: Obj)
    requires c.language == "en" && Get(options, "language").Undefined?
    requires Get(options, "id") == Arr(["a", "b"])
    ensures c.FilterCosmetics(options).url
         == Endpoints.CosmeticsSearchByIds + "?" + "id=a&id=b&language=en"
  {
    TwoIdsQuery();
  }

  /** An empty id list still produces its (empty) piece, so the query starts with `&`. */
  lemma FilterNoIds(c: Client, options: Obj)
    requires c.language == "en" && Get(options, "language").Undefined?
    requires Get(options, "id") == Arr([])
    ensures c.FilterCosmetics(options).url
         == Endpoints.CosmeticsSearchByIds + "?" + "&language=en"
  {
    NoIdsQuery();
  }

  /** An error body built from an error gives that error back. */
  lemma ErrorRoundTrip<D>(c: Client, request: Request, e: FortniteAPIError)
    requires e.name == "FortniteAPIError" && e.route == request.url
    ensures c.Fetch(request, ErrorBody<D>(e)).outcome == Rejected(e)
  {
  }

  /** The `error` key decides, not `status`. */
  lemma ErrorKeyDecides<D>(c: Client, request: Request, data: D, message: string)
    ensures c.Fetch(request, Body(Some(404), None, Some(data))).outcome == Resolved(Some(data))
    ensures c.Fetch(request, Body(Some(200), Some(message), Some(data))).outcome.Rejected?
    ensures c.Fetch<D>(request, Body(None, Some(message), None)).outcome.error.code == None
  {
  }
}
