/** The URL of every Fortnite-API endpoint the client calls; three hold a placeholder for an id. */
module Endpoints {
  const AES := "https://fortnite-api.com/v2/aes"

  const Banners := "https://fortnite-api.com/v1/banners"
  const BannerColors := "https://fortnite-api.com/v1/banners/colors"

  const Cosmetics := "https://fortnite-api.com/v2/cosmetics"
  const BRCosmetics := "https://fortnite-api.com/v2/cosmetics/br"
  const NewAllCosmetics := "https://fortnite-api.com/v2/cosmetics/new"
  const NewBRCosmetics := "https://fortnite-api.com/v2/cosmetics/br/new"
  const CosmeticsById := "https://fortnite-api.com/v2/cosmetics/br/{cosmetic-id}"
  const CosmeticsSearch := "https://fortnite-api.com/v2/cosmetics/br/search"
  const CosmeticsSearchAll := "https://fortnite-api.com/v2/cosmetics/br/search/all"
  const CosmeticsSearchByIds := "https://fortnite-api.com/v2/cosmetics/br/search/ids"
  const Tracks := "https://fortnite-api.com/v2/cosmetics/tracks"
  const Cars := "https://fortnite-api.com/v2/cosmetics/cars"
  const Instruments := "https://fortnite-api.com/v2/cosmetics/instruments"
  const LEGO := "https://fortnite-api.com/v2/cosmetics/lego"
  /** Used by the client but missing from the endpoint table; this value stands in for it. */
  const LEGOKits := "https://fortnite-api.com/v2/cosmetics/lego/kits"

  const CreatorCode := "https://fortnite-api.com/v2/creatorcode"

  const Map := "https://fortnite-api.com/v1/map"

  const News := "https://fortnite-api.com/v2/news"
  const BRNews := "https://fortnite-api.com/v2/news/br"
  const STWNews := "https://fortnite-api.com/v2/news/stw"
  const CreativeNews := "https://fortnite-api.com/v2/news/creative"

  const Playlists := "https://fortnite-api.com/v1/playlists"
  const PlaylistById := "https://fortnite-api.com/v1/playlists/{playlist-id}"

  const Shop := "https://fortnite-api.com/v2/shop"
  const BRShop := "https://fortnite-api.com/v2/shop/br"
  const BRShopCombined := "https://fortnite-api.com/v2/shop/br/combined"

  const BRStats := "https://fortnite-api.com/v2/stats/br/v2"
  const BRStatsByAccountId := "https://fortnite-api.com/v2/stats/br/v2/{accountId}"
}
