/**
 Inventory records and the read-only projections the handlers answer with:
 the `photo_url` of an item, the item view of list/get/update, and the search
 view whose description may carry a link to the photo.
 */
module Catalog {
  import opened Text
  import opened Responses

  /** The name the upload middleware gives a stored photo. It is made of a
      timestamp, a dash and a random number, so it is never empty: a stored
      photo reference is always truthy. */
  type FileName = s: string | s != [] witness "0"

  /** One record of the in-memory `inventory` array. */
  datatype Item = Item(id: nat, name: string, description: string, photo: Option<FileName>)

  /** The `--host` and `--port` options, as the strings they were given as. */
  datatype Config = Config(host: string, port: string)

  /** The JSON object a client receives for an item: the photo file name is
      replaced by the URL under which the photo is served. */
  datatype ItemView = ItemView(id: nat, name: string, description: string, photoUrl: Option<string>)

  function PhotoUrlPrefix(config: Config): (p: string) {
    "http://" + config.host + ":" + config.port + "/inventory/"
  }

  /** `http://{host}:{port}/inventory/{id}/photo`. */
  function PhotoUrl(config: Config, id: nat): (url: string) {
    PhotoUrlPrefix(config) + NatToString(id) + "/photo"
  }

  /** The id segment of a photo URL is the decimal form of the item's id, and
      reading it back (as the photo route does with `parseInt`) yields that id. */
  lemma PhotoUrlNamesItem(config: Config, id: nat)
    ensures var url, p := PhotoUrl(config, id), |PhotoUrlPrefix(config)|;
      && p < |url| - 6
      && url[..p] == PhotoUrlPrefix(config)
      && url[|url| - 6..] == "/photo"
      && url[p..|url| - 6] == NatToString(id)
      && AllDigits(url[p..|url| - 6])
      && DecimalValue(url[p..|url| - 6]) == id
  {
    var url, p := PhotoUrl(config, id), |PhotoUrlPrefix(config)|;
    assert url[p..|url| - 6] == NatToString(id);
    DecimalRoundTrip(id);
  }

  /** Distinct items never share a photo URL. */
  lemma PhotoUrlInjective(config: Config, a: nat, b: nat)
    requires PhotoUrl(config, a) == PhotoUrl(config, b)
    ensures a == b
  {
    PhotoUrlNamesItem(config, a);
    PhotoUrlNamesItem(config, b);
  }

  /** The item as list, get and update report it. */
  function View(config: Config, item: Item): (v: ItemView)
    ensures v.id == item.id && v.name == item.name && v.description == item.description
    ensures v.photoUrl.Some? <==> item.photo.Some?
    ensures v.photoUrl.Some? ==> v.photoUrl.value == PhotoUrl(config, item.id)
  {
    ItemView(item.id, item.name, item.description,
             if item.photo.Some? then Some(PhotoUrl(config, item.id)) else None)
  }

  /** The body of `GET /inventory`: every item, in store order, as its view. */
  function ListView(config: Config, items: seq<Item>): (r: seq<ItemView>)
    ensures |r| == |items|
    ensures forall i :: 0 <= i < |items| ==> r[i] == View(config, items[i])
  {
    if items == [] then [] else [View(config, items[0])] + ListView(config, items[1..])
  }

  /** Whether the search form asked for the photo link: `has_photo` is the
      string "on" (an HTML checkbox) or "true". */
  predicate IncludePhotoLink(hasPhoto: Option<string>) {
    hasPhoto == Some("on") || hasPhoto == Some("true")
  }

  /** The description the search answers with. It starts with the stored
      description and differs from it exactly when the link was asked for and
      the item has a photo; then the link is appended as a section of its own. */
  function SearchDescription(config: Config, item: Item, includeLink: bool): (d: string)
    ensures item.description <= d
    ensures d == item.description <==> !(includeLink && item.photo.Some?)
    ensures includeLink && item.photo.Some? ==>
      d[|item.description|..] == "\n\nPhoto: " + PhotoUrl(config, item.id)
  {
    if includeLink && item.photo.Some? then
      item.description + "\n\nPhoto: " + PhotoUrl(config, item.id)
    else
      item.description
  }

  /** The body of `POST /search`: the item view with the search description. */
  function SearchView(config: Config, item: Item, includeLink: bool): (v: ItemView)
    ensures v == View(config, item).(description := v.description)
    ensures v.description == SearchDescription(config, item, includeLink)
  {
    View(config, item).(description := SearchDescription(config, item, includeLink))
  }
}
