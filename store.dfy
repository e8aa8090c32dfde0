/**
 The in-memory inventory store: the module-level `inventory` array, the
 `currentId` counter and the photo files of the cache directory, with one
 method per route handler that reads or changes them.
 */
module Store {
  import opened Text
  import opened Responses
  import opened Catalog

  /** The result of `parseInt` on a request's id; `None` stands for NaN,
      which is `===` to no id. */
  type ParsedId = Option<int>

  /** The test `i.id === itemId` that every lookup uses. */
  predicate Matches(item: Item, id: ParsedId) {
    id.Some? && id.value == item.id
  }

  ghost predicate HasId(items: seq<Item>, id: ParsedId) {
    exists i :: 0 <= i < |items| && Matches(items[i], id)
  }

  /** `k` is the index `find`/`findIndex` settle on: the first match. */
  ghost predicate FirstMatch(items: seq<Item>, id: ParsedId, k: int) {
    && 0 <= k < |items|
    && Matches(items[k], id)
    && forall j :: 0 <= j < k ==> !Matches(items[j], id)
  }

  /** Ids increase strictly along the array (so no two items share an id). */
  ghost predicate IdsIncreasing(items: seq<Item>) {
    forall i, j :: 0 <= i < j < |items| ==> items[i].id < items[j].id
  }

  /** Every id was handed out by the counter before it reached `next`. */
  ghost predicate IdsIssuedBefore(items: seq<Item>, next: nat) {
    forall i :: 0 <= i < |items| ==> 1 <= items[i].id < next
  }

  /** The photo files an item's reference names: none, or the one file. */
  function PhotoFiles(photo: Option<FileName>): (r: set<FileName>) {
    if photo.Some? then {photo.value} else {}
  }

  /** `splice(k, 1)`: the items before `k`, then the items after it. */
  function RemoveAt(items: seq<Item>, k: nat): (r: seq<Item>)
    requires k < |items|
    ensures |r| == |items| - 1
    ensures forall i :: 0 <= i < k ==> r[i] == items[i]
    ensures forall i :: k <= i < |r| ==> r[i] == items[i + 1]
    ensures multiset(r) + multiset{items[k]} == multiset(items)
  {
    assert items == items[..k] + [items[k]] + items[k + 1..];
    items[..k] + items[k + 1..]
  }

  /** With strictly increasing ids, the item matching an id is the only one. */
  lemma MatchIsUnique(items: seq<Item>, id: ParsedId, k: int)
    requires IdsIncreasing(items)
    requires 0 <= k < |items| && Matches(items[k], id)
    ensures FirstMatch(items, id, k)
    ensures forall j :: 0 <= j < |items| && j != k ==> !Matches(items[j], id)
  {
  }

  /** Removing one item keeps the id invariant, and no other item carries the
      removed one's id. */
  lemma RemoveAtKeepsIds(items: seq<Item>, k: nat, next: nat)
    requires k < |items|
    requires IdsIncreasing(items) && IdsIssuedBefore(items, next)
    ensures IdsIncreasing(RemoveAt(items, k)) && IdsIssuedBefore(RemoveAt(items, k), next)
    ensures forall i :: 0 <= i < |items| - 1 ==> RemoveAt(items, k)[i].id != items[k].id
  {
    var r := RemoveAt(items, k);
    forall i, j | 0 <= i < j < |r|
      ensures r[i].id < r[j].id
    {
      var i', j' := if i < k then i else i + 1, if j < k then j else j + 1;
      assert r[i] == items[i'] && r[j] == items[j'];
    }
  }

  /** The list comes out in ascending id order, and no two entries share a
      photo URL. */
  lemma ListViewOrderedAndDistinct(config: Config, items: seq<Item>)
    requires IdsIncreasing(items)
    ensures forall i, j :: 0 <= i < j < |items| ==> ListView(config, items)[i].id < ListView(config, items)[j].id
    ensures forall i, j :: 0 <= i < j < |items| && ListView(config, items)[i].photoUrl.Some? ==>
      ListView(config, items)[i].photoUrl != ListView(config, items)[j].photoUrl
  {
    var r := ListView(config, items);
    forall i, j | 0 <= i < j < |items| && r[i].photoUrl.Some?
      ensures r[i].photoUrl != r[j].photoUrl
    {
      if r[i].photoUrl == r[j].photoUrl {
        PhotoUrlInjective(config, items[i].id, items[j].id);
      }
    }
  }

  /** `Array.prototype.findIndex` with the id test: the first index whose item
      has the id, or -1 when there is none. */
  method FindIndex(items: seq<Item>, id: ParsedId) returns (k: int)
    ensures -1 <= k < |items|
    ensures k == -1 <==> !HasId(items, id)
    ensures k != -1 ==> FirstMatch(items, id, k)
  {
    k := 0;
    while k < |items|
      invariant 0 <= k <= |items|
      invariant forall j :: 0 <= j < k ==> !Matches(items[j], id)
    {
      if Matches(items[k], id) {
        return;
      }
      k := k + 1;
    }
    k := -1;
  }

  class InventoryStore {
    const config: Config
    /** The `inventory` array, in insertion order. */
    var items: seq<Item>
    /** `currentId`: the id the next registered item receives. */
    var nextId: nat
    /** The names of the files in the cache directory. */
    var files: set<FileName>

    ghost predicate Valid()
      reads this
    {
      1 <= nextId && IdsIssuedBefore(items, nextId) && IdsIncreasing(items)
    }

    /** Start-up: an empty inventory, the counter at 1, and whatever files the
        cache directory already holds. */
    constructor (config: Config, existing: set<FileName>)
      ensures Valid()
      ensures this.config == config && items == [] && nextId == 1 && files == existing
    {
      this.config := config;
      items := [];
      nextId := 1;
      files := existing;
    }

    /** The upload middleware, which runs before the register and
        replace-photo handlers: the file arrives in the cache directory under
        its generated name. */
    method AcceptUpload(name: FileName)
      modifies this
      ensures files == old(files) + {name}
      ensures items == old(items) && nextId == old(nextId)
    {
      files := files + {name};
    }

    /** `POST /register`. A missing name, or one that is empty or only
        whitespace, is refused and nothing changes. Otherwise exactly one item
        is appended: it takes the counter's value as its id, the trimmed name,
        the description or "", and the upload's name as its photo. */
    method Register(name: Option<string>, description: Option<string>, upload: Option<FileName>)
      returns (r: Result<Item>)
      requires Valid()
      modifies this
      ensures Valid() && files == old(files)
      ensures r.Err? <==> name.None? || AllWhitespace(name.value)
      ensures r.Err? ==> r.error == BadRequest && items == old(items) && nextId == old(nextId)
      ensures r.Ok? ==>
        && r.value == Item(old(nextId), Trim(name.value), description.GetOr(""), upload)
        && items == old(items) + [r.value]
        && nextId == old(nextId) + 1
      ensures r.Ok? ==> var n := r.value.name;
        n != [] && !IsWhitespace(n[0]) && !IsWhitespace(n[|n| - 1])
    {
      if name.None? {
        return Err(BadRequest);
      }
      var trimmed := Trim(name.value);
      if trimmed == "" {
        return Err(BadRequest);
      }
      var item := Item(nextId, trimmed, description.GetOr(""), upload);
      nextId := nextId + 1;
      items := items + [item];
      r := Ok(item);
    }

    /** `GET /inventory`. */
    function List(): (r: seq<ItemView>)
      reads this
    {
      ListView(config, items)
    }

    /** `GET /inventory/:id`: the view of the item with that id, or 404 when
        there is none. */
    method Get(id: ParsedId) returns (r: Result<ItemView>)
      ensures r.Err? <==> !HasId(items, id)
      ensures r.Err? ==> r.error == NotFound
      ensures r.Ok? ==> exists k :: FirstMatch(items, id, k) && r.value == View(config, items[k])
    {
      var k := FindIndex(items, id);
      if k == -1 {
        return Err(NotFound);
      }
      r := Ok(View(config, items[k]));
    }

    /** `PUT /inventory/:id`: 404 and no change when no item has the id;
        otherwise the matching item takes each field that was supplied (a
        blank name included) and keeps the others, and no other item, file or
        the counter changes. */
    method Update(id: ParsedId, name: Option<string>, description: Option<string>)
      returns (r: Result<ItemView>)
      requires Valid()
      modifies this
      ensures Valid() && nextId == old(nextId) && files == old(files)
      ensures |items| == |old(items)|
      ensures r.Err? <==> !HasId(old(items), id)
      ensures r.Err? ==> r.error == NotFound && items == old(items)
      ensures r.Ok? ==> exists k ::
        && FirstMatch(old(items), id, k)
        && items == old(items)[k := items[k]]
        && items[k].id == old(items)[k].id
        && items[k].name == name.GetOr(old(items)[k].name)
        && items[k].description == description.GetOr(old(items)[k].description)
        && items[k].photo == old(items)[k].photo
        && r.value == View(config, items[k])
    {
      var k := FindIndex(items, id);
      if k == -1 {
        return Err(NotFound);
      }
      var item := items[k];
      if name.Some? {
        item := item.(name := name.value);
      }
      if description.Some? {
        item := item.(description := description.value);
      }
      items := items[k := item];
      r := Ok(View(config, item));
    }

    /** `GET /inventory/:id/photo`: the file to send, or 404 when no item has
        the id, the item has no photo, or its file is not in the cache
        directory. */
    method GetPhoto(id: ParsedId) returns (r: Result<FileName>)
      ensures r.Err? ==> r.error == NotFound
      ensures r.Ok? ==> exists k :: FirstMatch(items, id, k) && items[k].photo == Some(r.value)
      ensures r.Ok? ==> r.value in files
      ensures r.Err? ==> forall k :: FirstMatch(items, id, k) ==>
        items[k].photo.None? || items[k].photo.value !in files
    {
      var k := FindIndex(items, id);
      if k == -1 || items[k].photo.None? {
        return Err(NotFound);
      }
      var photo := items[k].photo.value;
      if photo !in files {
        return Err(NotFound);
      }
      r := Ok(photo);
    }

    /** `PUT /inventory/:id/photo`: 404 and no change when no item has the id.
        Otherwise the item's old photo file, if it is there, is deleted, the
        item's photo becomes the new upload (or none), and no other item
        changes. The answer is the new photo URL, or null. */
    method ReplacePhoto(id: ParsedId, upload: Option<FileName>) returns (r: Result<Option<string>>)
      requires Valid()
      modifies this
      ensures Valid() && nextId == old(nextId)
      ensures r.Err? <==> !HasId(old(items), id)
      ensures r.Err? ==> r.error == NotFound && items == old(items) && files == old(files)
      ensures r.Ok? ==> exists k ::
        && FirstMatch(old(items), id, k)
        && items == old(items)[k := old(items)[k].(photo := upload)]
        && files == old(files) - PhotoFiles(old(items)[k].photo)
        && r.value == (if upload.Some? then Some(PhotoUrl(config, old(items)[k].id)) else None)
    {
      var k := FindIndex(items, id);
      if k == -1 {
        return Err(NotFound);
      }
      var item := items[k];
      if item.photo.Some? {
        if item.photo.value in files {
          files := files - {item.photo.value};
        }
      }
      item := item.(photo := upload);
      items := items[k := item];
      r := Ok(if item.photo.Some? then Some(PhotoUrl(config, item.id)) else None);
    }

    /** `DELETE /inventory/:id`: 404 and no change when no item has the id.
        Otherwise exactly that item is removed, the others keep their order,
        and its photo file, if there, is deleted. Either way no item has the
        id afterwards. */
    method Delete(id: ParsedId) returns (r: Result<()>)
      requires Valid()
      modifies this
      ensures Valid() && nextId == old(nextId)
      ensures r.Err? <==> !HasId(old(items), id)
      ensures r.Err? ==> r.error == NotFound && items == old(items) && files == old(files)
      ensures r.Ok? ==> exists k ::
        && FirstMatch(old(items), id, k)
        && items == RemoveAt(old(items), k)
        && files == old(files) - PhotoFiles(old(items)[k].photo)
      ensures !HasId(items, id)
    {
      var k := FindIndex(items, id);
      if k == -1 {
        return Err(NotFound);
      }
      var item := items[k];
      if item.photo.Some? {
        if item.photo.value in files {
          files := files - {item.photo.value};
        }
      }
      RemoveAtKeepsIds(items, k, nextId);
      items := RemoveAt(items, k);
      r := Ok(());
    }

    /** `POST /search`: 404 when no item has the id; otherwise the item's view
        whose description carries the photo link when `has_photo` asks for it
        and there is a photo. The stored item is not changed. */
    method Search(id: ParsedId, hasPhoto: Option<string>) returns (r: Result<ItemView>)
      ensures r.Err? <==> !HasId(items, id)
      ensures r.Err? ==> r.error == NotFound
      ensures r.Ok? ==> exists k ::
        && FirstMatch(items, id, k)
        && r.value == SearchView(config, items[k], IncludePhotoLink(hasPhoto))
    {
      var k := FindIndex(items, id);
      if k == -1 {
        return Err(NotFound);
      }
      r := Ok(SearchView(config, items[k], IncludePhotoLink(hasPhoto)));
    }
  }

  /** An example session (register an item, read it back, upload two photos,
      delete it), step by step, for any name that has no whitespace at either
      end, read off the handlers' contracts alone. First, registering the
      item. */
  method ExampleRegister(config: Config, name: string, description: string)
    returns (store: InventoryStore)
    requires name != [] && !IsWhitespace(name[0]) && !IsWhitespace(name[|name| - 1])
    ensures fresh(store) && store.Valid() && store.config == config
    ensures store.items == [Item(1, name, description, None)]
  {
    store := new InventoryStore(config, {});
    TrimKeepsTrimmed(name);
    var reg := store.Register(Some(name), Some(description), None);
    assert reg.Ok?;
  }

  /** Reading the item back: get answers with its view, and a search that asks
      for the photo link leaves the description alone, as there is no photo. */
  method ExampleReadBack(store: InventoryStore, name: string, description: string)
    returns (got: Result<ItemView>, found: Result<ItemView>)
    requires store.items == [Item(1, name, description, None)]
    ensures got == Ok(ItemView(1, name, description, None))
    ensures found == got
  {
    assert Matches(store.items[0], Some(1));
    got := store.Get(Some(1));
    found := store.Search(Some(1), Some("true"));
  }

  /** Registering an empty name is refused and changes nothing. */
  method ExampleRejectBlank(store: InventoryStore) returns (bad: Result<Item>)
    requires store.Valid()
    modifies store
    ensures bad == Err(BadRequest)
    ensures store.items == old(store.items) && store.nextId == old(store.nextId)
  {
    bad := store.Register(Some(""), Some("x"), None);
  }

  /** Two photo uploads, the second replacing the first: the first file is
      removed, the new one is served, and the answer is the item's photo URL. */
  method ExampleReplacePhoto(store: InventoryStore, item: Item, oldPhoto: FileName, newPhoto: FileName)
    returns (second: Result<Option<string>>, photo: Result<FileName>)
    requires store.Valid() && oldPhoto != newPhoto
    requires store.items == [item] && item.id == 1
    modifies store
    ensures store.Valid()
    ensures store.items == [item.(photo := Some(newPhoto))]
    ensures second == Ok(Some(PhotoUrl(store.config, 1)))
    ensures oldPhoto !in store.files && newPhoto in store.files
    ensures photo == Ok(newPhoto)
  {
    store.AcceptUpload(oldPhoto);
    assert Matches(store.items[0], Some(1));
    var first := store.ReplacePhoto(Some(1), Some(oldPhoto));
    assert store.items == [item.(photo := Some(oldPhoto))];
    store.AcceptUpload(newPhoto);
    assert Matches(store.items[0], Some(1));
    second := store.ReplacePhoto(Some(1), Some(newPhoto));
    assert store.items == [item.(photo := Some(newPhoto))];
    assert FirstMatch(store.items, Some(1), 0);
    photo := store.GetPhoto(Some(1));
  }

  /** Ending the session: after the delete the photo file is gone, and every
      handler that looks the id up answers 404. */
  method ExampleDelete(store: InventoryStore, item: Item)
    returns (gone: Result<ItemView>, again: Result<ItemView>, replaced: Result<Option<string>>)
    requires store.Valid()
    requires store.items == [item] && item.id == 1 && item.photo.Some?
    modifies store
    ensures store.Valid() && store.items == [] && item.photo.value !in store.files
    ensures gone == Err(NotFound) && again == Err(NotFound) && replaced == Err(NotFound)
  {
    assert HasId(store.items, Some(1)) by {
      assert Matches(store.items[0], Some(1));
    }
    var del := store.Delete(Some(1));
    assert del.Ok?;
    gone := store.Get(Some(1));
    again := store.Update(Some(1), Some("x"), None);
    replaced := store.ReplacePhoto(Some(1), None);
  }
}
