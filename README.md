# Inventory store

A Dafny model of the in-memory inventory service in `main.js`. The service
keeps three pieces of state:

- the `inventory` array of records (id, name, description, optional photo file name);
- the `currentId` counter, which starts at 1;
- the photo files in the cache directory.

The route handlers for register, list, get, update, get-photo, replace-photo,
delete and search read and change that state. They become the methods of the
class `Store.InventoryStore`, which has the fields `items: seq<Item>`,
`nextId: nat` and `files: set<FileName>`. The class invariant `Valid()` says:

- every id was issued by the counter, so it lies in `[1, nextId)`;
- ids strictly increase along `items`, so no two items share an id.

Every state-changing handler keeps this invariant. Each handler's contract
gives the response and the whole new state, including on the 404 and 400
paths. The read-only projections are pure functions with their own lemmas:

- the `photo_url` of an item;
- the item view returned by list, get and update;
- the search description with its optional photo link;
- the 405 method filter.

Modules:

- `Text` (text.dfy): ECMAScript `trim`, and the decimal printing of ids with its inverse.
- `Responses` (responses.dfy): `Option`, the result and error types that stand for status codes, and the method filter.
- `Catalog` (catalog.dfy): the item record, the configured host and port, photo URLs and the views.
- `Store` (store.dfy): the id lookup (`FindIndex`, the loop behind `find`/`findIndex`), the store class, and client methods that walk through an example session (register, read back, reject a blank name, replace the photo twice, delete) using only the handlers' contracts.

Requests are modelled as method parameters:

- A request id is the result of `parseInt`, given as an `Option<int>`. `None` stands for NaN, which equals no id.
- An uploaded photo is given as the file name the upload middleware generated.
- The middleware stores the file before the handler runs. This is `AcceptUpload`, run ahead of `Register` or `ReplacePhoto`. As a result, a register refused with 400 (or a replace-photo answered with 404) leaves its uploaded file in the cache directory. The handler contracts show this: they leave `files` unchanged on those paths.

Two behaviours of the handlers shape what the model promises:

- Update does not reject a blank name (main.js:370-372). So a non-blank name is not an invariant of the store: it is guaranteed only for the items `Register` creates.
- Search adds the photo link only when `has_photo` is exactly the string `"on"` or `"true"` (main.js:635).

## Model

| member | source | states |
|---|---|---|
| `Text.Trim` | main.js:209-216 | The trimmed name has no whitespace at either end, and it is empty exactly when every character of the input is ECMAScript whitespace or a line terminator |
| `Text.TrimIsSlice` | main.js:216 | `trim` removes only whitespace: its result is a contiguous slice of the input with only whitespace before and after it |
| `Text.TrimIdempotent` | main.js:216 | A stored (trimmed) name is unchanged by trimming it again |
| `Text.TrimKeepsTrimmed` | main.js:216 | A name with no whitespace at either end is stored as given |
| `Text.NatToString` | main.js:253 | The id in a photo URL is printed as digits only, with no leading zero unless it is 0 |
| `Text.DecimalRoundTrip` | main.js:253 | Reading the printed id back as a decimal number gives the id again |
| `Text.NatToStringInjective` | main.js:253 | Different ids are printed differently |
| `Catalog.PhotoUrlNamesItem` | main.js:253 | A photo URL is the configured prefix, then the item's id in decimal, then `/photo`, and the id segment decodes back to that id, as the photo route's `parseInt` reads it |
| `Catalog.PhotoUrlInjective` | main.js:253 | Two items never share a photo URL |
| `Catalog.View` | main.js:299-304 | The view keeps the id, name and description; `photo_url` is present exactly when the item has a photo, and then it is that item's photo URL |
| `Catalog.ListView` | main.js:249-254 | The list has one entry per item, in store order, and each entry is that item's view |
| `Catalog.SearchDescription` | main.js:643-649 | The search description starts with the stored description. It differs from it exactly when the link was asked for and the item has a photo, and then the rest is `"\n\nPhoto: "` followed by the photo URL |
| `Catalog.SearchView` | main.js:651-656 | The search answer is the item's view with only the description replaced by the search description |
| `Responses.MethodFilter` | main.js:660-665 | A request that reaches the filter is refused with 405 exactly when its method is not GET, POST, PUT or DELETE, and is passed on otherwise |
| `Store.RemoveAt` | main.js:571 | `splice(k, 1)` removes exactly the element at `k`: the elements before it stay where they are, the elements after it move down by one, and the multiset shrinks by exactly that element |
| `Store.MatchIsUnique` | main.js:293 | With increasing ids, an item with the requested id is the first match and the only one |
| `Store.RemoveAtKeepsIds` | main.js:571 | Removing an item keeps ids increasing and issued, and no remaining item has the removed item's id |
| `Store.ListViewOrderedAndDistinct` | main.js:249-254 | The list comes out in ascending id order, and no two entries share a photo URL |
| `Store.FindIndex` | main.js:554 | `findIndex` returns -1 exactly when no item has the id; otherwise it returns the first index whose item has the id |
| `Store.InventoryStore.constructor` | main.js:83-84 | The store starts empty, with the counter at 1 and the cache directory's existing files |
| `Store.InventoryStore.AcceptUpload` | main.js:70-80 | The upload middleware adds the generated file to the cache directory and touches nothing else |
| `Store.InventoryStore.Register` | main.js:205-227 | A missing or all-whitespace name gives 400 and leaves items, counter and files unchanged. Otherwise exactly one item is appended: its id is the old counter, its name is the trimmed name (non-empty, with no whitespace at either end), its description defaults to "", and its photo is the upload's name or none. The counter goes up by one and the invariant holds |
| `Store.InventoryStore.Get` | main.js:291-305 | 404 exactly when no item has the id; otherwise the view of the matching item |
| `Store.InventoryStore.Update` | main.js:360-386 | 404 with no change exactly when no item has the id. Otherwise only the matching item changes: each supplied field replaces the old value (a blank name too), each omitted field keeps its value, and id and photo stay. Every other item, the files and the counter are unchanged |
| `Store.InventoryStore.GetPhoto` | main.js:421-437 | The matching item's photo file, if it is in the cache directory; otherwise 404, whether the item is missing, has no photo, or its file is gone |
| `Store.InventoryStore.ReplacePhoto` | main.js:491-514 | 404 with no change exactly when no item has the id. Otherwise the old photo file is removed from the directory if present, the item's photo becomes the upload or none, no other item changes, and the answer is the new photo URL or null |
| `Store.InventoryStore.Delete` | main.js:552-576 | 404 with no change exactly when no item has the id. Otherwise exactly the matching item is removed, the rest keep their order, and its photo file is removed from the directory if present. Afterwards no item has the id |
| `Store.InventoryStore.Search` | main.js:633-657 | 404 exactly when no item has the id; otherwise the matching item's search view. The link is included only when `has_photo` is "on" or "true" and the item has a photo, and the stored description is not changed |
| `Store.ExampleRegister` | main.js:205-227 | In a fresh store, registering a name with no surrounding whitespace ("Laptop Dell", the Swagger example at main.js:143), with a description, gives the single item `{1, name, description, no photo}` |
| `Store.ExampleReadBack` | main.js:291-305 | For that item, get answers `{1, name, description, photo_url: null}`. Search with `has_photo` "true" gives the same answer, so the description is unmodified when there is no photo |
| `Store.ExampleRejectBlank` | main.js:209-211 | Registering an empty name answers 400 and leaves items and counter unchanged |
| `Store.ExampleReplacePhoto` | main.js:491-514 | Two uploads, the second replacing the first: the item's photo becomes the second upload, the first file is no longer in the directory while the second is, the second replacement answers the item's photo URL, and get-photo then returns the second file |
| `Store.ExampleDelete` | main.js:552-576 | Deleting the only item empties the store and removes its photo file; get, update and replace-photo of the id then each answer 404 |

## Left out

- Express routing, the JSON and form middleware, the two static form pages, the Swagger setup, the command-line options and `app.listen` are plumbing. Responses are the `Result` datatype. Host and port are the two strings of `Config`.
- Upload file names are made from the clock and a random number. This is nondeterministic, so the name is a parameter. The model assumes only that a name is never empty.
- The filesystem is the set `files`: `existsSync` is membership and `unlinkSync` is removal. Sending the file and its content type are left out, so `GetPhoto` returns the file name to send.
- The handlers build their file paths in two ways. The photo route uses `path.join(__dirname, cache, name)`; replace-photo and delete use `path.join(cache, name)`. These name the same file only when the cache path is relative and the process runs from the script's directory. The model has a single directory and assumes that case.
- `parseInt` is not modelled: a request id is already an `Option<int>`. `DecimalValue` covers only the digit-only strings that the service itself prints into photo URLs.
- JSON values that are not strings are not modelled, because the parameters are strings or absent. This covers a `null` or numeric `inventory_name` in an update and an array-valued `has_photo`.
- Ids are unbounded naturals. The JavaScript counter is a double and stays exact only up to 2^53.
- Filesystem errors other than a missing file would surface as an Express 500. I/O failure is not modelled.
- Concurrency is not modelled: each handler runs to completion before the next one starts, so handlers are sequential method calls.
- The relational (SQL) variant is not part of this model.
- The success message strings in the JSON responses are not modelled. The 201 and 200 status codes are both `Ok`.
- `Store.InventoryStore.List` has no contract of its own. It returns `ListView` of the items, whose contract and lemmas carry the meaning.
