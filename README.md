# ffsyncsearch core, modelled in Dafny

ffsyncsearch downloads a user's Firefox Sync bookmarks and history into
PostgreSQL so that the text of visited pages can be searched. This project
models the four files that do that work:

- **Key handling** (auth.py, and the top of sync.py).
  - The 64 bytes derived from the account key are split into an AES key and
    an HMAC key.
  - The keys are stored in hex and read back.
  - Authenticated requests are made under `<endpoint>/<path>`, and the
    status is checked before the body is used.
- **Record decryption and the key hierarchy** (utils.py, and the duplicate
  in sync.py).
  - A Sync record is accepted only when the HMAC-SHA256 of its Base64
    ciphertext, in hex, matches the stored tag. Only then is it decrypted
    with AES-CBC and the PKCS#7 padding stripped.
  - Keys are looked up per collection: a per-collection override first,
    then the collection default from `crypto/keys`, then the account pair.
  - The hierarchy is bootstrapped by walking the `crypto` collection.
- **Storage** (db.py).
  - Bookmarks and history entries are upserted.
  - Bookmark parent links are deferred until the inserter closes, because
    parents may arrive after their children.
  - History rows that still need page text are selected, filtered by a list
    of ignored domains.
  - Page text is stored, the latest `modified` time is queried, and a
    full-text search is ranked.

Cryptography, Base64, JSON, HTTP and the full-text scorer are passed in as
function parameters:

- `Codec.Primitives` holds HMAC-SHA256, Base64 and AES-CBC. Hex is modelled
  in Hex.dfy.
- `Collections.Remote` holds the listing and fetching of records.
- A `json` arrow is the `json.loads` that ends `Collection.__getitem__` and
  `get_item`. For the `crypto` records, a `parse` arrow does that
  decoding and reads `default` and `collections`.
- A `score` arrow gives `ts_rank_cd` and `@@` for one row.

The lemmas that need these primitives to behave (for example, decrypt
undoes encrypt) require the predicate `Codec.Sound`.

The PostgreSQL tables are maps from primary key to row, held in the fields
of a `Db.Database` object. The two inserter classes update those maps in
place.

Files:

- Common.dfy: bytes, results, Python slicing, truncating division, substring search.
- Hex.dfy: `bytes.hex` / `bytes.fromhex`.
- Codec.dfy: record decryption.
- KeyHierarchy.dfy: `AES_HMAC_KeyPairs`.
- Auth.dfy: login, `AuthRequest`, config keys.
- Collections.dfy: `Collection`, `Collections`, bootstrap.
- Sync.dfy: one run of sync.py.
- Db.dfy: inserters and upserts.
- Queries.dfy: the read queries.

## Model

| member | source | states |
|---|---|---|
| Common.SliceTo | utils.py:115 | `s[:k]` with Python's negative and clamping indices: the prefix of length `k`, `|s|+k` for negative `k`, all of `s` past the end, empty before the start |
| Common.TruncDiv | db.py:52 | PostgreSQL integer division truncates towards zero: for a non-negative numerator the remainder `a - q*b` lies in `[0, b)`, for a negative one in `(-b, 0]` |
| Common.TruncDivNegate | db.py:52 | truncating division is symmetric about zero: dividing `-a` gives the negation of dividing `a` |
| Common.ContainsInfix | db.py:161 | `url LIKE '%x%'` holds for any string that has `x` as an infix |
| Hex.ToHex | auth.py:48-49 | `.hex()`: two lower-case hex digits per byte |
| Hex.FromHex | auth.py:54-55 | `bytes.fromhex`: on success every character is whitespace or a hex digit of either case, and there are at most half as many bytes as characters; an even-length string of hex digits always decodes, to half as many bytes |
| Hex.FromHexToHex | sync.py:49-57 | `bytes.fromhex(b.hex()) == b` for every byte string |
| Hex.ToHexInjective | sync.py:49-50 | two byte strings with the same hex form are equal |
| Codec.StripPadding | utils.py:113-115 | `contents[:-contents[-1]]`: IndexError exactly on empty plaintext; a prefix of the plaintext; removes exactly the last byte's count when 1 ≤ count ≤ length; otherwise (count 0, or larger than the length) the result is empty |
| Codec.StripPaddingPad | utils.py:115 | stripping PKCS#7 padding undoes padding, for every message |
| Codec.Tag | utils.py:103-107 | the tag compared is the hex of the HMAC-SHA256 of the ASCII Base64 ciphertext: twice the digest's length, and reading it back with `fromhex` gives that digest |
| Codec.Decrypt | utils.py:91-116 | EncodeError exactly when the ciphertext is not ASCII; UnpackError exactly when the key pair does not have two members; IntegrityError exactly when the hex HMAC of the Base64 ciphertext differs from the stored tag; a success implies the tag matched |
| Codec.DecryptEncrypt | utils.py:103-116 | decrypting a record encrypted and tagged with a 32-byte key, a 16-byte IV and the matching HMAC key returns the original plaintext |
| Codec.TamperedHmacRefused | utils.py:103-107 | a record whose tag was replaced by any other string is refused with IntegrityError |
| Codec.CheckBeforeDecrypt | utils.py:103-113 | the outcome of a tag mismatch does not depend on the AES or Base64 primitives: the HMAC is checked before anything is decrypted |
| KeyHierarchy.Fresh | utils.py:18-22 | a new hierarchy resolves every collection to the account pair |
| KeyHierarchy.KeyState.CollectionDefault | utils.py:30-33 | the value-level `get_collection_default`; its meaning is stated by KeyHierarchy.ResolveFallback and KeyHierarchy.KeyPairs.GetCollectionDefault |
| KeyHierarchy.KeyState.Resolve | utils.py:38-41 | the value-level `__getitem__`; its meaning is stated by KeyHierarchy.ResolveFallback, KeyHierarchy.ResolveOverride and KeyHierarchy.Fresh |
| KeyHierarchy.ResolveFallback | utils.py:30-41 | a collection without an override resolves to the collection default when one is set, else to the account pair |
| KeyHierarchy.ResolveOverride | utils.py:35-41 | after setting an override, that collection resolves to it whatever the default, and every other collection resolves as before |
| KeyHierarchy.KeyPairs.constructor | utils.py:18-22 | the object's state is the fresh hierarchy for the given pair |
| KeyHierarchy.KeyPairs.SetCollectionDefault | utils.py:24-25 | only the default changes; collections without an override now get the new pair, and overridden ones keep theirs |
| KeyHierarchy.KeyPairs.GetAccountDefault | utils.py:27-28 | returns the account pair |
| KeyHierarchy.KeyPairs.GetCollectionDefault | utils.py:30-33 | returns the collection default if set, else the account pair |
| KeyHierarchy.KeyPairs.SetItem | utils.py:35-36 | only the override map changes; the key now resolves to the value, and every other key resolves as before |
| KeyHierarchy.KeyPairs.Get | utils.py:38-41 | returns the resolution of the key in the object's state |
| Auth.SplitKeys | auth.py:27-29 | `keys[0:32]`, `keys[32:64]`: for 64 bytes, two 32-byte halves that concatenate back to the input; in general a prefix, with total length min(len, 64) |
| Auth.Login | auth.py:19-50 | the dictionary copies the token server's fields, and its hex keys decode to the first and second halves of the derived bytes |
| Auth.NewAuthRequest | auth.py:52-58 | succeeds exactly when both hex keys decode, and then holds the decoded keys, the uid, the endpoint and the Hawk credentials; otherwise DecodeError |
| Auth.LoginThenAuthRequest | auth.py:19-58 | a request object built from a login holds exactly the two halves of the derived key |
| Auth.RequestUrl | auth.py:61 | the URL is the endpoint, then `/`, then the path |
| Auth.Request | auth.py:60-64 | a 4xx or 5xx status gives StatusError whatever the body; success exactly when the status is not an error and the body is JSON, returning that body (the storage fetches in Collections take such results through `Remote`, not through this function) |
| Auth.CheckedJson | sync.py:92-95 | any status other than 200 fails; success exactly when the status is 200 and the body parses (the storage fetches in Collections take such results through `Remote`, not through this function) |
| Auth.SyncKeys | sync.py:26-57 | when either the `[hawk]` or the `[fxa]` section is missing, the derived keys are split and a new `[fxa]` section is written whose hex reads back as those keys; when both are present, success exactly when both stored keys are there and decode, returning the decoded keys and writing nothing; a missing `encryption_key` gives MissingKey, a malformed one DecodeError, and only then is `hmac_key` looked at in the same way |
| Auth.SyncKeysPersist | sync.py:26-57 | a later run that finds the sections an earlier login wrote recovers the same two keys, whatever it would have derived |
| Collections.Path | utils.py:76-80 | `storage/<collection>`, plus `/<item>` only for a non-empty item |
| Collections.ItemPathExtendsCollectionPath | utils.py:76-80 | an item's path extends its collection's path with `/` and the item |
| Collections.Plaintext | utils.py:91-115 | a fetch error is propagated; otherwise the result is the decryption of the fetched record with the pair the hierarchy resolves for the collection |
| Collections.GetItem | utils.py:91-116 | a fetch or decryption error is propagated; otherwise the result is `json.loads` of the plaintext, so a plaintext that is not JSON fails |
| Collections.Items | utils.py:87-89 | on success, one `(id, item)` pair for each listed id, in order, each item what `__getitem__` returns for that id; on failure, the error of some item, all earlier items having succeeded |
| Collections.CollectionItems | sync.py:91-97 | a listing error is propagated; otherwise success exactly when every listed id's GetItem succeeds, giving the bare items in listing order, and on failure the error of the first id that fails |
| Collections.DecodePair | utils.py:50-51 | `list(map(b64decode, pair))`: succeeds exactly when every element decodes, has the same length, and holds the decoding of each element |
| Collections.ApplyOverrides | utils.py:55-56 | the inner loop as a function; what it leaves is stated by Collections.ApplyOverridesKeeps, Collections.ApplyOverridesCompletes and Collections.ApplyOverridesResolve |
| Collections.LoadRecord | utils.py:53-56 | one pass of the outer loop; stated by Collections.LoadRecordResult |
| Collections.LoadAll | utils.py:53-56 | the outer loop over the crypto ids; stated by Collections.LoadAllKeepsAccount and Collections.LoadAllLast |
| Collections.Bootstrap | utils.py:49-56 | `load_keypairs()`; Collections.BootstrapKeys is proved equal to it |
| Collections.ApplyOverridesKeeps | utils.py:55-56 | installing a record's overrides leaves the account pair, the default and every unmentioned collection unchanged |
| Collections.ApplyOverridesCompletes | utils.py:55-56 | the overrides all install exactly when every entry decodes |
| Collections.ApplyOverridesResolve | utils.py:55-56 | after installing, each collection resolves to the decoding of the last entry that names it |
| Collections.LoadAllKeepsAccount | utils.py:53-56 | bootstrapping never changes the account pair |
| Collections.LoadAllLast | utils.py:53-56 | a successful bootstrap over several records is the bootstrap over all but the last, followed by loading the last one |
| Collections.LoadRecordResult | utils.py:53-56 | a successfully loaded record was fetched and parsed; its default became the collection default; its overrides are installed |
| Collections.FirstRecordUsesAccountPair | sync.py:110-111 | the first `crypto` record is decrypted with the account pair |
| Collections.BootstrapKeys | sync.py:129-132 | the loop leaves the key object in exactly the state, and with exactly the error, the bootstrap specification gives, including the partial state left when a record fails |
| Collections.Collections.constructor | utils.py:44-47 | the keys start as the fresh hierarchy for the request's keys |
| Collections.Collections.LoadKeypairs | utils.py:49-56 | same as the bootstrap specification, on the object's own keys |
| Collections.OpenCollections | utils.py:44-47 | constructing `Collections` bootstraps a fresh hierarchy built from the request's keys |
| Sync.FirstItem | sync.py:135-141 | a listing error is propagated; an empty listing gives nothing; a non-empty listing gives the decrypted and JSON-decoded item of its first id, or that item's error, and no other item is read |
| Sync.SyncRun | sync.py:26-141 | the keys come from the config logic, which looks at both sections, and its error stops the run; the hierarchy is bootstrapped from them; the first bookmark and history item are then decrypted and decoded with the bootstrapped state; each error stops the run |
| Db.Database.constructor | db.py:7-16 | a connection sees the tables as they stand: connecting changes no row |
| Db.Database.InsertUrlText | db.py:165-187 | a dictionary without `history_id` or `http_status` raises KeyError and leaves the table alone; otherwise the table becomes the upsert Db.UrlTextInsert gives |
| Db.UrlTextInsert | db.py:165-187 | fails with MissingKey exactly when `history_id` or `http_status` is missing; otherwise the row for the history id holds the given text, NULL for a missing `raw_text`, `processed_text`, `title` or `headers`, and the status; every other row is unchanged |
| Db.UrlTextInsertIdempotent | db.py:177-187 | storing the same page twice leaves the table as storing it once, because the conflict clause overwrites every column |
| Db.FetchedPageAsWritten | page_fetcher.py:59-65 | the dictionary the fetcher passes, which lacks `http_status`; stated by Db.FetchedPageRefused |
| Db.FetchedPageRefused | page_fetcher.py:59-67 | as written, every page the fetcher stores is refused with KeyError, whatever the table holds |
| Db.FetchedPage | page_fetcher.py:44-65 | the dictionary with the response's status code as `http_status`; stated by Db.FetchedPageStored |
| Db.FetchedPageStored | page_fetcher.py:44-67 | with the status supplied, the page is stored under its history id with that status, and no other row changes |
| Db.MillisToSeconds | db.py:52 | `dateAdded/1000`: NULL stays NULL; a value maps to its whole seconds rounded towards zero, on both sides of zero |
| Db.UpsertBookmark | db.py:48-57 | a new id gets a full row with no parent yet; an existing id changes only title and modified; other rows are unchanged |
| Db.UpsertBookmarkIdempotent | db.py:48-57 | upserting the same bookmark twice equals upserting it once |
| Db.Link | db.py:59-61 | a parent link is recorded exactly when `parentid` is present and is neither `places` nor `unfiled` |
| Db.SelectKeys | db.py:76 | `range(0, len(parents), 2)` yields (child_j, parent_j) for each even j below the size |
| Db.SetParent | db.py:77 | the update for one (child, parent) row: the key set is kept; a child that exists gets the parent and keeps its other columns; every other row is unchanged |
| Db.ApplyParents | db.py:75-78 | the joined update over all links; stated by Db.ApplyParentsResult |
| Db.ApplyParentsResult | db.py:75-78 | applying the deferred links keeps the key set; rows not named as children are unchanged; each child takes the parent of its last link and keeps all other columns |
| Db.ParamsAppend | db.py:58-61 | storing a link under `child_i`/`parent_i` with `i = len(parents)` keeps every recorded link under its own even index |
| Db.BookmarkInserter.constructor | db.py:24-25 | the inserter holds the connection, with no cursor open |
| Db.BookmarkInserter.Enter | db.py:26-29 | opens a cursor with an empty parameter map |
| Db.BookmarkInserter.Insert | db.py:35-61 | a bookmark without an id raises and changes nothing; otherwise the table is upserted, and a link is appended exactly when one is recorded |
| Db.BookmarkInserter.InsertBookmarkParents | db.py:63-78 | no statement when no links are pending; otherwise one (child, parent) select per link, and the table becomes the links applied to it |
| Db.BookmarkInserter.Exit | db.py:31-33 | closing applies every deferred parent link and closes the cursor |
| Db.LeadingWithId | db.py:48-57 | the number of records processed before the first one lacking an id |
| Db.IngestBookmarks | db.py:18-78 | a `with` block inserting the records: the final table is upsert-then-link over the records before the first missing id; it succeeds exactly when none is missing |
| Db.ParentFirstExample | db.py:18-23 | with the parent first, the child's parent is set, and a child of `unfiled` keeps no parent |
| Db.ChildFirstExample | db.py:18-23 | for a folder, a bookmark in it and one under `unfiled`, delivering the bookmark before its folder yields the same table as the folder first (an instance of Db.SessionSwap) |
| Db.UpsertCommute | db.py:48-57 | the upserts of two records with different ids commute |
| Db.SetParentCommute | db.py:75-78 | the parent updates of two different children commute |
| Db.SessionSwap | db.py:18-78 | swapping any two neighbouring records with different ids in a session gives the same table, parents included, so parents may arrive after their children |
| Db.MinDate | db.py:91-94 | `reduce(reducer, visits, None)`: NULL exactly when there are no dates; otherwise a date that occurs, no larger than any other |
| Db.VisitSummary | db.py:105-108 | without visits both values are NULL; with them, the count is the number of visits and the date is the earliest |
| Db.VisitSummaryExample | db.py:91-108 | three visits give the smallest date and a count of 3 |
| Db.MicrosToSeconds | db.py:114 | `last_visited/1000000`: NULL stays NULL; a value maps to its whole seconds rounded towards zero, on both sides of zero |
| Db.UpsertHistory | db.py:110-121 | a new id gets a full row; an existing id changes title, last visit, count and modified, but keeps url and deleted; other rows are unchanged |
| Db.UpsertHistoryIdempotent | db.py:110-121 | upserting the same entry twice equals upserting it once |
| Db.HistoryInserter.constructor | db.py:81-82 | holds the connection, with no cursor open |
| Db.HistoryInserter.Enter | db.py:83-85 | opens the cursor |
| Db.HistoryInserter.Exit | db.py:87-88 | closes the cursor |
| Db.HistoryInserter.Insert | db.py:90-121 | an entry without `id` or `modified` raises KeyError and changes nothing; otherwise the history table is upserted |
| Queries.NoneFromMeans | db.py:161 | the recursive filter holds exactly when no remaining pattern occurs in the URL |
| Queries.NoneFrom | db.py:161 | the `AND` chain from one entry on; stated by Queries.NoneFromMeans |
| Queries.Admits | db.py:161 | the `WHERE` filter on a url; stated by Queries.AdmitsMeans |
| Queries.IgnoreAsWritten | db.py:126-160 | the list as the literal evaluates: 25 entries, the 18th being the fused `i.ebayimg.comgoogleusercontent`, the others the listed domains in order |
| Queries.IgnoreIntended | db.py:126-160 | the list as laid out: 26 entries, the written list with its fused entry split into `i.ebayimg.com` and `googleusercontent` |
| Queries.AdmitsMeans | db.py:161 | a row passes the `NOT LIKE` chain exactly when its URL is not NULL and contains no ignored pattern |
| Queries.AdmitsAppend | db.py:161 | the `AND` chain over two lists is the conjunction of the two chains |
| Queries.Unfetched | db.py:162 | a row is selected exactly when it has no page text yet and passes the filter; selected rows are unchanged |
| Queries.GetHistoryForTextAsWritten | db.py:126-163 | the query with the list as written: exactly the rows without text whose URL avoids every entry of that list, fused entry included, each returned unchanged |
| Queries.GetHistoryForText | db.py:126-163 | the query with the list as intended: exactly the rows without text whose URL avoids every listed pattern |
| Queries.IntendedAdmitsLess | db.py:149-150 | every URL the intended list admits, the written list admits too |
| Queries.EbayImageAdmitted | db.py:149-150 | the written list lets `http://i.ebayimg.com/` through |
| Queries.EbayImageRejected | db.py:149-150 | the intended list filters `http://i.ebayimg.com/` out |
| Queries.LastHistoryTime | db.py:189-193 | `max(modified)`: NULL exactly when no row has a modified time; otherwise a value that occurs and is at least every other |
| Queries.Rank | db.py:197 | the `rank` column, `processed + title*10 + headers*5`; used in Queries.SearchText |
| Queries.Matches | db.py:206-208 | the inner `WHERE`: some column matched; used in Queries.SearchText |
| Queries.InsertByRank | db.py:210 | inserting into a rank-ordered list adds exactly one hit, keeps the others and stays ordered |
| Queries.InsertByRankPermutes | db.py:210 | an insertion is a permutation of the old rows plus the new hit: each row keeps its multiplicity |
| Queries.InsertByRankIds | db.py:210 | inserting adds the hit's id to the id set and no other |
| Queries.InsertByRankDistinct | db.py:210 | inserting a hit with a new id keeps ids distinct |
| Queries.SearchText | db.py:195-214 | every result is the history row of a matching joined row, with its three partial ranks and `rank = processed + 10·title + 5·headers`; every matching row appears exactly once; the results are in descending rank |

## Left out

- The FxA login, HKDF (`derive_key`), the token server and Hawk signing are external calls: their results (64 derived bytes, the token response) are parameters.
- HMAC-SHA256, AES-CBC and Base64 are parameters (`Codec.Primitives`), and so is JSON decoding (`json`, `parse`). Lemmas that need them to behave require `Codec.Sound` rather than proving anything about the algorithms.
- HTTP is a parameter. `Collections.Remote` gives listing and fetch results, and `Auth.Request` takes the GET as a function. The status checks of `Auth.Request` and `Auth.CheckedJson` are not composed with `Remote`: a failing status reaches Collections only as an error of `Remote`.
- config.ini reading and writing are modelled as the presence of `[hawk]`, an optional `[fxa]` section going in, and the `[fxa]` section written coming out. When the login branch runs it also writes `[hawk]`, whose contents (the token server's answer) are not modelled.
- `print` in sync.py is not modelled: `Sync.SyncRun` returns the two items instead.
- The generators in sync.py and utils.py are modelled as eager sequences. The error an item raises is the error of the whole pass, and later items are not fetched.
- `Collections.keys` and `Collections.items` in utils.py refer to an undefined name `path`, so they always raise NameError. They are not modelled.
- Database connections, cursors, the SQL text and driver exceptions are not modelled: tables are maps keyed by primary key. `db.login` is the `Database` constructor, given the tables as they stand.
- `TO_TIMESTAMP` is not modelled: timestamps are kept as their number of seconds.
- `ts_rank_cd`, `plainto_tsquery` and `@@` are given by the `score` parameter. Ties in rank are ordered arbitrarily by PostgreSQL, and the model only fixes descending rank.
- Db.ApplyParentsResult: when the same child appears in two deferred links, PostgreSQL's `UPDATE … FROM` picks one joined row unpredictably. The model applies the links in order, so the last link wins.
- Codec.StripPadding: the padding value is not checked against PKCS#7. The code only slices, so a zero count yields an empty plaintext, not a padding error.
- page_fetcher.py downloads the pages `get_history_for_text` selects and extracts their text with HTML parsers. Only the dictionary it hands to `insert_url_text` is modelled (Db.FetchedPageAsWritten). search.py reads the search terms from the command line and prints the results, and is not part of this model.
- Sync.FirstItem and Collections.CollectionItems: item paths come from `Collections.Path`, which leaves out `/<item>` for an empty id (utils.py:78-80). sync.py:101 always appends it, so for an empty listed id the model fetches `storage/<c>` where sync.py fetches `storage/<c>/`.
- Queries.LastHistoryTime: `max` over PostgreSQL timestamps is modelled on `real` seconds.

## Findings

| source | as written | input that shows it | evidently intended | confidence | as-written member | corrected member |
|---|---|---|---|---|---|---|
| db.py:149-150 | a missing comma fuses `'i.ebayimg.com'` and `'googleusercontent'` into one pattern, `i.ebayimg.comgoogleusercontent` | a history row with url `http://i.ebayimg.com/` and no page text is still selected for fetching | two separate patterns, so eBay image CDN links are skipped | not executed | Queries.EbayImageAdmitted | Queries.EbayImageRejected |
| page_fetcher.py:59-65 | the dictionary passed to `insert_url_text` has no `http_status`, which the statement reads with no default (db.py:166-179) | any page fetched with status 200: `insert_url_text` raises KeyError, which the `except psycopg2.OperationalError` does not catch | the fetcher passes `response.status_code` as `http_status` and the page is stored | not executed | Db.FetchedPageRefused | Db.FetchedPageStored |
