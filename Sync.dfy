/** The script sync.py as one run: obtain the two account keys, build the
    hierarchy, bootstrap it from "crypto", then read the first bookmark and
    the first history item. Printing is not modelled; the items read are
    returned instead. */
module Sync {
  import opened Common
  import opened KeyHierarchy
  import opened Collections
  import Codec
  import Auth

  /** `for x in get_collection(c): …; break`: the first decrypted and
      decoded item, `None` when the listing is empty. */
  function FirstItem<J>(p: Codec.Primitives, remote: Remote, keys: KeyState, collection: string,
                        json: Bytes -> Result<J>): (r: Result<Option<J>>)
    ensures remote.listing(Path(collection, None)).Err? ==> r == Err(remote.listing(Path(collection, None)).error)
    ensures remote.listing(Path(collection, None)) == Ok([]) ==> r == Ok(None)
    ensures r.Ok? && r.value.Some? ==>
              && remote.listing(Path(collection, None)).Ok?
              && |remote.listing(Path(collection, None)).value| > 0
              && GetItem(p, remote, keys, collection, remote.listing(Path(collection, None)).value[0], json) == Ok(r.value.value)
    ensures remote.listing(Path(collection, None)).Ok? && |remote.listing(Path(collection, None)).value| > 0 ==>
              var first := GetItem(p, remote, keys, collection, remote.listing(Path(collection, None)).value[0], json);
              && (first.Err? ==> r == Err(first.error))
              && (first.Ok? ==> r == Ok(Some(first.value)))
  {
    match remote.listing(Path(collection, None))
    case Err(e) => Err(e)
    case Ok(ids) =>
      if ids == [] then Ok(None)
      else match GetItem(p, remote, keys, collection, ids[0], json)
        case Err(e) => Err(e)
        case Ok(m) => Ok(Some(m))
  }

  /** One run of sync.py. Bootstrap completes before either collection is
      read, so both are decrypted with the hierarchy bootstrap produced. */
  method SyncRun<J>(p: Codec.Primitives, remote: Remote, parse: Bytes -> Result<CryptoKeys>, json: Bytes -> Result<J>,
                    hasHawk: bool, stored: Option<Auth.FxaSection>, derived: Bytes)
    returns (keypairs: KeyPairs?, err: Option<Error>, bookmark: Option<J>, historyItem: Option<J>)
    ensures Auth.SyncKeys(hasHawk, stored, derived).Err? ==>
              keypairs == null && err == Some(Auth.SyncKeys(hasHawk, stored, derived).error)
    ensures Auth.SyncKeys(hasHawk, stored, derived).Ok? ==>
              var (e, h, _) := Auth.SyncKeys(hasHawk, stored, derived).value;
              var boot := Bootstrap(p, remote, parse, Fresh(e, h));
              && keypairs != null && fresh(keypairs)
              && keypairs.State() == boot.state
              && (boot.error.Some? ==> err == boot.error && bookmark.None? && historyItem.None?)
              && (boot.error.None? ==>
                    var b := FirstItem(p, remote, boot.state, "bookmarks", json);
                    var hi := FirstItem(p, remote, boot.state, "history", json);
                    if b.Err? then err == Some(b.error) && bookmark.None? && historyItem.None?
                    else bookmark == b.value &&
                         (if hi.Err? then err == Some(hi.error) && historyItem.None?
                          else err.None? && historyItem == hi.value))
  {
    bookmark, historyItem := None, None;
    var keys := Auth.SyncKeys(hasHawk, stored, derived);
    if keys.Err? {
      return null, Some(keys.error), None, None;
    }
    var (e, h, _) := keys.value;
    keypairs := new KeyPairs(e, h);
    err := BootstrapKeys(keypairs, p, remote, parse);
    if err.Some? {
      return;
    }
    var b := FirstItem(p, remote, keypairs.State(), "bookmarks", json);
    if b.Err? {
      err := Some(b.error);
      return;
    }
    bookmark := b.value;
    var hi := FirstItem(p, remote, keypairs.State(), "history", json);
    if hi.Err? {
      err := Some(hi.error);
      return;
    }
    historyItem := hi.value;
  }
}
