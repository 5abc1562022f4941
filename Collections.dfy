/** `Collections` and `Collection` in utils.py (and the equivalent
    `get_collection`/`get_item` and bootstrap loop of sync.py): fetching a
    collection's records through the storage API and installing the keys
    held by the reserved "crypto" collection. */
module Collections {
  import opened Common
  import opened KeyHierarchy
  import Codec
  import Auth

  /** The storage service as seen through `auth_request.request(path)`:
      `listing` is a collection's id list, `fetch` one object with its
      payload JSON-decoded (its errors cover HTTP, JSON and missing keys). */
  datatype Remote = Remote(listing: string -> Result<seq<string>>,
                           fetch: string -> Result<Codec.EncryptedRecord>)

  /** `Collection.path(item)`: `storage/{collection}`, followed by
      `/{item}` only when `item` is truthy (not `None`, not empty). */
  function Path(collection: string, item: Option<string>): (p: string)
    ensures item.None? || item == Some("") ==> p == "storage/" + collection
    ensures item.Some? && item.value != "" ==> p == "storage/" + collection + "/" + item.value
  {
    var base := "storage/" + collection;
    if item.Some? && item.value != "" then base + "/" + item.value else base
  }

  /** An item's path extends its collection's path by one segment. */
  lemma ItemPathExtendsCollectionPath(collection: string, item: string)
    requires item != ""
    ensures Path(collection, Some(item)) == Path(collection, None) + "/" + item
    ensures Path(collection, Some(item))[..|Path(collection, None)|] == Path(collection, None)
  {
  }

  /** `Collection.__getitem__(item)` up to the padding strip: fetch the
      object, then verify and decrypt it with the pair the hierarchy gives
      the collection. */
  function Plaintext(p: Codec.Primitives, remote: Remote, keys: KeyState, collection: string, item: string): (r: Result<Bytes>)
    ensures remote.fetch(Path(collection, Some(item))).Err? ==> r == Err(remote.fetch(Path(collection, Some(item))).error)
    ensures remote.fetch(Path(collection, Some(item))).Ok? ==>
              r == Codec.Decrypt(p, keys.Resolve(collection), remote.fetch(Path(collection, Some(item))).value)
  {
    match remote.fetch(Path(collection, Some(item)))
    case Err(e) => Err(e)
    case Ok(rec) => Codec.Decrypt(p, keys.Resolve(collection), rec)
  }

  /** `Collection.__getitem__(item)`: the plaintext, then `json.loads` of
      it; `json` is the decoder, failing with its own error. */
  function GetItem<J>(p: Codec.Primitives, remote: Remote, keys: KeyState, collection: string, item: string,
                      json: Bytes -> Result<J>): (r: Result<J>)
    ensures Plaintext(p, remote, keys, collection, item).Err? ==> r == Err(Plaintext(p, remote, keys, collection, item).error)
    ensures Plaintext(p, remote, keys, collection, item).Ok? ==> r == json(Plaintext(p, remote, keys, collection, item).value)
  {
    match Plaintext(p, remote, keys, collection, item)
    case Err(e) => Err(e)
    case Ok(m) => json(m)
  }

  /** The pairs `Collection.items()` yields for the ids `keys()` returned,
      in that order, stopping at the first item that raises; `get` is
      `Collection.__getitem__` of the collection. */
  function Items<J>(get: string -> Result<J>, ids: seq<string>): (r: Result<seq<(string, J)>>)
    ensures r.Ok? ==> |r.value| == |ids|
    ensures r.Ok? ==> forall j :: 0 <= j < |ids| ==> r.value[j].0 == ids[j] && get(ids[j]) == Ok(r.value[j].1)
    ensures r.Err? ==> exists j :: (0 <= j < |ids| && get(ids[j]) == Err(r.error) &&
              forall k :: 0 <= k < j ==> get(ids[k]).Ok?)
  {
    if ids == [] then Ok([])
    else match get(ids[0])
      case Err(e) => Err(e)
      case Ok(m) =>
        match Items(get, ids[1..])
        case Err(e) =>
          var j :| 0 <= j < |ids[1..]| && get(ids[1..][j]) == Err(e) &&
                   forall k :: 0 <= k < j ==> get(ids[1..][k]).Ok?;
          assert get(ids[j + 1]) == Err(e);
          Err(e)
        case Ok(rest) => Ok([(ids[0], m)] + rest)
  }

  /** sync.py's `get_collection(collection)`: list the collection, then
      yield the bare item `get_item` gives for each listed id, in order,
      stopping at the first that raises. */
  function CollectionItems<J>(p: Codec.Primitives, remote: Remote, keys: KeyState, collection: string,
                              json: Bytes -> Result<J>): (r: Result<seq<J>>)
    ensures remote.listing(Path(collection, None)).Err? ==> r == Err(remote.listing(Path(collection, None)).error)
    ensures remote.listing(Path(collection, None)).Ok? ==>
              var ids := remote.listing(Path(collection, None)).value;
              && (r.Ok? <==> forall i :: 0 <= i < |ids| ==> GetItem(p, remote, keys, collection, ids[i], json).Ok?)
              && (r.Ok? ==> |r.value| == |ids|)
              && (r.Ok? ==> forall i :: 0 <= i < |ids| ==> GetItem(p, remote, keys, collection, ids[i], json) == Ok(r.value[i]))
              && (r.Err? ==> exists j :: (0 <= j < |ids| && GetItem(p, remote, keys, collection, ids[j], json) == Err(r.error) &&
                                         forall k :: 0 <= k < j ==> GetItem(p, remote, keys, collection, ids[k], json).Ok?))
  {
    match remote.listing(Path(collection, None))
    case Err(e) => Err(e)
    case Ok(ids) =>
      var get := id => GetItem(p, remote, keys, collection, id, json);
      match Items(get, ids)
      case Err(e) =>
        var j :| 0 <= j < |ids| && get(ids[j]) == Err(e) && forall k :: 0 <= k < j ==> get(ids[k]).Ok?;
        Err(e)
      case Ok(pairs) => Ok(seq(|pairs|, i requires 0 <= i < |pairs| => pairs[i].1))
  }

  // ---------------------------------------------------------------------
  // The "crypto" bootstrap (`load_keypairs`)

  /** The decrypted `keys` record: `default` and `collections`, each `None`
      when the key is missing from the JSON object. */
  datatype CryptoKeys = CryptoKeys(default: Option<seq<string>>, collections: Option<seq<(string, seq<string>)>>)

  /** `list(map(b64decode, keypair))`: every entry decoded, or the first
      failure raises. */
  function DecodePair(p: Codec.Primitives, encoded: seq<string>): (r: Option<Pair>)
    ensures r.Some? <==> forall i :: 0 <= i < |encoded| ==> p.b64decode(encoded[i]).Some?
    ensures r.Some? ==> |r.value| == |encoded|
    ensures r.Some? ==> forall i :: 0 <= i < |encoded| ==> p.b64decode(encoded[i]) == Some(r.value[i])
  {
    if encoded == [] then Some([])
    else match (p.b64decode(encoded[0]), DecodePair(p, encoded[1..]))
      case (Some(b), Some(rest)) => Some([b] + rest)
      case (None, _) => None
      case (_, None) =>
        assert forall i :: 1 <= i < |encoded| ==> encoded[i] == encoded[1..][i - 1];
        None
  }

  /** What bootstrap has reached when it stops, and why it stopped. */
  datatype Step = Step(state: KeyState, error: Option<Error>)

  /** The inner loop: `keypairs[collection] = process_keypair(keypair)` for
      each entry in order; a failed decode raises after the earlier entries
      were installed. */
  function ApplyOverrides(p: Codec.Primitives, s: KeyState, entries: seq<(string, seq<string>)>): Step
    decreases |entries|
  {
    if entries == [] then Step(s, None)
    else match DecodePair(p, entries[0].1)
      case None => Step(s, Some(DecodeError))
      case Some(kp) => ApplyOverrides(p, s.(overrides := s.overrides[entries[0].0 := kp]), entries[1..])
  }

  /** The body of the outer loop for one crypto record, decrypted with the
      pair the hierarchy gives "crypto" at that moment; `parse` is
      `json.loads` of the plaintext into its `default` and `collections`. */
  function LoadRecord(p: Codec.Primitives, remote: Remote, parse: Bytes -> Result<CryptoKeys>, s: KeyState, id: string): Step
  {
    match GetItem(p, remote, s, "crypto", id, parse)
    case Err(e) => Step(s, Some(e))
    case Ok(keys) =>
      if keys.default.None? then Step(s, Some(MissingKey))
      else match DecodePair(p, keys.default.value)
        case None => Step(s, Some(DecodeError))
        case Some(d) =>
          var s' := s.(collectionDefault := Some(d));
          if keys.collections.None? then Step(s', Some(MissingKey))
          else ApplyOverrides(p, s', keys.collections.value)
  }

  /** The outer loop over the crypto ids. */
  function LoadAll(p: Codec.Primitives, remote: Remote, parse: Bytes -> Result<CryptoKeys>, s: KeyState, ids: seq<string>): Step
    decreases |ids|
  {
    if ids == [] then Step(s, None)
    else
      var st := LoadRecord(p, remote, parse, s, ids[0]);
      if st.error.Some? then st else LoadAll(p, remote, parse, st.state, ids[1..])
  }

  /** `load_keypairs()`: list "crypto", then load each of its records. */
  function Bootstrap(p: Codec.Primitives, remote: Remote, parse: Bytes -> Result<CryptoKeys>, s: KeyState): Step
  {
    match remote.listing(Path("crypto", None))
    case Err(e) => Step(s, Some(e))
    case Ok(ids) => LoadAll(p, remote, parse, s, ids)
  }

  function Names(entries: seq<(string, seq<string>)>): set<string>
  {
    set j | 0 <= j < |entries| :: entries[j].0
  }

  /** `Names(entries)` is the first name and the names of the rest. */
  lemma NamesCons(entries: seq<(string, seq<string>)>)
    requires entries != []
    ensures Names(entries) == {entries[0].0} + Names(entries[1..])
  {
    forall c | c in Names(entries) ensures c in {entries[0].0} + Names(entries[1..]) {
      var j :| 0 <= j < |entries| && entries[j].0 == c;
      if j > 0 { assert entries[1..][j - 1].0 == c; }
    }
  }

  /** The inner loop never touches the account pair or the collection
      default, nor the override of a name it does not mention. */
  lemma {:induction false} ApplyOverridesKeeps(p: Codec.Primitives, s: KeyState, entries: seq<(string, seq<string>)>)
    ensures ApplyOverrides(p, s, entries).state.account == s.account
    ensures ApplyOverrides(p, s, entries).state.collectionDefault == s.collectionDefault
    ensures forall c :: c !in Names(entries) ==>
              (c in ApplyOverrides(p, s, entries).state.overrides <==> c in s.overrides)
    ensures forall c :: c !in Names(entries) && c in s.overrides ==>
              c in ApplyOverrides(p, s, entries).state.overrides &&
              ApplyOverrides(p, s, entries).state.overrides[c] == s.overrides[c]
    decreases |entries|
  {
    if entries != [] {
      match DecodePair(p, entries[0].1)
      case None =>
      case Some(kp) =>
        ApplyOverridesKeeps(p, s.(overrides := s.overrides[entries[0].0 := kp]), entries[1..]);
        NamesCons(entries);
    }
  }

  /** The inner loop completes exactly when every entry decodes. */
  lemma {:induction false} ApplyOverridesCompletes(p: Codec.Primitives, s: KeyState, entries: seq<(string, seq<string>)>)
    ensures ApplyOverrides(p, s, entries).error.None? <==>
              forall j :: 0 <= j < |entries| ==> DecodePair(p, entries[j].1).Some?
    decreases |entries|
  {
    if entries != [] {
      match DecodePair(p, entries[0].1)
      case None =>
      case Some(kp) =>
        var s' := s.(overrides := s.overrides[entries[0].0 := kp]);
        ApplyOverridesCompletes(p, s', entries[1..]);
        if ApplyOverrides(p, s', entries[1..]).error.None? {
          forall j | 0 <= j < |entries| ensures DecodePair(p, entries[j].1).Some? {
            if j > 0 { assert entries[1..][j - 1] == entries[j]; }
          }
        } else {
          var k :| 0 <= k < |entries[1..]| && DecodePair(p, entries[1..][k].1).None?;
          assert DecodePair(p, entries[k + 1].1).None?;
        }
    }
  }

  /** When the inner loop completes, each name it mentions resolves to the
      decoded pair of its last entry. */
  lemma {:induction false} ApplyOverridesResolve(p: Codec.Primitives, s: KeyState, entries: seq<(string, seq<string>)>)
    ensures ApplyOverrides(p, s, entries).error.None? ==>
              forall j :: 0 <= j < |entries| && entries[j].0 !in Names(entries[j + 1..]) ==>
                DecodePair(p, entries[j].1) == Some(ApplyOverrides(p, s, entries).state.Resolve(entries[j].0))
    decreases |entries|
  {
    if entries != [] {
      match DecodePair(p, entries[0].1)
      case None =>
      case Some(kp) =>
        var s' := s.(overrides := s.overrides[entries[0].0 := kp]);
        ApplyOverridesResolve(p, s', entries[1..]);
        ApplyOverridesKeeps(p, s', entries[1..]);
        var st := ApplyOverrides(p, s', entries[1..]);
        forall j | 0 <= j < |entries| && entries[j].0 !in Names(entries[j + 1..]) && st.error.None?
          ensures DecodePair(p, entries[j].1) == Some(st.state.Resolve(entries[j].0))
        {
          if j > 0 {
            assert entries[1..][j - 1] == entries[j];
            assert entries[1..][j - 1 + 1..] == entries[j + 1..];
          } else {
            assert entries[0].0 !in Names(entries[1..]);
          }
        }
    }
  }

  /** Bootstrap never changes the account pair. */
  lemma {:induction false} LoadAllKeepsAccount(p: Codec.Primitives, remote: Remote, parse: Bytes -> Result<CryptoKeys>, s: KeyState, ids: seq<string>)
    ensures LoadAll(p, remote, parse, s, ids).state.account == s.account
    decreases |ids|
  {
    if ids != [] {
      var st := LoadRecord(p, remote, parse, s, ids[0]);
      assert st.state.account == s.account by {
        match GetItem(p, remote, s, "crypto", ids[0], parse)
        case Err(_) =>
        case Ok(keys) =>
          if keys.default.Some? && keys.collections.Some? && DecodePair(p, keys.default.value).Some? {
            ApplyOverridesKeeps(p, s.(collectionDefault := DecodePair(p, keys.default.value)), keys.collections.value);
          }
      }
      if st.error.None? {
        LoadAllKeepsAccount(p, remote, parse, st.state, ids[1..]);
      }
    }
  }

  /** When every record loads, the last record is loaded last: the final
      state is that record's load applied to the state the others reached. */
  lemma {:induction false} LoadAllLast(p: Codec.Primitives, remote: Remote, parse: Bytes -> Result<CryptoKeys>, s: KeyState, ids: seq<string>)
    requires ids != []
    requires LoadAll(p, remote, parse, s, ids).error.None?
    ensures LoadAll(p, remote, parse, s, ids[..|ids| - 1]).error.None?
    ensures LoadAll(p, remote, parse, s, ids) ==
              LoadRecord(p, remote, parse, LoadAll(p, remote, parse, s, ids[..|ids| - 1]).state, ids[|ids| - 1])
    decreases |ids|
  {
    if |ids| == 1 {
      LoadAllOne(p, remote, parse, s, ids);
    } else {
      LoadAllFirst(p, remote, parse, s, ids);
      var t := LoadRecord(p, remote, parse, s, ids[0]).state;
      var front, rest := ids[..|ids| - 1], ids[1..];
      LoadAllLast(p, remote, parse, t, rest);
      assert rest[..|rest| - 1] == front[1..] && rest[|rest| - 1] == ids[|ids| - 1];
      assert front != [] && front[0] == ids[0];
      LoadAllFirst(p, remote, parse, s, front);
      assert LoadAll(p, remote, parse, s, front) == LoadAll(p, remote, parse, t, front[1..]);
    }
  }

  /** Loading one record is that record's load. */
  lemma LoadAllOne(p: Codec.Primitives, remote: Remote, parse: Bytes -> Result<CryptoKeys>, s: KeyState, ids: seq<string>)
    requires |ids| == 1
    ensures LoadAll(p, remote, parse, s, ids[..0]) == Step(s, None)
    ensures LoadAll(p, remote, parse, s, ids) == LoadRecord(p, remote, parse, s, ids[0])
  {
    assert ids[..0] == [] && ids[1..] == [];
  }

  /** A load that gets past its first record continues from the state that
      record left. */
  lemma LoadAllFirst(p: Codec.Primitives, remote: Remote, parse: Bytes -> Result<CryptoKeys>, s: KeyState, ids: seq<string>)
    requires ids != []
    requires LoadRecord(p, remote, parse, s, ids[0]).error.None? || LoadAll(p, remote, parse, s, ids).error.None?
    ensures LoadRecord(p, remote, parse, s, ids[0]).error.None?
    ensures LoadAll(p, remote, parse, s, ids) == LoadAll(p, remote, parse, LoadRecord(p, remote, parse, s, ids[0]).state, ids[1..])
  {
  }

  /** A record that loads sets the collection default to its decoded
      `default` and installs its decoded `collections`, decrypted with the
      pair the hierarchy gave "crypto" before it. */
  lemma LoadRecordResult(p: Codec.Primitives, remote: Remote, parse: Bytes -> Result<CryptoKeys>, s: KeyState, id: string)
    requires LoadRecord(p, remote, parse, s, id).error.None?
    ensures GetItem(p, remote, s, "crypto", id, parse).Ok?
    ensures var keys := GetItem(p, remote, s, "crypto", id, parse);
            && keys.value.default.Some? && keys.value.collections.Some?
            && DecodePair(p, keys.value.default.value).Some?
            && LoadRecord(p, remote, parse, s, id) ==
                 ApplyOverrides(p, s.(collectionDefault := DecodePair(p, keys.value.default.value)), keys.value.collections.value)
            && LoadRecord(p, remote, parse, s, id).state.collectionDefault == DecodePair(p, keys.value.default.value)
  {
    var keys := GetItem(p, remote, s, "crypto", id, parse);
    ApplyOverridesKeeps(p, s.(collectionDefault := DecodePair(p, keys.value.default.value)), keys.value.collections.value);
  }

  /** On a fresh hierarchy the first crypto record is decrypted with the
      account pair. */
  lemma FirstRecordUsesAccountPair(p: Codec.Primitives, remote: Remote, e: Bytes, h: Bytes, id: string)
    ensures Plaintext(p, remote, Fresh(e, h), "crypto", id) ==
              (match remote.fetch(Path("crypto", Some(id)))
               case Err(err) => Err(err)
               case Ok(rec) => Codec.Decrypt(p, [e, h], rec))
  {
  }

  /** The bootstrap loop (`load_keypairs()`, and the loop at the end of
      sync.py): returns the exception it raises, if any; the hierarchy is
      left as far as the loop got, as in the source. */
  method BootstrapKeys(keypairs: KeyPairs, p: Codec.Primitives, remote: Remote, parse: Bytes -> Result<CryptoKeys>) returns (err: Option<Error>)
    modifies keypairs
    ensures Step(keypairs.State(), err) == Bootstrap(p, remote, parse, old(keypairs.State()))
  {
    var listing := remote.listing(Path("crypto", None));
    if listing.Err? {
      return Some(listing.error);
    }
    var ids := listing.value;
    ghost var s0 := keypairs.State();
    for i := 0 to |ids|
      invariant LoadAll(p, remote, parse, s0, ids) == LoadAll(p, remote, parse, keypairs.State(), ids[i..])
    {
      ghost var si := keypairs.State();
      var keys := GetItem(p, remote, keypairs.State(), "crypto", ids[i], parse);
      if keys.Err? {
        return Some(keys.error);
      }
      if keys.value.default.None? {
        return Some(MissingKey);
      }
      var d := DecodePair(p, keys.value.default.value);
      if d.None? {
        return Some(DecodeError);
      }
      keypairs.SetCollectionDefault(d.value);
      if keys.value.collections.None? {
        return Some(MissingKey);
      }
      var entries := keys.value.collections.value;
      ghost var s1 := keypairs.State();
      for j := 0 to |entries|
        invariant ApplyOverrides(p, s1, entries) == ApplyOverrides(p, keypairs.State(), entries[j..])
      {
        var kp := DecodePair(p, entries[j].1);
        if kp.None? {
          return Some(DecodeError);
        }
        keypairs.SetItem(entries[j].0, kp.value);
      }
      assert LoadRecord(p, remote, parse, si, ids[i]) == Step(keypairs.State(), None);
    }
    return None;
  }

  class Collections {
    const keypairs: KeyPairs
    const authRequest: Auth.AuthRequest

    /** `Collections.__init__` up to `load_keypairs()`. */
    constructor (authRequest: Auth.AuthRequest)
      ensures this.authRequest == authRequest && fresh(keypairs)
      ensures keypairs.State() == Fresh(authRequest.encryptionKey, authRequest.hmacKey)
    {
      this.authRequest := authRequest;
      keypairs := new KeyPairs(authRequest.encryptionKey, authRequest.hmacKey);
    }

    /** `load_keypairs()`. */
    method LoadKeypairs(p: Codec.Primitives, remote: Remote, parse: Bytes -> Result<CryptoKeys>) returns (err: Option<Error>)
      modifies keypairs
      ensures Step(keypairs.State(), err) == Bootstrap(p, remote, parse, old(keypairs.State()))
    {
      err := BootstrapKeys(keypairs, p, remote, parse);
    }
  }

  /** `Collections(auth_request)`: a fresh hierarchy, then bootstrap. */
  method OpenCollections(authRequest: Auth.AuthRequest, p: Codec.Primitives, remote: Remote, parse: Bytes -> Result<CryptoKeys>)
    returns (c: Collections, err: Option<Error>)
    ensures fresh(c) && fresh(c.keypairs) && c.authRequest == authRequest
    ensures Step(c.keypairs.State(), err) ==
              Bootstrap(p, remote, parse, Fresh(authRequest.encryptionKey, authRequest.hmacKey))
  {
    c := new Collections(authRequest);
    err := c.LoadKeypairs(p, remote, parse);
  }
}
