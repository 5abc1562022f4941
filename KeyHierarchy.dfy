/** `AES_HMAC_KeyPairs` (utils.py, copied in sync.py): the key pair used for
    a collection is its own override if one was installed, else the
    collection default once one was set, else the account pair. */
module KeyHierarchy {
  import opened Common

  /** A key pair as the source holds it: the account pair is the tuple
      `(e, h)`, every other pair the list built by `list(map(b64decode, …))`,
      so its length is only checked where it is unpacked. */
  type Pair = seq<Bytes>

  /** The three lookup sources, as a value. */
  datatype KeyState = KeyState(account: Pair, collectionDefault: Option<Pair>, overrides: map<string, Pair>)
  {
    /** `get_collection_default`. */
    function CollectionDefault(): Pair
    {
      if collectionDefault.Some? then collectionDefault.value else account
    }

    /** `__getitem__`: total, it never raises. */
    function Resolve(c: string): Pair
    {
      if c in overrides then overrides[c] else CollectionDefault()
    }
  }

  /** The state right after `AES_HMAC_KeyPairs(e, h)`. */
  function Fresh(e: Bytes, h: Bytes): (s: KeyState)
    ensures forall c :: s.Resolve(c) == [e, h]
  {
    KeyState([e, h], None, map[])
  }

  /** Without an override, lookup gives the collection default when one was
      set and the account pair otherwise. */
  lemma ResolveFallback(s: KeyState, c: string)
    requires c !in s.overrides
    ensures s.collectionDefault.Some? ==> s.Resolve(c) == s.collectionDefault.value
    ensures s.collectionDefault.None? ==> s.Resolve(c) == s.account
  {
  }

  /** An override wins over any collection default, and replaces an earlier
      override of the same name; every other name resolves as before. */
  lemma ResolveOverride(s: KeyState, c: string, p: Pair, d: Option<Pair>)
    ensures s.(overrides := s.overrides[c := p]).Resolve(c) == p
    ensures s.(overrides := s.overrides[c := p], collectionDefault := d).Resolve(c) == p
    ensures forall c' :: c' != c ==> s.(overrides := s.overrides[c := p]).Resolve(c') == s.Resolve(c')
  {
  }

  class KeyPairs {
    /** `account_keypair`, assigned once by the constructor. */
    const accountKeypair: Pair
    /** `collection_keys`. */
    var collectionKeys: map<string, Pair>
    /** `collection_keypair`; `None` until `set_collection_default`. */
    var collectionKeypair: Option<Pair>

    /** The object's state as a value. */
    function State(): KeyState
      reads this
    {
      KeyState(accountKeypair, collectionKeypair, collectionKeys)
    }

    constructor (e: Bytes, h: Bytes)
      ensures State() == Fresh(e, h)
    {
      accountKeypair := [e, h];
      collectionKeys := map[];
      collectionKeypair := None;
    }

    method SetCollectionDefault(pair: Pair)
      modifies this`collectionKeypair
      ensures State() == old(State()).(collectionDefault := Some(pair))
      ensures forall c :: c !in collectionKeys ==> Get(c) == pair
      ensures forall c :: c in collectionKeys ==> Get(c) == old(Get(c))
    {
      collectionKeypair := Some(pair);
    }

    function GetAccountDefault(): (r: Pair)
      ensures r == accountKeypair
    {
      accountKeypair
    }

    function GetCollectionDefault(): (r: Pair)
      reads this
      ensures r == State().CollectionDefault()
    {
      if collectionKeypair.Some? then collectionKeypair.value else accountKeypair
    }

    /** `keypairs[key] = val`. */
    method SetItem(key: string, val: Pair)
      modifies this`collectionKeys
      ensures State() == old(State()).(overrides := old(collectionKeys)[key := val])
      ensures Get(key) == val
      ensures forall c :: c != key ==> Get(c) == old(Get(c))
    {
      collectionKeys := collectionKeys[key := val];
    }

    /** `keypairs[key]`. */
    function Get(key: string): (r: Pair)
      reads this
      ensures r == State().Resolve(key)
    {
      if key in collectionKeys then collectionKeys[key] else GetCollectionDefault()
    }
  }
}
