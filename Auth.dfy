/** Key material and the authenticated request helper: `login` and
    `AuthRequest` in auth.py, and the key handling at the top of sync.py.
    The FxA login, HKDF (`derive_key`), the token server and Hawk signing are
    external; their outputs are parameters. */
module Auth {
  import opened Common
  import Hex

  /** `keys[0:32]` and `keys[32:64]` with Python's clamping slices. */
  function SplitKeys(keys: Bytes): (r: (Bytes, Bytes))
    ensures |keys| == 64 ==> |r.0| == 32 && |r.1| == 32 && r.0 + r.1 == keys
    ensures r.0 <= keys && |r.0| + |r.1| == if |keys| <= 64 then |keys| else 64
  {
    (Slice(keys, 0, 32), Slice(keys, 32, 64))
  }

  /** The token server's answer, as far as `login` reads it. */
  datatype HawkResp = HawkResp(uid: string, hashalg: string, apiEndpoint: string, duration: int,
                               key: string, hashedFxaUid: string, id: string)

  /** The dictionary `login` returns. */
  datatype LoginResp = LoginResp(
    hawkResp: HawkResp, hawkUid: string, hawkHashalg: string, hawkApiEndpoint: string,
    hawkDuration: int, hawkKey: string, hawkHashedFxaUid: string, hawkId: string,
    encryptionKey: string, hmacKey: string)

  /** `login(user)` given the 64 bytes `derive_key` produced and the token
      server's answer. */
  function Login(derived: Bytes, hawk: HawkResp): (r: LoginResp)
    ensures r.hawkResp == hawk && r.hawkUid == hawk.uid && r.hawkHashalg == hawk.hashalg
    ensures r.hawkApiEndpoint == hawk.apiEndpoint && r.hawkDuration == hawk.duration
    ensures r.hawkKey == hawk.key && r.hawkHashedFxaUid == hawk.hashedFxaUid && r.hawkId == hawk.id
    ensures |derived| == 64 ==> Hex.FromHex(r.encryptionKey) == Some(derived[..32])
    ensures |derived| == 64 ==> Hex.FromHex(r.hmacKey) == Some(derived[32..])
  {
    var (encryptionKey, hmacKey) := SplitKeys(derived);
    Hex.FromHexToHex(encryptionKey);
    Hex.FromHexToHex(hmacKey);
    LoginResp(hawk, hawk.uid, hawk.hashalg, hawk.apiEndpoint, hawk.duration, hawk.key,
              hawk.hashedFxaUid, hawk.id, Hex.ToHex(encryptionKey), Hex.ToHex(hmacKey))
  }

  /** An `AuthRequest`: its fields are assigned once and never changed. */
  datatype AuthRequest = AuthRequest(encryptionKey: Bytes, hmacKey: Bytes, userId: string,
                                     endpoint: string, hawkId: string, hawkKey: string)

  /** `AuthRequest(login_resp)`: `bytes.fromhex` raises on a malformed key. */
  function NewAuthRequest(resp: LoginResp): (r: Result<AuthRequest>)
    ensures r.Ok? <==> Hex.FromHex(resp.encryptionKey).Some? && Hex.FromHex(resp.hmacKey).Some?
    ensures r.Err? ==> r.error == DecodeError
    ensures r.Ok? ==> Some(r.value.encryptionKey) == Hex.FromHex(resp.encryptionKey)
    ensures r.Ok? ==> Some(r.value.hmacKey) == Hex.FromHex(resp.hmacKey)
    ensures r.Ok? ==> r.value.userId == resp.hawkUid && r.value.endpoint == resp.hawkApiEndpoint
    ensures r.Ok? ==> r.value.hawkId == resp.hawkId && r.value.hawkKey == resp.hawkKey
  {
    match (Hex.FromHex(resp.encryptionKey), Hex.FromHex(resp.hmacKey))
    case (Some(e), Some(h)) =>
      Ok(AuthRequest(e, h, resp.hawkUid, resp.hawkApiEndpoint, resp.hawkId, resp.hawkKey))
    case _ => Err(DecodeError)
  }

  /** The request object built from a login holds exactly the derived keys
      and the token server's identity and endpoint. */
  lemma {:induction false} LoginThenAuthRequest(derived: Bytes, hawk: HawkResp)
    requires |derived| == 64
    ensures NewAuthRequest(Login(derived, hawk)) ==
              Ok(AuthRequest(derived[..32], derived[32..], hawk.uid, hawk.apiEndpoint, hawk.id, hawk.key))
  {
    var resp := Login(derived, hawk);
    assert Hex.FromHex(resp.encryptionKey) == Some(derived[..32]);
    assert Hex.FromHex(resp.hmacKey) == Some(derived[32..]);
  }

  /** The URL `request(path)` fetches. */
  function RequestUrl(req: AuthRequest, path: string): (url: string)
    ensures |url| == |req.endpoint| + 1 + |path|
    ensures url[..|req.endpoint|] == req.endpoint && url[|req.endpoint|] == '/'
    ensures url[|req.endpoint| + 1..] == path
  {
    req.endpoint + "/" + path
  }

  /** A response: its status code and its body, `None` when it is not JSON. */
  datatype Response<T> = Response(status: int, json: Option<T>)

  /** `raise_for_status()` raises for every 4xx and 5xx status. */
  predicate IsErrorStatus(status: int)
  {
    400 <= status < 600
  }

  /** `request(path)`: the status is checked before the body is parsed;
      `get` is the signed HTTP GET. */
  function Request<T>(req: AuthRequest, path: string, get: string -> Response<T>): (r: Result<T>)
    ensures IsErrorStatus(get(RequestUrl(req, path)).status) ==> r == Err(StatusError)
    ensures r.Ok? <==> !IsErrorStatus(get(RequestUrl(req, path)).status) && get(RequestUrl(req, path)).json.Some?
    ensures r.Ok? ==> get(RequestUrl(req, path)).json == Some(r.value)
  {
    var resp := get(RequestUrl(req, path));
    if IsErrorStatus(resp.status) then Err(StatusError)
    else if resp.json.None? then Err(TransportError)
    else Ok(resp.json.value)
  }

  /** sync.py's `get_collection` and `get_item` assert status 200 exactly,
      then parse the body. */
  function CheckedJson<T>(resp: Response<T>): (r: Result<T>)
    ensures resp.status != 200 ==> r == Err(StatusError)
    ensures r.Ok? <==> resp.status == 200 && resp.json.Some?
    ensures r.Ok? ==> resp.json == Some(r.value)
  {
    if resp.status != 200 then Err(StatusError)
    else if resp.json.None? then Err(TransportError)
    else Ok(resp.json.value)
  }

  /** The `[fxa]` section of config.ini; either key may be absent from a
      hand-edited file. */
  datatype FxaSection = FxaSection(encryptionKey: Option<string>, hmacKey: Option<string>)

  /** The module-level key setup of sync.py. When config.ini lacks the
      `[hawk]` section (`hasHawk` false) or the `[fxa]` section (`stored`
      `None`), the account is logged in again: the derived keys are split and
      both sections are written, `[fxa]` with the keys' hex. Otherwise the
      keys are read back from `[fxa]` with `bytes.fromhex`, the encryption
      key first: a missing key raises KeyError, a malformed one ValueError.
      Returns the keys and the `[fxa]` section written, if any. */
  function SyncKeys(hasHawk: bool, stored: Option<FxaSection>, derived: Bytes): (r: Result<(Bytes, Bytes, Option<FxaSection>)>)
    ensures !hasHawk || stored.None? ==>
              && r.Ok? && r.value.2.Some? && (r.value.0, r.value.1) == SplitKeys(derived)
              && r.value.2.value.encryptionKey.Some? && r.value.2.value.hmacKey.Some?
              && Hex.FromHex(r.value.2.value.encryptionKey.value) == Some(r.value.0)
              && Hex.FromHex(r.value.2.value.hmacKey.value) == Some(r.value.1)
    ensures hasHawk && stored.Some? ==>
              (r.Ok? <==> && stored.value.encryptionKey.Some? && stored.value.hmacKey.Some?
                          && Hex.FromHex(stored.value.encryptionKey.value).Some?
                          && Hex.FromHex(stored.value.hmacKey.value).Some?)
    ensures hasHawk && stored.Some? && r.Ok? ==>
              && r.value.2.None?
              && Hex.FromHex(stored.value.encryptionKey.value) == Some(r.value.0)
              && Hex.FromHex(stored.value.hmacKey.value) == Some(r.value.1)
    ensures hasHawk && stored.Some? && stored.value.encryptionKey.None? ==> r == Err(MissingKey)
    ensures hasHawk && stored.Some? && stored.value.encryptionKey.Some? ==>
              && (Hex.FromHex(stored.value.encryptionKey.value).None? ==> r == Err(DecodeError))
              && (Hex.FromHex(stored.value.encryptionKey.value).Some? && stored.value.hmacKey.None? ==> r == Err(MissingKey))
    ensures r.Err? && r.error == MissingKey ==> hasHawk && stored.Some?
    ensures r.Err? ==> r.error == DecodeError || r.error == MissingKey
  {
    if !hasHawk || stored.None? then
      var (e, h) := SplitKeys(derived);
      Hex.FromHexToHex(e);
      Hex.FromHexToHex(h);
      Ok((e, h, Some(FxaSection(Some(Hex.ToHex(e)), Some(Hex.ToHex(h))))))
    else
      match stored.value.encryptionKey
      case None => Err(MissingKey)
      case Some(es) =>
        match Hex.FromHex(es)
        case None => Err(DecodeError)
        case Some(e) =>
          match stored.value.hmacKey
          case None => Err(MissingKey)
          case Some(hs) =>
            match Hex.FromHex(hs)
            case None => Err(DecodeError)
            case Some(h) => Ok((e, h, None))
  }

  /** A later run that finds both sections an earlier login wrote gets the
      same two keys that login derived. */
  lemma {:induction false} SyncKeysPersist(hasHawk: bool, stored: Option<FxaSection>, derived: Bytes, other: Bytes)
    requires !hasHawk || stored.None?
    ensures SyncKeys(hasHawk, stored, derived).Ok?
    ensures var first := SyncKeys(hasHawk, stored, derived).value;
            SyncKeys(true, first.2, other) == Ok((first.0, first.1, None))
  {
    var first := SyncKeys(hasHawk, stored, derived).value;
    assert Hex.FromHex(first.2.value.encryptionKey.value) == Some(first.0);
    assert Hex.FromHex(first.2.value.hmacKey.value) == Some(first.1);
  }
}
