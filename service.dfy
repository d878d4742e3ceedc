/**
  The HTTP side of the fee manager: the shared registry (`Config.db`
  behind the `SharedState` lock), the three handlers on it, the
  healthcheck and the classifier for middleware errors.

  Requests are modelled one at a time: the registry is an object whose
  map the write handler replaces, and each handler runs to completion
  before the next one starts.
*/
module Service {
  import opened RustStr
  import opened Mev

  const OK: int := 200
  const BAD_REQUEST: int := 400
  const NOT_FOUND: int := 404
  const REQUEST_TIMEOUT: int := 408
  const INTERNAL_SERVER_ERROR: int := 500
  const SERVICE_UNAVAILABLE: int := 503

  /** `ContentLengthLimit<String, { 1024 * 5_000 }>`: the largest accepted body, in bytes. */
  const MAX_BODY_BYTES: nat := 1024 * 5_000

  const INSERTED := "Inserted"
  const LIVE := "Application is live"
  const TIMED_OUT := "request timed out"
  const OVERLOADED := "service is overloaded, try again later"
  const UNHANDLED := "Unhandled internal error: "

  /**
    What a request to a handler ends in: a 200 response with a text body,
    the handler's own error status, a rejection by one of axum's
    extractors before the handler body runs (its status is chosen by
    axum and not modelled), or a panic of the task.
  */
  datatype Reply = Text(body: string) | Status(code: int) | Rejected | Panicked

  /** The registry: `Config { db: HashMap<BLSPubkey, Eth1Address> }`. */
  class Registry {
    var db: map<BlsPubkey, Eth1Address>

    /** Every pair in the map passed validation when it was inserted. */
    ghost predicate Valid()
      reads this
    {
      forall k :: k in db ==> IsPubkey(k) && IsAddress(db[k])
    }

    /** `SharedState::default()`: the registry starts empty. */
    constructor ()
      ensures Valid() && db == map[]
    {
      db := map[];
    }

    /** `db.get(&pubkey)`. */
    method Get(key: BlsPubkey) returns (r: Option<Eth1Address>)
      ensures r.Some? <==> key in db
      ensures r.Some? ==> r.value == db[key]
    {
      if key in db {
        r := Some(db[key]);
      } else {
        r := None;
      }
    }

    /** `db.insert(pubkey, eth1address)`: adds the pair or overwrites the old address. */
    method Set(key: BlsPubkey, value: Eth1Address)
      requires Valid() && IsPubkey(key) && IsAddress(value)
      modifies this
      ensures Valid()
      ensures db == old(db)[key := value]
    {
      db := db[key := value];
    }

    /** `db.clone()`: a copy of the whole map as it is now. */
    method Snapshot() returns (m: map<BlsPubkey, Eth1Address>)
      ensures m == db
    {
      m := db;
    }
  }

  /** `healthcheck`: a constant answer that never looks at the registry. */
  function Healthcheck(): (r: string)
    ensures r == "Application is live"
  {
    LIVE
  }

  /** `GET /api/pubkey/:pubkey`. */
  method PubkeyGet(path: string, state: Registry) returns (reply: Reply)
    ensures BlsPubkeyFromStr(path).Err? ==> reply == Rejected
    ensures BlsPubkeyFromStr(path) == Panic ==> reply == Panicked
    ensures BlsPubkeyFromStr(path).Ok? ==>
      var k := BlsPubkeyFromStr(path).value;
      (k in state.db ==> reply == Text(Display(state.db[k])))
      && (k !in state.db ==> reply == Status(NOT_FOUND))
  {
    match BlsPubkeyFromStr(path)
    case Err(_) =>
      reply := Rejected;
    case Panic =>
      reply := Panicked;
    case Ok(pubkey) =>
      var value := state.Get(pubkey);
      if value.Some? {
        reply := Text(Display(value.value));
      } else {
        reply := Status(NOT_FOUND);
      }
  }

  /**
    `POST /api/pubkey/:pubkey`. The path key is extracted first, then the
    body length is checked, and only then is the body validated as an
    address; nothing is written unless both conversions succeed.
  */
  method PubkeySet(path: string, body: string, state: Registry) returns (reply: Reply)
    requires state.Valid()
    modifies state
    ensures state.Valid()
    ensures BlsPubkeyFromStr(path).Err? ==> reply == Rejected && state.db == old(state.db)
    ensures BlsPubkeyFromStr(path) == Panic ==> reply == Panicked && state.db == old(state.db)
    ensures BlsPubkeyFromStr(path).Ok? && ByteLen(body) > MAX_BODY_BYTES ==>
      reply == Rejected && state.db == old(state.db)
    ensures BlsPubkeyFromStr(path).Ok? && ByteLen(body) <= MAX_BODY_BYTES ==>
      match Eth1AddressFromString(body)
      case Ok(a) => reply == Text(INSERTED) && state.db == old(state.db)[BlsPubkeyFromStr(path).value := a]
      case Err(_) => reply == Status(BAD_REQUEST) && state.db == old(state.db)
      case Panic => reply == Panicked && state.db == old(state.db)
    ensures forall k :: k in old(state.db) && BlsPubkeyFromStr(path) != Ok(k) ==>
      k in state.db && state.db[k] == old(state.db)[k]
    ensures forall k :: k in state.db && k !in old(state.db) ==> BlsPubkeyFromStr(path) == Ok(k)
    ensures |state.db| <= |old(state.db)| + 1
  {
    match BlsPubkeyFromStr(path)
    case Err(_) =>
      reply := Rejected;
    case Panic =>
      reply := Panicked;
    case Ok(pubkey) =>
      if ByteLen(body) > MAX_BODY_BYTES {
        reply := Rejected;
      } else {
        match Eth1AddressFromString(body)
        case Ok(address) =>
          Eth1AddressConversionsAgree(body);
          state.Set(pubkey, address);
          assert state.db.Keys == old(state.db).Keys + {pubkey};
          reply := Text(INSERTED);
        case Err(_) =>
          reply := Status(BAD_REQUEST);
        case Panic =>
          reply := Panicked;
      }
  }

  /** `GET /api/mev`: the whole registry as it is at the time of the call. */
  method ListMev(state: Registry) returns (m: map<BlsPubkey, Eth1Address>)
    requires state.Valid()
    ensures m == state.db
    ensures forall k :: k in m ==>
      StartsWith0x(k.key) && Lower(k.key) == k.key
      && StartsWith0x(m[k].address) && Lower(m[k].address) == m[k].address
  {
    m := state.Snapshot();
    forall k | k in m
      ensures StartsWith0x(k.key) && Lower(k.key) == k.key
      ensures StartsWith0x(m[k].address) && Lower(m[k].address) == m[k].address
    {
      AcceptedPubkeyIsNormalized(k);
      AcceptedAddressIsNormalized(m[k]);
    }
  }

  /** The error kinds the middleware stack can produce. */
  datatype MiddlewareError =
    | Elapsed                      // tower::timeout::error::Elapsed
    | Overloaded                   // tower::load_shed::error::Overloaded
    | Other(description: string)   // any other boxed error, by its Display text

  /** `handle_error`: the status and message sent for a middleware error. */
  function HandleError(error: MiddlewareError): (r: (int, string))
    ensures r.0 == REQUEST_TIMEOUT <==> error == Elapsed
    ensures r.0 == SERVICE_UNAVAILABLE <==> error == Overloaded
    ensures r.0 == INTERNAL_SERVER_ERROR <==> error.Other?
    ensures error == Elapsed ==> r.1 == "request timed out"
    ensures error == Overloaded ==> r.1 == "service is overloaded, try again later"
    ensures error.Other? ==> r.1 == "Unhandled internal error: " + error.description
  {
    if error == Elapsed then (REQUEST_TIMEOUT, TIMED_OUT)
    else if error == Overloaded then (SERVICE_UNAVAILABLE, OVERLOADED)
    else (INTERNAL_SERVER_ERROR, UNHANDLED + error.description)
  }

  /** Every middleware error is answered with a distinct server- or client-error status. */
  lemma HandleErrorStatusIsError(e1: MiddlewareError, e2: MiddlewareError)
    ensures 400 <= HandleError(e1).0 < 600
    ensures HandleError(e1).0 == HandleError(e2).0 <==>
      (e1.Other? && e2.Other?) || e1 == e2
  {
  }

  /**
    After a successful write, reading the same key answers with the
    lowercased body.
  */
  method SetThenGet(path: string, body: string, state: Registry) returns (reply: Reply)
    requires state.Valid()
    requires BlsPubkeyFromStr(path).Ok? && ByteLen(body) <= MAX_BODY_BYTES
    requires Eth1AddressFromStr(body).Ok? && IsAscii(body)
    modifies state
    ensures state.Valid()
    ensures reply == Text(Lower(body))
  {
    Eth1AddressConversionsAgree(body);
    var written := PubkeySet(path, body, state);
    assert written == Text(INSERTED);
    reply := PubkeyGet(path, state);
  }

  /** A key that was never written is not found. */
  method GetOnFreshRegistry(path: string) returns (reply: Reply)
    requires BlsPubkeyFromStr(path).Ok?
    ensures reply == Status(NOT_FOUND)
  {
    var state := new Registry();
    reply := PubkeyGet(path, state);
  }

  /**
    Two successful writes to keys that differ after normalization, on a
    fresh registry, are listed as exactly those two pairs; a listing taken
    between them keeps showing only the first.
  */
  method TwoWritesThenList(path1: string, body1: string, path2: string, body2: string)
    returns (between: map<BlsPubkey, Eth1Address>, after: map<BlsPubkey, Eth1Address>)
    requires BlsPubkeyFromStr(path1).Ok? && BlsPubkeyFromStr(path2).Ok?
    requires IsAscii(path1) && IsAscii(path2) && Lower(path1) != Lower(path2)
    requires Eth1AddressFromStr(body1).Ok? && Eth1AddressFromStr(body2).Ok?
    requires IsAscii(body1) && IsAscii(body2)
    requires ByteLen(body1) <= MAX_BODY_BYTES && ByteLen(body2) <= MAX_BODY_BYTES
    ensures var k1, k2 := BlsPubkeyFromStr(path1).value, BlsPubkeyFromStr(path2).value;
      var a1, a2 := Eth1AddressFromStr(body1).value, Eth1AddressFromStr(body2).value;
      between == map[k1 := a1] && after == map[k1 := a1, k2 := a2] && |after| == 2
  {
    Eth1AddressConversionsAgree(body1);
    Eth1AddressConversionsAgree(body2);
    var state := new Registry();
    var r1 := PubkeySet(path1, body1, state);
    between := ListMev(state);
    var r2 := PubkeySet(path2, body2, state);
    after := ListMev(state);
  }
}
