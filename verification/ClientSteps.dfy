/** The client class moves as the protocol does: its critical sections are steps of the protocol. */
module ClientSteps {
  import opened Flights
  import opened ModdbModels
  import opened Options
  import opened SharedCache

  /** The client's caches are those of the protocol state. */
  ghost predicate Shows(client: Client, s: State)
    reads client
  {
    forall k :: client.At(k) == Holds(s.cache, k)
  }

  /** Lists are kept under list keys and details under details keys. */
  predicate RightKind(key: Key, value: Value) { key.ModKey? <==> value.Single? }

  /** A caller's check: what the client answers is what the protocol's caller gets. */
  method CheckCache(client: Client, key: Key, now: int, ghost s: State, ghost c: nat, ghost up: Upstream)
    returns (answer: Option<Value>, stale: seq<Mod>)
    requires Shows(client, s) && now == s.now && Enabled(s, Check(c, key), up)
    ensures var caller := Apply(s, Check(c, key), up).callers[c];
            match answer
            case Some(v) =>
              key in s.cache && s.cache[key].value == v && caller == Finished(key, now, Fresh(s.cache[key]))
            case None => caller == Missed(key, now, |s.log|, stale)
  {
    assert client.At(key) == Holds(s.cache, key);
    match key
    case Catalog =>
      var hit, items := client.CheckList(now);
      if hit { return Some(Listing(items)), []; }
      return None, items;
    case ForGameVersion(param) =>
      var hit, items := client.CheckForGameVersion(param, now);
      if hit { return Some(Listing(items)), []; }
      return None, items;
    case ModKey(id) =>
      var hit, details := client.CheckDetails(id, now);
      if hit { return Some(Single(details.value)), []; }
      return None, [];
  }

  /** A flight's write: the client's caches change as those of the protocol. */
  method WriteThrough(client: Client, key: Key, value: Value, now: int,
                      ghost s: State, ghost f: nat, ghost up: Upstream)
    requires Shows(client, s) && now == s.now && Enabled(s, WriteCache(f), up)
    requires s.flights[f].key == key && s.flights[f].phase.value == value && RightKind(key, value)
    modifies client
    ensures Shows(client, Apply(s, WriteCache(f), up))
  {
    ghost var w := Write(key, value, s.flights[f].phase.repliedAt, now);
    forall k ensures Holds(Store(s.cache, w), k) == After(Holds(s.cache, k), k, key, value, now) {
      StoreIsAfter(s.cache, w, k);
    }
    assert forall k :: client.At(k) == Holds(s.cache, k);
    match key
    case Catalog => client.StoreCatalog(value.mods, now);
    case ForGameVersion(param) => client.StoreForGameVersion(param, value.mods, now);
    case ModKey(id) => client.StoreDetails(id, value.details, now);
  }

  /** A new client shows the initial state of the protocol. */
  method NewClient(now: int) returns (client: Client)
    ensures fresh(client) && Shows(client, Init(now))
  {
    client := new Client();
  }
}
