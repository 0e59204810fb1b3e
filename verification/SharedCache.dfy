/**
 The caches of moddb.Client: what they hold, when they answer and what a successful fetch writes.
 The class is the source's client with the critical sections of its mutex as methods.
 */
module SharedCache {
  import opened ModdbModels
  import opened Options

  /** The three kinds of upstream request, which are also the singleflight keys. */
  datatype Key = Catalog | ForGameVersion(param: string) | ModKey(id: string)

  datatype Value = Listing(mods: seq<Mod>) | Single(details: ModDetails)

  datatype Cached = Cached(value: Value, at: int)

  /** Times are in nanoseconds; before the first fetch catalogAt is the zero time. */
  const MINUTE := 60_000_000_000
  const CATALOG_TTL := 10 * MINUTE
  const DETAILS_TTL := 30 * MINUTE
  const ZERO_TIME := 0

  function TTL(key: Key): nat { if key.ModKey? then DETAILS_TTL else CATALOG_TTL }

  /** A fetched list is stored under its own key, details also under their numeric ID and slug. */
  function Aliases(key: Key, value: Value): set<Key> {
    if key.ModKey? && value.Single? then
      {key, ModKey(value.details.mod.id)} +
      if value.details.mod.slug != "" then {ModKey(value.details.mod.slug)} else {}
    else {key}
  }

  /** What is found under `k` after `value` was stored for `key`, when `before` was found there. */
  function After(before: Option<Cached>, k: Key, key: Key, value: Value, at: int): Option<Cached> {
    if k in Aliases(key, value) then Some(Cached(value, at)) else before
  }

  /** A fresh entry answers, except that an empty full catalog counts as missing. */
  predicate Hit(e: Option<Cached>, key: Key, now: int) {
    && e.Some? && now - e.value.at < TTL(key)
    && (key.Catalog? ==> e.value.value.Listing? && e.value.value.mods != [])
  }

  /** The list kept in reserve against a failing refresh; details have none. */
  function StaleOf(e: Option<Cached>, key: Key): seq<Mod> {
    if !key.ModKey? && e.Some? && e.value.value.Listing? then e.value.value.mods else []
  }

  /** What a new client finds: an empty full catalog and nothing else. */
  function Initially(k: Key): Option<Cached> {
    if k.Catalog? then Some(Cached(Listing([]), ZERO_TIME)) else None
  }

  datatype CachedCatalog = CachedCatalog(items: seq<Mod>, at: int)

  datatype CachedDetails = CachedDetails(value: ModDetails, fetchedAt: int)

  class Client {
    var catalog: seq<Mod>
    var catalogAt: int
    var catalogByGV: map<string, CachedCatalog>
    var details: map<string, CachedDetails>

    /** What the caches hold under a key. */
    ghost function At(k: Key): Option<Cached>
      reads this
    {
      match k
      case Catalog => Some(Cached(Listing(catalog), catalogAt))
      case ForGameVersion(p) =>
        if p in catalogByGV then Some(Cached(Listing(catalogByGV[p].items), catalogByGV[p].at)) else None
      case ModKey(i) => if i in details then Some(Cached(Single(details[i].value), details[i].fetchedAt)) else None
    }

    constructor ()
      ensures forall k :: At(k) == Initially(k)
    {
      catalog, catalogAt := [], ZERO_TIME;
      catalogByGV, details := map[], map[];
    }

    /** list under the read lock: a hit, or the copy kept against a failing refresh. */
    method CheckList(now: int) returns (hit: bool, items: seq<Mod>)
      ensures hit <==> Hit(At(Catalog), Catalog, now)
      ensures hit <==> items != [] && now - At(Catalog).value.at < 10 * MINUTE
      ensures hit ==> At(Catalog).value.value == Listing(items)
      ensures !hit ==> items == StaleOf(At(Catalog), Catalog)
    {
      if |catalog| > 0 && now - catalogAt < CATALOG_TTL {
        return true, catalog;
      }
      return false, catalog;
    }

    /** listForGameVersion under the read lock. */
    method CheckForGameVersion(param: string, now: int) returns (hit: bool, items: seq<Mod>)
      ensures hit <==> Hit(At(ForGameVersion(param)), ForGameVersion(param), now)
      ensures hit ==> At(ForGameVersion(param)).value.value == Listing(items)
      ensures !hit ==> items == StaleOf(At(ForGameVersion(param)), ForGameVersion(param))
      ensures hit <==> At(ForGameVersion(param)).Some? && now - At(ForGameVersion(param)).value.at < 10 * MINUTE
    {
      var stale: seq<Mod> := [];
      if param in catalogByGV {
        var entry := catalogByGV[param];
        if now - entry.at < CATALOG_TTL {
          return true, entry.items;
        }
        stale := entry.items;
      }
      return false, stale;
    }

    /** Get under the read lock. */
    method CheckDetails(id: string, now: int) returns (hit: bool, value: Option<ModDetails>)
      ensures hit <==> Hit(At(ModKey(id)), ModKey(id), now)
      ensures hit <==> At(ModKey(id)).Some? && now - At(ModKey(id)).value.at < 30 * MINUTE
      ensures hit ==> value.Some? && At(ModKey(id)).value.value == Single(value.value)
      ensures !hit ==> value == None
    {
      if id in details && now - details[id].fetchedAt < DETAILS_TTL {
        return true, Some(details[id].value);
      }
      return false, None;
    }

    /** fetchCatalog under the lock, after a successful fetch. */
    method StoreCatalog(items: seq<Mod>, now: int)
      modifies this
      ensures forall k :: At(k) == After(old(At(k)), k, Catalog, Listing(items), now)
    {
      catalog := items;
      catalogAt := now;
    }

    /** The flight of listForGameVersion under the lock, after a successful fetch. */
    method StoreForGameVersion(param: string, items: seq<Mod>, now: int)
      modifies this
      ensures forall k :: At(k) == After(old(At(k)), k, ForGameVersion(param), Listing(items), now)
    {
      catalogByGV := catalogByGV[param := CachedCatalog(items, now)];
    }

    /** fetchDetails under the lock: the requested id, the numeric ID and the slug. */
    method StoreDetails(id: string, d: ModDetails, now: int)
      modifies this
      ensures forall k :: At(k) == After(old(At(k)), k, ModKey(id), Single(d), now)
      ensures forall name :: At(ModKey(name)) ==
                if name == id || name == d.mod.id || (name == d.mod.slug && name != "")
                then Some(Cached(Single(d), now)) else old(At(ModKey(name)))
    {
      var x := CachedDetails(d, now);
      details := details[id := x];
      details := details[d.mod.id := x];
      if d.mod.slug != "" {
        details := details[d.mod.slug := x];
      }
    }
  }
}
