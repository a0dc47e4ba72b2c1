/** A cache whose slots expire, with invalidation by key prefix. */
module TtlCaches {
  import opened Options

  datatype Slot<+T> = Slot(val: T, exp: int)
  type Store<T> = map<string, Slot<T>>

  function Lookup<T>(store: Store<T>, key: string, now: int): Option<T> {
    if key in store && !(store[key].exp < now) then Some(store[key].val) else None
  }

  // A lookup drops the slot it finds expired.
  function Swept<T>(store: Store<T>, key: string, now: int): Store<T> {
    if key in store && store[key].exp < now then store - {key} else store
  }

  function Without<T>(store: Store<T>, prefix: string): Store<T> {
    map k | k in store && !(prefix <= k) :: store[k]
  }

  class TtlCache<T> {
    const ttl: int
    var store: Store<T>

    constructor (ttl: int)
      ensures this.ttl == ttl && store == map[]
    {
      this.ttl, store := ttl, map[];
    }

    method Get(key: string, now: int) returns (v: Option<T>)
      modifies this
      ensures v == Lookup(old(store), key, now) && store == Swept(old(store), key, now)
    {
      if key !in store { return None; }
      var e := store[key];
      if e.exp < now {
        store := store - {key};
        return None;
      }
      return Some(e.val);
    }

    method Set(key: string, val: T, now: int)
      modifies this
      ensures store == old(store)[key := Slot(val, now + ttl)]
    {
      store := store[key := Slot(val, now + ttl)];
    }

    method Invalidate(prefix: string)
      modifies this
      ensures store == Without(old(store), prefix)
    {
      var left := store.Keys;
      while left != {}
        invariant left <= old(store).Keys
        invariant forall k :: k in store <==> k in old(store) && (k in left || !(prefix <= k))
        invariant forall k :: k in store ==> store[k] == old(store)[k]
        decreases left
      {
        var k :| k in left;
        if prefix <= k { store := store - {k}; }
        left := left - {k};
      }
    }
  }
}
