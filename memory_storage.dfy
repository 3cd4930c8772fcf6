/**
 * The in-memory stand-in for the browser's key-value storage (tests/fixtures/MemoryStorage.ts).
 * A stored value is `Some(v)`; `None` is a stored `null`, which `clearLog` writes.
 */
module MemoryStorage {
  import opened Options

  class MemoryStorage<V> {
    var store: map<string, Option<V>>

    constructor (initial: map<string, Option<V>>)
      ensures store == initial
    {
      store := initial;
    }

    /** `this.store[key] ?? null`: a missing key and a stored null both read as null. */
    function GetItem(key: string): (r: Option<V>)
      reads this
      ensures key !in store ==> r == None
      ensures key in store ==> r == store[key]
    {
      if key in store then store[key] else None
    }

    method SetItem(key: string, value: Option<V>)
      modifies this
      ensures store == old(store)[key := value]
      ensures HasItem(key) && GetItem(key) == value
      ensures forall k :: k != key ==> GetItem(k) == old(GetItem(k)) && HasItem(k) == old(HasItem(k))
    {
      store := store[key := value];
    }

    method Clear()
      modifies this
      ensures store == map[]
      ensures forall k :: !HasItem(k) && GetItem(k) == None
    {
      store := map[];
    }

    method RemoveItem(key: string)
      modifies this
      ensures store == old(store) - {key}
      ensures !HasItem(key) && GetItem(key) == None
      ensures forall k :: k != key ==> GetItem(k) == old(GetItem(k)) && HasItem(k) == old(HasItem(k))
    {
      store := store - {key};
    }

    /** Whether the key is present at all, even when it holds null. */
    function HasItem(key: string): (r: bool)
      reads this
      ensures r <==> key in store
    {
      key in store
    }
  }
}
