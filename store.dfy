/** The key/expiry store the token code talks to (Redis in the original):
    single-key commands are atomic updates of one map, and time is an explicit
    clock. An entry whose expiry has been reached is gone: `Tick` purges it, so
    every key in `entries` is live. */
module Store {
  import opened Wrappers
  import opened Text

  datatype Entry = Entry(value: string, expiresAt: int)

  /** How many hash slots one SCAN call visits (the `count=100` hint). */
  const ScanCount: nat := 100

  /** The entries of `e` still live at time `t`. */
  function Unexpired(e: map<string, Entry>, t: int): (r: map<string, Entry>)
    ensures forall k :: k in r <==> k in e && e[k].expiresAt > t
    ensures forall k :: k in r ==> r[k] == e[k]
  {
    map k | k in e && e[k].expiresAt > t :: e[k]
  }

  class KeyStore {
    var entries: map<string, Entry>
    var now: int
    /** The size of the key table and the hash that places a key in it; SCAN
        walks the table slot by slot. */
    const slots: nat
    const slotOf: string -> nat

    ghost predicate Valid()
      reads this
    {
      slots > 0 && forall k :: k in entries ==> entries[k].expiresAt > now
    }

    function Slot(key: string): (s: nat)
      requires slots > 0
      ensures s < slots
    {
      slotOf(key) % slots
    }

    /** The keys with `prefix` in the slots one SCAN call starting at `cursor` visits. */
    function Batch(cursor: nat, prefix: string): set<string>
      reads this
      requires slots > 0
    {
      set k | k in entries && StartsWith(k, prefix) && cursor <= Slot(k) < cursor + ScanCount
    }

    constructor (start: int, tableSize: nat, hash: string -> nat)
      requires tableSize > 0
      ensures Valid() && entries == map[] && now == start
      ensures slots == tableSize && slotOf == hash
    {
      entries := map[];
      now := start;
      slots := tableSize;
      slotOf := hash;
    }

    /** SETEX: Redis refuses a non-positive time to live. */
    method Setex(key: string, ttl: int, value: string) returns (ok: bool)
      requires Valid()
      modifies this
      ensures Valid() && now == old(now)
      ensures ok <==> ttl > 0
      ensures entries == if ok then old(entries)[key := Entry(value, now + ttl)] else old(entries)
    {
      ok := ttl > 0;
      if ok {
        entries := entries[key := Entry(value, now + ttl)];
      }
    }

    /** DEL: removing an absent key is not an error. */
    method Delete(key: string)
      requires Valid()
      modifies this
      ensures Valid() && now == old(now)
      ensures entries == old(entries) - {key}
    {
      entries := entries - {key};
    }

    method Exists(key: string) returns (b: bool)
      ensures b <==> key in entries
    {
      b := key in entries;
    }

    method Get(key: string) returns (v: Option<string>)
      ensures v.Some? <==> key in entries
      ensures v.Some? ==> v.value == entries[key].value
    {
      v := if key in entries then Some(entries[key].value) else None;
    }

    /** SCAN with a prefix pattern: the matching keys of the next `ScanCount`
        slots, and the cursor to continue from, 0 once the table is done. */
    method Scan(cursor: nat, prefix: string) returns (next: nat, keys: set<string>)
      requires slots > 0 && cursor < slots
      ensures keys == Batch(cursor, prefix)
      ensures next == if cursor + ScanCount >= slots then 0 else cursor + ScanCount
    {
      keys := set k | k in entries && StartsWith(k, prefix) && cursor <= Slot(k) < cursor + ScanCount;
      next := if cursor + ScanCount >= slots then 0 else cursor + ScanCount;
    }

    /** Time passes; every entry whose expiry is reached disappears. */
    method Tick(d: nat)
      requires Valid()
      modifies this
      ensures Valid() && now == old(now) + d
      ensures entries == Unexpired(old(entries), now)
    {
      now := now + d;
      entries := Unexpired(entries, now);
    }
  }
}
