/**
 * Guava's HashBiMap as the CollectStats tools use it: a forward table from
 * keys to values and an inverse table from values back to keys, kept as
 * mutual inverses. `put` of a value that another key already holds throws
 * IllegalArgumentException and changes nothing.
 */
module BiMaps {
  import opened Wrappers

  /** No two keys share a value. */
  predicate Injective(m: map<string, int>) {
    forall a, b | a in m && b in m && a != b :: m[a] != m[b]
  }

  /** Another key than `key` already holds `value`: `put(key, value)` would throw. */
  predicate Refuses(m: map<string, int>, key: string, value: int) {
    exists k | k in m && k != key :: m[k] == value
  }

  /** `put(key, value)` on the forward table: None when it throws. */
  function Put(m: map<string, int>, key: string, value: int): (r: Option<map<string, int>>)
    ensures r.None? <==> Refuses(m, key, value)
    ensures r.Some? ==> r.value == m[key := value]
  {
    if Refuses(m, key, value) then None else Some(m[key := value])
  }

  /** A successful `put` keeps the table injective. */
  lemma PutInjective(m: map<string, int>, key: string, value: int)
    requires Injective(m)
    requires Put(m, key, value).Some?
    ensures Injective(Put(m, key, value).value)
  {
    var m' := m[key := value];
    forall a, b | a in m' && b in m' && a != b
      ensures m'[a] != m'[b]
    {
      if a == key {
        assert !(b in m && b != key && m[b] == value);
      } else if b == key {
        assert !(a in m && a != key && m[a] == value);
      }
    }
  }

  /** `g` undoes `f` and `f` undoes `g`. */
  predicate Inverse(f: map<string, int>, g: map<int, string>) {
    (forall k | k in f :: f[k] in g && g[f[k]] == k)
    && (forall v | v in g :: g[v] in f && f[g[v]] == v)
  }

  /** The mutable bimap: both tables, which `Valid` keeps in step. */
  class HashBiMap {
    var forward: map<string, int>
    var inverse: map<int, string>

    /** Each table undoes the other. */
    predicate Valid()
      reads this
    {
      Inverse(forward, inverse)
    }

    /** `HashBiMap.create()` */
    constructor ()
      ensures Valid()
      ensures forward == map[] && inverse == map[]
    {
      forward := map[];
      inverse := map[];
    }

    /**
     * `put(key, value)`: `ok` is false when the call throws because another
     * key holds `value`, and then nothing changes; otherwise `key` maps to
     * `value` and the value `key` held before leaves the inverse table.
     */
    method Put(key: string, value: int) returns (ok: bool)
      requires Valid()
      modifies this
      ensures Valid()
      ensures ok <==> !Refuses(old(forward), key, value)
      ensures ok ==> forward == old(forward)[key := value]
      ensures !ok ==> forward == old(forward) && inverse == old(inverse)
    {
      if value in inverse && inverse[value] != key {
        assert inverse[value] in forward && forward[inverse[value]] == value;
        return false;
      }
      if key in forward {
        inverse := inverse - {forward[key]};
      }
      forward := forward[key := value];
      inverse := inverse[value := key];
      ok := true;
    }

    /** `inverse().get(value)`: the key holding `value`, None for null. */
    function InverseGet(value: int): (r: Option<string>)
      reads this
      requires Valid()
      ensures r.Some? <==> exists k | k in forward :: forward[k] == value
      ensures r.Some? ==> r.value in forward && forward[r.value] == value
    {
      if value in inverse then Some(inverse[value]) else None
    }
  }

  /** A valid bimap's forward table is injective. */
  lemma ValidInjective(b: HashBiMap)
    requires b.Valid()
    ensures Injective(b.forward)
  {
    forall x, y | x in b.forward && y in b.forward && x != y
      ensures b.forward[x] != b.forward[y]
    {
      assert b.inverse[b.forward[x]] == x;
      assert b.inverse[b.forward[y]] == y;
    }
  }
}
