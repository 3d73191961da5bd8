/**
  The storage engine as far as it is relied on: a map from byte strings to items that may expire, and
  transactions that work on a copy of their own. A transaction sees its own writes; its iterators list
  the visible keys with a prefix in byte order.
*/
module Storage {
  import opened Types
  import opened Replicas
  import opened ByteOrder

  /** Record encoding is taken to be a bijection, so a marshaled record stands for its bytes. */
  datatype Value = Raw(bytes: Bytes) | Marshaled(record: Record)

  datatype Item = Item(value: Value, expires: nat)

  type Data = map<Bytes, Item>

  predicate Visible(data: Data, key: Bytes, now: nat) {
    key in data && Live(data[key].expires, now)
  }

  ghost predicate Sorted(keys: seq<Bytes>) {
    forall i, j :: 0 <= i < j < |keys| ==> Less(keys[i], keys[j])
  }

  ghost predicate Least(k: Bytes, keys: set<Bytes>) {
    k in keys && forall j :: j in keys ==> j == k || Less(k, j)
  }

  lemma {:induction false} LeastExists(keys: set<Bytes>) returns (k: Bytes)
    requires keys != {}
    ensures Least(k, keys)
  {
    k :| k in keys;
    if keys != {k} {
      var m := LeastExists(keys - {k});
      LessTotal(k, m);
      if Less(k, m) {
        forall j | j in keys ensures j == k || Less(k, j) {
          if j != k && j != m { LessTransitive(k, m, j); }
        }
      } else {
        k := m;
      }
    }
  }

  class Txn {
    var data: Data
    const now: nat

    constructor (data: Data, now: nat)
      ensures this.data == data && this.now == now
    {
      this.data, this.now := data, now;
    }

    method Get(key: Bytes) returns (r: Result<Item, StoreError>)
      ensures r == if Visible(data, key, now) then Ok(data[key]) else Err(KeyNotFound)
      ensures r.Ok? <==> key in data && (data[key].expires == 0 || now < data[key].expires)
    {
      if key !in data || !Live(data[key].expires, now) { return Err(KeyNotFound); }
      return Ok(data[key]);
    }

    method SetEntry(key: Bytes, item: Item) returns (r: Result<(), StoreError>)
      modifies this`data
      ensures ENGINE_PREFIX <= key ==> r == Err(InvalidKey) && data == old(data)
      ensures !(ENGINE_PREFIX <= key) ==> r == Ok(()) && data == old(data)[key := item]
    {
      if ENGINE_PREFIX <= key { return Err(InvalidKey); }
      data := data[key := item];
      return Ok(());
    }

    method Delete(key: Bytes) returns (r: Result<(), StoreError>)
      modifies this`data
      ensures ENGINE_PREFIX <= key ==> r == Err(InvalidKey) && data == old(data)
      ensures !(ENGINE_PREFIX <= key) ==> r == Ok(()) && data == old(data) - {key}
    {
      if ENGINE_PREFIX <= key { return Err(InvalidKey); }
      data := data - {key};
      return Ok(());
    }

    /** A snapshot of the visible keys with the prefix, in the order an iterator visits them. */
    method NewIterator(prefix: Bytes) returns (keys: seq<Bytes>)
      ensures Sorted(keys)
      ensures forall k :: k in keys <==> Visible(data, k, now) && prefix <= k
    {
      var rest := set k | k in data && Live(data[k].expires, now) && prefix <= k;
      ghost var all := rest;
      keys := [];
      while rest != {}
        invariant rest <= all && Sorted(keys)
        invariant forall k :: k in all <==> k in keys || k in rest
        invariant forall i, k :: 0 <= i < |keys| && k in rest ==> Less(keys[i], k)
        decreases rest
      {
        ghost var least := LeastExists(rest);
        var k :| k in rest && forall j :: j in rest ==> j == k || Less(k, j);
        keys := keys + [k];
        rest := rest - {k};
      }
    }
  }

  /** Where an iterator stands after seeking `start`. */
  method Seek(keys: seq<Bytes>, start: Bytes) returns (i: nat)
    requires Sorted(keys)
    ensures i <= |keys|
    ensures forall j :: 0 <= j < |keys| ==> (j < i <==> Less(keys[j], start))
  {
    i := 0;
    while i < |keys| && Less(keys[i], start)
      invariant i <= |keys|
      invariant forall j :: 0 <= j < i ==> Less(keys[j], start)
    {
      i := i + 1;
    }
    forall j | i <= j < |keys| ensures !Less(keys[j], start) {
      if j != i && Less(keys[j], start) { LessTransitive(keys[i], keys[j], start); }
    }
  }
}
