/** A map kept as one JSON document under one store key. */
module MapStores {
  import opened Wrappers
  import opened SecretStores

  /** JSON encoding and decoding of a whole map. */
  datatype Codec<!V> = Codec(encode: map<string, V> -> string, decode: string -> Option<map<string, V>>)

  ghost predicate RoundTrips<V(!new)>(c: Codec<V>) {
    forall m: map<string, V> :: c.encode(m) != "" && c.decode(c.encode(m)) == Some(m)
  }

  /** What a mutating closure leaves: the map, its captured result, and whether to save. */
  datatype Mutation<V, R> = Mutation(m: map<string, V>, result: R, changed: bool)

  /** An absent or empty document is the empty map; an undecodable one is an error. */
  function Decode<V>(c: Codec<V>, doc: Option<string>): Result<map<string, V>> {
    if doc.None? || doc.value == "" then Ok(map[])
    else match c.decode(doc.value)
      case Some(m) => Ok(m)
      case None => Failed
  }

  function Load<V>(c: Codec<V>, d: Disk, key: string): (Disk, Result<map<string, V>>) {
    var (d', v) := d.Get(key);
    (d', if v.Failed? then Failed else Decode(c, v.value))
  }

  function Mutate<V, R>(c: Codec<V>, d: Disk, key: string, fn: map<string, V> -> Mutation<V, R>): (Disk, Result<R>) {
    var (d', m) := Load(c, d, key);
    if m.Failed? then (d', Failed)
    else
      var out := fn(m.value);
      if !out.changed then (d', Ok(out.result))
      else
        var (d'', saved) := d'.Set(key, c.encode(out.m));
        (d'', if saved.Failed? then Failed else Ok(out.result))
  }

  function Lookup<V>(c: Codec<V>, d: Disk, key: string, k: string): (Disk, Result<Option<V>>) {
    var (d', m) := Load(c, d, key);
    (d', if m.Failed? then Failed else Ok(if k in m.value then Some(m.value[k]) else None))
  }

  /** The map a document stands for; an undecodable one counts as empty. */
  function Contents<V>(c: Codec<V>, doc: Option<string>): map<string, V> {
    match Decode(c, doc)
    case Ok(m) => m
    case Failed => map[]
  }

  /** The map under key. */
  function View<V>(c: Codec<V>, docs: map<string, string>, key: string): map<string, V> {
    Contents(c, if key in docs then Some(docs[key]) else None)
  }

  /** The document under key can be loaded. */
  predicate Readable<V>(c: Codec<V>, docs: map<string, string>, key: string) {
    Decode(c, if key in docs then Some(docs[key]) else None).Ok?
  }

  /** Every document but the one under key is the same. */
  ghost predicate SameExcept(docs: map<string, string>, docs': map<string, string>, key: string) {
    forall k :: k != key ==> (k in docs' <==> k in docs) && (k in docs ==> docs'[k] == docs[k])
  }

  /** Loading, in terms of the document: it fails with the store, or on a non-empty document
      that does not decode; an absent or empty one is the empty map. */
  lemma LoadExactly<V>(c: Codec<V>, d: Disk, key: string)
    ensures var (d', r) := Load(c, d, key);
      && d'.docs == d.docs
      && (r.Failed? <==> FailsAt(d, 0) || (key in d.docs && d.docs[key] != "" && c.decode(d.docs[key]).None?))
      && (r.Ok? ==>
            && r.value == (if key !in d.docs || d.docs[key] == "" then map[] else c.decode(d.docs[key]).value)
            && r.value == View(c, d.docs, key))
  {
  }

  /** One entry, or an error exactly when loading fails. */
  lemma LookupExactly<V>(c: Codec<V>, d: Disk, key: string, k: string)
    ensures var (d', r) := Lookup(c, d, key, k);
      && d'.docs == d.docs
      && (r.Failed? <==> FailsAt(d, 0) || !Readable(c, d.docs, key))
      && (r.Ok? ==> (r.value.Some? <==> k in View(c, d.docs, key)) && (r.value.Some? ==> r.value.value == View(c, d.docs, key)[k]))
  {
    LoadExactly(c, d, key);
  }

  /** A mutation loads, applies the closure, and saves only a map the closure reports changed:
      its first and second store operations; an error at either leaves every document. */
  lemma MutateExactly<V, R>(c: Codec<V>, d: Disk, key: string, fn: map<string, V> -> Mutation<V, R>)
    ensures var (d', r) := Mutate(c, d, key, fn);
      var out := fn(View(c, d.docs, key));
      && (r.Failed? <==> FailsAt(d, 0) || !Readable(c, d.docs, key) || (out.changed && FailsAt(d, 1)))
      && (r.Ok? ==> r.value == out.result)
      && d'.docs == (if r.Ok? && out.changed then d.docs[key := c.encode(out.m)] else d.docs)
  {
    LoadExactly(c, d, key);
  }

  /** A mutation is all or nothing, and touches no other document. */
  lemma MutateEffect<V(!new), R>(c: Codec<V>, d: Disk, key: string, fn: map<string, V> -> Mutation<V, R>)
    requires RoundTrips(c)
    ensures var (d', r) := Mutate(c, d, key, fn);
      && SameExcept(d.docs, d'.docs, key)
      && (r.Failed? ==> d'.docs == d.docs)
      && (r.Ok? ==>
            var out := fn(View(c, d.docs, key));
            && r.value == out.result
            && View(c, d'.docs, key) == (if out.changed then out.m else View(c, d.docs, key))
            && (!out.changed ==> d'.docs == d.docs))
      && (Readable(c, d.docs, key) ==> Readable(c, d'.docs, key) && (d.faults == [] ==> r.Ok?))
  {
  }

  /** A document's map depends on no other document. */
  lemma ViewFrame<V>(c: Codec<V>, docs: map<string, string>, docs': map<string, string>, other: string, key: string)
    requires SameExcept(docs, docs', other) && key != other
    ensures View(c, docs, key) == View(c, docs', key)
    ensures Readable(c, docs, key) <==> Readable(c, docs', key)
  {
  }

  // The closures the registries pass to mutate.

  function Put<V>(k: string, v: V): map<string, V> -> Mutation<V, ()> {
    (m: map<string, V>) => Mutation(m[k := v], (), true)
  }

  function Take<V>(k: string): map<string, V> -> Mutation<V, Option<V>> {
    (m: map<string, V>) => if k in m then Mutation(m - {k}, Some(m[k]), true) else Mutation(m, None, false)
  }

  function DropWhere<V>(p: V -> bool): map<string, V> -> Mutation<V, ()> {
    (m: map<string, V>) => var kept := map k | k in m && !p(m[k]) :: m[k];
         Mutation(kept, (), exists k | k in m :: p(m[k]))
  }

  class JsonMapStore<V> {
    const store: SecretStore
    const key: string
    const codec: Codec<V>

    constructor (store: SecretStore, key: string, codec: Codec<V>)
      ensures this.store == store && this.key == key && this.codec == codec
    {
      this.store, this.key, this.codec := store, key, codec;
    }

    method LoadMap() returns (r: Result<map<string, V>>)
      modifies store
      ensures (store.Image(), r) == Load(codec, old(store.Image()), key)
    {
      var v := store.Get(key);
      if v.Failed? {
        return Failed;
      }
      if v.value.None? || v.value.value == "" {
        return Ok(map[]);
      }
      var m := codec.decode(v.value.value);
      return if m.None? then Failed else Ok(m.value);
    }

    method Fetch(k: string) returns (r: Result<Option<V>>)
      modifies store
      ensures (store.Image(), r) == Lookup(codec, old(store.Image()), key, k)
    {
      var m := LoadMap();
      if m.Failed? {
        return Failed;
      }
      return Ok(if k in m.value then Some(m.value[k]) else None);
    }

    method Update<R>(fn: map<string, V> -> Mutation<V, R>) returns (r: Result<R>)
      modifies store
      ensures (store.Image(), r) == Mutate(codec, old(store.Image()), key, fn)
    {
      var m := LoadMap();
      if m.Failed? {
        return Failed;
      }
      var out := fn(m.value);
      if !out.changed {
        return Ok(out.result);
      }
      var saved := store.Set(key, codec.encode(out.m));
      return if saved.Failed? then Failed else Ok(out.result);
    }
  }
}
