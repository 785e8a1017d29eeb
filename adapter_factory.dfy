/**
 * The adapter factory: a registry from lower-case database type names to adapter
 * classes, kept in insertion order (a Python `dict`), with lookup that ignores case.
 * The registry is class-level state in the source; here it is one object.
 */
module AdapterFactory {
  import opened Common
  import opened Text
  import Adapters

  /** An adapter class; the set of classes is closed (MySQL and PostgreSQL). */
  type AdapterClass = Adapters.Engine

  /** An adapter object: its class, the engine it was built on and its database name. */
  datatype Adapter<E> = Adapter(adapterClass: AdapterClass, engine: E, databaseName: string)

  /** The `ValueError` of an unknown type, carrying the types it lists. */
  datatype FactoryError = UnsupportedType(databaseType: string, supportedTypes: seq<string>)

  /** The registry's shape: keys in insertion order, each once, all lower-case. */
  predicate WellFormed(keys: seq<string>, adapters: map<string, AdapterClass>) {
    Distinct(keys) && Elements(keys) == adapters.Keys
    && forall k :: k in adapters ==> Lower(k) == k
  }

  /** `_adapters.get(database_type.lower())`. */
  function Lookup(adapters: map<string, AdapterClass>, databaseType: string): Option<AdapterClass> {
    var key := Lower(databaseType);
    if key in adapters then Some(adapters[key]) else None
  }

  /** `_adapters[database_type.lower()] = adapter_class`: a new key goes last, an old one keeps its place. */
  function Register(keys: seq<string>, adapters: map<string, AdapterClass>, databaseType: string,
                    adapterClass: AdapterClass): (r: (seq<string>, map<string, AdapterClass>))
    requires WellFormed(keys, adapters)
    ensures WellFormed(r.0, r.1)
    ensures r.1.Keys == adapters.Keys + {Lower(databaseType)}
    ensures |r.0| == |r.1|
  {
    var key := Lower(databaseType);
    LowerIdempotent(databaseType);
    var keys' := if key in adapters then keys else keys + [key];
    assert Elements(keys') == adapters.Keys + {key};
    DistinctCount(keys');
    (keys', adapters[key := adapterClass])
  }

  /** A type is accepted exactly when its lower-case form is one of the listed types. */
  lemma LookupIffListed(keys: seq<string>, adapters: map<string, AdapterClass>, databaseType: string)
    requires WellFormed(keys, adapters)
    ensures Lookup(adapters, databaseType).Some? <==> Lower(databaseType) in keys
  {
    assert Lower(databaseType) in adapters.Keys <==> Lower(databaseType) in Elements(keys);
  }

  /** Every listed type is accepted as listed, in any case. */
  lemma {:induction false} ListedAccepted(keys: seq<string>, adapters: map<string, AdapterClass>, k: string, variant: string)
    requires WellFormed(keys, adapters) && k in keys && Lower(variant) == k
    ensures Lookup(adapters, k) == Lookup(adapters, variant) == Some(adapters[k])
  {
    assert k in Elements(keys);
  }

  /** After registering, every case variant of the type resolves to the new class. */
  lemma RegisterThenLookup(keys: seq<string>, adapters: map<string, AdapterClass>, databaseType: string,
                           adapterClass: AdapterClass, variant: string)
    requires WellFormed(keys, adapters) && Lower(variant) == Lower(databaseType)
    ensures Lookup(Register(keys, adapters, databaseType, adapterClass).1, variant) == Some(adapterClass)
  {
  }

  /** Registering one type changes the lookup of no other type. */
  lemma RegisterKeepsOthers(keys: seq<string>, adapters: map<string, AdapterClass>, databaseType: string,
                            adapterClass: AdapterClass, other: string)
    requires WellFormed(keys, adapters) && Lower(other) != Lower(databaseType)
    ensures Lookup(Register(keys, adapters, databaseType, adapterClass).1, other) == Lookup(adapters, other)
  {
  }

  /** Registering keeps the listed order: the old list is a prefix of the new, at most one longer. */
  lemma RegisterKeepsOrder(keys: seq<string>, adapters: map<string, AdapterClass>, databaseType: string,
                           adapterClass: AdapterClass)
    requires WellFormed(keys, adapters)
    ensures var keys' := Register(keys, adapters, databaseType, adapterClass).0;
      keys <= keys' && |keys'| <= |keys| + 1
      && (|keys'| == |keys| <==> Lower(databaseType) in keys)
  {
    assert Lower(databaseType) in keys <==> Lower(databaseType) in adapters;
  }

  /** Text without upper-case letters is its own lower-case form. */
  lemma {:induction false} LowerOfLower(s: string)
    requires forall i :: 0 <= i < |s| ==> !('A' <= s[i] <= 'Z')
    ensures Lower(s) == s
  {
    if s != [] {
      LowerOfLower(s[1..]);
    }
  }

  /** The registry the module defines: MySQL, then PostgreSQL. */
  function InitialKeys(): seq<string> {
    ["mysql", "postgresql"]
  }

  function InitialAdapters(): map<string, AdapterClass> {
    map["mysql" := Adapters.MySql, "postgresql" := Adapters.PostgreSql]
  }

  lemma InitialWellFormed()
    ensures WellFormed(InitialKeys(), InitialAdapters())
  {
    InitialLower();
    InitialListed();
  }

  lemma InitialLower()
    ensures forall k :: k in InitialAdapters() ==> Lower(k) == k
  {
    LowerOfLower("mysql");
    LowerOfLower("postgresql");
  }

  lemma InitialListed()
    ensures Distinct(InitialKeys()) && Elements(InitialKeys()) == InitialAdapters().Keys
  {
    var keys := InitialKeys();
    assert keys[0] != keys[1] by {
      assert |keys[0]| != |keys[1]|;
    }
    assert Elements(keys) == {keys[0], keys[1]};
  }

  /** `DatabaseAdapterFactory`: the registry with its class methods. */
  class DatabaseAdapterFactory {
    var keys: seq<string>
    var adapters: map<string, AdapterClass>

    predicate Valid()
      reads this
    {
      WellFormed(keys, adapters)
    }

    /** The registry as the module defines it: MySQL, then PostgreSQL. */
    constructor ()
      ensures Valid()
      ensures keys == ["mysql", "postgresql"]
      ensures adapters == map["mysql" := Adapters.MySql, "postgresql" := Adapters.PostgreSql]
    {
      keys := InitialKeys();
      adapters := InitialAdapters();
      InitialWellFormed();
    }

    /** `create_adapter`: an adapter of the registered class, or the error listing every type. */
    method CreateAdapter<E>(databaseType: string, engine: E, databaseName: string)
      returns (r: Result<Adapter<E>, FactoryError>)
      requires Valid()
      ensures r.Ok? <==> Lower(databaseType) in keys
      ensures r.Ok? ==> r.value == Adapter(adapters[Lower(databaseType)], engine, databaseName)
      ensures r.Err? ==> r.error == UnsupportedType(databaseType, keys)
    {
      LookupIffListed(keys, adapters, databaseType);
      var adapterClass := Lookup(adapters, databaseType);
      if adapterClass.None? {
        return Err(UnsupportedType(databaseType, keys));
      }
      return Ok(Adapter(adapterClass.value, engine, databaseName));
    }

    /** `get_supported_types`: the registered types in registration order. */
    method GetSupportedTypes() returns (types: seq<string>)
      requires Valid()
      ensures types == keys
      ensures Distinct(types) && Elements(types) == adapters.Keys
    {
      types := keys;
    }

    /** `register_adapter`: add or replace the class of a type, keyed by its lower-case form. */
    method RegisterAdapter(databaseType: string, adapterClass: AdapterClass)
      requires Valid()
      modifies this
      ensures Valid()
      ensures (keys, adapters) == Register(old(keys), old(adapters), databaseType, adapterClass)
    {
      var r := Register(keys, adapters, databaseType, adapterClass);
      keys, adapters := r.0, r.1;
    }
  }
}
