/**
  The key-value `Store` in which providers keep their data (authentication
  details, session tokens). Values are kept serialized; an entry is either
  such a serialized value or another store nested under the key.
  Serialization and deserialization are oracles that may fail.
 */
module ProviderStore {
  import opened Wrappers
  import opened Net

  /** `ProviderError`; the JSON error keeps no detail. */
  datatype ProviderError = AuthenticationMethodNotImplemented | SerdeJsonError

  /** `StoreContent`: a serialized value, or a nested store (held by reference, as the `&mut Store` handed out). */
  datatype StoreContent = Value(bytes: seq<u8>) | NestedStore(store: Store)

  class Store {
    /** Set once by the constructor; no method changes it. */
    const identifier: string
    var data: map<string, StoreContent>

    /** `Store::new`: the given identifier and no entries. */
    constructor (identifier: string)
      ensures this.identifier == identifier && data == map[]
    {
      this.identifier := identifier;
      data := map[];
    }

    /** `get_identifier`: the identifier given to the constructor, whatever happened to the entries since. */
    function GetIdentifier(): (id: string)
      ensures id == identifier
    {
      identifier
    }

    /**
      `set`: any entry under `key` is removed first, then the serialized
      value is stored. When serialization fails the key stays removed and
      the error is returned. No other key's entry changes.
     */
    method Set<T>(key: string, value: T, serialize: T -> Option<seq<u8>>) returns (r: Outcome<ProviderError>)
      modifies this
      ensures r.Pass? <==> serialize(value).Some?
      ensures r.Pass? ==> data == old(data)[key := Value(serialize(value).value)]
      ensures r.Fail? ==> r.error == SerdeJsonError && data == old(data) - {key}
    {
      if key in data {
        data := data - {key};
      }
      var serialized := serialize(value);
      if serialized.None? {
        return Fail(SerdeJsonError);
      }
      data := data[key := Value(serialized.value)];
      r := Pass;
    }

    /**
      `get`: `None` when there is no entry under `key` or the entry is a
      nested store; otherwise the deserialized value, or the
      deserialization error.
     */
    function Get<T>(key: string, deserialize: seq<u8> -> Option<T>): (r: Result<Option<T>, ProviderError>)
      reads this
      ensures r == Ok(None) <==> key !in data || data[key].NestedStore?
      ensures key in data && data[key].Value? ==>
                && (r.Ok? <==> deserialize(data[key].bytes).Some?)
                && (r.Ok? ==> r.value == deserialize(data[key].bytes))
      ensures r.Err? ==> r.error == SerdeJsonError
    {
      if key !in data then Ok(None)
      else match data[key]
        case Value(v) =>
          (match deserialize(v)
           case None => Err(SerdeJsonError)
           case Some(decoded) => Ok(Some(decoded)))
        case NestedStore(_) => Ok(None)
    }

    /** `key_exists`: whether there is an entry, value or nested store, under `key`. */
    function KeyExists(key: string): (b: bool)
      reads this
      ensures b <==> key in data
    {
      key in data
    }

    /** `get_nested_store`: the store nested under `key`, if the entry there is one. */
    function GetNestedStore(key: string): (r: Option<Store>)
      reads this
      ensures r.Some? <==> key in data && data[key].NestedStore?
      ensures r.Some? ==> data[key] == NestedStore(r.value)
    {
      if key in data && data[key].NestedStore? then Some(data[key].store) else None
    }
  }

  /**
    A value set successfully reads back as itself whenever deserializing
    its serialization gives it back, and the key exists afterwards.
   */
  lemma SetThenGet<T>(s: Store, key: string, value: T, serialize: T -> Option<seq<u8>>,
                      deserialize: seq<u8> -> Option<T>)
    requires serialize(value).Some? && key in s.data && s.data[key] == Value(serialize(value).value)
    requires deserialize(serialize(value).value) == Some(value)
    ensures s.Get(key, deserialize) == Ok(Some(value))
    ensures s.KeyExists(key) && s.GetNestedStore(key).None?
  {
  }
}
