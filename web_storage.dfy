/**
  The browser's `localStorage`: one string-to-string key-value store, shared
  by every part of the application. `getItem` answers `null` for a missing
  key; `setItem` and `removeItem` change exactly one key.

  JavaScript truthiness is modelled here too, because every reader of the
  store tests what `getItem` returned with `if (x)`, `!x` or `x || y`: the
  empty string and `null` are both falsy, every other string is truthy.
 */
module WebStorage {

  /** A JavaScript `string | null`. */
  datatype Option<T> = None | Some(value: T)

  /** `!!v` for a `string | null` value. */
  predicate Truthy(v: Option<string>) {
    v.Some? && v.value != ""
  }

  /**
    JavaScript's `a || b`: the result is one of the operands; it is truthy
    exactly when some operand is; a truthy left operand wins, and a falsy
    result is always the right operand.
   */
  function Or(a: Option<string>, b: Option<string>): (r: Option<string>)
    ensures r == a || r == b
    ensures Truthy(r) <==> Truthy(a) || Truthy(b)
    ensures Truthy(a) ==> r == a
    ensures !Truthy(r) ==> r == b
  {
    if Truthy(a) then a else b
  }

  /** Key `k` holds a value that JavaScript treats as present (truthy). */
  predicate Present(items: map<string, string>, k: string) {
    k in items && items[k] != ""
  }

  /** Keys `k` of the two maps agree: both lack it, or both hold the same value. */
  predicate SameAt(m: map<string, string>, m': map<string, string>, k: string) {
    (k !in m && k !in m') || (k in m && k in m' && m[k] == m'[k])
  }

  class LocalStorage {
    var items: map<string, string>

    constructor (initial: map<string, string>)
      ensures items == initial
    {
      items := initial;
    }

    /** `localStorage.getItem(key)`: the stored string, or `null`. */
    function GetItem(key: string): (r: Option<string>)
      reads this
      ensures r.Some? <==> key in items
      ensures r.Some? ==> r.value == items[key]
      ensures Truthy(r) <==> Present(items, key)
    {
      if key in items then Some(items[key]) else None
    }

    /** `localStorage.setItem(key, value)`. */
    method SetItem(key: string, value: string)
      modifies this
      ensures items == old(items)[key := value]
    {
      items := items[key := value];
    }

    /** `localStorage.removeItem(key)`; removing a missing key is a no-op. */
    method RemoveItem(key: string)
      modifies this
      ensures items == old(items) - {key}
    {
      items := items - {key};
    }
  }

}
