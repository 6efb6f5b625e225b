/**
  The persisted-state hook: a value whose first read comes from the browser's
  key-value storage (when a window exists) and which is written back, serialised,
  under its key after mount and after every change. Values are booleans, so the
  serialisation is the JSON text "true" or "false".
*/
module LocalStorage {
  import opened Wrappers

  /** JSON.stringify of a boolean. */
  function Stringify(b: bool): (s: string)
    ensures s == "true" || s == "false"
    ensures (s == "true") == b
    ensures s != ""
  {
    if b then "true" else "false"
  }

  /** The stored texts this model admits: JSON.parse of anything else is outside the model. */
  predicate IsBoolText(s: string)
  {
    s == "true" || s == "false"
  }

  /** JSON.parse restricted to the two boolean texts. */
  function Parse(s: string): (b: bool)
    requires IsBoolText(s)
    ensures Stringify(b) == s
  {
    s == "true"
  }

  /** Parsing the serialisation of a boolean gives the boolean back. */
  lemma ParseStringify(b: bool)
    ensures IsBoolText(Stringify(b)) && Parse(Stringify(b)) == b
  {
  }

  /** What localStorage.getItem answers: the entry, or null when there is none. */
  function GetItem(items: map<string, string>, key: string): (v: Option<string>)
    ensures v.Some? <==> key in items
    ensures v.Some? ==> v.value == items[key]
  {
    if key in items then Some(items[key]) else None
  }

  /** A stored value is truthy when it is present and not the empty string. */
  predicate Truthy(v: Option<string>)
  {
    v.Some? && v.value != ""
  }

  /** The source calls JSON.parse on any truthy stored text without a guard; the model admits booleans only. */
  predicate StoredWellFormed(hasWindow: bool, items: map<string, string>, key: string)
  {
    hasWindow && Truthy(GetItem(items, key)) ==> IsBoolText(items[key])
  }

  /** The lazy initialiser of the hook's state. */
  function InitialValue(hasWindow: bool, items: map<string, string>, key: string, initialState: bool): (r: bool)
    requires StoredWellFormed(hasWindow, items, key)
    ensures !hasWindow ==> r == initialState
    ensures hasWindow && (key !in items || items[key] == "") ==> r == initialState
    ensures hasWindow && key in items && items[key] != "" ==> Stringify(r) == items[key]
  {
    if !hasWindow then initialState
    else
      var stored := GetItem(items, key);
      if Truthy(stored) then Parse(stored.value) else initialState
  }

  /** Reloading after a value was written reads that value back, whatever the initial state. */
  lemma ReloadReadsBack(items: map<string, string>, key: string, b: bool, initialState: bool)
    ensures StoredWellFormed(true, items[key := Stringify(b)], key)
    ensures InitialValue(true, items[key := Stringify(b)], key, initialState) == b
  {
    ParseStringify(b);
  }

  /** The browser's localStorage: a mutable map from keys to texts. */
  class Storage {
    var items: map<string, string>

    constructor (items0: map<string, string>)
      ensures items == items0
    {
      items := items0;
    }

    /** localStorage.setItem: overwrites the entry for key and nothing else. */
    method SetItem(key: string, text: string)
      modifies this
      ensures items == old(items)[key := text]
      ensures key in items && items[key] == text
      ensures forall k :: k != key ==> (k in items <==> k in old(items))
      ensures forall k :: k != key && k in items ==> items[k] == old(items)[k]
    {
      items := items[key := text];
    }
  }

  /** One use of the hook: its key, whether a window exists, the storage it writes, and its current value. */
  class LocalStorageState {
    const key: string
    const hasWindow: bool
    const store: Storage
    var value: bool

    /** With a window, the storage holds the serialised current value under key. */
    ghost predicate Valid()
      reads this, store
    {
      hasWindow ==> key in store.items && store.items[key] == Stringify(value)
    }

    /** Mount: the lazy initial read, then the write-back effect's first run. */
    constructor (initialState: bool, key0: string, hasWindow0: bool, store0: Storage)
      requires StoredWellFormed(hasWindow0, store0.items, key0)
      modifies store0
      ensures key == key0 && hasWindow == hasWindow0 && store == store0
      ensures value == InitialValue(hasWindow0, old(store0.items), key0, initialState)
      ensures store.items == if hasWindow0 then old(store0.items)[key0 := Stringify(value)] else old(store0.items)
      ensures Valid()
    {
      key := key0;
      hasWindow := hasWindow0;
      store := store0;
      value := InitialValue(hasWindow0, store0.items, key0, initialState);
      new;
      if hasWindow {
        store.SetItem(key, Stringify(value));
      }
    }

    /** setValue followed by the write-back effect. */
    method SetValue(v: bool)
      requires Valid()
      modifies this, store
      ensures value == v
      ensures store.items == if hasWindow then old(store.items)[key := Stringify(v)] else old(store.items)
      ensures Valid()
    {
      value := v;
      if hasWindow {
        store.SetItem(key, Stringify(value));
      }
    }
  }

  /** In every valid state with a window, a reload reads back the current value: the value last set. */
  lemma ReloadReadsCurrent(s: LocalStorageState, initialState: bool)
    requires s.Valid() && s.hasWindow
    ensures StoredWellFormed(true, s.store.items, s.key)
    ensures InitialValue(true, s.store.items, s.key, initialState) == s.value
  {
    ParseStringify(s.value);
  }

  /** A reload right after a change reads back the value just set. */
  method ReloadAfterChange(s: LocalStorageState, v: bool, initialState: bool) returns (reloaded: bool)
    requires s.Valid() && s.hasWindow
    modifies s, s.store
    ensures s.value == v
    ensures reloaded == v
  {
    s.SetValue(v);
    ReloadReadsCurrent(s, initialState);
    reloaded := InitialValue(true, s.store.items, s.key, initialState);
  }
}
