/**
  The theme provider: a boolean isDarkMode kept by the persisted-state hook under
  the key "isDarkMode", mirrored onto the class list of the document's root element
  as exactly one of the classes "dark" and "light", and flipped by toggleDarkMode.
*/
module DarkMode {
  import opened Wrappers
  import opened LocalStorage

  const DarkClass: string := "dark"
  const LightClass: string := "light"
  const StorageKey: string := "isDarkMode"
  const OutsideProviderError: string := "DarkModeContext was used outside of DarkModeProvider"

  /** The class list after the theme effect has run for the flag dark. */
  function ThemeClasses(classes: set<string>, dark: bool): (r: set<string>)
    ensures (DarkClass in r) == dark
    ensures (LightClass in r) == !dark
    ensures forall c :: c != DarkClass && c != LightClass ==> (c in r <==> c in classes)
  {
    if dark then classes + {DarkClass} - {LightClass}
    else classes + {LightClass} - {DarkClass}
  }

  /** Exactly one of the two theme classes is on the root element. */
  predicate OneThemeClass(classes: set<string>)
  {
    (DarkClass in classes) != (LightClass in classes)
  }

  /** Applying a theme leaves exactly one theme class, whatever the list held before. */
  lemma ThemeExclusive(classes: set<string>, dark: bool)
    ensures OneThemeClass(ThemeClasses(classes, dark))
    ensures DarkClass in ThemeClasses(classes, dark) <==> dark
  {
  }

  /** A later application overrides an earlier one: the class list depends only on the last flag applied. */
  lemma ThemeOverrides(classes: set<string>, first: bool, second: bool)
    ensures ThemeClasses(ThemeClasses(classes, first), second) == ThemeClasses(classes, second)
  {
  }

  /** Applying the same flag twice gives the same class list as applying it once. */
  lemma ThemeIdempotent(classes: set<string>, dark: bool)
    ensures ThemeClasses(ThemeClasses(classes, dark), dark) == ThemeClasses(classes, dark)
  {
    ThemeOverrides(classes, dark, dark);
  }

  /** document.documentElement with its mutable class list. */
  class RootElement {
    var classes: set<string>

    constructor (classes0: set<string>)
      ensures classes == classes0
    {
      classes := classes0;
    }

    /** classList.add */
    method Add(c: string)
      modifies this
      ensures classes == old(classes) + {c}
    {
      classes := classes + {c};
    }

    /** classList.remove */
    method Remove(c: string)
      modifies this
      ensures classes == old(classes) - {c}
    {
      classes := classes - {c};
    }

    /** The provider's effect: add one theme class, then remove the other. */
    method ApplyTheme(dark: bool)
      modifies this
      ensures classes == ThemeClasses(old(classes), dark)
      ensures OneThemeClass(classes)
    {
      if dark {
        Add(DarkClass);
        Remove(LightClass);
      } else {
        Add(LightClass);
        Remove(DarkClass);
      }
    }
  }

  /** The default handed to the hook: the system dark preference when a window exists, false otherwise. */
  function DefaultPreference(hasWindow: bool, prefersDark: bool): (r: bool)
    ensures r <==> hasWindow && prefersDark
  {
    if hasWindow then prefersDark else false
  }

  /** The flag the provider starts with, from the stored entry or the default. */
  lemma InitialFlag(hasWindow: bool, prefersDark: bool, items: map<string, string>)
    requires StoredWellFormed(hasWindow, items, StorageKey)
    ensures !hasWindow ==> !InitialValue(hasWindow, items, StorageKey, DefaultPreference(hasWindow, prefersDark))
    ensures hasWindow && !Truthy(GetItem(items, StorageKey)) ==>
              InitialValue(hasWindow, items, StorageKey, DefaultPreference(hasWindow, prefersDark)) == prefersDark
    ensures hasWindow && Truthy(GetItem(items, StorageKey)) ==>
              InitialValue(hasWindow, items, StorageKey, DefaultPreference(hasWindow, prefersDark)) == (items[StorageKey] == "true")
  {
  }

  /** The flag part of the value the context carries. */
  datatype DarkModeContextValue = DarkModeContextValue(isDarkMode: bool)

  /** useDarkMode: the provider's value, or the error thrown when there is no provider above. */
  function UseDarkMode(context: Option<DarkModeContextValue>): (r: Result<DarkModeContextValue, string>)
    ensures r.Failure? <==> context.None?
    ensures r.Failure? ==> r.error == OutsideProviderError
    ensures r.Success? ==> context == Some(r.value)
  {
    match context
    case None => Failure(OutsideProviderError)
    case Some(v) => Success(v)
  }

  /** DarkModeProvider: the hook's state and the root element it themes. */
  class DarkModeProvider {
    const state: LocalStorageState
    const root: RootElement

    /** The flag is persisted and mirrored by exactly the matching theme class. */
    ghost predicate Valid()
      reads this, state, state.store, root
    {
      && state.key == StorageKey
      && state.Valid()
      && root.classes == ThemeClasses(root.classes, state.value)
    }

    function IsDarkMode(): bool
      reads this, state
    {
      state.value
    }

    /** The value consumers read through useDarkMode. */
    function Context(): (v: DarkModeContextValue)
      reads this, state
      ensures v.isDarkMode == IsDarkMode()
      ensures UseDarkMode(Some(v)) == Success(DarkModeContextValue(IsDarkMode()))
    {
      DarkModeContextValue(state.value)
    }

    /** Mount: the hook reads storage with the default, writes back, then the theme effect runs. */
    constructor (hasWindow: bool, prefersDark: bool, store: Storage, root0: RootElement)
      requires StoredWellFormed(hasWindow, store.items, StorageKey)
      modifies store, root0
      ensures root == root0 && state.store == store && state.hasWindow == hasWindow
      ensures IsDarkMode() == InitialValue(hasWindow, old(store.items), StorageKey, DefaultPreference(hasWindow, prefersDark))
      ensures store.items == if hasWindow then old(store.items)[StorageKey := Stringify(IsDarkMode())] else old(store.items)
      ensures root.classes == ThemeClasses(old(root0.classes), IsDarkMode())
      ensures Valid()
    {
      var s := new LocalStorageState(DefaultPreference(hasWindow, prefersDark), StorageKey, hasWindow, store);
      root0.ApplyTheme(s.value);
      state := s;
      root := root0;
    }

    /** toggleDarkMode: negate the flag; the storage and theme effects follow. */
    method ToggleDarkMode()
      requires Valid()
      modifies state, state.store, root
      ensures IsDarkMode() == !old(IsDarkMode())
      ensures state.store.items == if state.hasWindow then old(state.store.items)[StorageKey := Stringify(IsDarkMode())]
                                   else old(state.store.items)
      ensures root.classes == ThemeClasses(old(root.classes), IsDarkMode())
      ensures Valid()
    {
      state.SetValue(!state.value);
      root.ApplyTheme(state.value);
    }
  }

  /** Toggling twice restores the flag, the class list and the stored text. */
  method ToggleTwice(p: DarkModeProvider)
    requires p.Valid()
    modifies p.state, p.state.store, p.root
    ensures p.IsDarkMode() == old(p.IsDarkMode())
    ensures p.root.classes == old(p.root.classes)
    ensures p.state.store.items == old(p.state.store.items)
    ensures p.Valid()
  {
    p.ToggleDarkMode();
    p.ToggleDarkMode();
    ThemeOverrides(old(p.root.classes), !old(p.IsDarkMode()), old(p.IsDarkMode()));
  }
}
