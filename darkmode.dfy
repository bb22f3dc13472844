/**
 * The dark-mode hook of src/hooks/useDarkMode.ts.
 *
 * The flag starts from the stored `darkMode` entry, or from the system's
 * `prefers-color-scheme` when there is none; every change of the flag runs
 * the effect that puts the `dark` class on the document root (or takes it
 * off) and stores the flag as `"true"` or `"false"`. Local storage and the
 * root's class list are objects the hook shares with later mounts; the media
 * query result is a parameter.
 */
module DarkMode {
  import opened Wrappers

  const StorageKey: string := "darkMode"
  const DarkClass: string := "dark"

  /** `Boolean.prototype.toString`. */
  function BoolToString(b: bool): (s: string)
    ensures s == "true" || s == "false"
    ensures s == "true" <==> b
  {
    if b then "true" else "false"
  }

  /** The stored-value test `stored === 'true'`. */
  function ParseStored(s: string): (b: bool)
    ensures b <==> s == BoolToString(true)
  {
    s == "true"
  }

  /**
   * Persisting a flag and reading it back gives the flag; a stored string
   * survives a read and a write exactly when it is `"true"` or `"false"`.
   */
  lemma {:induction false} StoredRoundTrip(b: bool, s: string)
    ensures ParseStored(BoolToString(b)) == b
    ensures BoolToString(ParseStored(s)) == s <==> s == "true" || s == "false"
  {
  }

  /**
   * The initial value: false without a window; otherwise the stored entry
   * decides when there is one (only `"true"` means dark), and the system
   * preference when there is none.
   */
  function InitialDarkMode(hasWindow: bool, stored: Option<string>, prefersDark: bool): (dark: bool)
    ensures !hasWindow ==> !dark
    ensures hasWindow && stored.Some? ==> (dark <==> stored.value == "true")
    ensures hasWindow && stored.None? ==> (dark <==> prefersDark)
  {
    if !hasWindow then false
    else if stored.Some? then ParseStored(stored.value)
    else prefersDark
  }

  /** The browser's localStorage entry under `darkMode`. */
  class LocalStorage {
    var darkMode: Option<string>

    constructor (initial: Option<string>)
      ensures darkMode == initial
    {
      darkMode := initial;
    }
  }

  /** `document.documentElement`'s class list. */
  class RootElement {
    var classes: set<string>

    constructor (initial: set<string>)
      ensures classes == initial
    {
      classes := initial;
    }
  }

  class DarkModeHook {
    var isDarkMode: bool
    const storage: LocalStorage
    const root: RootElement

    /** What the effect establishes: the root's `dark` class and the stored string both follow the flag. */
    ghost predicate Synced()
      reads this, storage, root
    {
      && (DarkClass in root.classes <==> isDarkMode)
      && storage.darkMode == Some(BoolToString(isDarkMode))
    }

    /** Mounting in a browser: read the initial value, then run the effect once. */
    constructor (storage: LocalStorage, root: RootElement, prefersDark: bool)
      modifies storage, root
      ensures this.storage == storage && this.root == root
      ensures isDarkMode == InitialDarkMode(true, old(storage.darkMode), prefersDark)
      ensures Synced()
      ensures root.classes - {DarkClass} == old(root.classes) - {DarkClass}
    {
      isDarkMode := InitialDarkMode(true, storage.darkMode, prefersDark);
      this.storage := storage;
      this.root := root;
      new;
      Effect();
    }

    /** The effect body: add or remove the `dark` class, then store the flag's string. */
    method Effect()
      modifies storage, root
      ensures Synced()
      ensures isDarkMode ==> root.classes == old(root.classes) + {DarkClass}
      ensures !isDarkMode ==> root.classes == old(root.classes) - {DarkClass}
    {
      if isDarkMode {
        root.classes := root.classes + {DarkClass};
      } else {
        root.classes := root.classes - {DarkClass};
      }
      storage.darkMode := Some(BoolToString(isDarkMode));
    }

    /** `toggleDarkMode`: negate the flag; the changed flag re-runs the effect. */
    method Toggle()
      requires Synced()
      modifies this, storage, root
      ensures isDarkMode == !old(isDarkMode) && Synced()
      ensures isDarkMode ==> root.classes == old(root.classes) + {DarkClass}
      ensures !isDarkMode ==> root.classes == old(root.classes) - {DarkClass}
    {
      isDarkMode := !isDarkMode;
      Effect();
    }

    /** `setDarkMode`: set exactly `value`; the effect re-runs only when the flag changes. */
    method SetDarkMode(value: bool)
      requires Synced()
      modifies this, storage, root
      ensures isDarkMode == value && Synced()
      ensures root.classes - {DarkClass} == old(root.classes) - {DarkClass}
      ensures value == old(isDarkMode) ==> unchanged(storage, root)
    {
      if value != isDarkMode {
        isDarkMode := value;
        Effect();
      }
    }
  }

  /** Toggling twice restores the flag, the stored string and the root's class list. */
  method ToggleTwiceExample(stored: Option<string>, classes: set<string>, prefersDark: bool)
    returns (before: bool, after: bool, storedBefore: Option<string>, storedAfter: Option<string>,
             classesBefore: set<string>, classesAfter: set<string>)
    ensures after == before && storedAfter == storedBefore && classesAfter == classesBefore
  {
    var storage := new LocalStorage(stored);
    var root := new RootElement(classes);
    var hook := new DarkModeHook(storage, root, prefersDark);
    before, storedBefore, classesBefore := hook.isDarkMode, storage.darkMode, root.classes;
    hook.Toggle();
    hook.Toggle();
    after, storedAfter, classesAfter := hook.isDarkMode, storage.darkMode, root.classes;
  }

  /**
   * A choice survives a reload: a later mount on the same storage starts
   * with the value set, whatever the system preference then says.
   */
  method ReloadExample(stored: Option<string>, value: bool, prefersBefore: bool, prefersAfter: bool)
    returns (reloaded: bool)
    ensures reloaded == value
  {
    var storage := new LocalStorage(stored);
    var root := new RootElement({});
    var hook := new DarkModeHook(storage, root, prefersBefore);
    hook.SetDarkMode(value);
    var again := new DarkModeHook(storage, root, prefersAfter);
    reloaded := again.isDarkMode;
  }
}
