/** The preferences service (refacto/services/UserPreferences.js): a record
    of named settings with defaults, overlaid by saved or given values, with
    validated setters for the theme and the font size. The storage manager
    is outside the model: whether there is one is a field, what its load
    answers is a parameter, and the records handed to its save are kept in
    order. */
module UserPreferences {

  /** A preferences object: setting name to value. Spreading one object
      over another is Dafny's map union, where the right operand wins. */
  type Prefs = map<string, string>

  /** `this.defaultPreferences`. */
  const Defaults: Prefs := map["theme" := "light", "fontSize" := "normal"]

  const ThemeError := "Thème invalide. Utilisez \"light\" ou \"dark\""
  const FontSizeError := "Taille de police invalide. Utilisez \"normal\" ou \"large\""

  /** `{ ...base, ...patch }`. */
  function Overlay(base: Prefs, patch: Prefs): (r: Prefs)
    ensures r.Keys == base.Keys + patch.Keys
    ensures forall k :: k in patch ==> r[k] == patch[k]
    ensures forall k :: k in base && k !in patch ==> r[k] == base[k]
  {
    base + patch
  }

  predicate ValidTheme(theme: string) {
    theme == "light" || theme == "dark"
  }

  predicate ValidFontSize(size: string) {
    size == "normal" || size == "large"
  }

  /** A record both setters could have produced: each setting present and
      one of its allowed values. */
  predicate WellFormed(p: Prefs) {
    && "theme" in p && ValidTheme(p["theme"])
    && "fontSize" in p && ValidFontSize(p["fontSize"])
  }

  /** What the storage manager's `loadPreferences` gives back. */
  datatype LoadAnswer = Stored(prefs: Prefs) | NothingStored | LoadFailed

  /** A setter either saves or throws with its message. */
  datatype SetResult = Saved | Rejected(message: string)

  /** Example: the defaults overlaid by a full saved record are that record; loading
      `{theme: 'dark', fontSize: 'large'}` gives exactly it back. */
  lemma LoadFullRecord(saved: Prefs)
    requires saved.Keys == Defaults.Keys
    ensures Overlay(Defaults, saved) == saved
  {
  }

  /** Example: overlaying a partial record keeps the other defaults; saving
      `{theme: 'dark'}` over the defaults sends `{theme: 'dark',
      fontSize: 'normal'}`. */
  lemma SavePartial()
    ensures Overlay(Defaults, map["theme" := "dark"]) == map["theme" := "dark", "fontSize" := "normal"]
  {
    var r := Overlay(Defaults, map["theme" := "dark"]);
    assert r.Keys == {"theme", "fontSize"};
  }

  /** Example: the load path does not validate; a stored record can make the
      current theme one that `setTheme` would refuse. */
  lemma LoadSkipsValidation()
    ensures !WellFormed(Overlay(Defaults, map["theme" := "purple"]))
  {
    assert Overlay(Defaults, map["theme" := "purple"])["theme"] == "purple";
  }

  class UserPreferences {
    var hasStorage: bool
    var current: Prefs
    /** The records passed to the storage manager's `savePreferences`. */
    var sent: seq<Prefs>

    constructor (hasStorage: bool)
      ensures this.hasStorage == hasStorage && current == Defaults && sent == []
    {
      this.hasStorage := hasStorage;
      current := Defaults;
      sent := [];
    }

    /** `loadPreferences()`. */
    method Load(answer: LoadAnswer) returns (r: Prefs)
      modifies this`current
      ensures !hasStorage || answer.LoadFailed? ==> r == Defaults && current == old(current)
      ensures hasStorage && answer.Stored? ==> current == Overlay(Defaults, answer.prefs) && r == current
      ensures hasStorage && answer.NothingStored? ==> current == old(current) && r == current
    {
      if !hasStorage {
        return Defaults;
      }
      match answer
      case LoadFailed =>
        return Defaults;
      case NothingStored =>
        return current;
      case Stored(saved) =>
        current := Defaults + saved;
        return current;
    }

    /** `savePreferences(preferences)`: the state is overlaid first, and the
        whole record goes to storage when there is one; a failing save is
        only logged. */
    method Save(preferences: Prefs)
      modifies this`current, this`sent
      ensures current == Overlay(old(current), preferences)
      ensures sent == if hasStorage then old(sent) + [current] else old(sent)
    {
      current := current + preferences;
      if hasStorage {
        sent := sent + [current];
      }
    }

    /** `getPreferences()`: a copy, which as a value cannot alias the
        state. */
    method Get() returns (r: Prefs)
      ensures r == current
    {
      r := current;
    }

    /** `setTheme(theme)`. */
    method SetTheme(theme: string) returns (r: SetResult)
      modifies this`current, this`sent
      ensures !ValidTheme(theme) ==> r == Rejected(ThemeError) && current == old(current) && sent == old(sent)
      ensures ValidTheme(theme) ==> r == Saved && current == old(current)["theme" := theme]
      ensures ValidTheme(theme) ==> sent == if hasStorage then old(sent) + [current] else old(sent)
      ensures WellFormed(old(current)) ==> WellFormed(current)
    {
      if theme != "light" && theme != "dark" {
        return Rejected(ThemeError);
      }
      Save(map["theme" := theme]);
      return Saved;
    }

    /** `setFontSize(fontSize)`. */
    method SetFontSize(size: string) returns (r: SetResult)
      modifies this`current, this`sent
      ensures !ValidFontSize(size) ==> r == Rejected(FontSizeError) && current == old(current) && sent == old(sent)
      ensures ValidFontSize(size) ==> r == Saved && current == old(current)["fontSize" := size]
      ensures ValidFontSize(size) ==> sent == if hasStorage then old(sent) + [current] else old(sent)
      ensures WellFormed(old(current)) ==> WellFormed(current)
    {
      if size != "normal" && size != "large" {
        return Rejected(FontSizeError);
      }
      Save(map["fontSize" := size]);
      return Saved;
    }

    /** `resetPreferences()`: back to exactly the defaults, which are then
        saved. */
    method Reset()
      modifies this`current, this`sent
      ensures current == Defaults && WellFormed(current)
      ensures sent == if hasStorage then old(sent) + [Defaults] else old(sent)
    {
      current := Defaults;
      Save(current);
    }
  }
}
