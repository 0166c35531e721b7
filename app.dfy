/** The settings functions of js/app.js: `saveSettings`, `loadSettings` and
    `resetSettings`. `localStorage` is a map from keys to what was stored;
    what `JSON.stringify` wrote and `JSON.parse` reads back is a record of
    five fields, or something that is not one. */
module App {
  import opened Wrappers
  import opened Dom
  import opened Renderer

  const SettingsKey: string := "texToImageSettings"

  /** A string member of the parsed object: missing, or a string. */
  datatype Field = Missing | Value(s: string)

  /** What is stored under the key: the five settings, or something that
      is empty, does not parse, or parses to something without members. */
  datatype Stored =
    | SettingsRecord(fontSize: Field, scale: Field, bgColor: Field, textColor: Field, transparent: Option<bool>)
    | Unusable(raw: string)

  /** `localStorage` */
  class Storage {
    var items: map<string, Stored>
  }

  /** `APP_CONFIG.defaults` (js/config.js:33-40), as the controls show
      them: the numbers become the strings an input's `value` holds. */
  const DefaultFontSize: string := "48"
  const DefaultScale: string := "2"
  const DefaultBgColor: string := "#ffffff"
  const DefaultTextColor: string := "#000000"
  const DefaultTransparent: bool := true

  // ---------------------------------------------------------------------
  // saveSettings

  /** The object `saveSettings` stringifies. */
  function SettingsOf(s: PageState): Stored {
    SettingsRecord(Value(s.fontSize), Value(s.scale), Value(s.bgColor), Value(s.textColor), Some(s.transparent))
  }

  /** `saveSettings()` */
  method SaveSettings(page: Page, store: Storage)
    modifies store
    ensures store.items == old(store.items)[SettingsKey := SettingsOf(page.State())]
  {
    var settings := SettingsRecord(Value(page.fontSize), Value(page.scale), Value(page.bgColor), Value(page.textColor), Some(page.transparent));
    store.items := store.items[SettingsKey := settings];
  }

  // ---------------------------------------------------------------------
  // loadSettings

  /** `if (settings.x) control.value = settings.x`: a missing or empty
      member leaves the control as it is. */
  function Merge(current: string, f: Field): string {
    if f.Value? && f.s != "" then f.s else current
  }

  /** The page after `loadSettings()` given what is under the key. */
  function Loaded(s: PageState, saved: Option<Stored>): PageState {
    match saved
    case Some(SettingsRecord(fontSize, scale, bgColor, textColor, transparent)) =>
      s.(fontSize := Merge(s.fontSize, fontSize), scale := Merge(s.scale, scale),
         bgColor := Merge(s.bgColor, bgColor), textColor := Merge(s.textColor, textColor),
         transparent := if transparent.Some? then transparent.value else s.transparent)
    case _ => s
  }

  function Get(items: map<string, Stored>, key: string): Option<Stored> {
    if key in items then Some(items[key]) else None
  }

  /** `loadSettings()` */
  method LoadSettings(page: Page, store: Storage)
    modifies page
    ensures page.State() == Loaded(old(page.State()), Get(store.items, SettingsKey))
  {
    if SettingsKey in store.items && store.items[SettingsKey].SettingsRecord? {
      ApplySettings(page, store.items[SettingsKey]);
    }
  }

  /** One `if (settings.x) control.value = settings.x` of `loadSettings()`. */
  method MergeControl(current: string, f: Field) returns (v: string)
    ensures v == Merge(current, f)
    ensures v != current ==> f == Value(v) && v != ""
  {
    v := current;
    if f.Value? && f.s != "" {
      v := f.s;
    }
  }

  /** The body of `loadSettings()`'s `try` once the record has parsed. */
  method ApplySettings(page: Page, saved: Stored)
    requires saved.SettingsRecord?
    modifies page
    ensures page.State() == Loaded(old(page.State()), Some(saved))
  {
    var fontSize := MergeControl(page.fontSize, saved.fontSize);
    var scale := MergeControl(page.scale, saved.scale);
    var bgColor := MergeControl(page.bgColor, saved.bgColor);
    var textColor := MergeControl(page.textColor, saved.textColor);
    var transparent := page.transparent;
    if saved.transparent.Some? {
      transparent := saved.transparent.value;
    }
    LoadedRecord(page.State(), saved);
    SetSettings(page, fontSize, scale, bgColor, textColor, transparent);
  }

  /** Writes the five controls. */
  method SetSettings(page: Page, fontSize: string, scale: string, bgColor: string, textColor: string, transparent: bool)
    modifies page
    ensures page.State() == old(page.State()).(fontSize := fontSize, scale := scale, bgColor := bgColor,
                                               textColor := textColor, transparent := transparent)
  {
    page.fontSize, page.scale, page.bgColor, page.textColor, page.transparent :=
      fontSize, scale, bgColor, textColor, transparent;
  }

  /** `Loaded` on a parsed record, field by field. */
  lemma LoadedRecord(s: PageState, saved: Stored)
    requires saved.SettingsRecord?
    ensures Loaded(s, Some(saved)) ==
      s.(fontSize := Merge(s.fontSize, saved.fontSize), scale := Merge(s.scale, saved.scale),
         bgColor := Merge(s.bgColor, saved.bgColor), textColor := Merge(s.textColor, saved.textColor),
         transparent := if saved.transparent.Some? then saved.transparent.value else s.transparent)
  {
  }

  /** Loading changes nothing without a usable entry, and never touches
      anything but the five settings. */
  lemma LoadedChangesOnlySettings(s: PageState, saved: Option<Stored>)
    ensures saved.None? || saved.value.Unusable? ==> Loaded(s, saved) == s
    ensures Loaded(s, saved).(fontSize := s.fontSize, scale := s.scale, bgColor := s.bgColor,
                              textColor := s.textColor, transparent := s.transparent) == s
  {
  }

  /** A string control changes only to a non-empty stored value, and it
      takes every non-empty stored value; `transparent` takes any stored
      value, `false` included. */
  lemma LoadedTruthiness(s: PageState, r: Stored)
    requires r.SettingsRecord?
    ensures var t := Loaded(s, Some(r));
      (t.fontSize != s.fontSize ==> r.fontSize == Value(t.fontSize) && t.fontSize != "") &&
      (r.fontSize.Value? && r.fontSize.s != "" ==> t.fontSize == r.fontSize.s) &&
      (r.fontSize.Missing? || r.fontSize == Value("") ==> t.fontSize == s.fontSize) &&
      (t.scale != s.scale ==> r.scale == Value(t.scale) && t.scale != "") &&
      (r.scale.Value? && r.scale.s != "" ==> t.scale == r.scale.s) &&
      (t.bgColor != s.bgColor ==> r.bgColor == Value(t.bgColor) && t.bgColor != "") &&
      (r.bgColor.Value? && r.bgColor.s != "" ==> t.bgColor == r.bgColor.s) &&
      (t.textColor != s.textColor ==> r.textColor == Value(t.textColor) && t.textColor != "") &&
      (r.textColor.Value? && r.textColor.s != "" ==> t.textColor == r.textColor.s) &&
      (r.transparent == Some(false) ==> !t.transparent) &&
      (r.transparent.None? ==> t.transparent == s.transparent)
  {
  }

  /** Saving and then loading restores the five settings on any page, as
      long as none of the four strings was empty; an empty one keeps the
      value the page had instead. */
  lemma SaveLoadRoundTrip(saved: PageState, s: PageState)
    ensures var t := Loaded(s, Some(SettingsOf(saved)));
      t.transparent == saved.transparent &&
      t.fontSize == (if saved.fontSize != "" then saved.fontSize else s.fontSize) &&
      t.scale == (if saved.scale != "" then saved.scale else s.scale) &&
      t.bgColor == (if saved.bgColor != "" then saved.bgColor else s.bgColor) &&
      t.textColor == (if saved.textColor != "" then saved.textColor else s.textColor)
    ensures saved.fontSize != "" && saved.scale != "" && saved.bgColor != "" && saved.textColor != "" ==>
      Loaded(s, Some(SettingsOf(saved))) ==
        s.(fontSize := saved.fontSize, scale := saved.scale, bgColor := saved.bgColor,
           textColor := saved.textColor, transparent := saved.transparent)
  {
  }

  /** The same round trip through the store: after `saveSettings` on one
      page, `loadSettings` on another finds the saved record. */
  lemma StoreRoundTrip(items: map<string, Stored>, saved: PageState, s: PageState)
    requires saved.fontSize != "" && saved.scale != "" && saved.bgColor != "" && saved.textColor != ""
    ensures var t := Loaded(s, Get(items[SettingsKey := SettingsOf(saved)], SettingsKey));
      t.fontSize == saved.fontSize && t.scale == saved.scale && t.bgColor == saved.bgColor &&
      t.textColor == saved.textColor && t.transparent == saved.transparent &&
      t.equation == s.equation && t.preview == s.preview
  {
    SaveLoadRoundTrip(saved, s);
  }

  // ---------------------------------------------------------------------
  // resetSettings

  /** The five controls set to the defaults. */
  function Defaults(s: PageState): PageState {
    s.(fontSize := DefaultFontSize, scale := DefaultScale, bgColor := DefaultBgColor,
       textColor := DefaultTextColor, transparent := DefaultTransparent)
  }

  /** `resetSettings()`: the defaults, then a render. */
  method ResetSettings(page: Page, engine: MathEngine) returns (outcome: RenderOutcome)
    modifies page
    ensures (page.State(), outcome) == Render(Defaults(old(page.State())), engine)
  {
    page.fontSize := DefaultFontSize;
    page.scale := DefaultScale;
    page.bgColor := DefaultBgColor;
    page.textColor := DefaultTextColor;
    page.transparent := DefaultTransparent;
    outcome := RenderEquation(page, engine);
  }

  /** After a reset the five controls hold the defaults whatever they held,
      the equation is kept, and the preview box is transparent at 48 px. */
  lemma ResetSpec(s: PageState, engine: MathEngine)
    ensures var t := Render(Defaults(s), engine).0;
      t.fontSize == "48" && t.scale == "2" && t.bgColor == "#ffffff" && t.textColor == "#000000" &&
      t.transparent && t.equation == s.equation && t.displayToggle == s.displayToggle &&
      t.previewFontSize == "48px" && t.previewColor == "#000000" &&
      TransparentClass in t.boxClasses && t.boxBackground == "transparent"
    ensures Defaults(Defaults(s)) == Defaults(s)
  {
    RenderStyles(Defaults(s), engine);
  }
}
