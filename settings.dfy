/** `context/SettingsContext.tsx`: the theme and currency settings. The settings
    found in storage at start-up are a parameter of the constructor; the document's
    `dark` class is a field, kept in step with the theme as the effects keep it. */
module Settings {
  import opened Wrappers
  import opened Types

  /** Light theme, US dollars. */
  const DefaultSettings := AppSettings(Light, "USD")

  /** `{ ...prev, themeMode: mode }` */
  function WithTheme(s: AppSettings, mode: ThemeMode): AppSettings {
    s.(themeMode := mode)
  }

  /** `{ ...prev, currency }` */
  function WithCurrency(s: AppSettings, currency: string): AppSettings {
    s.(currency := currency)
  }

  class SettingsStore {
    var settings: AppSettings
    /** Whether the document carries the `dark` class. */
    var darkClass: bool

    /** The theme shown is the theme of the settings. */
    predicate Valid()
      reads this
    {
      darkClass == (settings.themeMode == Dark)
    }

    /** The mount effect: stored settings, when there are any, replace the defaults,
        and the class follows their theme. */
    constructor Load(stored: Option<AppSettings>)
      ensures settings == stored.GetOr(DefaultSettings)
      ensures Valid()
    {
      settings := stored.GetOr(DefaultSettings);
      darkClass := stored.GetOr(DefaultSettings).themeMode == Dark;
    }

    /** `updateTheme`, followed by the effect that applies the theme. */
    method UpdateTheme(mode: ThemeMode)
      modifies this
      ensures settings == WithTheme(old(settings), mode)
      ensures Valid()
    {
      settings := WithTheme(settings, mode);
      darkClass := mode == Dark;
    }

    /** `updateCurrency`; the theme, and so the class, stay as they are. */
    method UpdateCurrency(currency: string)
      modifies this
      ensures settings == WithCurrency(old(settings), currency)
      ensures darkClass == old(darkClass)
      ensures old(Valid()) ==> Valid()
    {
      settings := WithCurrency(settings, currency);
    }
  }

  // ---------------------------------------------------------------------------
  // Lemmas

  /** Each update sets its own field and leaves the other one as it was. */
  lemma UpdatesTouchOneField(s: AppSettings, mode: ThemeMode, currency: string)
    ensures WithTheme(s, mode).themeMode == mode && WithTheme(s, mode).currency == s.currency
    ensures WithCurrency(s, currency).currency == currency && WithCurrency(s, currency).themeMode == s.themeMode
  {
  }

  /** The defaults are the light theme in dollars, and without stored settings
      they are what the store starts with. */
  lemma DefaultsWhenNothingStored()
    ensures DefaultSettings.themeMode == Light && DefaultSettings.currency == "USD"
    ensures None.GetOr(DefaultSettings) == DefaultSettings
  {
  }
}
