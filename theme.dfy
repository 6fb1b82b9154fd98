/** The theme switch of docs/assets/js/theme.js: the `data-theme` attribute
    of the document and the preference stored under `1mb_theme`, the rule
    for the preferred theme, the toggle, start-up and the listener for a
    change of the system's colour scheme. */
module Theme {
  import opened Base

  const StorageKey := "1mb_theme"
  const Dark := "dark"
  const Light := "light"

  /** JavaScript truthiness of a stored or attribute value (`null` and the
      empty string are falsy). */
  predicate Present(v: Option<string>) {
    v.Some? && v.value != ""
  }

  /** The system's scheme as a theme name. */
  function SystemTheme(systemDark: bool): (t: string)
    ensures t == Dark <==> systemDark
    ensures t == Light <==> !systemDark
  {
    if systemDark then Dark else Light
  }

  /** `getPreferredTheme()`: the stored preference when it is non-empty,
      otherwise the system's scheme. Never empty. */
  function Preferred(stored: Option<string>, systemDark: bool): (t: string)
    ensures t != ""
    ensures Present(stored) ==> t == stored.value
    ensures !Present(stored) ==> t == SystemTheme(systemDark)
  {
    if Present(stored) then stored.value else SystemTheme(systemDark)
  }

  /** The theme `toggleTheme` switches to from `current`. */
  function NextTheme(current: string): (next: string)
    ensures next == Light <==> current == Dark
    ensures next == Dark <==> current != Dark
  {
    if current == Dark then Light else Dark
  }

  /** Toggling twice gives back 'dark' and 'light'; any other value ends at
      'light'. */
  lemma ToggleTwice(t: string)
    ensures t == Dark || t == Light ==> NextTheme(NextTheme(t)) == t
    ensures t != Dark && t != Light ==> NextTheme(NextTheme(t)) == Light
  {
  }

  /** The theme `toggleTheme` starts from: the attribute when it is set,
      otherwise the preferred theme. */
  function CurrentTheme(attribute: Option<string>, stored: Option<string>, systemDark: bool): (t: string)
    ensures t != ""
    ensures Present(attribute) ==> t == attribute.value
    ensures !Present(attribute) ==> t == Preferred(stored, systemDark)
  {
    if Present(attribute) then attribute.value else Preferred(stored, systemDark)
  }

  /** The document and the browser state the script reads and writes. */
  class ThemeState {
    /** `document.documentElement`'s `data-theme` attribute. */
    var attribute: Option<string>
    /** `localStorage['1mb_theme']` */
    var stored: Option<string>
    /** `matchMedia('(prefers-color-scheme: dark)').matches` */
    var systemDark: bool

    /** The attribute and the stored preference agree on a theme. */
    predicate Valid()
      reads this
    {
      Present(attribute) && stored == attribute
    }

    /** The script's start-up: `setTheme(getPreferredTheme())`. */
    constructor (storedAtLoad: Option<string>, systemDarkAtLoad: bool)
      ensures Valid()
      ensures attribute == Some(Preferred(storedAtLoad, systemDarkAtLoad))
      ensures systemDark == systemDarkAtLoad
    {
      systemDark := systemDarkAtLoad;
      attribute := Some(Preferred(storedAtLoad, systemDarkAtLoad));
      stored := attribute;
    }

    /** `setTheme(theme)`: both cells take the theme. */
    method SetTheme(theme: string)
      modifies this
      ensures attribute == Some(theme) && stored == Some(theme)
      ensures systemDark == old(systemDark)
    {
      attribute := Some(theme);
      stored := Some(theme);
    }

    /** `toggleTheme()` */
    method Toggle()
      modifies this
      ensures attribute == stored == Some(NextTheme(CurrentTheme(old(attribute), old(stored), old(systemDark))))
      ensures Valid() && systemDark == old(systemDark)
    {
      var current := if Present(attribute) then attribute.value else Preferred(stored, systemDark);
      var next := if current == Dark then Light else Dark;
      SetTheme(next);
    }

    /** The `change` listener of the colour-scheme query: the new scheme
        becomes the theme only when no preference is stored. Start-up always
        stores one, so from a valid state the listener changes neither
        cell. */
    method SystemChanged(matches: bool)
      modifies this
      ensures systemDark == matches
      ensures !Present(old(stored)) ==> attribute == Some(SystemTheme(matches)) && stored == attribute
      ensures Present(old(stored)) ==> attribute == old(attribute) && stored == old(stored)
      ensures old(Valid()) ==> Valid() && attribute == old(attribute) && stored == old(stored)
    {
      systemDark := matches;
      if !Present(stored) {
        SetTheme(if matches then Dark else Light);
      }
    }
  }
}
