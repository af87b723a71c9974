/** The path computed when the user picks another language
    (app/components/LanguageSwitcher.tsx): the current locale prefix is
    removed with a first-occurrence string replace, an empty remainder
    becomes `/`, and the new locale is put in front. */
module Switcher {
  import opened Optional
  import opened Text

  /** `s.replace(p, '')` with a string pattern: the first occurrence of p, if
      any, is removed. */
  function RemoveFirst(s: string, p: string): (r: string)
    ensures !Contains(s, p) ==> r == s
    ensures Contains(s, p) ==> |r| + |p| == |s|
  {
    match IndexOf(s, p)
    case None => s
    case Some(i) => s[..i] + s[i + |p|..]
  }

  /** `pathname.replace('/' + locale, '') || '/'`. */
  function PathWithoutLocale(pathname: string, locale: string): (r: string)
    ensures r != []
  {
    var rest := RemoveFirst(pathname, "/" + locale);
    if rest == [] then "/" else rest
  }

  /** The path `switchLocale` pushes. */
  function SwitchLocalePath(pathname: string, locale: string, newLocale: string): (p: string)
    ensures StartsWith(p, "/" + newLocale) && |p| > |newLocale| + 1
  {
    "/" + newLocale + PathWithoutLocale(pathname, locale)
  }

  /** The removal takes out the first occurrence of `/locale`, wherever it
      is: characters before it are kept, and so is everything after it. */
  lemma RemovesFirstOccurrence(pathname: string, locale: string, i: nat)
    requires OccursAt(pathname, "/" + locale, i)
    requires forall j :: 0 <= j < i ==> !OccursAt(pathname, "/" + locale, j)
    ensures RemoveFirst(pathname, "/" + locale) == pathname[..i] + pathname[i + 1 + |locale|..]
  {
    assert IndexOf(pathname, "/" + locale) == Some(i);
  }

  /** A path that does not hold `/locale` is kept, or `/` when it is empty. */
  lemma PathWithoutLocaleAbsent(pathname: string, locale: string)
    requires forall j :: !OccursAt(pathname, "/" + locale, j)
    ensures PathWithoutLocale(pathname, locale) == if pathname == [] then "/" else pathname
  {
    ContainsIffOccurs(pathname, "/" + locale);
  }

  /** A path that starts with `/locale` loses exactly that prefix. */
  lemma {:induction false} PrefixRemoved(locale: string, rest: string)
    ensures RemoveFirst("/" + locale + rest, "/" + locale) == rest
  {
    var s := "/" + locale + rest;
    assert OccursAt(s, "/" + locale, 0);
    RemovesFirstOccurrence(s, locale, 0);
    assert s[1 + |locale|..] == rest;
  }

  /** Switching from the bare locale root `/locale` leads to `/newLocale/`. */
  lemma SwitchFromLocaleRoot(locale: string, newLocale: string)
    ensures SwitchLocalePath("/" + locale, locale, newLocale) == "/" + newLocale + "/"
  {
    PrefixRemoved(locale, []);
    assert "/" + locale + [] == "/" + locale;
  }

  /** Switching a locale-prefixed path to its own locale reproduces it. */
  lemma SwitchToSameLocale(locale: string, rest: string)
    requires rest != []
    ensures SwitchLocalePath("/" + locale + rest, locale, locale) == "/" + locale + rest
  {
    PrefixRemoved(locale, rest);
  }

  /** Switching a locale-prefixed path to another locale and back restores
      it: the rest of the path is carried over unchanged. */
  lemma SwitchAndBack(locale: string, newLocale: string, rest: string)
    requires rest != []
    ensures SwitchLocalePath("/" + locale + rest, locale, newLocale) == "/" + newLocale + rest
    ensures SwitchLocalePath(SwitchLocalePath("/" + locale + rest, locale, newLocale), newLocale, locale)
              == "/" + locale + rest
  {
    PrefixRemoved(locale, rest);
    PrefixRemoved(newLocale, rest);
  }
}
