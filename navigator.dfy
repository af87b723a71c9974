/** The previous/next navigation between exercises of one category
    (app/components/ExerciseNavigator.tsx): the current position, whether
    each button is enabled, the exercise each button goes to, and the path
    pushed, which keeps the locale of the current path. */
module Navigator {
  import opened Optional
  import opened Exercises

  /** `currentIndex`: position of the current exercise in its category's
      list, or -1 when it is not there. */
  function CurrentIndex(list: seq<Exercise>, currentId: string): (i: int)
    ensures -1 <= i < |list|
    ensures i >= 0 ==> list[i].id == currentId
    ensures i == -1 <==> forall e :: e in list ==> e.id != currentId
  {
    IndexOfId(list, currentId)
  }

  /** `hasPrevious`: the current exercise is in the list, but not first. */
  predicate HasPrevious(list: seq<Exercise>, currentId: string)
    ensures HasPrevious(list, currentId) <==>
              |list| > 0 && list[0].id != currentId && exists e :: e in list && e.id == currentId
  {
    CurrentIndex(list, currentId) > 0
  }

  /** `hasNext`: it fails only for an empty list, or when the current
      exercise occurs only in the last place. */
  predicate HasNext(list: seq<Exercise>, currentId: string)
    ensures !HasNext(list, currentId) <==>
              || list == []
              || (list[|list| - 1].id == currentId && forall j :: 0 <= j < |list| - 1 ==> list[j].id != currentId)
  {
    CurrentIndex(list, currentId) < |list| - 1
  }

  /** The exercise `goToPrevious` opens, if the button acts at all. */
  function PreviousTarget(list: seq<Exercise>, currentId: string): (r: Option<string>)
    ensures r.Some? <==> HasPrevious(list, currentId)
    ensures r.Some? ==> 0 <= CurrentIndex(list, currentId) - 1 < |list|
                        && r.value == list[CurrentIndex(list, currentId) - 1].id
  {
    if HasPrevious(list, currentId) then Some(list[CurrentIndex(list, currentId) - 1].id) else None
  }

  /** The exercise `goToNext` opens, if the button acts at all. */
  function NextTarget(list: seq<Exercise>, currentId: string): (r: Option<string>)
    ensures r.Some? <==> HasNext(list, currentId)
    ensures r.Some? ==> 0 <= CurrentIndex(list, currentId) + 1 < |list|
                        && r.value == list[CurrentIndex(list, currentId) + 1].id
  {
    if HasNext(list, currentId) then Some(list[CurrentIndex(list, currentId) + 1].id) else None
  }

  /** An exercise that is not in the list has no previous one, and "next"
      opens the first exercise of the list, if there is one. */
  lemma UnknownExerciseNavigation(list: seq<Exercise>, currentId: string)
    requires forall e :: e in list ==> e.id != currentId
    ensures !HasPrevious(list, currentId)
    ensures HasNext(list, currentId) <==> list != []
    ensures list != [] ==> NextTarget(list, currentId) == Some(list[0].id)
  {
  }

  /** In a list with distinct ids, "previous" undoes "next" and "next"
      undoes "previous". */
  lemma NextThenPrevious(list: seq<Exercise>, currentId: string)
    requires forall k, l :: 0 <= k < l < |list| ==> list[k].id != list[l].id
    requires CurrentIndex(list, currentId) >= 0
    ensures NextTarget(list, currentId).Some? ==>
              PreviousTarget(list, NextTarget(list, currentId).value) == Some(currentId)
    ensures PreviousTarget(list, currentId).Some? ==>
              NextTarget(list, PreviousTarget(list, currentId).value) == Some(currentId)
  {
    var i := CurrentIndex(list, currentId);
    if i + 1 < |list| {
      FindOwnId(list, i + 1);
    }
    if i > 0 {
      FindOwnId(list, i - 1);
    }
  }

  /** Number of leading characters of s that are not `/` (a greedy `[^/]+`). */
  function SegmentLength(s: string): (n: nat)
    ensures n <= |s|
    ensures forall k :: 0 <= k < n ==> s[k] != '/'
    ensures n == |s| || s[n] == '/'
  {
    if s != [] && s[0] != '/' then 1 + SegmentLength(s[1..]) else 0
  }

  /** `pathname.match(/^\/([^/]+)/)`, group 1, or `en` when it does not match. */
  function ExtractLocale(pathname: string): (locale: string)
    ensures |pathname| >= 2 && pathname[0] == '/' && pathname[1] != '/' ==>
              && 1 + |locale| <= |pathname|
              && locale == pathname[1..1 + |locale|]
              && locale != [] && '/' !in locale
              && (1 + |locale| == |pathname| || pathname[1 + |locale|] == '/')
    ensures !(|pathname| >= 2 && pathname[0] == '/' && pathname[1] != '/') ==> locale == "en"
  {
    if |pathname| >= 1 && pathname[0] == '/' && SegmentLength(pathname[1..]) >= 1
    then pathname[1..1 + SegmentLength(pathname[1..])]
    else "en"
  }

  /** The path `goToExercise` pushes. */
  function ExercisePath(locale: string, exerciseId: string): (p: string)
    ensures |p| == |locale| + |exerciseId| + 12
    ensures p[..|locale| + 1] == "/" + locale && p[|p| - |exerciseId|..] == exerciseId
    ensures p[|locale| + 1..|locale| + 12] == "/exercises/"
  {
    "/" + locale + "/exercises/" + exerciseId
  }

  /** The locale read back from an exercise path is the one it was built
      with, for any non-empty locale without `/`. */
  lemma {:induction false} LocaleRoundTrip(locale: string, exerciseId: string)
    requires locale != [] && '/' !in locale
    ensures ExtractLocale(ExercisePath(locale, exerciseId)) == locale
  {
    var p := ExercisePath(locale, exerciseId);
    assert p[1..] == locale + ("/exercises/" + exerciseId);
    SegmentOfPrefix(locale, "/exercises/" + exerciseId);
  }

  /** A slash-free part followed by text starting with `/` is one segment. */
  lemma {:induction false} SegmentOfPrefix(a: string, b: string)
    requires '/' !in a && b != [] && b[0] == '/'
    ensures SegmentLength(a + b) == |a|
  {
    if a != [] {
      assert (a + b)[1..] == a[1..] + b;
      SegmentOfPrefix(a[1..], b);
    } else {
      assert a + b == b;
    }
  }

  /** Navigating keeps the locale: the path pushed from any current path
      yields the same locale again. */
  lemma NavigationKeepsLocale(pathname: string, exerciseId: string)
    ensures ExtractLocale(ExercisePath(ExtractLocale(pathname), exerciseId)) == ExtractLocale(pathname)
  {
    var locale := ExtractLocale(pathname);
    if locale == "en" {
      assert '/' !in "en";
    }
    LocaleRoundTrip(locale, exerciseId);
  }

  /** `goToPrevious`: the path pushed, if any. */
  function GoToPrevious(pathname: string, list: seq<Exercise>, currentId: string): (r: Option<string>)
    ensures r.Some? <==> HasPrevious(list, currentId)
    ensures r.Some? ==> r.value == ExercisePath(ExtractLocale(pathname), PreviousTarget(list, currentId).value)
  {
    match PreviousTarget(list, currentId)
    case None => None
    case Some(id) => Some(ExercisePath(ExtractLocale(pathname), id))
  }

  /** `goToNext`: the path pushed, if any. */
  function GoToNext(pathname: string, list: seq<Exercise>, currentId: string): (r: Option<string>)
    ensures r.Some? <==> HasNext(list, currentId)
    ensures r.Some? ==> r.value == ExercisePath(ExtractLocale(pathname), NextTarget(list, currentId).value)
  {
    match NextTarget(list, currentId)
    case None => None
    case Some(id) => Some(ExercisePath(ExtractLocale(pathname), id))
  }

  /** On the first exercise of a list with distinct ids, "previous" is
      disabled and "next" opens the second exercise. */
  lemma FirstOfList(list: seq<Exercise>)
    requires |list| >= 2
    requires forall k, l :: 0 <= k < l < |list| ==> list[k].id != list[l].id
    ensures !HasPrevious(list, list[0].id)
    ensures NextTarget(list, list[0].id) == Some(list[1].id)
  {
    FindOwnId(list, 0);
  }

  /** On the first fundamentals exercise, "previous" is disabled and "next"
      opens the second one. */
  lemma FirstFundamentalsExercise()
    ensures !HasPrevious(GetExercisesByCategory(Fundamentals), "hello-world")
    ensures NextTarget(GetExercisesByCategory(Fundamentals), "hello-world") == Some("jsx-basics")
  {
    CategoryLists();
    CatalogIdsDistinct();
    CatalogFirstIds();
    FirstOfList(Catalog());
  }
}
