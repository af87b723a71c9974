# Exercise sandbox: a Dafny model

A Next.js React-learning sandbox. The application has a fixed catalog of
exercises. Each exercise page does three things:

- it shows the exercise's starting code in an editor;
- it previews the code on request;
- it offers previous/next navigation within the exercise's category and a
  language switcher.

This project models the logic around those views, each part in the form the
source gives it:

- **Catalog** (`exercises.dfy`, module `Exercises`). The constant list of
  five exercise records and the two accessors, filter by category and find
  by id. Each record keeps its texts verbatim, split into short pieces, in
  a table from text field to text. The accessors `Title()`,
  `Description()`, `Template()` and `Explained()` give the record's fields
  as the source declares them. Keeping the texts in a table lets every
  proof about ids and categories go through without unfolding them.
- **Starting code** (`template.dfy`, module `Template`):
  - `isValidTemplate`;
  - the three-way choice between the exercise template, the caller's
    initial code and the built-in default;
  - the three global regular-expression replacements, followed by `trim`.

  Each regular expression is an explicit scanner. Each `\s+` is taken
  greedily. A shorter run never gives a different match:
  - after `export`, `default` and `from`, the pattern goes on with a letter,
    a quote or its end;
  - after `import`, a shorter run only makes the lazy `.*?` step over
    whitespace, where `from` cannot start.

  The lazy `.*?` is a search that cannot cross a line terminator. A global
  replacement drops each match and resumes after it; every character at
  which no match starts is kept, in order. For each pattern, the
  scanner's result is characterised exactly by the match the regular
  expression picks: the leftmost `from`, the first closing quote, a greedy
  `;?` and the longest trailing whitespace run. Any text the import pattern
  can match at all is also matched by the scanner.
- **Editor/preview state** (`sandbox.dfy`, class `SandboxState.Sandbox`).
  The `code` and `showPreview` state cells, and their four transitions:
  - first render;
  - new props: the template effect runs only when `exercise?.template`
    changes;
  - an editor change;
  - the "try code" button.

  The class invariant is that the preview is shown only for non-blank code.
- **Preview mounting** (`preview.dfy`, module `Preview`). The class
  `PreviewPane` holds the root ref and the `renderError` state. Its
  methods are:
  - the effect: guard, reset, unmount of the previous root, running the
    code, choice of the component, creation and rendering of a root, and
    the catch path;
  - its cleanup;
  - a commit, which runs the effect only when `compiledCode` changed,
    after the pending cleanup;
  - a render followed by its commit;
  - the component's unmount.

  Running the code is a parameter (`Execution`). It either completed,
  leaving an exports object whose `default` property has some value, or it
  threw some value. Root calls are recorded in a ghost log. The invariant
  is that the ref holds the only live root. `SelectPanel` gives the
  render body's precedence of the four panels.
- **Navigation** (`navigator.dfy`, module `Navigator`):
  - the current index;
  - whether previous/next are enabled;
  - the neighbour each button opens;
  - locale extraction with `/^\/([^/]+)/`, falling back to `en`;
  - the exercise path.
- **Language switch** (`switcher.dfy`, module `Switcher`). A
  first-occurrence removal of `/locale`, `/` for an empty remainder, and
  the new locale put in front.
- **JavaScript string primitives** (`text.dfy`, module `Text`):
  - the `\s`/`trim` whitespace class;
  - `trim`, `startsWith`, `indexOf` and `includes`;
  - `length` in UTF-16 code units.

  `option.dfy` holds the Option type that stands for `null`/`undefined`.

The model follows the code where its behaviour is easy to miss:

- `isValidTemplate` counts length in UTF-16 code units.
- A template accepted by the guard may still be stripped to almost nothing.
- An exercise id missing from its category makes "next" open the first
  exercise.
- The exports object the component is chosen from is the original object
  literal, so `module.exports = X` inside the code is not seen and the
  "no component exported" error can never be raised (`ChooseComponent`).
- Once a runtime error is shown, the mount container is not rendered. The
  effect then stops at its guard on every later code change, so the error
  stays (`RuntimeErrorBlocksEffect`, `PreviewPane.RenderAndCommit`).
- Every catalog template passes `isValidTemplate`. So on an exercise's
  page the editor always starts from that exercise's template
  (`CatalogTemplateChosen`).

## Model

| member | source | states |
|---|---|---|
| Text.WsPrefix | app/components/Sandbox.tsx:56-58 | a greedy `\s*` run: all whitespace, and stops at non-whitespace or at the end |
| Text.Trim | app/components/Sandbox.tsx:59 | the result has no whitespace at either end |
| Text.TrimRemovesOnlyOuterWhitespace | app/components/Sandbox.tsx:59 | `trim` returns a contiguous slice of its input with only whitespace around it |
| Text.TrimIdempotent | app/components/Sandbox.tsx:59 | trimming twice is trimming once |
| Text.BlankIffAllWhitespace | app/components/Sandbox.tsx:74 | `!code.trim()` holds exactly when every character is whitespace |
| Text.IndexFrom | app/components/Sandbox.tsx:40 | the search returns the first occurrence at or after the start, or reports that there is none |
| Text.ContainsIffOccurs | app/components/Sandbox.tsx:40 | `includes` holds exactly when the pattern occurs at some index |
| Text.Utf16Length | app/components/Sandbox.tsx:39 | `length` counts between one and two code units per character |
| Text.Utf16LengthBmp | app/components/Sandbox.tsx:39 | `length` is the number of characters exactly when no character lies above U+FFFF |
| Exercises.Catalog | app/data/exercises.ts:23-230 | the catalog has five entries |
| Exercises.GetExercisesByCategory | app/data/exercises.ts:233-235 | an exercise is listed exactly when it is in the catalog with that category |
| Exercises.GetExerciseById | app/data/exercises.ts:238-240 | a found exercise is in the catalog with that id; absent exactly when no catalog entry has the id |
| Exercises.FilterByCategory | app/data/exercises.ts:233-235 | an entry is in the result exactly when it is in the input with that category; the result is no longer than the input |
| Exercises.FilterAppend | app/data/exercises.ts:234 | filtering preserves order: the filter of a concatenation is the concatenation of the filters |
| Exercises.FilterAllMatching | app/data/exercises.ts:234 | a list all of one category filters to itself |
| Exercises.FilterNoneMatching | app/data/exercises.ts:234 | a list without the category filters to nothing |
| Exercises.IndexOfId | app/components/ExerciseNavigator.tsx:16 | `findIndex`: the first index holding the id, or -1 exactly when no entry has it |
| Exercises.FindById | app/data/exercises.ts:238-240 | `find`: a found entry has the id, is in the list and no earlier entry has the id; absent exactly when no entry has it |
| Exercises.CatalogIdsDistinct | app/data/exercises.ts:23-230 | the five catalog ids are pairwise distinct |
| Exercises.CatalogAllFundamentals | app/data/exercises.ts:23-230 | the catalog has five entries, all beginner fundamentals |
| Exercises.CatalogFirstIds | app/data/exercises.ts:25-62 | the first two entries are `hello-world` and `jsx-basics` |
| Exercises.FindOwnId | app/data/exercises.ts:239 | with distinct ids, every entry is found by its own id at its own index |
| Exercises.CatalogEntryFound | app/data/exercises.ts:233-240 | every catalog entry is found by its id and listed under its own category |
| Exercises.FoundExerciseInItsCategory | app/data/exercises.ts:233-240 | whatever lookup by id finds is listed under its own category |
| Exercises.CategoryLists | app/data/exercises.ts:23-235 | the fundamentals list is the whole catalog; the challenges and projects lists are empty |
| Exercises.MissingIdNotFound | app/data/exercises.ts:238-240 | lookup of an id the catalog lacks reports absence |
| Template.IsValidTemplate | app/components/Sandbox.tsx:36-41 | an accepted template has at least 10 characters and is not a message key |
| Template.ValidTemplateIff | app/components/Sandbox.tsx:36-41 | a template is accepted exactly when it does not start with `exercises.`, has at least 20 UTF-16 units and contains `function`, `export` or `return`; so empty text is rejected |
| Template.FunctionSourceValid | app/components/Sandbox.tsx:36-41 | source of at least 20 characters that starts with `function` is accepted |
| Template.SelectTemplate | app/components/Sandbox.tsx:45-52 | the chosen text is the exercise template, the initial code or the default |
| Template.SelectTemplateChoice | app/components/Sandbox.tsx:45-52 | a valid exercise template wins; else initial code whose trimmed UTF-16 length exceeds 10; else the default |
| Template.CloseQuote | app/components/Sandbox.tsx:56 | the lazy `.*?['"]` finds the first quote, with no line terminator before it |
| Template.CloseQuoteReaches | app/components/Sandbox.tsx:56 | a quote reachable without crossing a line terminator is found |
| Template.AfterQuote | app/components/Sandbox.tsx:56 | the greedy `;?` after the closing quote takes the semicolon exactly when one follows |
| Template.StatementEnd | app/components/Sandbox.tsx:56 | `;?\s*` takes the semicolon if present, then the longest run of whitespace |
| Template.StatementEndExact | app/components/Sandbox.tsx:56 | that longest run is the only end of `;?\s*` the regular expression picks |
| Template.FromClause | app/components/Sandbox.tsx:56 | a match of the `from` part ends after its start and never stops in front of whitespace |
| Template.CloseQuoteFirst | app/components/Sandbox.tsx:56 | a quote with no quote or line terminator before it is the one the lazy `.*?['"]` finds |
| Template.MatchedTailIsTail | app/components/Sandbox.tsx:56 | the picked `from` part is one way of matching it |
| Template.FromClauseSound | app/components/Sandbox.tsx:56 | a successful `from` part is the regular expression's own match: `from`, greedy whitespace, an opening quote, the first quote after it on the same line, a `;` if one follows, and the longest whitespace run |
| Template.FromClauseExact | app/components/Sandbox.tsx:56 | conversely, that match is exactly what the `from` part returns |
| Template.MatchedTailUnique | app/components/Sandbox.tsx:56 | the `from` part as the regular expression matches it has one opening quote, one closing quote and one end |
| Template.FromClauseComplete | app/components/Sandbox.tsx:56 | any way of matching `from\s+['"].*?['"];?\s*` (a later closing quote, a shorter tail) makes the `from` part succeed |
| Template.SearchFrom | app/components/Sandbox.tsx:56 | the lazy search ends its match after its start and never in front of whitespace |
| Template.SearchFromSound | app/components/Sandbox.tsx:56 | the search returns the `from` part at the first position it reaches, without crossing a line terminator, where that part succeeds; it fails at every earlier position |
| Template.SearchFromExact | app/components/Sandbox.tsx:56 | conversely, the first such reachable position is where the search stops |
| Template.SearchFromReaches | app/components/Sandbox.tsx:56 | the search succeeds whenever such a `from` part is reachable |
| Template.MatchAt | app/components/Sandbox.tsx:56-58 | a match starts with the pattern's keyword, goes past it and ends before non-whitespace or at the end; for `export\s+` it is whitespace after the keyword |
| Template.ExportKeywordMatch | app/components/Sandbox.tsx:58 | `export\s+` matches exactly `export` and the longest non-empty whitespace run after it |
| Template.ExportDefaultMatchSound | app/components/Sandbox.tsx:57 | an `export\s+default\s+` match is `export`, the longest whitespace run, `default` and the longest non-empty whitespace run after it |
| Template.ExportDefaultMatchExact | app/components/Sandbox.tsx:57 | conversely, every text of that shape is matched up to its end |
| Template.ImportMatchSound | app/components/Sandbox.tsx:56 | every import match is the one the regular expression picks: the longest whitespace run after `import`, the leftmost reachable `from` where the tail succeeds, and that tail's own match; it is also one way of matching the pattern |
| Template.ImportMatchExact | app/components/Sandbox.tsx:56 | conversely, that picked match is exactly what the scanner returns, so the match end is unique |
| Template.ImportMatchComplete | app/components/Sandbox.tsx:56 | any text the import pattern can match at all, with any run lengths and closing quote, is matched by the scanner |
| Template.Strip | app/components/Sandbox.tsx:55-58 | a global replacement by nothing never lengthens the text; which characters it keeps is stated by `StripFirstMatch` and `StripNoMatch` |
| Template.MatchFrom | app/components/Sandbox.tsx:55-58 | a match starting at position k of the text stays inside the text |
| Template.StripKeepsUpTo | app/components/Sandbox.tsx:55-58 | every character at which no match starts is kept, in order, up to the next position where one does |
| Template.StripFirstMatch | app/components/Sandbox.tsx:55-58 | the text before the leftmost match is kept as it is, that match is removed, and the replacement goes on right after it |
| Template.StripNoMatch | app/components/Sandbox.tsx:55-58 | text in which no match starts anywhere is left unchanged |
| Template.ExportPrefixedWordKept | app/components/Sandbox.tsx:58 | `exporter` passes the `export\s+` replacement unchanged: the keyword must be followed by whitespace |
| Template.ImportLineMatched | app/components/Sandbox.tsx:56 | the import pattern matches `import a from 'b';` together with its line break, and nothing of the next line |
| Template.ImportLineRemoved | app/components/Sandbox.tsx:56 | such a leading import line is removed and the replacement goes on with the next line |
| Template.ExportDefaultRemoved | app/components/Sandbox.tsx:57 | a leading `export default ` is removed and the replacement goes on with what follows it |
| Template.StripOnlyRemoves | app/components/Sandbox.tsx:55-58 | a global replacement by nothing only removes characters (multiset inclusion) |
| Template.StripWithoutKeyword | app/components/Sandbox.tsx:55-58 | text without the pattern's keyword is unchanged |
| Template.GetTemplate | app/components/Sandbox.tsx:44-60 | the starting code has no whitespace at either end; what each of the three replacements keeps and drops is stated by `StripFirstMatch` and `StripNoMatch` |
| Template.GetTemplateOnlyRemoves | app/components/Sandbox.tsx:44-60 | the starting code is made only of characters of the chosen text |
| Template.TrimOnlyRemoves | app/components/Sandbox.tsx:59 | `trim` only removes characters |
| Template.PlainCodeOnlyTrimmed | app/components/Sandbox.tsx:44-60 | chosen text without `import` or `export` comes out merely trimmed |
| Template.StripsKeepPlainText | app/components/Sandbox.tsx:55-58 | text without `m` or `x` passes the three replacements unchanged |
| Template.PlainSelectionKept | app/components/Sandbox.tsx:44-60 | chosen text without `m`, `x` or outer whitespace is the starting code exactly |
| Template.DefaultTemplate | app/components/Sandbox.tsx:27-33 | the built-in fallback program, character for character |
| Template.DefaultTemplateValid | app/components/Sandbox.tsx:27-41 | the fallback program itself passes `isValidTemplate` |
| Template.DefaultTemplateNoM | app/components/Sandbox.tsx:27-33 | the default program has no `m`, so it cannot contain `import` |
| Template.DefaultTemplateNoX | app/components/Sandbox.tsx:27-33 | the default program has no `x`, so it cannot contain `export` |
| Template.DefaultTemplateEnds | app/components/Sandbox.tsx:27-33 | the default program starts with `f` and ends with `}` |
| Template.DefaultTemplateKept | app/components/Sandbox.tsx:27-60 | without a valid exercise template or substantial initial code, the starting code is the default program exactly |
| SandboxState.TemplateKey | app/components/Sandbox.tsx:71 | `exercise?.template`: present exactly when the exercise is |
| SandboxState.Sandbox.constructor | app/components/Sandbox.tsx:62-71 | initially `code` is `getTemplate()` for the props and the preview is off |
| SandboxState.Sandbox.ReceiveProps | app/components/Sandbox.tsx:66-71 | a changed template key resets `code` to `getTemplate()` for the new props and hides the preview; otherwise both cells are unchanged |
| SandboxState.Sandbox.EditorChange | app/components/Sandbox.tsx:108-111 | an edit stores the value, or empty text when absent, and hides the preview |
| SandboxState.Sandbox.TryCode | app/components/Sandbox.tsx:73-78 | on blank code nothing changes; otherwise the preview is shown; the invariant "shown only for non-blank code" is kept |
| SandboxState.Sandbox.TryCodeDisabled | app/components/Sandbox.tsx:96 | the button is disabled exactly when every character of the code is whitespace |
| SandboxState.Sandbox.Preview | app/components/Sandbox.tsx:128-166 | the live preview is shown exactly when `showPreview` holds, and then for the current, non-blank code |
| SandboxState.EditThenTry | app/components/Sandbox.tsx:73-111 | a whitespace-only edit followed by "try code" leaves the preview hidden |
| SandboxState.StartAndTry | app/components/Sandbox.tsx:62-78 | pressing "try code" on a fresh sandbox previews the starting code exactly when it is not blank |
| SandboxState.PropsOf | app/components/Sandbox.tsx:16-20 | the `exercise` prop that the exercise page (page.tsx under app/[locale]/exercises/[exerciseId], lines 44-48) passes carries that exercise's title and description, and its template as the template key |
| SandboxState.CatalogTemplatesValid | app/data/exercises.ts:23-230 | every catalog template passes `isValidTemplate` (app/components/Sandbox.tsx:36-41) |
| SandboxState.CatalogTemplateChosen | app/components/Sandbox.tsx:44-60 | for any catalog exercise passed as the `exercise` prop, the editor starts from that exercise's own template with the three replacements and `trim` applied, whatever the initial code |
| Preview.Truthy | app/components/SandboxPreview.tsx:49-51 | JavaScript truthiness: `undefined`, `null`, `false`, zero, NaN and `''` are falsy |
| Preview.MessageOf | app/components/SandboxPreview.tsx:62 | `err.message` is the thrown object's property, `undefined` for other primitives, and itself throws for a thrown `null` or `undefined` |
| Preview.EffectRuns | app/components/SandboxPreview.tsx:21-23 | the effect's guard: code present and non-empty, and the container in the DOM |
| Preview.ChooseComponent | app/components/SandboxPreview.tsx:49-53 | the `default` export wins when truthy, else the exports object; the choice is always truthy |
| Preview.SelectPanel | app/components/SandboxPreview.tsx:78-128 | strict precedence: compilation error, then runtime error, then placeholder without code, otherwise the container; each panel's exact condition |
| Preview.RuntimeErrorBlocksEffect | app/components/SandboxPreview.tsx:21-128 | while a runtime error is shown, the container is absent and the effect stops at its guard |
| Preview.PreviewPane.Commit | app/components/SandboxPreview.tsx:20-76 | the effect runs exactly when `compiledCode` differs from its last run, after the pending cleanup; otherwise nothing changes; a run that passes the guard without aborting leaves a cleanup pending; the outcome of each path is stated; a mounted root always has a cleanup pending |
| Preview.PreviewPane.RenderAndCommit | app/components/SandboxPreview.tsx:20-128 | the returned panel is the render body's choice for the state before the commit, and the container is offered to the effect only with that panel; once a runtime error is shown, no later render and commit clears it or mounts a root: the root ends null if the effect ran and is unchanged otherwise |
| Preview.PreviewPane.Unmount | app/components/SandboxPreview.tsx:70-75 | unmounting the component runs the pending cleanup and leaves no live root |
| Preview.PreviewPane.constructor | app/components/SandboxPreview.tsx:17-18 | no root and no render error at first |
| Preview.PreviewPane.UnmountRoot | app/components/SandboxPreview.tsx:27-31 | a held root is unmounted and the ref cleared; the one-live-root invariant is kept (the same step as the catch block and the effect cleanup) |
| Preview.PreviewPane.MountComponent | app/components/SandboxPreview.tsx:56-60 | a fresh root is created, kept in the ref and rendered once with the component |
| Preview.PreviewPane.RunEffect | app/components/SandboxPreview.tsx:20-68 | guard fails: nothing changes; on success the previous root is unmounted, a fresh root renders the chosen component and `renderError` is null; on a throw the root ends null and `renderError` is the message, or the effect aborts in the catch block |
| Navigator.CurrentIndex | app/components/ExerciseNavigator.tsx:16 | the index holds the current id, or is -1 exactly when the id is absent |
| Navigator.HasPrevious | app/components/ExerciseNavigator.tsx:17 | `hasPrevious` holds exactly when the current exercise is in the list but not first |
| Navigator.HasNext | app/components/ExerciseNavigator.tsx:18 | `hasNext` fails exactly for an empty list, or when the current exercise occurs only in the last place |
| Navigator.PreviousTarget | app/components/ExerciseNavigator.tsx:27-31 | a target exists exactly when `hasPrevious`, and `currentIndex - 1` is then in bounds |
| Navigator.NextTarget | app/components/ExerciseNavigator.tsx:33-37 | a target exists exactly when `hasNext`, and `currentIndex + 1` is then in bounds |
| Navigator.UnknownExerciseNavigation | app/components/ExerciseNavigator.tsx:16-18 | for an id not in the list, previous is disabled and next is enabled exactly for a non-empty list, opening its first exercise |
| Navigator.NextThenPrevious | app/components/ExerciseNavigator.tsx:27-37 | with distinct ids, previous undoes next and next undoes previous |
| Navigator.FirstOfList | app/components/ExerciseNavigator.tsx:16-18 | on the first exercise, previous is disabled and next opens the second |
| Navigator.FirstFundamentalsExercise | app/components/ExerciseNavigator.tsx:14-18 | in the fundamentals list, `hello-world` has no previous and its next is `jsx-basics` |
| Navigator.SegmentLength | app/components/ExerciseNavigator.tsx:22 | a greedy `[^/]+` run: no `/` inside, and it stops at `/` or the end |
| Navigator.ExtractLocale | app/components/ExerciseNavigator.tsx:22-23 | the locale is the non-empty, slash-free first segment after a leading `/`, or `en` when there is none |
| Navigator.SegmentOfPrefix | app/components/ExerciseNavigator.tsx:22 | a slash-free part followed by `/` is exactly one segment |
| Navigator.ExercisePath | app/components/ExerciseNavigator.tsx:24 | the path is `/`, the locale, `/exercises/` and the exercise id, in that order and nothing else |
| Navigator.LocaleRoundTrip | app/components/ExerciseNavigator.tsx:22-24 | the locale read back from `/locale/exercises/id` is `locale`, for any non-empty slash-free locale |
| Navigator.NavigationKeepsLocale | app/components/ExerciseNavigator.tsx:20-25 | the pushed path yields the locale of the current path again |
| Navigator.GoToPrevious | app/components/ExerciseNavigator.tsx:27-31 | a path is pushed exactly when `hasPrevious`, built from the current locale and the previous exercise |
| Navigator.GoToNext | app/components/ExerciseNavigator.tsx:33-37 | a path is pushed exactly when `hasNext`, built from the current locale and the next exercise |
| Switcher.RemoveFirst | app/components/LanguageSwitcher.tsx:14 | a string `replace`: text without the pattern is unchanged, otherwise exactly one occurrence's length is removed |
| Switcher.PathWithoutLocale | app/components/LanguageSwitcher.tsx:14 | the remainder is never empty |
| Switcher.RemovesFirstOccurrence | app/components/LanguageSwitcher.tsx:14 | the first occurrence of `/locale` is removed wherever it is, keeping everything around it |
| Switcher.PathWithoutLocaleAbsent | app/components/LanguageSwitcher.tsx:14 | a path without `/locale` is kept, or becomes `/` when empty |
| Switcher.PrefixRemoved | app/components/LanguageSwitcher.tsx:14 | a path starting with `/locale` loses exactly that prefix |
| Switcher.SwitchLocalePath | app/components/LanguageSwitcher.tsx:17 | the new path starts with `/newLocale` followed by a non-empty remainder |
| Switcher.SwitchFromLocaleRoot | app/components/LanguageSwitcher.tsx:14-17 | from `/locale` the new path is `/newLocale/` |
| Switcher.SwitchToSameLocale | app/components/LanguageSwitcher.tsx:13-17 | switching `/locale` + a non-empty rest to the same locale reproduces the path |
| Switcher.SwitchAndBack | app/components/LanguageSwitcher.tsx:13-17 | switching to another locale carries the rest over, and switching back restores the path |

## Left out

- Running the code: `eval`, and the react-dom `createRoot`, `render` and
  `unmount` calls (app/components/SandboxPreview.tsx:46,57,60,64,72) are
  foreign. The outcome of running the code is a parameter, and root calls
  are recorded as log events. Errors that React reports later, while
  rendering, are not modelled. Neither is the `ErrorBoundary` around the
  container, whose source is not part of this model.
- The react-live `LiveProvider`/`LivePreview`/`LiveError` transform and
  execution (app/components/Sandbox.tsx:129-157). The model stops at which
  code is handed to the live preview.
- The JSX-Basics style sheet injected when the exercise title contains
  `JSX Basics` (app/components/Sandbox.tsx:132-154). It is cosmetic.
- The Monaco editor and its lazy loading. The editor is only a source of
  `onChange` values.
- Translations (`useTranslations`), the current locale (`useLocale`) and
  the list of locales. These are foreign lookups; messages and locales are
  plain strings here, and the i18n configuration is not part of this model.
- `router.push` and `router.refresh`. Only the computed path strings are
  modelled.
- React scheduling. A commit is modelled as one step taken after a
  render with the given props. The preview effect re-runs only on a
  changed `compiledCode`, after the cleanup of its last run
  (`PreviewPane.Commit`). The sandbox's template effect re-runs only on a
  changed `exercise?.template` (`Sandbox.ReceiveProps`). Batching of state
  updates is reflected only in the final values. Double-invoked effects in
  development mode are not modelled.
- app/components/ExerciseExplanation.tsx, app/components/ErrorDisplay.tsx,
  middleware.ts, app/layout.tsx and the page components. These are view
  composition and framework configuration.
- Preview.JsValue: a number is reduced to whether it is falsy (0 or NaN),
  since only truthiness is used. How React displays a non-string
  `renderError` is not modelled.
- Template.IsValidTemplate takes a string: its one caller passes
  `exercise.template`, a string, so `undefined` never reaches it.
- Text.Utf16Length: strings are sequences of Unicode scalar values, so
  lone surrogate code units cannot be represented.
- Exercises.Exercise: the catalog's texts are kept verbatim. The only
  property proved of them is that every template passes `isValidTemplate`.
  Every catalog entry has an explanation.
