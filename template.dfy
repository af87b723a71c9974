/** How the sandbox picks its starting code (app/components/Sandbox.tsx):
    the `isValidTemplate` guard, the three-way choice between the exercise's
    template, the caller's initial code and the built-in default, and the
    three global regex replacements plus `trim` that turn the chosen text into
    plain code for the live preview. */
module Template {
  import opened Optional
  import opened Text

  /** The built-in fallback program. */
  function DefaultTemplate(): string {
    "function HelloWorld() {\n"
      + "  return (\n"
      + "    <div>\n"
      + "      <h1>Hello, World!</h1>\n"
      + "    </div>\n"
      + "  );\n"
      + "}"
  }

  /** The part of an exercise the sandbox receives as its `exercise` prop. */
  datatype ExerciseProps = ExerciseProps(title: string, description: string, template: string)

  /** `isValidTemplate`: the text is code rather than an untranslated message
      key. The one caller passes a string, so `!template` is the empty test. */
  predicate IsValidTemplate(template: string)
    ensures IsValidTemplate(template) ==> |template| >= 10 && !StartsWith(template, "exercises.")
  {
    if template == [] then false
    else if StartsWith(template, "exercises.") then false
    else if Utf16Length(template) < 20 then false
    else Contains(template, "function") || Contains(template, "export") || Contains(template, "return")
  }

  /** A template is accepted exactly when it is not a message key, has at
      least 20 UTF-16 code units, and mentions one of the three keywords. */
  lemma ValidTemplateIff(template: string)
    ensures IsValidTemplate(template) <==>
              && !StartsWith(template, "exercises.")
              && Utf16Length(template) >= 20
              && ((exists i :: OccursAt(template, "function", i))
                  || (exists i :: OccursAt(template, "export", i))
                  || (exists i :: OccursAt(template, "return", i)))
  {
    ContainsIffOccurs(template, "function");
    ContainsIffOccurs(template, "export");
    ContainsIffOccurs(template, "return");
  }

  /** Source text that starts with `function` and has at least 20
      characters is accepted as a template. */
  lemma FunctionSourceValid(t: string)
    requires |t| >= 20 && StartsWith(t, "function")
    ensures IsValidTemplate(t)
  {
    StartsWithOccurs(t, "function");
    assert t[0] == t[..8][0];
  }

  /** The three-way choice at the top of `getTemplate`. */
  function SelectTemplate(initialCode: string, exercise: Option<ExerciseProps>): (r: string)
    ensures r == DefaultTemplate() || r == initialCode || (exercise.Some? && r == exercise.value.template)
  {
    if exercise.Some? && IsValidTemplate(exercise.value.template) then exercise.value.template
    else if initialCode != [] && Utf16Length(Trim(initialCode)) > 10 then initialCode
    else DefaultTemplate()
  }

  /** The exercise's template wins whenever it is valid; otherwise initial code
      with more than ten non-blank UTF-16 units; otherwise the default. */
  lemma SelectTemplateChoice(initialCode: string, exercise: Option<ExerciseProps>)
    ensures exercise.Some? && IsValidTemplate(exercise.value.template) ==>
              SelectTemplate(initialCode, exercise) == exercise.value.template
    ensures !(exercise.Some? && IsValidTemplate(exercise.value.template)) && Utf16Length(Trim(initialCode)) > 10 ==>
              SelectTemplate(initialCode, exercise) == initialCode
    ensures !(exercise.Some? && IsValidTemplate(exercise.value.template)) && Utf16Length(Trim(initialCode)) <= 10 ==>
              SelectTemplate(initialCode, exercise) == DefaultTemplate()
  {
    if initialCode == [] {
      assert Trim(initialCode) == [];
    }
  }

  /** The three regular expressions `getTemplate` removes, in order:
      `/import\s+.*?from\s+['"].*?['"];?\s*` + "/g",
      `/export\s+default\s+/g` and `/export\s+/g`. */
  datatype Pattern = ImportDecl | ExportDefault | ExportKeyword

  /** The literal every match of the pattern starts with. */
  function Keyword(pat: Pattern): string {
    match pat
    case ImportDecl => "import"
    case ExportDefault => "export"
    case ExportKeyword => "export"
  }

  predicate IsQuote(c: char) {
    c == '\'' || c == '"'
  }

  /** No character of t[i..j] is a line terminator (they are all matched by `.`). */
  ghost predicate NoLineTerminator(t: string, i: nat, j: nat)
    requires i <= j <= |t|
  {
    forall k :: i <= k < j ==> !IsLineTerminator(t[k])
  }

  /** The lazy `.*?['"]`: the first quote at or after p, provided no line
      terminator comes before it. The rest of the pattern, `;?\s*`, matches
      anything, so the regex never needs a later quote. */
  function CloseQuote(t: string, p: nat): (r: Option<nat>)
    requires p <= |t|
    ensures r.Some? ==> p <= r.value < |t| && IsQuote(t[r.value])
    ensures r.Some? ==> forall k :: p <= k < r.value ==> !IsQuote(t[k]) && !IsLineTerminator(t[k])
    decreases |t| - p
  {
    if p == |t| then None
    else if IsQuote(t[p]) then Some(p)
    else if IsLineTerminator(t[p]) then None
    else CloseQuote(t, p + 1)
  }

  /** Where the `\s*` after the closing quote at c starts: the greedy `;?`
      takes the semicolon whenever one follows. */
  function AfterQuote(t: string, c: nat): (s: nat)
    requires c < |t|
    ensures c < s <= |t| && (s == c + 2 <==> c + 1 < |t| && t[c + 1] == ';')
  {
    if c + 1 < |t| && t[c + 1] == ';' then c + 2 else c + 1
  }

  /** The `;?\s*` after the closing quote at c: an optional semicolon, then
      the longest run of whitespace. Gives the end of the match. */
  function StatementEnd(t: string, c: nat): (n: nat)
    requires c < |t|
    ensures c < n <= |t|
    ensures AfterQuote(t, c) <= n && AllWhitespace(t, AfterQuote(t, c), n)
    ensures n == |t| || !IsWhitespace(t[n])
  {
    var e := AfterQuote(t, c);
    WsPrefixInPlace(t, e);
    e + WsPrefix(t[e..])
  }

  /** The part of the import pattern after the lazy `.*?`, tried at q:
      `from\s+['"].*?['"];?\s*`. Gives the end of the whole match, which
      never stops in front of whitespace. */
  function FromClause(t: string, q: nat): (r: Option<nat>)
    requires q <= |t|
    ensures r.Some? ==> q < r.value <= |t|
    ensures r.Some? ==> r.value == |t| || !IsWhitespace(t[r.value])
  {
    if !OccursAt(t, "from", q) then None
    else
      var o := q + 4 + WsPrefix(t[q + 4..]);
      if o == q + 4 || o == |t| || !IsQuote(t[o]) then None
      else match CloseQuote(t, o + 1)
        case None => None
        case Some(c) => Some(StatementEnd(t, c))
  }

  /** The lazy `.*?` before `from`: try the rest of the pattern at q, and
      otherwise step over one character that is not a line terminator. */
  function SearchFrom(t: string, q: nat): (r: Option<nat>)
    requires q <= |t|
    ensures r.Some? ==> q < r.value <= |t|
    ensures r.Some? ==> r.value == |t| || !IsWhitespace(t[r.value])
    decreases |t| - q
  {
    match FromClause(t, q)
    case Some(e) => Some(e)
    case None =>
      if q < |t| && !IsLineTerminator(t[q]) then SearchFrom(t, q + 1) else None
  }

  /** Length of the match of a pattern at the start of t, if any. Each `\s+`
      is taken greedily, and a shorter run never gives another match: after
      `export` and `default` the pattern goes on with a letter or ends, after
      `from` with a quote, and after `import` a shorter run only makes the
      lazy `.*?` step over whitespace, where `from` cannot start. */
  function MatchAt(pat: Pattern, t: string): (r: Option<nat>)
    ensures r.Some? ==> StartsWith(t, Keyword(pat)) && 6 < r.value <= |t|
    ensures r.Some? ==> r.value == |t| || !IsWhitespace(t[r.value])
    ensures r.Some? && pat == ExportKeyword ==> AllWhitespace(t, 6, r.value)
  {
    if !StartsWith(t, Keyword(pat)) then None
    else
      var w := WsPrefix(t[6..]);
      WsPrefixInPlace(t, 6);
      if w == 0 then None
      else match pat
        case ExportKeyword => Some(6 + w)
        case ExportDefault =>
          var d := 6 + w;
          if !OccursAt(t, "default", d) then None
          else
            var w2 := WsPrefix(t[d + 7..]);
            WsPrefixInPlace(t, d + 7);
            if w2 == 0 then None else Some(d + 7 + w2)
        case ImportDecl => SearchFrom(t, 6 + w)
  }

  /** `export\s+` matches exactly `export` followed by the longest non-empty
      run of whitespace. */
  lemma ExportKeywordMatch(t: string, n: nat)
    ensures MatchAt(ExportKeyword, t) == Some(n) <==>
              && StartsWith(t, "export") && 6 < n <= |t|
              && AllWhitespace(t, 6, n) && (n == |t| || !IsWhitespace(t[n]))
  {
    if StartsWith(t, "export") && 6 < n <= |t| && AllWhitespace(t, 6, n) && (n == |t| || !IsWhitespace(t[n])) {
      WsPrefixFrom(t, 6, n);
    }
  }

  /** t[..n] is `export`, the longest run of whitespace up to d, `default`
      at d, and the longest non-empty run of whitespace after it. */
  ghost predicate ExportDefaultShape(t: string, d: nat, n: nat)
  {
    && StartsWith(t, "export") && 6 < d
    && OccursAt(t, "default", d) && AllWhitespace(t, 6, d)
    && d + 7 < n <= |t| && AllWhitespace(t, d + 7, n)
    && (n == |t| || !IsWhitespace(t[n]))
  }

  /** Every `export\s+default\s+` match has that shape. */
  lemma ExportDefaultMatchSound(t: string) returns (d: nat)
    requires MatchAt(ExportDefault, t).Some?
    ensures ExportDefaultShape(t, d, MatchAt(ExportDefault, t).value)
  {
    WsPrefixInPlace(t, 6);
    d := 6 + WsPrefix(t[6..]);
  }

  /** Every text of that shape is matched, up to its end. */
  lemma ExportDefaultMatchExact(t: string, d: nat, n: nat)
    requires ExportDefaultShape(t, d, n)
    ensures MatchAt(ExportDefault, t) == Some(n)
  {
    OccursAtHead(t, "default", d);
    WsPrefixFrom(t, 6, d);
    var w := WsPrefix(t[6..]);
    assert w == d - 6 != 0;
    WsPrefixFrom(t, d + 7, n);
    var w2 := WsPrefix(t[d + 7..]);
    assert w2 == n - d - 7 != 0;
  }

  /** The closing quote is found whenever a quote follows p with no line
      terminator before it. */
  lemma {:induction false} CloseQuoteReaches(t: string, p: nat, c: nat)
    requires p <= c < |t| && IsQuote(t[c]) && NoLineTerminator(t, p, c)
    ensures CloseQuote(t, p).Some?
    decreases c - p
  {
    if p < c && !IsQuote(t[p]) {
      CloseQuoteReaches(t, p + 1, c);
    }
  }

  /** t[q..n] is one way of matching `from\s+['"].*?['"];?\s*`, with the
      opening quote at o and the closing quote at c: any quote reachable on
      the same line may close, and `;?` and `\s*` may stop early. */
  ghost predicate FromTail(t: string, q: nat, o: nat, c: nat, n: nat)
  {
    && q + 4 < o < c < n <= |t|
    && OccursAt(t, "from", q)
    && AllWhitespace(t, q + 4, o)
    && IsQuote(t[o]) && IsQuote(t[c])
    && NoLineTerminator(t, o + 1, c)
    && (var s := if c + 1 < n && t[c + 1] == ';' then c + 2 else c + 1;
        AllWhitespace(t, s, n))
  }

  /** t[q..n] is the match the regular expression picks for that part: the
      closing quote is the first quote after the opening one, the semicolon
      is taken when present, and the final whitespace run is the longest. */
  ghost predicate FromTailAsMatched(t: string, q: nat, o: nat, c: nat, n: nat)
  {
    && q + 4 < o < c < |t|
    && OccursAt(t, "from", q)
    && AllWhitespace(t, q + 4, o)
    && IsQuote(t[o]) && IsQuote(t[c])
    && (forall k :: o < k < c ==> !IsQuote(t[k]) && !IsLineTerminator(t[k]))
    && AfterQuote(t, c) <= n <= |t| && AllWhitespace(t, AfterQuote(t, c), n)
    && (n == |t| || !IsWhitespace(t[n]))
  }

  /** t[..n] is one way of matching the import pattern: `import`,
      whitespace up to i, any characters but line terminators up to q, then
      a `from` tail. */
  ghost predicate ImportShape(t: string, i: nat, q: nat, o: nat, c: nat, n: nat)
  {
    && StartsWith(t, "import")
    && 6 < i <= q <= |t|
    && AllWhitespace(t, 6, i)
    && NoLineTerminator(t, i, q)
    && FromTail(t, q, o, c, n)
  }

  /** t[..n] is the match the regular expression picks: the longest
      whitespace run after `import` ends at i, the lazy `.*?` stops at the
      first f where the `from` part succeeds, and that part is matched as
      the regular expression matches it. */
  ghost predicate ImportAsMatched(t: string, i: nat, f: nat, o: nat, c: nat, n: nat)
  {
    && StartsWith(t, "import")
    && 6 < i <= f <= |t|
    && AllWhitespace(t, 6, i) && (i == |t| || !IsWhitespace(t[i]))
    && NoLineTerminator(t, i, f)
    && (forall k :: i <= k < f ==> FromClause(t, k).None?)
    && FromTailAsMatched(t, f, o, c, n)
  }

  /** The picked `from` part is one way of matching it. */
  lemma MatchedTailIsTail(t: string, q: nat, o: nat, c: nat, n: nat)
    requires FromTailAsMatched(t, q, o, c, n)
    ensures FromTail(t, q, o, c, n)
  {
  }

  /** A successful `from` clause at q spans the `from` part as the regular
      expression matches it. */
  lemma FromClauseSound(t: string, q: nat) returns (o: nat, c: nat)
    requires q <= |t| && FromClause(t, q).Some?
    ensures FromTailAsMatched(t, q, o, c, FromClause(t, q).value)
  {
    WsPrefixInPlace(t, q + 4);
    o := q + 4 + WsPrefix(t[q + 4..]);
    c := CloseQuote(t, o + 1).value;
    assert FromClause(t, q) == Some(StatementEnd(t, c));
  }

  /** The `from` part as the regular expression matches it is what the
      `from` clause returns. */
  lemma FromClauseExact(t: string, q: nat, o: nat, c: nat, n: nat)
    requires FromTailAsMatched(t, q, o, c, n)
    ensures FromClause(t, q) == Some(n)
  {
    MatchedTailIsTail(t, q, o, c, n);
    FromClauseComplete(t, q, o, c, n);
    var o2, c2 := FromClauseSound(t, q);
    MatchedTailUnique(t, q, o, c, n, o2, c2, FromClause(t, q).value);
  }

  /** The `from` part as the regular expression matches it is determined by
      where it starts: the opening quote, the closing quote and the end. */
  lemma MatchedTailUnique(t: string, q: nat, o: nat, c: nat, n: nat, o2: nat, c2: nat, n2: nat)
    requires FromTailAsMatched(t, q, o, c, n) && FromTailAsMatched(t, q, o2, c2, n2)
    ensures o == o2 && c == c2 && n == n2
  {
  }

  /** The whitespace run after `from` ends at the opening quote. */
  lemma OpeningQuoteFound(t: string, q: nat, o: nat)
    requires q + 4 < o < |t| && AllWhitespace(t, q + 4, o) && IsQuote(t[o])
    ensures q + 4 + WsPrefix(t[q + 4..]) == o
  {
    WsPrefixFrom(t, q + 4, o);
  }

  /** A quote with no quote or line terminator before it, from p on, is the
      one the lazy search finds. */
  lemma CloseQuoteFirst(t: string, p: nat, c: nat)
    requires p <= c < |t| && IsQuote(t[c])
    requires forall k :: p <= k < c ==> !IsQuote(t[k]) && !IsLineTerminator(t[k])
    ensures CloseQuote(t, p) == Some(c)
  {
    CloseQuoteReaches(t, p, c);
  }

  /** The longest whitespace run after the optional semicolon is the one
      `StatementEnd` measures. */
  lemma StatementEndExact(t: string, c: nat, n: nat)
    requires c < |t| && AfterQuote(t, c) <= n <= |t| && AllWhitespace(t, AfterQuote(t, c), n)
    requires n == |t| || !IsWhitespace(t[n])
    ensures StatementEnd(t, c) == n
  {
    WsPrefixFrom(t, AfterQuote(t, c), n);
  }

  /** Any way of matching the `from` part at q makes the `from` clause
      succeed there. */
  lemma FromClauseComplete(t: string, q: nat, o: nat, c: nat, n: nat)
    requires FromTail(t, q, o, c, n)
    ensures FromClause(t, q).Some?
  {
    WsPrefixFrom(t, q + 4, o);
    CloseQuoteReaches(t, o + 1, c);
  }

  /** The search returns the end of the `from` clause at the first position
      it reaches, without crossing a line terminator, where that clause
      succeeds. */
  lemma {:induction false} SearchFromSound(t: string, i: nat, q: nat) returns (f: nat)
    requires i <= q <= |t| && NoLineTerminator(t, i, q)
    requires SearchFrom(t, q).Some?
    ensures q <= f <= |t| && NoLineTerminator(t, i, f) && FromClause(t, f) == SearchFrom(t, q)
    ensures forall k :: q <= k < f ==> FromClause(t, k).None?
    decreases |t| - q
  {
    if FromClause(t, q).Some? {
      f := q;
    } else {
      f := SearchFromSound(t, i, q + 1);
      assert forall k :: q < k < f ==> FromClause(t, k).None?;
    }
  }

  /** The search stops at the first position where the `from` clause
      succeeds, if it reaches it without crossing a line terminator. */
  lemma {:induction false} SearchFromExact(t: string, q: nat, f: nat)
    requires q <= f <= |t| && NoLineTerminator(t, q, f)
    requires FromClause(t, f).Some?
    requires forall k :: q <= k < f ==> FromClause(t, k).None?
    ensures SearchFrom(t, q) == FromClause(t, f)
    decreases f - q
  {
    if q < f {
      SearchFromExact(t, q + 1, f);
    }
  }

  /** The search succeeds once it can walk, without crossing a line
      terminator, to a position where the `from` clause matches. */
  lemma {:induction false} SearchFromReaches(t: string, p: nat, q: nat)
    requires p <= q <= |t| && NoLineTerminator(t, p, q)
    requires FromClause(t, q).Some?
    ensures SearchFrom(t, p).Some?
    decreases q - p
  {
    if p < q && FromClause(t, p).None? {
      SearchFromReaches(t, p + 1, q);
    }
  }

  /** Whatever the import scanner matches is the match the regular
      expression picks, which is one way of matching the pattern. */
  lemma ImportMatchSound(t: string) returns (i: nat, f: nat, o: nat, c: nat)
    requires MatchAt(ImportDecl, t).Some?
    ensures ImportAsMatched(t, i, f, o, c, MatchAt(ImportDecl, t).value)
    ensures ImportShape(t, i, f, o, c, MatchAt(ImportDecl, t).value)
  {
    WsPrefixInPlace(t, 6);
    i := 6 + WsPrefix(t[6..]);
    ImportMatchAt(t, i);
    f := SearchFromSound(t, i, i);
    var n := MatchAt(ImportDecl, t).value;
    assert FromClause(t, f) == Some(n);
    o, c := FromClauseSound(t, f);
    MatchedImportIsShape(t, i, f, o, c, n);
  }

  /** The picked import match is one way of matching the pattern. */
  lemma MatchedImportIsShape(t: string, i: nat, f: nat, o: nat, c: nat, n: nat)
    requires ImportAsMatched(t, i, f, o, c, n)
    ensures ImportShape(t, i, f, o, c, n)
  {
    MatchedTailIsTail(t, f, o, c, n);
  }

  /** The match the regular expression picks is what the scanner returns. */
  lemma ImportMatchExact(t: string, i: nat, f: nat, o: nat, c: nat, n: nat)
    requires ImportAsMatched(t, i, f, o, c, n)
    ensures MatchAt(ImportDecl, t) == Some(n)
  {
    WsPrefixFrom(t, 6, i);
    FromClauseExact(t, f, o, c, n);
    SearchFromExact(t, i, f);
    ImportMatchAt(t, i);
  }

  /** After `import` and its whitespace run, the import pattern is the
      search for `from`. */
  lemma ImportMatchAt(t: string, i: nat)
    requires StartsWith(t, "import") && 6 + WsPrefix(t[6..]) == i
    ensures i <= |t| && MatchAt(ImportDecl, t) == if i == 6 then None else SearchFrom(t, i)
  {
  }

  /** The whitespace run after `import` stops before a `from`. */
  lemma RunStopsBeforeFrom(t: string, q: nat)
    requires StartsWith(t, "import") && 6 <= q && OccursAt(t, "from", q)
    ensures 6 + WsPrefix(t[6..]) <= q
  {
    OccursAtHead(t, "from", q);
    WsPrefixStops(t, 6, q);
  }

  /** Any text the import pattern can match at all is matched by the
      scanner: it misses no import statement the regular expression finds,
      whichever shorter runs the regular expression might try. */
  lemma ImportMatchComplete(t: string, i: nat, q: nat, o: nat, c: nat, n: nat)
    requires ImportShape(t, i, q, o, c, n)
    ensures MatchAt(ImportDecl, t).Some?
  {
    WsPrefixFrom(t, 6, i);
    RunStopsBeforeFrom(t, q);
    FromClauseComplete(t, q, o, c, n);
    SearchFromReaches(t, 6 + WsPrefix(t[6..]), q);
  }

  /** `text.replace(pattern, '')` for a global pattern: scanning left to
      right, each match is dropped and the scan resumes after it. */
  function Strip(pat: Pattern, t: string): (r: string)
    ensures |r| <= |t|
    decreases |t|
  {
    if t == [] then []
    else match MatchAt(pat, t)
      case Some(n) => Strip(pat, t[n..])
      case None => [t[0]] + Strip(pat, t[1..])
  }

  /** Replacing matches by nothing only removes characters. */
  lemma {:induction false} StripOnlyRemoves(pat: Pattern, t: string)
    ensures multiset(Strip(pat, t)) <= multiset(t)
    decreases |t|
  {
    if t != [] {
      var m := MatchAt(pat, t);
      var n := if m.Some? then m.value else 1;
      StripOnlyRemoves(pat, t[n..]);
      SplitMultiset(t, n);
      if m.None? {
        assert Strip(pat, t) == [t[0]] + Strip(pat, t[1..]);
        assert t[..1] == [t[0]];
      }
    }
  }

  /** The characters of t are those of its two parts. */
  lemma SplitMultiset(t: string, n: nat)
    requires n <= |t|
    ensures multiset(t) == multiset(t[..n]) + multiset(t[n..])
  {
    assert t == t[..n] + t[n..];
  }

  /** Text in which the pattern's keyword does not occur passes unchanged. */
  lemma {:induction false} StripWithoutKeyword(pat: Pattern, t: string)
    requires forall i :: !OccursAt(t, Keyword(pat), i)
    ensures Strip(pat, t) == t
    decreases |t|
  {
    if t != [] {
      assert !OccursAt(t, Keyword(pat), 0);
      OccursShift(t, Keyword(pat));
      StripWithoutKeyword(pat, t[1..]);
    }
  }

  /** An occurrence in t[1..] is an occurrence in t, one place later. */
  lemma OccursShift(t: string, p: string)
    requires t != []
    ensures forall i :: OccursAt(t[1..], p, i) ==> OccursAt(t, p, i + 1)
  {
    forall i | OccursAt(t[1..], p, i)
      ensures OccursAt(t, p, i + 1)
    {
      assert t[1..][i..i + |p|] == t[i + 1..i + 1 + |p|];
    }
  }

  /** The match of a pattern starting at position k of t, if any. */
  function MatchFrom(pat: Pattern, t: string, k: nat): (r: Option<nat>)
    requires k <= |t|
    ensures r.Some? ==> k + r.value <= |t|
  {
    MatchAt(pat, t[k..])
  }

  /** The characters before the first match are kept, the first match is
      dropped, and the scan resumes right after it. */
  lemma StripFirstMatch(pat: Pattern, t: string, p: nat, n: nat)
    requires p <= |t|
    requires forall k :: 0 <= k < p ==> MatchFrom(pat, t, k).None?
    requires MatchFrom(pat, t, p) == Some(n)
    ensures p + n <= |t| && Strip(pat, t) == t[..p] + Strip(pat, t[p + n..])
  {
    StripKeepsUpTo(pat, t, 0, p);
    StripDropAt(pat, t, p, n);
    assert t[0..] == t && t[0..p] == t[..p];
  }

  /** When no match starts anywhere in t[j..p], the scan from j keeps
      t[j..p] as it is and goes on from p. */
  lemma {:induction false} StripKeepsUpTo(pat: Pattern, t: string, j: nat, p: nat)
    requires j <= p <= |t|
    requires forall k :: j <= k < p ==> MatchFrom(pat, t, k).None?
    ensures Strip(pat, t[j..]) == t[j..p] + Strip(pat, t[p..])
    decreases p - j
  {
    if j == p {
      EmptyAppend(Strip(pat, t[j..]), Strip(pat, t[p..]), t[j..p]);
    } else {
      StripKeepsUpTo(pat, t, j + 1, p);
      StripKeepAt(pat, t, j);
      SliceCons(t, j, p);
      ConsAppend(t[j], t[j + 1..p], Strip(pat, t[p..]), Strip(pat, t[j..]), Strip(pat, t[j + 1..]), t[j..p]);
    }
  }

  /** A non-empty slice is its first character followed by the rest. */
  lemma SliceCons(t: string, j: nat, p: nat)
    requires j < p <= |t|
    ensures t[j..p] == [t[j]] + t[j + 1..p]
  {
  }

  /** Nothing kept in front of a remainder. */
  lemma EmptyAppend(x: string, b: string, s: string)
    requires s == [] && x == b
    ensures x == s + b
  {
  }

  /** Putting one character in front of a kept part and a remainder. */
  lemma ConsAppend(c: char, a: string, b: string, x: string, y: string, s: string)
    requires x == [c] + y && y == a + b && s == [c] + a
    ensures x == s + b
  {
  }

  /** Where no match starts, the scan keeps one character. */
  lemma StripKeepAt(pat: Pattern, t: string, j: nat)
    requires j < |t| && MatchFrom(pat, t, j).None?
    ensures Strip(pat, t[j..]) == [t[j]] + Strip(pat, t[j + 1..])
  {
    assert t[j..][1..] == t[j + 1..];
  }

  /** Where a match starts, the scan drops it. */
  lemma StripDropAt(pat: Pattern, t: string, j: nat, n: nat)
    requires j <= |t| && MatchFrom(pat, t, j) == Some(n)
    ensures Strip(pat, t[j..]) == Strip(pat, t[j + n..])
  {
    assert t[j..][n..] == t[j + n..];
  }

  /** Text where no match starts anywhere passes unchanged. */
  lemma StripNoMatch(pat: Pattern, t: string)
    requires forall k :: 0 <= k < |t| ==> MatchFrom(pat, t, k).None?
    ensures Strip(pat, t) == t
  {
    StripKeepsUpTo(pat, t, 0, |t|);
    assert t[0..] == t && t[0..|t|] == t && t[|t|..] == [];
  }

  /** A word that merely begins with `export` is not an `export` keyword:
      the replacement leaves it alone. */
  lemma ExportPrefixedWordKept()
    ensures Strip(ExportKeyword, "exporter") == "exporter"
  {
    var t := "exporter";
    forall k | 0 <= k < |t|
      ensures MatchFrom(ExportKeyword, t, k).None?
    {
      if k == 0 {
        assert t[0..] == t && t[6] == 'e';
      } else {
        assert |t[k..]| < 8;
      }
    }
    StripNoMatch(ExportKeyword, t);
  }

  /** An import statement at the start of the text is removed together with
      its line break, whatever follows it. */
  lemma ImportLineRemoved(rest: string)
    requires rest == [] || !IsWhitespace(rest[0])
    ensures Strip(ImportDecl, "import a from 'b';\n" + rest) == Strip(ImportDecl, rest)
  {
    var t := "import a from 'b';\n" + rest;
    ImportLineMatched(rest);
    assert t[0..] == t && t[19..] == rest;
    StripFirstMatch(ImportDecl, t, 0, 19);
  }

  /** The import pattern matches exactly that statement and its line break. */
  lemma ImportLineMatched(rest: string)
    requires rest == [] || !IsWhitespace(rest[0])
    ensures MatchAt(ImportDecl, "import a from 'b';\n" + rest) == Some(19)
  {
    var t := "import a from 'b';\n" + rest;
    assert t[..6] == "import" && t[9..13] == "from";
    assert t[6] == ' ' && t[7] == 'a' && t[8] == ' ' && t[13] == ' ';
    assert t[14] == '\'' && t[15] == 'b' && t[16] == '\'' && t[17] == ';' && t[18] == '\n';
    assert 19 == |t| || t[19] == rest[0];
    forall k | 7 <= k < 9
      ensures FromClause(t, k).None?
    {
      NoClauseWithoutF(t, k);
    }
    assert AfterQuote(t, 16) == 18;
    assert FromTailAsMatched(t, 9, 14, 16, 19);
    assert StartsWith(t, "import") && AllWhitespace(t, 6, 7) && NoLineTerminator(t, 7, 9);
    assert ImportAsMatched(t, 7, 9, 14, 16, 19);
    ImportMatchExact(t, 7, 9, 14, 16, 19);
  }

  /** The `from` part fails where the text does not go on with `f`. */
  lemma NoClauseWithoutF(t: string, k: nat)
    requires k < |t| && t[k] != 'f'
    ensures FromClause(t, k).None?
  {
    if OccursAt(t, "from", k) {
      OccursAtHead(t, "from", k);
    }
  }

  /** `export default ` at the start of the text is removed. */
  lemma ExportDefaultRemoved(rest: string)
    requires rest == [] || !IsWhitespace(rest[0])
    ensures Strip(ExportDefault, "export default " + rest) == Strip(ExportDefault, rest)
  {
    var t := "export default " + rest;
    assert t[..6] == "export" && t[7..14] == "default";
    ExportDefaultMatchExact(t, 7, 15);
    assert t[0..] == t && t[15..] == rest;
    StripFirstMatch(ExportDefault, t, 0, 15);
  }

  /** `getTemplate`: the chosen text with import statements, `export default `
      and `export ` removed, then trimmed. */
  function GetTemplate(initialCode: string, exercise: Option<ExerciseProps>): (r: string)
    ensures r == [] || (!IsWhitespace(r[0]) && !IsWhitespace(r[|r| - 1]))
  {
    Trim(Strip(ExportKeyword, Strip(ExportDefault, Strip(ImportDecl, SelectTemplate(initialCode, exercise)))))
  }

  /** The starting code is made only of characters of the chosen text. */
  lemma GetTemplateOnlyRemoves(initialCode: string, exercise: Option<ExerciseProps>)
    ensures multiset(GetTemplate(initialCode, exercise)) <= multiset(SelectTemplate(initialCode, exercise))
  {
    var s1 := Strip(ImportDecl, SelectTemplate(initialCode, exercise));
    var s2 := Strip(ExportDefault, s1);
    StripOnlyRemoves(ImportDecl, SelectTemplate(initialCode, exercise));
    StripOnlyRemoves(ExportDefault, s1);
    StripOnlyRemoves(ExportKeyword, s2);
    TrimOnlyRemoves(Strip(ExportKeyword, s2));
  }

  /** `trim` only removes characters. */
  lemma TrimOnlyRemoves(s: string)
    ensures multiset(Trim(s)) <= multiset(s)
  {
    var i := TrimRemovesOnlyOuterWhitespace(s);
    assert s == s[..i] + Trim(s) + s[i + |Trim(s)|..];
  }

  /** Code that mentions neither `import` nor `export` comes out merely trimmed. */
  lemma PlainCodeOnlyTrimmed(initialCode: string, exercise: Option<ExerciseProps>)
    requires forall i :: !OccursAt(SelectTemplate(initialCode, exercise), "import", i)
    requires forall i :: !OccursAt(SelectTemplate(initialCode, exercise), "export", i)
    ensures GetTemplate(initialCode, exercise) == Trim(SelectTemplate(initialCode, exercise))
  {
    var chosen := SelectTemplate(initialCode, exercise);
    StripWithoutKeyword(ImportDecl, chosen);
    StripWithoutKeyword(ExportDefault, chosen);
    StripWithoutKeyword(ExportKeyword, chosen);
  }

  /** Text without `m` or `x` holds neither keyword, so the three
      replacements leave it as it is. */
  lemma StripsKeepPlainText(s: string)
    requires 'm' !in s && 'x' !in s
    ensures Strip(ExportKeyword, Strip(ExportDefault, Strip(ImportDecl, s))) == s
  {
    MissingCharExcludes(s, "import", 'm');
    MissingCharExcludes(s, "export", 'x');
    StripWithoutKeyword(ImportDecl, s);
    StripWithoutKeyword(ExportDefault, s);
    StripWithoutKeyword(ExportKeyword, s);
  }

  /** The default program has no `m` or `x`, and no whitespace at its ends. */
  lemma DefaultTemplateNoM()
    ensures 'm' !in DefaultTemplate()
  {
  }

  lemma DefaultTemplateNoX()
    ensures 'x' !in DefaultTemplate()
  {
  }

  lemma DefaultTemplateEnds()
    ensures DefaultTemplate()[0] == 'f' && DefaultTemplate()[|DefaultTemplate()| - 1] == '}'
  {
  }

  /** The fallback program passes the same guard as an exercise template. */
  lemma DefaultTemplateValid()
    ensures IsValidTemplate(DefaultTemplate())
  {
    var t := DefaultTemplate();
    assert t[..8] == "function";
    FunctionSourceValid(t);
  }

  /** With no usable exercise template and no substantial initial code, the
      editor starts with the built-in program exactly as written. */
  lemma DefaultTemplateKept(initialCode: string, exercise: Option<ExerciseProps>)
    requires !(exercise.Some? && IsValidTemplate(exercise.value.template))
    requires Utf16Length(Trim(initialCode)) <= 10
    ensures GetTemplate(initialCode, exercise) == DefaultTemplate()
  {
    SelectTemplateChoice(initialCode, exercise);
    DefaultTemplateNoM();
    DefaultTemplateNoX();
    DefaultTemplateEnds();
    PlainSelectionKept(initialCode, exercise);
  }

  /** A chosen text without `m` or `x` and without outer whitespace is the
      starting code exactly as chosen. */
  lemma PlainSelectionKept(initialCode: string, exercise: Option<ExerciseProps>)
    requires 'm' !in SelectTemplate(initialCode, exercise) && 'x' !in SelectTemplate(initialCode, exercise)
    requires SelectTemplate(initialCode, exercise) != []
    requires !IsWhitespace(SelectTemplate(initialCode, exercise)[0])
    requires !IsWhitespace(SelectTemplate(initialCode, exercise)[|SelectTemplate(initialCode, exercise)| - 1])
    ensures GetTemplate(initialCode, exercise) == SelectTemplate(initialCode, exercise)
  {
    var chosen := SelectTemplate(initialCode, exercise);
    StripsKeepPlainText(chosen);
    TrimOfTrimmed(chosen);
  }
}
