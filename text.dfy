/** The JavaScript string primitives the components rely on: the `\s` / `trim`
    whitespace class, `trim`, `startsWith`, `indexOf` / `includes`, and
    `length` counted in UTF-16 code units. Strings are sequences of Unicode
    scalar values. */
module Text {
  import opened Optional

  /** ECMAScript WhiteSpace and LineTerminator code points: what `\s` matches
      and what `String.prototype.trim` removes. */
  predicate IsWhitespace(c: char) {
    || c == ' ' || c == '\t' || c == '\n' || c == '\r' || c == '\U{000B}' || c == '\U{000C}'
    || c == '\U{00A0}' || c == '\U{1680}' || ('\U{2000}' <= c <= '\U{200A}')
    || c == '\U{2028}' || c == '\U{2029}' || c == '\U{202F}' || c == '\U{205F}'
    || c == '\U{3000}' || c == '\U{FEFF}'
  }

  /** ECMAScript LineTerminator code points: the characters a regex `.` does not match. */
  predicate IsLineTerminator(c: char) {
    c == '\n' || c == '\r' || c == '\U{2028}' || c == '\U{2029}'
  }

  /** Every character of s[i..j] is whitespace. */
  ghost predicate AllWhitespace(s: string, i: nat, j: nat)
    requires i <= j <= |s|
  {
    forall k :: i <= k < j ==> IsWhitespace(s[k])
  }

  /** Length of the longest whitespace prefix of s (a greedy `\s*`). */
  function WsPrefix(s: string): (n: nat)
    ensures n <= |s|
    ensures forall k :: 0 <= k < n ==> IsWhitespace(s[k])
    ensures n == |s| || !IsWhitespace(s[n])
  {
    if s != [] && IsWhitespace(s[0]) then 1 + WsPrefix(s[1..]) else 0
  }

  /** A whitespace run starting at a reaches at least to b when t[a..b] is
      all whitespace, and stops at b when t[b] is not whitespace. */
  lemma WsPrefixFrom(t: string, a: nat, b: nat)
    requires a <= b <= |t| && AllWhitespace(t, a, b)
    ensures a + WsPrefix(t[a..]) >= b
    ensures b < |t| && !IsWhitespace(t[b]) ==> a + WsPrefix(t[a..]) == b
  {
  }

  /** A whitespace run stops before any non-whitespace character. */
  lemma WsPrefixStops(t: string, a: nat, b: nat)
    requires a <= b < |t| && !IsWhitespace(t[b])
    ensures a + WsPrefix(t[a..]) <= b
  {
  }

  /** The characters of the run that `WsPrefix` measures, seen in t itself. */
  lemma WsPrefixInPlace(t: string, a: nat)
    requires a <= |t|
    ensures AllWhitespace(t, a, a + WsPrefix(t[a..]))
    ensures a + WsPrefix(t[a..]) == |t| || !IsWhitespace(t[a + WsPrefix(t[a..])])
  {
    var w := WsPrefix(t[a..]);
    forall k | a <= k < a + w
      ensures IsWhitespace(t[k])
    {
      assert t[k] == t[a..][k - a];
    }
    if a + w < |t| {
      assert t[a + w] == t[a..][w];
    }
  }

  /** Length of the longest whitespace suffix of s. */
  function WsSuffix(s: string): (n: nat)
    ensures n <= |s|
    ensures forall k :: |s| - n <= k < |s| ==> IsWhitespace(s[k])
    ensures n == |s| || !IsWhitespace(s[|s| - n - 1])
  {
    if s != [] && IsWhitespace(s[|s| - 1]) then 1 + WsSuffix(s[..|s| - 1]) else 0
  }

  /** `s.trim()`. */
  function Trim(s: string): (r: string)
    ensures r == [] || (!IsWhitespace(r[0]) && !IsWhitespace(r[|r| - 1]))
  {
    var t := s[WsPrefix(s)..];
    t[..|t| - WsSuffix(t)]
  }

  /** `trim` removes whitespace only, and only at the two ends: the result is
      the slice s[i..i + |r|] with nothing but whitespace around it. */
  lemma TrimRemovesOnlyOuterWhitespace(s: string) returns (i: nat)
    ensures i + |Trim(s)| <= |s| && Trim(s) == s[i..i + |Trim(s)|]
    ensures forall k :: 0 <= k < i ==> IsWhitespace(s[k])
    ensures forall k :: i + |Trim(s)| <= k < |s| ==> IsWhitespace(s[k])
  {
    i := WsPrefix(s);
    var t := s[i..];
    var m := WsSuffix(t);
    assert Trim(s) == t[..|t| - m];
    forall k | i + |Trim(s)| <= k < |s|
      ensures IsWhitespace(s[k])
    {
      assert s[k] == t[k - i];
    }
  }

  /** `!s.trim()`: the text is empty or whitespace only. */
  predicate IsBlank(s: string) {
    Trim(s) == []
  }

  lemma {:induction false} BlankIffAllWhitespace(s: string)
    ensures IsBlank(s) <==> forall k :: 0 <= k < |s| ==> IsWhitespace(s[k])
  {
    var i := TrimRemovesOnlyOuterWhitespace(s);
  }

  /** Text without whitespace at either end comes back from `trim` unchanged. */
  lemma TrimOfTrimmed(s: string)
    requires s == [] || (!IsWhitespace(s[0]) && !IsWhitespace(s[|s| - 1]))
    ensures Trim(s) == s
  {
    if s != [] {
      assert WsPrefix(s) == 0;
      assert WsSuffix(s) == 0;
    }
  }

  lemma TrimIdempotent(s: string)
    ensures Trim(Trim(s)) == Trim(s)
  {
    TrimOfTrimmed(Trim(s));
  }

  /** `s.startsWith(p)`. */
  predicate StartsWith(s: string, p: string) {
    |p| <= |s| && s[..|p|] == p
  }

  /** p occurs in s at index i. */
  predicate OccursAt(s: string, p: string, i: int) {
    0 <= i && i + |p| <= |s| && s[i..i + |p|] == p
  }

  /** `s.indexOf(p, from)`: the first occurrence of p at or after `from`. */
  function IndexFrom(s: string, p: string, from: nat): (r: Option<nat>)
    ensures r.Some? ==> from <= r.value && OccursAt(s, p, r.value)
    ensures r.Some? ==> forall j :: from <= j < r.value ==> !OccursAt(s, p, j)
    ensures r.None? ==> forall j :: from <= j ==> !OccursAt(s, p, j)
    decreases |s| - from
  {
    if from + |p| > |s| then None
    else if s[from..from + |p|] == p then Some(from)
    else IndexFrom(s, p, from + 1)
  }

  /** `s.indexOf(p)` with -1 read as None. */
  function IndexOf(s: string, p: string): Option<nat> {
    IndexFrom(s, p, 0)
  }

  /** `s.includes(p)`. */
  predicate Contains(s: string, p: string) {
    IndexOf(s, p).Some?
  }

  /** `includes` holds exactly when p occurs somewhere in s. */
  lemma ContainsIffOccurs(s: string, p: string)
    ensures Contains(s, p) <==> exists i :: OccursAt(s, p, i)
  {
    if exists i :: OccursAt(s, p, i) {
      var i :| OccursAt(s, p, i);
      assert 0 <= i;
    }
  }

  /** A text that lacks one of the characters of p cannot contain p. */
  lemma MissingCharExcludes(s: string, p: string, c: char)
    requires c in p && c !in s
    ensures forall i :: !OccursAt(s, p, i)
  {
    forall i | OccursAt(s, p, i)
      ensures false
    {
      OccurrenceKeepsChars(s, p, i);
    }
  }

  /** Every character of an occurrence of p is a character of s. */
  lemma OccurrenceKeepsChars(s: string, p: string, i: int)
    requires OccursAt(s, p, i)
    ensures forall c :: c in p ==> c in s
  {
    forall c | c in p
      ensures c in s
    {
      var k :| 0 <= k < |p| && p[k] == c;
      assert s[i + k] == s[i..i + |p|][k];
    }
  }

  /** An occurrence of a non-empty p at i begins with p's first character. */
  lemma OccursAtHead(s: string, p: string, i: int)
    requires OccursAt(s, p, i) && p != []
    ensures 0 <= i < |s| && s[i] == p[0]
  {
    assert s[i] == s[i..i + |p|][0];
  }

  /** A prefix is an occurrence at index 0. */
  lemma StartsWithOccurs(s: string, p: string)
    requires StartsWith(s, p)
    ensures Contains(s, p)
  {
    assert OccursAt(s, p, 0);
  }

  /** `s.length`: characters above U+FFFF take two UTF-16 code units. */
  function Utf16Length(s: string): (n: nat)
    ensures |s| <= n <= 2 * |s|
  {
    if s == [] then 0
    else (if s[0] > '\U{FFFF}' then 2 else 1) + Utf16Length(s[1..])
  }

  /** Each character above U+FFFF adds one code unit: the UTF-16 length is
      the number of characters exactly when there is none. */
  lemma {:induction false} Utf16LengthBmp(s: string)
    ensures Utf16Length(s) == |s| <==> forall k :: 0 <= k < |s| ==> s[k] <= '\U{FFFF}'
  {
    if s != [] {
      Utf16LengthBmp(s[1..]);
      assert forall k :: 1 <= k < |s| ==> s[k] == s[1..][k - 1];
    }
  }
}
