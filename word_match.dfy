/** Whole-word, case-insensitive search and replace of a literal, which is
    what `new RegExp('\\b' + escapeRegex(original) + '\\b', 'gi')` denotes,
    together with `escapeRegex` itself and the `$` patterns that
    `String.prototype.replace` expands in a replacement string. Word
    characters are `[A-Za-z0-9_]`, as for `\b` without the `u` flag. */
module WordMatch {
  import opened Common

  predicate IsWordChar(c: char) {
    ('a' <= c <= 'z') || ('A' <= c <= 'Z') || ('0' <= c <= '9') || c == '_'
  }

  /** `\b` at position `i`: a word character on exactly one side. */
  predicate Boundary(t: string, i: nat)
    requires i <= |t|
  {
    (i > 0 && IsWordChar(t[i - 1])) != (i < |t| && IsWordChar(t[i]))
  }

  /** The pattern matches at `i`: boundaries on both sides and the text in
      between equal to the literal up to ASCII case. */
  predicate MatchAt(t: string, lit: string, i: nat) {
    i + |lit| <= |t| && Boundary(t, i) && Boundary(t, i + |lit|) &&
    ToLower(t[i..i + |lit|]) == ToLower(lit)
  }

  /** `regex.test(t)`, searching from position `i`. */
  predicate MatchesFrom(t: string, lit: string, i: nat)
    requires i <= |t|
    decreases |t| - i
  {
    MatchAt(t, lit, i) || (i < |t| && MatchesFrom(t, lit, i + 1))
  }

  predicate Matches(t: string, lit: string) {
    MatchesFrom(t, lit, 0)
  }

  lemma {:induction false} MatchesFromIff(t: string, lit: string, i: nat)
    requires i <= |t|
    ensures MatchesFrom(t, lit, i) <==> exists k :: i <= k <= |t| && MatchAt(t, lit, k)
    decreases |t| - i
  {
    if i < |t| {
      MatchesFromIff(t, lit, i + 1);
    }
  }

  /** `test` succeeds exactly when there is a position where the literal
      occurs as a whole word. */
  lemma MatchesIff(t: string, lit: string)
    ensures Matches(t, lit) <==> exists k :: 0 <= k <= |t| && MatchAt(t, lit, k)
  {
    MatchesFromIff(t, lit, 0);
  }

  /** The replacement text for one match of length `len` at `pos`:
      `$$` is a dollar sign, `$&` the match, `` $` `` the text before it and
      `$'` the text after it; the pattern has no capture groups, so every
      other `$` stands for itself. */
  function Expand(rep: string, t: string, pos: nat, len: nat): string
    requires pos + len <= |t|
    decreases |rep|
  {
    if rep == [] then []
    else if rep[0] == '$' && |rep| >= 2 && rep[1] == '$' then "$" + Expand(rep[2..], t, pos, len)
    else if rep[0] == '$' && |rep| >= 2 && rep[1] == '&' then t[pos..pos + len] + Expand(rep[2..], t, pos, len)
    else if rep[0] == '$' && |rep| >= 2 && rep[1] == '`' then t[..pos] + Expand(rep[2..], t, pos, len)
    else if rep[0] == '$' && |rep| >= 2 && rep[1] == '\'' then t[pos + len..] + Expand(rep[2..], t, pos, len)
    else [rep[0]] + Expand(rep[1..], t, pos, len)
  }

  /** A replacement without `$` is inserted as it is. */
  lemma {:induction false} ExpandPlain(rep: string, t: string, pos: nat, len: nat)
    requires pos + len <= |t| && '$' !in rep
    ensures Expand(rep, t, pos, len) == rep
    decreases |rep|
  {
    if rep != [] {
      ExpandPlain(rep[1..], t, pos, len);
    }
  }

  /** `t.replace(regex, rep)` with the global flag, scanning from `i`:
      every match, left to right and not overlapping, is replaced; after an
      empty match the scan copies one character and moves on. */
  function ReplaceFrom(t: string, lit: string, rep: string, i: nat): string
    requires i <= |t|
    decreases |t| - i, |lit|
  {
    if MatchAt(t, lit, i) then
      Expand(rep, t, i, |lit|) +
      (if |lit| > 0 then ReplaceFrom(t, lit, rep, i + |lit|)
       else if i < |t| then [t[i]] + ReplaceFrom(t, lit, rep, i + 1)
       else "")
    else if i < |t| then [t[i]] + ReplaceFrom(t, lit, rep, i + 1)
    else ""
  }

  function ReplaceAll(t: string, lit: string, rep: string): string {
    ReplaceFrom(t, lit, rep, 0)
  }

  /** Without a match from `i` on, the rest of the text is copied. */
  lemma {:induction false} ReplaceFromNoMatch(t: string, lit: string, rep: string, i: nat)
    requires i <= |t| && !MatchesFrom(t, lit, i)
    ensures ReplaceFrom(t, lit, rep, i) == t[i..]
    decreases |t| - i
  {
    if i < |t| {
      ReplaceFromNoMatch(t, lit, rep, i + 1);
      assert t[i..] == [t[i]] + t[i + 1..];
    }
  }

  /** A text in which the literal does not occur as a word is unchanged. */
  lemma ReplaceAllNoMatch(t: string, lit: string, rep: string)
    requires !Matches(t, lit)
    ensures ReplaceAll(t, lit, rep) == t
  {
    ReplaceFromNoMatch(t, lit, rep, 0);
  }

  /** A text that is exactly the literal becomes the replacement. */
  lemma ReplaceWhole(lit: string, rep: string)
    requires lit != [] && IsWordChar(lit[0]) && IsWordChar(lit[|lit| - 1]) && '$' !in rep
    ensures ReplaceAll(lit, lit, rep) == rep
  {
    assert lit[0..|lit|] == lit;
    assert MatchAt(lit, lit, 0);
    ExpandPlain(rep, lit, 0, |lit|);
    assert !MatchAt(lit, lit, |lit|);
    assert ReplaceFrom(lit, lit, rep, |lit|) == "";
    assert rep + "" == rep;
  }

  // ---------------------------------------------------------------------------
  // escapeRegex

  predicate IsRegexSpecial(c: char) {
    c in ".*+?^${}()|[]\\"
  }

  /** `escapeRegex(s)`: a backslash before every special character. */
  function EscapeRegex(s: string): (r: string)
    ensures |r| >= |s|
    decreases |s|
  {
    if s == [] then []
    else if IsRegexSpecial(s[0]) then ['\\', s[0]] + EscapeRegex(s[1..])
    else [s[0]] + EscapeRegex(s[1..])
  }

  /** How the regex parser reads an escaped pattern back: `\c` is `c`,
      any other character stands for itself. */
  function Unescape(r: string): string
    decreases |r|
  {
    if r == [] then []
    else if r[0] == '\\' && |r| >= 2 then [r[1]] + Unescape(r[2..])
    else [r[0]] + Unescape(r[1..])
  }

  /** Every special character of the escaped pattern is preceded by a
      backslash, so the pattern has no operator of its own ... */
  predicate EscapedWell(r: string)
    decreases |r|
  {
    if r == [] then true
    else if r[0] == '\\' then |r| >= 2 && IsRegexSpecial(r[1]) && EscapedWell(r[2..])
    else !IsRegexSpecial(r[0]) && EscapedWell(r[1..])
  }

  /** ... and it denotes exactly the original text. */
  lemma {:induction false} EscapeRegexSpec(s: string)
    ensures EscapedWell(EscapeRegex(s))
    ensures Unescape(EscapeRegex(s)) == s
    decreases |s|
  {
    if s != [] {
      EscapeRegexSpec(s[1..]);
      var r := EscapeRegex(s);
      if IsRegexSpecial(s[0]) {
        assert r[2..] == EscapeRegex(s[1..]);
      } else {
        assert r[1..] == EscapeRegex(s[1..]);
      }
    }
  }
}
