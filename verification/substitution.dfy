/**
 * The placeholder rewrite `re.sub(r'\bSAAS_ANALYTICS\b', database_name, content)`.
 *
 * Word characters are the ASCII set `[A-Za-z0-9_]`. `SubstituteFrom` scans the
 * text the way the regular-expression engine does: at each index it tries the
 * pattern, whose two `\b` anchors look at the ORIGINAL neighbouring characters,
 * and after a match resumes right behind it. `Reference` is an independent,
 * word-level definition: split the text into maximal runs of word characters and
 * single other characters, rename the runs that are exactly the placeholder, and
 * glue everything back together. `Render` emits the same tokens one at a time
 * and links the two: the scanner is proved equal to `Render` and `Render` to
 * `Reference`. Idempotence follows from the round trip between splitting and
 * gluing.
 */
module Substitution {

  /** The template database name the SQL files are written against. */
  const Placeholder: string := "SAAS_ANALYTICS"

  predicate IsWordChar(c: char) {
    ('A' <= c <= 'Z') || ('a' <= c <= 'z') || ('0' <= c <= '9') || c == '_'
  }

  predicate AllWordChars(s: string) {
    forall k :: 0 <= k < |s| ==> IsWordChar(s[k])
  }

  /** A replacement that can stand in a word position without creating or merging words. */
  predicate SafeReplacement(db: string) {
    |db| > 0 && AllWordChars(db) && db != Placeholder
  }

  /** `\bSAAS_ANALYTICS\b` matches `s` at index `i`. */
  predicate WholeWordAt(s: string, i: nat) {
    && i + |Placeholder| <= |s|
    && s[i..i + |Placeholder|] == Placeholder
    && (i == 0 || !IsWordChar(s[i - 1]))
    && (i + |Placeholder| == |s| || !IsWordChar(s[i + |Placeholder|]))
  }

  predicate NoOccurrence(s: string) {
    forall i: nat :: i <= |s| ==> !WholeWordAt(s, i)
  }

  lemma PlaceholderIsWord()
    ensures |Placeholder| == 14
    ensures AllWordChars(Placeholder)
  {
  }

  // ---------------------------------------------------------------------------
  // The scanner

  /** The rewritten text from index `i` of `s` onwards. */
  function SubstituteFrom(s: string, db: string, i: nat): string
    requires i <= |s|
    decreases |s| - i
  {
    if i == |s| then []
    else if WholeWordAt(s, i) then db + SubstituteFrom(s, db, i + |Placeholder|)
    else [s[i]] + SubstituteFrom(s, db, i + 1)
  }

  /**
   * `read_and_substitute` after the read: every whole-word placeholder becomes `db`.
   * `db` is inserted literally; `re.sub` would interpret backslash escapes in it, so
   * the two agree for replacements without `\`, which every target database is.
   */
  function Substitute(s: string, db: string): (r: string)
    ensures r == Reference(s, db)
  {
    ScanMatchesRender(s, db, 0);
    RenderIsReference(s, db);
    assert s[0..] == s;
    SubstituteFrom(s, db, 0)
  }

  // ---------------------------------------------------------------------------
  // The word-level reference definition

  /** A maximal run of word characters, or one character that is not a word character. */
  datatype Token = Word(text: string) | Other(c: char)

  function TokenText(t: Token): string {
    match t
    case Word(w) => w
    case Other(c) => [c]
  }

  /** Length of the run of word characters that `s` starts with. */
  function LeadingWordLength(s: string): (n: nat)
    ensures n <= |s|
    ensures forall k :: 0 <= k < n ==> IsWordChar(s[k])
    ensures n == |s| || !IsWordChar(s[n])
    ensures n > 0 <==> s != [] && IsWordChar(s[0])
  {
    if s == [] || !IsWordChar(s[0]) then 0 else 1 + LeadingWordLength(s[1..])
  }

  function Tokenize(s: string): seq<Token>
    decreases |s|
  {
    if s == [] then []
    else if !IsWordChar(s[0]) then [Other(s[0])] + Tokenize(s[1..])
    else
      var n := LeadingWordLength(s);
      [Word(s[..n])] + Tokenize(s[n..])
  }

  function Flatten(ts: seq<Token>): string {
    if ts == [] then [] else TokenText(ts[0]) + Flatten(ts[1..])
  }

  predicate TokenWellFormed(t: Token) {
    match t
    case Word(w) => |w| > 0 && AllWordChars(w)
    case Other(c) => !IsWordChar(c)
  }

  /** Every token is well formed and no two words touch (words are maximal). */
  predicate WellFormed(ts: seq<Token>) {
    && (forall k :: 0 <= k < |ts| ==> TokenWellFormed(ts[k]))
    && (forall k :: 0 <= k < |ts| - 1 ==> !(ts[k].Word? && ts[k + 1].Word?))
  }

  function RenameToken(t: Token, db: string): Token {
    if t == Word(Placeholder) then Word(db) else t
  }

  function Rename(ts: seq<Token>, db: string): (rs: seq<Token>)
    ensures |rs| == |ts|
    ensures forall k :: 0 <= k < |ts| ==> rs[k] == RenameToken(ts[k], db)
  {
    if ts == [] then [] else [RenameToken(ts[0], db)] + Rename(ts[1..], db)
  }

  /** What the rewrite means: placeholder words renamed, everything else kept. */
  function Reference(s: string, db: string): string {
    Flatten(Rename(Tokenize(s), db))
  }

  // ---------------------------------------------------------------------------
  // Tokenize and Flatten are inverse to each other

  /** Splitting gives maximal word runs and single other characters. */
  lemma {:induction false} TokenizeWellFormed(s: string)
    ensures WellFormed(Tokenize(s))
    decreases |s|
  {
    if s == [] {
    } else if !IsWordChar(s[0]) {
      TokenizeWellFormed(s[1..]);
    } else {
      var n := LeadingWordLength(s);
      TokenizeWellFormed(s[n..]);
      var rest := Tokenize(s[n..]);
      if rest != [] {
        // the text after a maximal run starts with a non-word character
        assert rest[0] == Other(s[n..][0]);
      }
      assert Tokenize(s) == [Word(s[..n])] + rest;
    }
  }

  /** Gluing the pieces of a text gives the text back. */
  lemma {:induction false} FlattenTokenize(s: string)
    ensures Flatten(Tokenize(s)) == s
    decreases |s|
  {
    if s != [] {
      var m := FirstTokenLength(s);
      var ts, rest := Tokenize(s), Tokenize(s[m..]);
      assert ts == [ts[0]] + rest;
      calc {
        Flatten(ts);
      == { FlattenCons(ts[0], rest); }
        TokenText(ts[0]) + Flatten(rest);
      == { FirstTokenText(s); FlattenTokenize(s[m..]); }
        s[..m] + s[m..];
      == { assert s[..m] + s[m..] == s; }
        s;
      }
    }
  }

  /** The first token's text is the text's first `FirstTokenLength` characters. */
  lemma FirstTokenText(s: string)
    requires s != []
    ensures TokenText(Tokenize(s)[0]) == s[..FirstTokenLength(s)]
  {
    if !IsWordChar(s[0]) {
      assert s[..1] == [s[0]];
    }
  }

  /** Gluing a list is gluing its first token in front of the rest. */
  lemma FlattenCons(t: Token, ts: seq<Token>)
    ensures Flatten([t] + ts) == TokenText(t) + Flatten(ts)
  {
    assert ([t] + ts)[1..] == ts;
  }

  lemma {:induction false} LeadingWordLengthOfWord(w: string, t: string)
    requires AllWordChars(w)
    requires t == [] || !IsWordChar(t[0])
    ensures LeadingWordLength(w + t) == |w|
    decreases |w|
  {
    if w == [] {
      assert w + t == t;
    } else {
      LeadingWordLengthOfWord(w[1..], t);
      assert (w + t)[1..] == w[1..] + t;
    }
  }

  lemma TokenizeOther(c: char, tail: string)
    requires !IsWordChar(c)
    ensures Tokenize([c] + tail) == [Other(c)] + Tokenize(tail)
  {
    assert ([c] + tail)[1..] == tail;
  }

  lemma TokenizeWord(w: string, tail: string)
    requires |w| > 0 && AllWordChars(w)
    requires tail == [] || !IsWordChar(tail[0])
    ensures Tokenize(w + tail) == [Word(w)] + Tokenize(tail)
  {
    LeadingWordLengthOfWord(w, tail);
    assert (w + tail)[..|w|] == w;
    assert (w + tail)[|w|..] == tail;
  }

  /** Dropping the first token keeps a token list well formed; a word is followed by another character. */
  lemma WellFormedTail(ts: seq<Token>)
    requires WellFormed(ts) && ts != []
    ensures WellFormed(ts[1..])
    ensures ts[0].Word? && |ts| > 1 ==> ts[1].Other?
  {
    var rest := ts[1..];
    assert forall k :: 0 <= k < |rest| ==> rest[k] == ts[k + 1];
  }

  /** The text of a well-formed list that starts with a non-word token starts with a non-word character. */
  lemma FlattenStartsWithOther(ts: seq<Token>)
    requires WellFormed(ts)
    requires ts == [] || ts[0].Other?
    ensures Flatten(ts) == [] || !IsWordChar(Flatten(ts)[0])
  {
    if ts != [] {
      assert Flatten(ts) == [ts[0].c] + Flatten(ts[1..]);
    }
  }

  /** Splitting the glued text of a well-formed token list gives the list back. */
  lemma {:induction false} TokenizeFlatten(ts: seq<Token>)
    requires WellFormed(ts)
    ensures Tokenize(Flatten(ts)) == ts
    decreases |ts|
  {
    if ts != [] {
      var rest := ts[1..];
      WellFormedTail(ts);
      TokenizeFlatten(rest);
      var tail := Flatten(rest);
      match ts[0]
      case Other(c) =>
        TokenizeOther(c, tail);
      case Word(w) =>
        FlattenStartsWithOther(rest);
        TokenizeWord(w, tail);
    }
  }

  // ---------------------------------------------------------------------------
  // The scanner computes the reference

  /** Where no match starts, the scanner copies the text unchanged. */
  lemma {:induction false} ScanCopies(s: string, db: string, a: nat, b: nat)
    requires a <= b <= |s|
    requires forall k: nat :: a <= k < b ==> !WholeWordAt(s, k)
    ensures SubstituteFrom(s, db, a) == s[a..b] + SubstituteFrom(s, db, b)
    decreases b - a
  {
    if a < b {
      ScanCopiesOne(s, db, a);
      ScanCopies(s, db, a + 1, b);
      SliceCons(s, a, b, SubstituteFrom(s, db, b));
    }
  }

  /** Peeling the first character off a slice in front of more text. */
  lemma SliceCons(s: string, a: nat, b: nat, rest: string)
    requires a < b <= |s|
    ensures s[a..b] + rest == [s[a]] + (s[a + 1..b] + rest)
  {
    assert s[a..b] == [s[a]] + s[a + 1..b];
  }

  /** Where no match starts the scanner copies one character. */
  lemma ScanCopiesOne(s: string, db: string, a: nat)
    requires a < |s| && !WholeWordAt(s, a)
    ensures SubstituteFrom(s, db, a) == [s[a]] + SubstituteFrom(s, db, a + 1)
  {
  }

  /** A match consists of word characters only. */
  lemma MatchIsWordChars(s: string, i: nat)
    ensures WholeWordAt(s, i) ==> forall k :: i <= k < i + |Placeholder| ==> IsWordChar(s[k])
  {
    PlaceholderIsWord();
    if WholeWordAt(s, i) {
      forall k | i <= k < i + |Placeholder|
        ensures IsWordChar(s[k])
      {
        assert s[k] == s[i..i + |Placeholder|][k - i];
      }
    }
  }

  /** A match always covers a whole run of word characters. */
  lemma MatchIsWholeRun(s: string, i: nat)
    ensures WholeWordAt(s, i) ==>
      && LeadingWordLength(s[i..]) == |Placeholder|
      && s[i..][..|Placeholder|] == Placeholder
  {
    if WholeWordAt(s, i) {
      PlaceholderIsWord();
      var t := s[i + |Placeholder|..];
      assert s[i..] == Placeholder + t;
      LeadingWordLengthOfWord(Placeholder, t);
    }
  }

  /** The reference emitted token by token, without building the token list. */
  function Render(s: string, db: string): string
    decreases |s|
  {
    if s == [] then []
    else if !IsWordChar(s[0]) then [s[0]] + Render(s[1..], db)
    else
      var n := LeadingWordLength(s);
      TokenText(RenameToken(Word(s[..n]), db)) + Render(s[n..], db)
  }

  lemma {:induction false} RenderIsReference(s: string, db: string)
    ensures Render(s, db) == Reference(s, db)
    decreases |s|
  {
    if s == [] {
    } else if !IsWordChar(s[0]) {
      ReferenceOther(s, db);
      RenderIsReference(s[1..], db);
    } else {
      ReferenceWord(s, db);
      RenderIsReference(s[LeadingWordLength(s)..], db);
    }
  }

  /** The reference keeps a leading non-word character. */
  lemma ReferenceOther(u: string, db: string)
    requires u != [] && !IsWordChar(u[0])
    ensures Reference(u, db) == [u[0]] + Reference(u[1..], db)
  {
    assert Tokenize(u) == [Other(u[0])] + Tokenize(u[1..]);
    assert Rename(Tokenize(u), db) == [Other(u[0])] + Rename(Tokenize(u[1..]), db);
  }

  /** The reference renames a leading run of word characters as one token. */
  lemma ReferenceWord(u: string, db: string)
    requires u != [] && IsWordChar(u[0])
    ensures var n := LeadingWordLength(u);
      Reference(u, db) == TokenText(RenameToken(Word(u[..n]), db)) + Reference(u[n..], db)
  {
    var n := LeadingWordLength(u);
    assert Tokenize(u) == [Word(u[..n])] + Tokenize(u[n..]);
    assert Rename(Tokenize(u), db) == [RenameToken(Word(u[..n]), db)] + Rename(Tokenize(u[n..]), db);
  }

  /** Inside a run of word characters other than the placeholder no match starts. */
  lemma NoMatchInRun(s: string, i: nat)
    requires i < |s| && IsWordChar(s[i])
    requires s[i..][..LeadingWordLength(s[i..])] != Placeholder
    ensures forall k: nat :: i <= k < i + LeadingWordLength(s[i..]) ==> !WholeWordAt(s, k)
  {
    var u := s[i..];
    var n := LeadingWordLength(u);
    MatchIsWholeRun(s, i);
    forall j | i <= j < i + n
      ensures IsWordChar(s[j])
    {
      assert s[j] == u[j - i];
    }
  }

  /** One scanner step over a character that is not a word character. */
  lemma ScanStepOther(s: string, db: string, i: nat)
    requires i < |s| && !IsWordChar(s[i])
    ensures SubstituteFrom(s, db, i) == [s[i]] + SubstituteFrom(s, db, i + 1)
    ensures Render(s[i..], db) == [s[i]] + Render(s[i + 1..], db)
  {
    MatchIsWordChars(s, i);
    SliceOfSuffix(s, i, 1);
  }

  /** The scanner replaces a run of word characters that is exactly the placeholder. */
  lemma ScanStepPlaceholder(s: string, db: string, i: nat, n: nat)
    requires i < |s| && IsWordChar(s[i])
    requires i == 0 || !IsWordChar(s[i - 1])
    requires n == LeadingWordLength(s[i..])
    requires s[i..][..n] == Placeholder
    ensures i + n <= |s|
    ensures SubstituteFrom(s, db, i) == db + SubstituteFrom(s, db, i + n)
  {
    var u := s[i..];
    PlaceholderIsWord();
    assert s[i..i + n] == u[..n];
    assert i + n < |s| ==> s[i + n] == u[n];
    assert WholeWordAt(s, i);
  }

  /** The scanner copies a run of word characters that is not the placeholder. */
  lemma ScanStepPlainWord(s: string, db: string, i: nat, n: nat)
    requires i < |s| && IsWordChar(s[i])
    requires n == LeadingWordLength(s[i..])
    requires s[i..][..n] != Placeholder
    ensures i + n <= |s|
    ensures SubstituteFrom(s, db, i) == s[i..][..n] + SubstituteFrom(s, db, i + n)
  {
    NoMatchInRun(s, i);
    ScanCopies(s, db, i, i + n);
    assert s[i..i + n] == s[i..][..n];
  }

  /** The reference renames the run of word characters `s[i..m]` as one token, giving `t`. */
  lemma RenderWordAt(s: string, db: string, i: nat) returns (m: nat, t: string)
    requires i < |s| && IsWordChar(s[i])
    ensures m == i + LeadingWordLength(s[i..]) && i < m <= |s|
    ensures t == TokenText(RenameToken(Word(s[i..][..m - i]), db))
    ensures Render(s[i..], db) == t + Render(s[m..], db)
  {
    var n := LeadingWordLength(s[i..]);
    RenderWord(s[i..], db);
    SliceOfSuffix(s, i, n);
    m, t := i + n, TokenText(RenameToken(Word(s[i..][..n]), db));
  }

  /** `Render` on a text that starts with a word character, unfolded once. */
  lemma RenderWord(u: string, db: string)
    requires u != [] && IsWordChar(u[0])
    ensures var n := LeadingWordLength(u);
      Render(u, db) == TokenText(RenameToken(Word(u[..n]), db)) + Render(u[n..], db)
  {
  }

  /** Slicing a suffix is slicing the text at shifted indices. */
  lemma SliceOfSuffix(s: string, i: nat, n: nat)
    requires i + n <= |s|
    ensures s[i..][n..] == s[i + n..]
    ensures s[i..][..n] == s[i..i + n]
  {
  }

  /** The scanner replaces or copies the run of word characters `s[i..m]` in one go. */
  lemma ScanWordAt(s: string, db: string, i: nat, m: nat, t: string)
    requires i < |s| && IsWordChar(s[i])
    requires i == 0 || !IsWordChar(s[i - 1])
    requires m == i + LeadingWordLength(s[i..]) && m <= |s|
    requires t == TokenText(RenameToken(Word(s[i..][..m - i]), db))
    ensures m == |s| || !IsWordChar(s[m])
    ensures SubstituteFrom(s, db, i) == t + SubstituteFrom(s, db, m)
  {
    RunEnd(s, i, m);
    if s[i..][..m - i] == Placeholder {
      ScanPlaceholderRun(s, db, i, m, t);
    } else {
      ScanPlainRun(s, db, i, m, t);
    }
  }

  /** The run at `i` is the placeholder: the scanner emits `db`, which is what the renamed token reads. */
  lemma ScanPlaceholderRun(s: string, db: string, i: nat, m: nat, t: string)
    requires i < |s| && IsWordChar(s[i])
    requires i == 0 || !IsWordChar(s[i - 1])
    requires m == i + LeadingWordLength(s[i..]) && m <= |s|
    requires t == TokenText(RenameToken(Word(s[i..][..m - i]), db))
    requires s[i..][..m - i] == Placeholder
    ensures SubstituteFrom(s, db, i) == t + SubstituteFrom(s, db, m)
  {
    RenamedWordText(s[i..][..m - i], db);
    ScanStepPlaceholder(s, db, i, m - i);
  }

  /** The run at `i` is some other word: the scanner copies it, as the kept token reads. */
  lemma ScanPlainRun(s: string, db: string, i: nat, m: nat, t: string)
    requires i < |s| && IsWordChar(s[i])
    requires m == i + LeadingWordLength(s[i..]) && m <= |s|
    requires t == TokenText(RenameToken(Word(s[i..][..m - i]), db))
    requires s[i..][..m - i] != Placeholder
    ensures SubstituteFrom(s, db, i) == t + SubstituteFrom(s, db, m)
  {
    RenamedWordText(s[i..][..m - i], db);
    ScanStepPlainWord(s, db, i, m - i);
  }

  /** A run of word characters ends at the end of the text or at a character that is not one. */
  lemma RunEnd(s: string, i: nat, m: nat)
    requires i <= |s| && m == i + LeadingWordLength(s[i..])
    ensures m <= |s|
    ensures m == |s| || !IsWordChar(s[m])
  {
    var u := s[i..];
    assert m < |s| ==> s[m] == u[m - i];
  }

  /** The text of a renamed word token. */
  lemma RenamedWordText(w: string, db: string)
    ensures TokenText(RenameToken(Word(w), db)) == if w == Placeholder then db else w
  {
  }

  /** The scanner steps over a whole run of word characters, renaming it if it is the placeholder. */
  lemma ScanStepWord(s: string, db: string, i: nat) returns (m: nat, t: string)
    requires i < |s| && IsWordChar(s[i])
    requires i == 0 || !IsWordChar(s[i - 1])
    ensures i < m <= |s|
    ensures m == |s| || !IsWordChar(s[m])
    ensures SubstituteFrom(s, db, i) == t + SubstituteFrom(s, db, m)
    ensures Render(s[i..], db) == t + Render(s[m..], db)
  {
    m, t := RenderWordAt(s, db, i);
    ScanWordAt(s, db, i, m, t);
  }

  /** One scanner step: the scanner and the reference emit the same text `t` up to index `m`. */
  lemma ScanStep(s: string, db: string, i: nat) returns (m: nat, t: string)
    requires i < |s|
    requires i == 0 || !IsWordChar(s[i - 1]) || !IsWordChar(s[i])
    ensures i < m <= |s|
    ensures m == |s| || !IsWordChar(s[m - 1]) || !IsWordChar(s[m])
    ensures SubstituteFrom(s, db, i) == t + SubstituteFrom(s, db, m)
    ensures Render(s[i..], db) == t + Render(s[m..], db)
  {
    if !IsWordChar(s[i]) {
      ScanStepOther(s, db, i);
      m, t := i + 1, [s[i]];
    } else {
      m, t := ScanStepWord(s, db, i);
    }
  }

  lemma {:induction false} ScanMatchesRender(s: string, db: string, i: nat)
    requires i <= |s|
    requires i == 0 || i == |s| || !IsWordChar(s[i - 1]) || !IsWordChar(s[i])
    ensures SubstituteFrom(s, db, i) == Render(s[i..], db)
    decreases |s| - i
  {
    if i == |s| {
      assert s[i..] == [];
    } else {
      var m, t := ScanStep(s, db, i);
      ScanMatchesRender(s, db, m);
    }
  }

  // ---------------------------------------------------------------------------
  // Occurrences are exactly the placeholder words

  /** Length of the first token of a non-empty text. */
  function FirstTokenLength(s: string): (m: nat)
    requires s != []
    ensures 0 < m <= |s|
    ensures Tokenize(s) != [] && |TokenText(Tokenize(s)[0])| == m
    ensures Tokenize(s)[1..] == Tokenize(s[m..])
  {
    if !IsWordChar(s[0]) then 1 else LeadingWordLength(s)
  }

  /** A match away from the start of the text lies past the first token. */
  lemma MatchAfterFirstToken(s: string, i: nat)
    requires WholeWordAt(s, i) && i > 0
    ensures FirstTokenLength(s) <= i
  {
    assert !IsWordChar(s[i - 1]);
  }

  /** A match stays a match when a prefix before it is dropped. */
  lemma ShiftMatch(s: string, m: nat, i: nat)
    requires m <= i && WholeWordAt(s, i)
    ensures WholeWordAt(s[m..], i - m)
  {
    var t := s[m..];
    assert t[i - m..i - m + |Placeholder|] == s[i..i + |Placeholder|];
    assert i - m + |Placeholder| < |t| ==> t[i - m + |Placeholder|] == s[i + |Placeholder|];
    assert i - m > 0 ==> t[i - m - 1] == s[i - 1];
  }

  /** A match at the start of the text is its first token. */
  lemma MatchAtStart(s: string)
    requires WholeWordAt(s, 0)
    ensures Tokenize(s)[0] == Word(Placeholder)
  {
    PlaceholderIsWord();
    assert IsWordChar(s[0]) by { assert s[0] == s[0..|Placeholder|][0]; }
    MatchIsWholeRun(s, 0);
    assert s[0..] == s;
  }

  /** The glued length of the first `t + 1` tokens: the first token, then `t` more. */
  lemma FlattenPrefixLength(ts: seq<Token>, t: nat)
    requires t < |ts|
    ensures |Flatten(ts[..t + 1])| == |TokenText(ts[0])| + |Flatten(ts[1..][..t])|
  {
    assert ts[..t + 1] == [ts[0]] + ts[1..][..t];
    FlattenCons(ts[0], ts[1..][..t]);
  }

  /**
   * A whole-word match at `i` is a placeholder word token of the text, and that
   * token starts at offset `i`: the tokens before it glue to `i` characters.
   */
  lemma {:induction false} OccurrenceIsPlaceholderWord(s: string, i: nat)
    requires WholeWordAt(s, i)
    ensures exists t :: 0 <= t < |Tokenize(s)| && Tokenize(s)[t] == Word(Placeholder)
                        && |Flatten(Tokenize(s)[..t])| == i
    ensures Word(Placeholder) in Tokenize(s)
    decreases |s|
  {
    var ts := Tokenize(s);
    if i == 0 {
      MatchAtStart(s);
      assert ts[..0] == [];
      assert ts[0] == Word(Placeholder) && |Flatten(ts[..0])| == 0;
    } else {
      var m := FirstTokenLength(s);
      MatchAfterFirstToken(s, i);
      ShiftMatch(s, m, i);
      OccurrenceIsPlaceholderWord(s[m..], i - m);
      var rest := Tokenize(s[m..]);
      var t' :| 0 <= t' < |rest| && rest[t'] == Word(Placeholder) && |Flatten(rest[..t'])| == i - m;
      FlattenPrefixLength(ts, t');
      assert ts[t' + 1] == rest[t'];
      assert |Flatten(ts[..t' + 1])| == i;
    }
  }

  /** No placeholder word is left after renaming. */
  lemma NoPlaceholderAfterRename(ts: seq<Token>, db: string)
    requires db != Placeholder
    ensures Word(Placeholder) !in Rename(ts, db)
  {
  }

  /** A safe replacement keeps the token list well formed. */
  lemma RenamePreservesWellFormed(ts: seq<Token>, db: string)
    requires WellFormed(ts)
    requires SafeReplacement(db)
    ensures WellFormed(Rename(ts, db))
  {
  }

  /** Splitting the rewritten text gives back the renamed tokens. */
  lemma TokenizeSubstitute(s: string, db: string)
    requires SafeReplacement(db)
    ensures Tokenize(Substitute(s, db)) == Rename(Tokenize(s), db)
  {
    TokenizeWellFormed(s);
    RenamePreservesWellFormed(Tokenize(s), db);
    TokenizeFlatten(Rename(Tokenize(s), db));
  }

  // ---------------------------------------------------------------------------
  // Properties of the rewrite

  /** Whole-word occurrences never overlap, and never even touch. */
  lemma OccurrencesDoNotOverlap(s: string, i: nat, j: nat)
    requires WholeWordAt(s, i) && WholeWordAt(s, j)
    requires i < j
    ensures i + |Placeholder| < j
  {
    PlaceholderIsWord();
    forall k | i <= k < i + |Placeholder|
      ensures IsWordChar(s[k])
    {
      assert s[k] == s[i..i + |Placeholder|][k - i];
    }
    // the character before `j` is not a word character, so it lies past the match at `i`
    assert !IsWordChar(s[j - 1]);
  }

  /** Text without a whole-word occurrence is returned unchanged. */
  lemma UnchangedWithoutOccurrence(s: string, db: string)
    requires NoOccurrence(s)
    ensures Substitute(s, db) == s
  {
    ScanCopies(s, db, 0, |s|);
    assert s[0..|s|] == s;
  }

  /** After one pass no whole-word placeholder is left. */
  lemma NoOccurrenceAfterSubstitute(s: string, db: string)
    requires SafeReplacement(db)
    ensures NoOccurrence(Substitute(s, db))
  {
    var r := Substitute(s, db);
    forall i: nat
      ensures !WholeWordAt(r, i)
    {
      if WholeWordAt(r, i) {
        OccurrenceIsPlaceholderWord(r, i);
        TokenizeSubstitute(s, db);
        NoPlaceholderAfterRename(Tokenize(s), db);
      }
    }
  }

  /** The text is left as it is exactly when it holds no whole-word occurrence. */
  lemma UnchangedIffNoOccurrence(s: string, db: string)
    requires SafeReplacement(db)
    ensures Substitute(s, db) == s <==> NoOccurrence(s)
  {
    if NoOccurrence(s) {
      UnchangedWithoutOccurrence(s, db);
    }
    if Substitute(s, db) == s {
      NoOccurrenceAfterSubstitute(s, db);
    }
  }

  /** A second pass changes nothing. */
  lemma SubstituteIdempotent(s: string, db: string)
    requires SafeReplacement(db)
    ensures Substitute(Substitute(s, db), db) == Substitute(s, db)
  {
    NoOccurrenceAfterSubstitute(s, db);
    UnchangedWithoutOccurrence(Substitute(s, db), db);
  }

  // ---------------------------------------------------------------------------
  // Worked examples

  /** A text made only of word characters holds a match only at its start. */
  lemma OnlyLeadingMatchInWord(s: string, i: nat)
    requires AllWordChars(s)
    requires 0 < i
    ensures !WholeWordAt(s, i)
  {
    if i <= |s| && i - 1 < |s| {
      assert IsWordChar(s[i - 1]);
    }
  }

  /** The placeholder as the prefix of a longer identifier is left untouched. */
  lemma LongerIdentifierUntouched(db: string)
    ensures Substitute("SAAS_ANALYTICS_ARCHIVE", db) == "SAAS_ANALYTICS_ARCHIVE"
  {
    var s := "SAAS_ANALYTICS_ARCHIVE";
    assert AllWordChars(s);
    forall i: nat | i <= |s|
      ensures !WholeWordAt(s, i)
    {
      if i == 0 {
        assert IsWordChar(s[|Placeholder|]);
      } else {
        OnlyLeadingMatchInWord(s, i);
      }
    }
    UnchangedWithoutOccurrence(s, db);
  }

  /** The placeholder as the suffix of a longer identifier is left untouched. */
  lemma PrefixedIdentifierUntouched(db: string)
    ensures Substitute("XSAAS_ANALYTICS", db) == "XSAAS_ANALYTICS"
  {
    var s := "XSAAS_ANALYTICS";
    assert AllWordChars(s);
    forall i: nat | i <= |s|
      ensures !WholeWordAt(s, i)
    {
      if i == 0 {
        assert s[0] != Placeholder[0];
        assert s[..|Placeholder|] != Placeholder;
      } else {
        OnlyLeadingMatchInWord(s, i);
      }
    }
    UnchangedWithoutOccurrence(s, db);
  }

  /** A placeholder bounded by a space and a dot is renamed, whatever the target database. */
  lemma QualifiedNameRenamed(db: string)
    requires SafeReplacement(db)
    ensures Substitute("USE " + Placeholder + ".GOLD;", db) == "USE " + db + ".GOLD;"
  {
    var ts := [Word("USE"), Other(' '), Word(Placeholder), Other('.'), Word("GOLD"), Other(';')];
    assert WellFormed(ts) by {
      PlaceholderIsWord();
      assert AllWordChars("USE") && AllWordChars("GOLD");
    }
    var rs := [Word("USE"), Other(' '), Word(db), Other('.'), Word("GOLD"), Other(';')];
    assert Rename(ts, db) == rs;
    FlattenSix(ts);
    FlattenSix(rs);
    assert "USE" + [' '] == "USE ";
    assert ['.'] + ("GOLD" + [';']) == ".GOLD;";
    TokenizeFlatten(ts);
  }

  /** The glued text of a six-token list. */
  lemma FlattenSix(ts: seq<Token>)
    requires |ts| == 6
    ensures Flatten(ts) == (TokenText(ts[0]) + TokenText(ts[1])) + TokenText(ts[2])
                           + (TokenText(ts[3]) + (TokenText(ts[4]) + TokenText(ts[5])))
  {
    assert ts[5..][1..] == [];
    assert Flatten(ts[5..]) == TokenText(ts[5]);
    assert ts[4..][1..] == ts[5..];
    assert Flatten(ts[4..]) == TokenText(ts[4]) + TokenText(ts[5]);
    assert ts[3..][1..] == ts[4..];
    var f3 := Flatten(ts[3..]);
    assert f3 == TokenText(ts[3]) + (TokenText(ts[4]) + TokenText(ts[5]));
    var a, b, c := TokenText(ts[0]), TokenText(ts[1]), TokenText(ts[2]);
    assert ts[2..][1..] == ts[3..];
    assert Flatten(ts[2..]) == c + f3;
    assert ts[1..][1..] == ts[2..];
    assert Flatten(ts[1..]) == b + (c + f3);
    assert Flatten(ts) == a + (b + (c + f3));
    assert a + (b + (c + f3)) == (a + b) + c + f3;
  }
}
