/**
 * A small JavaScript tokenizer standing in for the external `ress`
 * scanner the compiler calls. It reports, for every token, its kind and
 * its span in the scanned text; identifiers (with `$` and `_` allowed)
 * are told apart from reserved words, quoted literals and comments are
 * consumed whole so their contents are never identifiers.
 */
module JsLexer {
  import opened Wrappers
  import opened Text

  datatype Kind = Ident | Keyword | Punct | Literal

  /** A token of kind `kind` spanning `[start, end)` of the scanned text. */
  datatype Token = Token(kind: Kind, start: nat, end: nat)

  predicate IdentStart(c: char) {
    ('a' <= c <= 'z') || ('A' <= c <= 'Z') || c == '_' || c == '$'
  }

  predicate IdentPart(c: char) {
    IdentStart(c) || IsDigit(c)
  }

  /** The reserved words; each scans as a `Keyword`, never as an `Ident`. */
  const Keywords: seq<string> := [
    "await", "break", "case", "catch", "class", "const", "continue", "debugger",
    "default", "delete", "do", "else", "enum", "export", "extends", "finally",
    "for", "function", "if", "import", "in", "instanceof", "let", "new", "return",
    "static", "super", "switch", "this", "throw", "try", "typeof", "var", "void",
    "while", "with", "yield"
  ]

  /** The words that scan as literals rather than identifiers. */
  const LiteralWords: seq<string> := ["true", "false", "null"]

  /** `w` is one of `words`, looked up from the last word back. */
  predicate Listed(w: string, words: seq<string>)
    decreases |words|
  {
    words != [] && (words[|words| - 1] == w || Listed(w, words[..|words| - 1]))
  }

  lemma {:induction false} ListedIsIn(w: string, words: seq<string>)
    ensures Listed(w, words) <==> w in words
    decreases |words|
  {
    if words != [] {
      ListedIsIn(w, words[..|words| - 1]);
      assert words == words[..|words| - 1] + [words[|words| - 1]];
    }
  }

  /** A word of `words` at a known index is listed. */
  lemma {:induction false} ListedAt(w: string, words: seq<string>, k: nat)
    requires k < |words| && words[k] == w
    ensures Listed(w, words)
    decreases |words|
  {
    if k < |words| - 1 {
      ListedAt(w, words[..|words| - 1], k);
    }
  }

  /** Every reserved word has 2 to 10 letters, and every literal word 4 or 5. */
  lemma WordLengths()
    ensures forall i :: 0 <= i < |Keywords| ==> 2 <= |Keywords[i]| <= 10
    ensures forall i :: 0 <= i < |LiteralWords| ==> 4 <= |LiteralWords[i]| <= 5
  {
  }

  /** `w` is a reserved word; the length test only skips words that cannot be one. */
  predicate IsKeyword(w: string) {
    2 <= |w| <= 10 && Listed(w, Keywords)
  }

  /** `w` is `true`, `false` or `null`. */
  predicate IsLiteralWord(w: string) {
    4 <= |w| <= 5 && Listed(w, LiteralWords)
  }

  /** End of a run of identifier characters from `i`. */
  function WordEnd(s: string, i: nat): (j: nat)
    requires i <= |s|
    ensures i <= j <= |s|
    ensures forall k :: i <= k < j ==> IdentPart(s[k])
    ensures j == |s| || !IdentPart(s[j])
    decreases |s| - i
  {
    if i < |s| && IdentPart(s[i]) then WordEnd(s, i + 1) else i
  }

  /** Just past the quote `q` that closes a literal whose body starts at `i`; a backslash escapes one character. */
  function QuoteEnd(s: string, i: nat, q: char): (j: nat)
    requires i <= |s|
    ensures i <= j <= |s|
    decreases |s| - i
  {
    if i >= |s| then |s|
    else if s[i] == q then i + 1
    else if s[i] == '\\' then (if i + 1 < |s| then QuoteEnd(s, i + 2, q) else |s|)
    else QuoteEnd(s, i + 1, q)
  }

  /** Where a `//` comment started before `i` ends: at the newline, or at the end. */
  function LineEnd(s: string, i: nat): (j: nat)
    requires i <= |s|
    ensures i <= j <= |s|
    decreases |s| - i
  {
    if i >= |s| || s[i] == '\n' then i else LineEnd(s, i + 1)
  }

  // Just past the star-slash that closes a block comment, or the end.
  function BlockEnd(s: string, i: nat): (j: nat)
    requires i <= |s|
    ensures i <= j <= |s|
    decreases |s| - i
  {
    if i >= |s| then |s|
    else if s[i] == '*' && i + 1 < |s| && s[i + 1] == '/' then i + 2
    else BlockEnd(s, i + 1)
  }

  /** The tokens of `s` are in order, disjoint, non-empty and inside `[from, |s|)`. */
  predicate Spans(s: string, toks: seq<Token>, from: nat) {
    (forall k :: 0 <= k < |toks| ==> from <= toks[k].start < toks[k].end <= |s|)
    && (forall k, l :: 0 <= k < l < |toks| ==> toks[k].end <= toks[l].start)
  }

  /** The text of a token. */
  function TextOf(s: string, t: Token): string
    requires t.start <= t.end <= |s|
  {
    s[t.start..t.end]
  }

  /** An identifier token is a whole word that is neither reserved nor a literal word. */
  predicate IdentOk(s: string, t: Token)
    requires t.start < t.end <= |s|
  {
    t.kind == Ident ==>
      IdentStart(s[t.start])
      && (forall m :: t.start <= m < t.end ==> IdentPart(s[m]))
      && !IsKeyword(s[t.start..t.end]) && !IsLiteralWord(s[t.start..t.end])
  }

  /** The token starting at `i`, if any, and where scanning resumes. */
  function Scan(s: string, i: nat): (r: (Option<Token>, nat))
    requires i < |s|
    ensures i < r.1 <= |s|
    ensures r.0.Some? ==> i <= r.0.value.start < r.0.value.end <= r.1
  {
    var c := s[i];
    if IsWhitespace(c) then (None, i + 1)
    else if c == '/' && i + 1 < |s| && s[i + 1] == '/' then (None, LineEnd(s, i + 2))
    else if c == '/' && i + 1 < |s| && s[i + 1] == '*' then (None, BlockEnd(s, i + 2))
    else if IdentStart(c) then
      var e := WordEnd(s, i + 1);
      var w := s[i..e];
      (Some(Token(if IsKeyword(w) then Keyword else if IsLiteralWord(w) then Literal else Ident, i, e)), e)
    else if IsDigit(c) then
      var e := WordEnd(s, i + 1);
      (Some(Token(Literal, i, e)), e)
    else if c == '"' || c == '\'' || c == '`' then
      var e := QuoteEnd(s, i + 1, c);
      (Some(Token(Literal, i, e)), e)
    else (Some(Token(Punct, i, i + 1)), i + 1)
  }

  /** The tokens of `s` from `i`; whitespace and comments produce none. */
  function LexFrom(s: string, i: nat): (r: seq<Token>)
    requires i <= |s|
    ensures Spans(s, r, i)
    decreases |s| - i
  {
    if i >= |s| then []
    else
      var (t, j) := Scan(s, i);
      var rest := LexFrom(s, j);
      if t.Some? then [t.value] + rest else rest
  }

  /** `ress::Scanner::new(s)`, keeping only the tokens it scans successfully. */
  function Lex(s: string): (r: seq<Token>)
    ensures Spans(s, r, 0)
  {
    LexFrom(s, 0)
  }

  /** A scanned identifier is a whole word, neither reserved nor a literal word. */
  lemma ScanIdentOk(s: string, i: nat)
    requires i < |s|
    ensures var r := Scan(s, i); r.0.Some? ==> IdentOk(s, r.0.value)
  {
  }

  lemma {:induction false} LexFromIdentOk(s: string, i: nat)
    requires i <= |s|
    ensures forall k :: 0 <= k < |LexFrom(s, i)| ==> IdentOk(s, LexFrom(s, i)[k])
    decreases |s| - i
  {
    if i < |s| {
      var (t, j) := Scan(s, i);
      ScanIdentOk(s, i);
      LexFromIdentOk(s, j);
    }
  }

  /** Every identifier token `Lex` reports is a whole word, neither reserved nor a literal word. */
  lemma LexIdentOk(s: string)
    ensures forall k :: 0 <= k < |Lex(s)| ==> IdentOk(s, Lex(s)[k])
  {
    LexFromIdentOk(s, 0);
  }

  /** A word that the scanner reports as an identifier: not reserved and not a literal word. */
  predicate IdentWord(w: string) {
    |w| > 0 && IdentStart(w[0]) && (forall k :: 0 <= k < |w| ==> IdentPart(w[k]))
    && !IsKeyword(w) && !IsLiteralWord(w)
  }

  /** A run of identifier characters to the end of the text ends there. */
  lemma {:induction false} WordEndAtEnd(s: string, i: nat)
    requires i <= |s| && forall k :: i <= k < |s| ==> IdentPart(s[k])
    ensures WordEnd(s, i) == |s|
    decreases |s| - i
  {
    if i < |s| {
      WordEndAtEnd(s, i + 1);
    }
  }

  /** `let w` is the keyword `let` followed by the identifier `w`, for every identifier word `w`. */
  lemma LetDeclares(w: string)
    requires IdentWord(w)
    ensures Lex("let " + w) == [Token(Keyword, 0, 3), Token(Ident, 4, 4 + |w|)]
  {
    var s := "let " + w;
    assert s[4..] == w;
    WordEndAtEnd(s, 5);
    assert Scan(s, 4) == (Some(Token(Ident, 4, |s|)), |s|) by {
      assert s[4..|s|] == w;
    }
    assert LexFrom(s, 4) == [Token(Ident, 4, |s|)] by {
      assert LexFrom(s, |s|) == [];
    }
    assert LexFrom(s, 3) == [Token(Ident, 4, |s|)] by {
      assert Scan(s, 3) == (None, 4);
    }
    assert WordEnd(s, 1) == 3 by {
      assert s[1] == 'e' && s[2] == 't' && s[3] == ' ';
    }
    assert Scan(s, 0) == (Some(Token(Keyword, 0, 3)), 3) by {
      assert s[0..3] == "let";
      ListedAt("let", Keywords, 22);
    }
  }
}
