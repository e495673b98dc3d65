/**
 * The stylesheet parser of `src/css.rs`: a character tokenizer, the pass
 * that glues colons onto pseudo-class names, the right-recursive selector
 * parser and the four-state rule/property machine.
 */
module Css {
  import opened Wrappers
  import opened Text

  /** `Selector`; `Unset` is the source's `Selector::None` placeholder. */
  datatype Selector =
    | Unset
    | Tag(tag: string)
    | Class(className: string)
    | ID(id: string)
    | Pseudo(pseudo: string)
    | Descendant(left: Selector, right: Selector)
    | Child(left: Selector, right: Selector)
    | NextSibling(left: Selector, right: Selector)
    | All

  datatype Property = Property(name: string, value: seq<string>)

  datatype Rule = Rule(selector: Selector, properties: seq<Property>)

  type StyleSheet = seq<Rule>

  /** A selector with no `Unset` placeholder anywhere inside it. */
  predicate Complete(s: Selector) {
    match s
    case Unset => false
    case Descendant(a, b) => Complete(a) && Complete(b)
    case Child(a, b) => Complete(a) && Complete(b)
    case NextSibling(a, b) => Complete(a) && Complete(b)
    case _ => true
  }

  predicate CompleteSheet(ss: StyleSheet) {
    forall i :: 0 <= i < |ss| ==> Complete(ss[i].selector)
  }

  /** Two complete sheets make a complete sheet, and a complete sheet without its last rule is complete. */
  lemma CompleteSheetParts(a: StyleSheet, b: StyleSheet)
    requires CompleteSheet(a) && CompleteSheet(b) && b != []
    ensures CompleteSheet(a + b) && CompleteSheet(b[..|b| - 1])
    ensures (a + b)[..|a + b| - 1] == a + b[..|b| - 1] && (a + b)[|a + b| - 1] == b[|b| - 1]
  {
    assert (a + b)[..|a + b| - 1] == a + b[..|b| - 1];
  }

  /** `Selector::matches_classes`: only a plain class selector can match a class list. */
  function MatchesClasses(s: Selector, classes: seq<string>): (r: bool)
    ensures r <==> exists i :: 0 <= i < |classes| && s == Class(classes[i])
  {
    match s
    case Class(c) => c in classes
    case _ => false
  }

  /** `Rule::matches_classes` delegates to its selector. */
  function RuleMatchesClasses(r: Rule, classes: seq<string>): (b: bool)
    ensures b <==> r.selector.Class? && r.selector.className in classes
  {
    MatchesClasses(r.selector, classes)
  }

  datatype Token =
    | Identifier(text: string)
    | Str(text: string)
    | Colon
    | Semicolon
    | OpenBrace
    | CloseBrace

  /** `id_char` */
  predicate IdChar(c: char) {
    !IsWhitespace(c) && c != '"' && c != ':' && c != ';' && c != '{' && c != '}'
  }

  // ---------------------------------------------------------------- skipping

  /** The loop of `skip_whitespace_and_commnets` from `pos`, in or out of a comment. */
  function SkipFrom(input: string, pos: nat, inComment: bool): (p: nat)
    requires pos <= |input|
    ensures pos <= p <= |input|
    ensures p == |input| || (!inComment && !IsWhitespace(input[p]) && p == pos) || !IsWhitespace(input[p])
    decreases |input| - pos
  {
    if pos == |input| then pos
    else if inComment then
      if StartsAt(input, pos, "*/") then SkipFrom(input, pos + 2, false) else SkipFrom(input, pos + 1, true)
    else if IsWhitespace(input[pos]) then SkipFrom(input, pos + 1, false)
    else pos
  }

  /**
   * Where `skip_whitespace_and_commnets` leaves the cursor. A comment is
   * recognised only where the skip starts: outside a comment the loop runs
   * only over whitespace, so its check for a later comment opener never fires.
   */
  function Skipped(input: string, pos: nat): (p: nat)
    requires pos <= |input|
    ensures pos <= p <= |input|
    ensures p == |input| || !IsWhitespace(input[p])
  {
    if StartsAt(input, pos, "/*") then SkipFrom(input, pos + 2, true) else SkipFrom(input, pos, false)
  }

  /** An unterminated comment swallows the rest of the input. */
  lemma {:induction false} UnterminatedCommentSwallows(input: string, pos: nat)
    requires pos <= |input|
    requires forall i :: pos <= i < |input| ==> !StartsAt(input, i, "*/")
    ensures SkipFrom(input, pos, true) == |input|
    decreases |input| - pos
  {
    if pos < |input| {
      UnterminatedCommentSwallows(input, pos + 1);
    }
  }

  /** A comment after whitespace is not skipped: the cursor stops on its `/`. */
  lemma CommentAfterWhitespaceNotSkipped(input: string, pos: nat)
    requires pos + 1 < |input| && IsWhitespace(input[pos]) && StartsAt(input, pos + 1, "/*")
    ensures Skipped(input, pos) == pos + 1
  {
    assert input[pos + 1] == '/';
    assert !StartsAt(input, pos, "/*");
    assert SkipFrom(input, pos + 1, false) == pos + 1;
  }

  method SkipWhitespaceAndComments(input: string, pos: nat) returns (p: nat)
    requires pos <= |input|
    ensures p == Skipped(input, pos)
  {
    p := pos;
    var inComment := false;
    if StartsAt(input, p, "/*") {
      inComment := true;
      p := p + 2;
    }
    while p < |input| && (inComment || IsWhitespace(input[p]))
      invariant pos <= p <= |input|
      invariant SkipFrom(input, p, inComment) == Skipped(input, pos)
      decreases |input| - p
    {
      if inComment && StartsAt(input, p, "*/") {
        inComment := false;
        p := p + 2;
        continue;
      }
      p := p + 1;
    }
  }

  // ---------------------------------------------------------------- tokens

  /** Index of the quote that closes a string whose body starts at `i`. */
  function StringEnd(input: string, i: nat, escaped: bool): (r: Option<nat>)
    requires i <= |input|
    ensures r.Some? ==> i <= r.value < |input| && input[r.value] == '"'
    decreases |input| - i
  {
    if i == |input| then None
    else if !escaped && input[i] == '\\' then StringEnd(input, i + 1, true)
    else if escaped then StringEnd(input, i + 1, false)
    else if input[i] == '"' then Some(i)
    else StringEnd(input, i + 1, false)
  }

  /**
   * Whether the character at `k` is escaped, scanning from `i` with the
   * escape flag `escaped`: a backslash that is not itself escaped escapes
   * the character after it.
   */
  predicate EscapedAt(input: string, i: nat, escaped: bool, k: nat)
    requires i <= k < |input|
    decreases k - i
  {
    if k == i then escaped else EscapedAt(input, i + 1, !escaped && input[i] == '\\', k)
  }

  /** An unescaped `"` at `k`. */
  predicate ClosingQuote(input: string, i: nat, escaped: bool, k: nat)
    requires i <= k < |input|
  {
    input[k] == '"' && !EscapedAt(input, i, escaped, k)
  }

  /** A string ends at its first unescaped quote, and has no end when there is none. */
  lemma {:induction false} StringEndFirst(input: string, i: nat, escaped: bool)
    requires i <= |input|
    ensures var r := StringEnd(input, i, escaped);
            (r.Some? ==> i <= r.value < |input| && ClosingQuote(input, i, escaped, r.value)
                         && forall k :: i <= k < r.value ==> !ClosingQuote(input, i, escaped, k))
            && (r.None? <==> forall k :: i <= k < |input| ==> !ClosingQuote(input, i, escaped, k))
    decreases |input| - i
  {
    if i < |input| {
      var next := !escaped && input[i] == '\\';
      StringEndFirst(input, i + 1, next);
      forall k | i < k < |input|
        ensures ClosingQuote(input, i, escaped, k) == ClosingQuote(input, i + 1, next, k)
      {
      }
      if ClosingQuote(input, i, escaped, i) {
        assert StringEnd(input, i, escaped) == Some(i);
      } else {
        assert StringEnd(input, i, escaped) == StringEnd(input, i + 1, next);
        forall k | i <= k < |input|
          ensures ClosingQuote(input, i, escaped, k) == (i < k && ClosingQuote(input, i + 1, next, k))
        {
        }
      }
    }
  }

  /** A backslash escapes the next character, so `\"` never closes a string. */
  lemma EscapedQuoteDoesNotClose(input: string, i: nat)
    requires i + 1 < |input| && input[i] == '\\'
    ensures StringEnd(input, i, false) != Some(i + 1)
  {
  }

  /** End of the run of identifier characters starting at `i`. */
  function IdEnd(input: string, i: nat): (j: nat)
    requires i <= |input|
    ensures i <= j <= |input|
    ensures forall k :: i <= k < j ==> IdChar(input[k])
    ensures j == |input| || !IdChar(input[j])
    decreases |input| - i
  {
    if i < |input| && IdChar(input[i]) then IdEnd(input, i + 1) else i
  }

  /**
   * What `next_token` returns and where it leaves the cursor. Either it
   * returns no token, having found only whitespace and comments, or it
   * consumes at least one character; a string token keeps its quotes.
   */
  function NextTokenSpec(input: string, pos: nat): (r: (Result<Option<Token>>, nat))
    requires pos <= |input|
    ensures pos <= r.1 <= |input|
    ensures r.0 == Ok(None) <==> Skipped(input, pos) == |input|
    ensures r.0 == Ok(None) ==> r.1 == |input|
    ensures r.0.Ok? && r.0.value.Some? ==> r.1 > Skipped(input, pos) >= pos
    ensures r.0.Ok? && r.0.value.Some? && r.0.value.value.Str? ==>
      var t := r.0.value.value.text; |t| >= 2 && t[0] == '"' && t[|t| - 1] == '"'
    ensures r.0.Err? ==> r.0.error == Located(|input|, "Unterminated string")
  {
    var p := Skipped(input, pos);
    if p == |input| then (Ok(None), p)
    else if input[p] == '{' then (Ok(Some(OpenBrace)), p + 1)
    else if input[p] == '}' then (Ok(Some(CloseBrace)), p + 1)
    else if input[p] == ':' then (Ok(Some(Colon)), p + 1)
    else if input[p] == ';' then (Ok(Some(Semicolon)), p + 1)
    else if input[p] == '"' then
      match StringEnd(input, p + 1, false)
      case Some(q) => (Ok(Some(Str(input[p..q + 1]))), q + 1)
      case None => (Err(Located(|input|, "Unterminated string")), |input|)
    else
      var q := IdEnd(input, p);
      (if q > p then Ok(Some(Identifier(input[p..q]))) else Ok(None), q)
  }

  method NextToken(input: string, pos: nat) returns (r: Result<Option<Token>>, p: nat)
    requires pos <= |input|
    ensures (r, p) == NextTokenSpec(input, pos)
  {
    p := SkipWhitespaceAndComments(input, pos);
    if p >= |input| {
      return Ok(None), p;
    }
    var start := p;
    var c := input[p];
    if c == '{' {
      return Ok(Some(OpenBrace)), p + 1;
    }
    if c == '}' {
      return Ok(Some(CloseBrace)), p + 1;
    }
    if c == ':' {
      return Ok(Some(Colon)), p + 1;
    }
    if c == ';' {
      return Ok(Some(Semicolon)), p + 1;
    }
    if c == '"' {
      p := p + 1;
      var escaped := false;
      while p < |input|
        invariant start < p <= |input|
        invariant StringEnd(input, p, escaped) == StringEnd(input, start + 1, false)
        decreases |input| - p
      {
        var d := input[p];
        if !escaped && d == '\\' {
          escaped := true;
        } else if escaped {
          escaped := false;
        } else if d == '"' {
          p := p + 1;
          return Ok(Some(Str(input[start..p]))), p;
        }
        p := p + 1;
      }
      return Err(Located(p, "Unterminated string")), p;
    }
    while p < |input| && IdChar(input[p])
      invariant start <= p <= |input|
      invariant IdEnd(input, p) == IdEnd(input, start)
      decreases |input| - p
    {
      p := p + 1;
    }
    r := if p > start then Ok(Some(Identifier(input[start..p]))) else Ok(None);
  }

  // ---------------------------------------------------------------- selectors

  predicate NoColons(s: seq<Token>) {
    forall i :: 0 <= i < |s| ==> s[i] != Colon
  }

  predicate AllIdentifiers(s: seq<Token>) {
    forall i :: 0 <= i < |s| ==> s[i].Identifier?
  }

  /** What the selector buffer can hold: identifiers and colons. */
  predicate SelectorTokens(s: seq<Token>) {
    forall i :: 0 <= i < |s| ==> s[i].Identifier? || s[i] == Colon
  }

  function Prepend(t: seq<Token>, r: Result<seq<Token>>): Result<seq<Token>> {
    if r.Ok? then Ok(t + r.value) else r
  }

  /**
   * The loop of `join_colons` from the middle of the token list, having
   * counted `colons` colons: one colon before an identifier gives `:x`,
   * two give `::x`, more, or a colon before anything else, is an error;
   * trailing colons are dropped.
   */
  function JoinedFrom(s: seq<Token>, colons: nat, pos: nat): (r: Result<seq<Token>>)
    ensures r.Ok? ==> NoColons(r.value)
    ensures SelectorTokens(s) && r.Ok? ==> AllIdentifiers(r.value)
    ensures NoColons(s) && colons == 0 ==> r == Ok(s)
    decreases |s|
  {
    if s == [] then Ok([])
    else if s[0] == Colon then JoinedFrom(s[1..], colons + 1, pos)
    else if colons == 0 then
      assert s == [s[0]] + s[1..];
      Prepend([s[0]], JoinedFrom(s[1..], 0, pos))
    else match s[0]
      case Identifier(x) =>
        if colons == 1 then Prepend([Identifier(":" + x)], JoinedFrom(s[1..], 0, pos))
        else if colons == 2 then Prepend([Identifier("::" + x)], JoinedFrom(s[1..], 0, pos))
        else Err(Located(pos, "Too many colons"))
      case _ => Err(Located(pos, "Unexpected token after colon"))
  }

  /** `n` colon tokens. */
  function Colons(n: nat): (r: seq<Token>)
    ensures |r| == n && forall i :: 0 <= i < n ==> r[i] == Colon
  {
    seq(n, _ => Colon)
  }

  /** A run of colons only adds to the count. */
  lemma {:induction false} ColonsCounted(n: nat, tail: seq<Token>, colons: nat, pos: nat)
    ensures JoinedFrom(Colons(n) + tail, colons, pos) == JoinedFrom(tail, colons + n, pos)
    decreases n
  {
    if n > 0 {
      assert (Colons(n) + tail)[0] == Colon;
      assert (Colons(n) + tail)[1..] == Colons(n - 1) + tail;
      ColonsCounted(n - 1, tail, colons + 1, pos);
    } else {
      assert Colons(n) + tail == tail;
    }
  }

  /**
   * What `join_colons` makes of `n` colons before a token: the token
   * itself without colons, `:x` after one, `::x` after two, "Too many
   * colons" after more, and "Unexpected token after colon" when the token
   * is not an identifier; colons at the end are dropped.
   */
  lemma JoinColonsCases(n: nat, t: Token, rest: seq<Token>, pos: nat)
    requires t != Colon
    ensures var r := JoinedFrom(Colons(n) + [t] + rest, 0, pos);
            var after := JoinedFrom(rest, 0, pos);
            (n == 0 ==> r == Prepend([t], after))
            && (n == 1 && t.Identifier? ==> r == Prepend([Identifier(":" + t.text)], after))
            && (n == 2 && t.Identifier? ==> r == Prepend([Identifier("::" + t.text)], after))
            && (n >= 3 && t.Identifier? ==> r == Err(Located(pos, "Too many colons")))
            && (n >= 1 && !t.Identifier? ==> r == Err(Located(pos, "Unexpected token after colon")))
    ensures JoinedFrom(Colons(n), 0, pos) == Ok([])
  {
    assert Colons(n) + [t] + rest == Colons(n) + ([t] + rest);
    ColonsCounted(n, [t] + rest, 0, pos);
    assert ([t] + rest)[0] == t && ([t] + rest)[1..] == rest;
    ColonsCounted(n, [], 0, pos);
    assert Colons(n) + [] == Colons(n);
  }

  lemma PrependTwice(t: seq<Token>, u: seq<Token>, r: Result<seq<Token>>)
    ensures Prepend(t, Prepend(u, r)) == Prepend(t + u, r)
  {
    if r.Ok? {
      assert t + (u + r.value) == (t + u) + r.value;
    }
  }

  method JoinColons(s: seq<Token>, pos: nat) returns (r: Result<seq<Token>>)
    ensures r == JoinedFrom(s, 0, pos)
  {
    var tokens: seq<Token> := [];
    var colons := 0;
    var i := 0;
    assert s[0..] == s;
    var whole := JoinedFrom(s, 0, pos);
    if whole.Ok? {
      assert [] + whole.value == whole.value;
    }
    while i < |s|
      invariant 0 <= i <= |s|
      invariant Prepend(tokens, JoinedFrom(s[i..], colons, pos)) == JoinedFrom(s, 0, pos)
    {
      assert s[i..][1..] == s[i + 1..];
      var t := s[i];
      if t == Colon {
        colons := colons + 1;
      } else {
        if colons == 0 {
          PrependTwice(tokens, [t], JoinedFrom(s[i + 1..], 0, pos));
          tokens := tokens + [t];
        } else {
          match t {
            case Identifier(x) =>
              if colons == 1 {
                PrependTwice(tokens, [Identifier(":" + x)], JoinedFrom(s[i + 1..], 0, pos));
                tokens := tokens + [Identifier(":" + x)];
              } else if colons == 2 {
                PrependTwice(tokens, [Identifier("::" + x)], JoinedFrom(s[i + 1..], 0, pos));
                tokens := tokens + [Identifier("::" + x)];
              } else {
                return Err(Located(pos, "Too many colons"));
              }
            case _ =>
              return Err(Located(pos, "Unexpected token after colon"));
          }
          colons := 0;
        }
      }
      i := i + 1;
    }
    assert tokens + [] == tokens;
    return Ok(tokens);
  }

  /** A single selector token: `*`, `#id`, `.class`, `:pseudo` or a tag name. */
  function SingleSelector(x: string, pos: nat): (r: Result<Selector>)
    ensures r.Ok? ==> Complete(r.value)
    ensures r.Ok? <==> x != "" && !(|x| == 1 && (x[0] == '#' || x[0] == '.' || x[0] == ':'))
    ensures x == "*" ==> r == Ok(All)
    ensures |x| >= 2 && x[0] == '#' ==> r == Ok(ID(x[1..]))
    ensures |x| >= 2 && x[0] == '.' ==> r == Ok(Class(x[1..]))
    ensures |x| >= 2 && x[0] == ':' ==> r == Ok(Pseudo(x[1..]))
    ensures x != "" && x != "*" && x[0] != '#' && x[0] != '.' && x[0] != ':' ==> r == Ok(Tag(x))
    ensures x == "#" ==> r == Err(Located(pos, "Empty ID name."))
    ensures x == "." ==> r == Err(Located(pos, "Empty Class name."))
    ensures x == ":" ==> r == Err(Located(pos, "Empty Pseudo name."))
    ensures x == "" ==> r.Err? && r.error.Panic?
  {
    if x == "*" then Ok(All)
    else if |x| > 0 && x[0] == '#' then
      if |x| < 2 then Err(Located(pos, "Empty ID name.")) else Ok(ID(x[1..]))
    else if |x| > 0 && x[0] == '.' then
      if |x| < 2 then Err(Located(pos, "Empty Class name.")) else Ok(Class(x[1..]))
    else if |x| > 0 && x[0] == ':' then
      if |x| < 2 then Err(Located(pos, "Empty Pseudo name.")) else Ok(Pseudo(x[1..]))
    else if x == "" then Err(Panic("assertion failed: s.len() > 0"))
    else Ok(Tag(x))
  }

  /**
   * `parse_selector` on a colon-free identifier list (every recursive call
   * of the source re-runs `join_colons` on a slice of an already joined
   * list, which `JoinedFrom`'s contract shows changes nothing). With
   * several tokens, a second token `>` or `+` gives `Child`/`NextSibling`,
   * anything else `Descendant`; the left operand is the first token alone.
   */
  function ParseJoined(s: seq<Token>, pos: nat): (r: Result<Selector>)
    requires |s| > 0 && AllIdentifiers(s)
    ensures r.Ok? ==> Complete(r.value)
    ensures |s| == 1 ==> r == SingleSelector(s[0].text, pos)
    ensures |s| >= 2 && r.Ok? ==>
      !r.value.Tag? && !r.value.Class? && !r.value.ID? && !r.value.Pseudo? && !r.value.All? && !r.value.Unset? &&
      SingleSelector(s[0].text, pos) == Ok(r.value.left) &&
      (r.value.Child? <==> s[1].text == ">") && (r.value.NextSibling? <==> s[1].text == "+")
    decreases |s|
  {
    if |s| == 1 then SingleSelector(s[0].text, pos)
    else
      var a :- SingleSelector(s[0].text, pos);
      if s[1].text == ">" then
        if |s| == 2 then Err(Panic("assertion failed: !s.is_empty()"))
        else var b :- ParseJoined(s[2..], pos); Ok(Child(a, b))
      else if s[1].text == "+" then
        if |s| == 2 then Err(Panic("assertion failed: !s.is_empty()"))
        else var b :- ParseJoined(s[2..], pos); Ok(NextSibling(a, b))
      else
        var b :- ParseJoined(s[1..], pos); Ok(Descendant(a, b))
  }

  /** The texts of an identifier list. */
  function Texts(s: seq<Token>): (r: seq<string>)
    requires AllIdentifiers(s)
    ensures |r| == |s| && forall i :: 0 <= i < |s| ==> r[i] == s[i].text
  {
    seq(|s|, i requires 0 <= i < |s| => s[i].text)
  }

  /** `parse_selector`: join the colons, then parse; an empty list is a panic. */
  function ParseSelector(s: seq<Token>, pos: nat): (r: Result<Selector>)
    requires SelectorTokens(s)
    ensures r.Ok? ==> Complete(r.value)
  {
    if s == [] then Err(Panic("assertion failed: !s.is_empty()"))
    else
      var j :- JoinedFrom(s, 0, pos);
      if j == [] then Err(Panic("range end index 1 out of range"))
      else ParseJoined(j, pos)
  }

  // ---------------------------------------------------------------- rules

  datatype ParsingContext = InSelector | PropertyName | AwaitingColon | PropertyValue

  /** The mutable locals of `parse`. */
  datatype Machine = Machine(
    state: ParsingContext,
    sheet: StyleSheet,
    current: Rule,
    property: Property,
    selectorTokens: seq<Token>)

  const Initial := Machine(InSelector, [], Rule(Unset, []), Property("", []), [])

  /** What stays true of the machine between tokens. */
  predicate MachineOk(m: Machine) {
    SelectorTokens(m.selectorTokens) &&
    CompleteSheet(m.sheet) &&
    (m.state != InSelector ==> Complete(m.current.selector))
  }

  function Unexpected(what: string, pos: nat): Error {
    Located(pos, "Unexpected \"" + what + "\"")
  }

  /**
   * One iteration of the loop of `parse` on `tok`, read at `pos`.
   * `}` is accepted only in `PropertyName`, `;` and strings only in
   * `PropertyValue`, and a property name must be followed by `:`.
   * Each `}` appends exactly one rule and clears the property list.
   */
  function Step(m: Machine, tok: Token, pos: nat): (r: Result<Machine>)
    ensures m.state == AwaitingColon ==> (r.Ok? <==> tok == Colon)
    ensures m.state != AwaitingColon && tok == CloseBrace ==> (r.Ok? <==> m.state == PropertyName)
    ensures m.state != AwaitingColon && tok == Semicolon ==> (r.Ok? <==> m.state == PropertyValue)
    ensures m.state != AwaitingColon && tok.Str? ==> (r.Ok? <==> m.state == PropertyValue)
    ensures m.state != AwaitingColon && tok == Colon ==> (r.Ok? <==> m.state == InSelector)
    ensures m.state == PropertyName && tok.Identifier? ==> r.Ok? && r.value.state == AwaitingColon
    ensures m.state != AwaitingColon && tok == CloseBrace && r.Ok? ==>
      r.value.state == InSelector && r.value.sheet == m.sheet + [m.current] && r.value.current.properties == []
    ensures tok != CloseBrace && r.Ok? ==> r.value.sheet == m.sheet
    ensures MachineOk(m) && r.Ok? ==> MachineOk(r.value)
  {
    if m.state == AwaitingColon then
      if tok != Colon then Err(Located(pos, "Expected colon")) else Ok(m.(state := PropertyValue))
    else
      match tok
      case OpenBrace =>
        if m.state != InSelector then Err(Unexpected("{", pos))
        else if !SelectorTokens(m.selectorTokens) then Err(Panic("selector buffer holds a non-selector token"))
        else
          var sel :- ParseSelector(m.selectorTokens, pos);
          Ok(m.(state := PropertyName, current := m.current.(selector := sel), selectorTokens := []))
      case CloseBrace =>
        if m.state != PropertyName then Err(Unexpected("}.", pos))
        else Ok(m.(state := InSelector, sheet := m.sheet + [m.current], current := m.current.(properties := [])))
      case Colon =>
        if m.state != InSelector then Err(Unexpected(":", pos))
        else Ok(m.(selectorTokens := m.selectorTokens + [Colon]))
      case Semicolon =>
        if m.state != PropertyValue then Err(Unexpected(";", pos))
        else Ok(m.(state := PropertyName,
                   current := m.current.(properties := m.current.properties + [m.property]),
                   property := Property("", [])))
      case Identifier(s) =>
        if m.state == InSelector then Ok(m.(selectorTokens := m.selectorTokens + [Identifier(s)]))
        else if m.state == PropertyName then Ok(m.(state := AwaitingColon, property := m.property.(name := s)))
        else Ok(m.(property := m.property.(value := m.property.value + [s])))
      case Str(s) =>
        if m.state != PropertyValue then Err(Unexpected("string", pos))
        else Ok(m.(property := m.property.(value := m.property.value + [s])))
  }

  /** The rest of `parse` from cursor `pos` with machine `m`. */
  /**
   * The token loop of `parse` from `pos` in machine state `m`: the rules
   * already collected stay at the front of the result, and only whitespace
   * and comments left give them back as they are, or the "Unbalanced curly
   * braces" error inside a rule.
   */
  function ParseFrom(input: string, pos: nat, m: Machine): (r: Result<StyleSheet>)
    requires pos <= |input|
    ensures r.Ok? ==> m.sheet <= r.value
    ensures Skipped(input, pos) == |input| ==>
              r == if m.state == InSelector then Ok(m.sheet) else Err(Located(|input|, "Unbalanced curly braces"))
    decreases |input| - pos
  {
    var (t, p) := NextTokenSpec(input, pos);
    match t
    case Err(e) => Err(e)
    case Ok(None) =>
      if m.state != InSelector then Err(Located(p, "Unbalanced curly braces")) else Ok(m.sheet)
    case Ok(Some(tok)) =>
      var m' :- Step(m, tok, p);
      ParseFrom(input, p, m')
  }

  /** `parse`: a stylesheet of nothing but whitespace and comments has no rules. */
  function ParseStylesheet(input: string): (r: Result<StyleSheet>)
    ensures Skipped(input, 0) == |input| ==> r == Ok([])
  {
    ParseFrom(input, 0, Initial)
  }

  lemma {:induction false} ParseFromComplete(input: string, pos: nat, m: Machine)
    requires pos <= |input| && MachineOk(m)
    ensures ParseFrom(input, pos, m).Ok? ==> CompleteSheet(ParseFrom(input, pos, m).value)
    decreases |input| - pos
  {
    var (t, p) := NextTokenSpec(input, pos);
    if t.Ok? && t.value.Some? {
      var s := Step(m, t.value.value, p);
      if s.Ok? {
        ParseFromComplete(input, p, s.value);
      }
    }
  }

  /** Every rule of a parsed stylesheet has a real selector, never the placeholder. */
  lemma ParsedSheetComplete(input: string)
    ensures ParseStylesheet(input).Ok? ==> CompleteSheet(ParseStylesheet(input).value)
  {
    ParseFromComplete(input, 0, Initial);
  }

  /** `parse` */
  method Parse(input: string) returns (r: Result<StyleSheet>)
    ensures r == ParseStylesheet(input)
    ensures r.Ok? ==> CompleteSheet(r.value)
  {
    ParsedSheetComplete(input);
    var pos := 0;
    var m := Initial;
    while true
      invariant pos <= |input|
      invariant ParseFrom(input, pos, m) == ParseStylesheet(input)
      decreases |input| - pos
    {
      var t, p := NextToken(input, pos);
      if t.Err? {
        return Err(t.error);
      }
      if t.value.None? {
        pos := p;
        break;
      }
      var s := Step(m, t.value.value, p);
      if s.Err? {
        return Err(s.error);
      }
      m := s.value;
      pos := p;
    }
    if m.state != InSelector {
      return Err(Located(pos, "Unbalanced curly braces"));
    }
    return Ok(m.sheet);
  }
}
