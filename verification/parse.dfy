/**
 * The markup parser of `src/parse.rs`: a single forward cursor over the
 * component text that produces the node tree, with tags, `{...}` blocks,
 * directives and comments recognised as it goes.
 *
 * Every scanner that moves the Rust cursor `pos: &mut usize` is a method
 * returning the new position; each is proved equal to a recursive function
 * that states the same scan, and the properties are proved on those.
 */
module Parse {
  import opened Wrappers
  import opened Text
  import Css
  import opened Lib

  /* ---------------- diagnostics ---------------- */

  /** The newlines of `s`, counted from its end. */
  function CountNewlines(s: string): (n: nat)
    ensures n <= |s|
    ensures '\n' !in s ==> n == 0
  {
    if s == [] then 0
    else CountNewlines(s[..|s| - 1]) + (if s[|s| - 1] == '\n' then 1 else 0)
  }

  /** Counting newlines adds up over concatenation, one per newline character. */
  lemma {:induction false} CountNewlinesAppend(a: string, b: string)
    ensures CountNewlines(a + b) == CountNewlines(a) + CountNewlines(b)
    ensures forall c :: CountNewlines([c]) == if c == '\n' then 1 else 0
    decreases |b|
  {
    if b == [] {
      assert a + b == a;
    } else {
      var b' := b[..|b| - 1];
      assert (a + b)[..|a + b| - 1] == a + b';
      CountNewlinesAppend(a, b');
    }
    forall c
      ensures CountNewlines([c]) == if c == '\n' then 1 else 0
    {
      assert [c][..0] == [];
    }
  }

  /** `rfind('\n').unwrap_or(0)` */
  function LastNewline(s: string): (k: nat)
    ensures k <= |s|
    ensures k > 0 ==> k < |s| && s[k] == '\n' && '\n' !in s[k + 1..]
    ensures k == 0 ==> forall i :: 0 < i < |s| ==> s[i] != '\n'
    ensures '\n' !in s ==> k == 0
  {
    if s == [] then 0
    else if s[|s| - 1] == '\n' then |s| - 1
    else LastNewline(s[..|s| - 1])
  }

  /**
   * `format_position`: `[line:column] `, the line counted from one. The
   * column is the distance from the last newline, so on the first line it
   * is the zero-based offset while on later lines it counts from one.
   */
  function FormatPosition(input: string, position: nat): (r: string)
    requires position <= |input|
    ensures '\n' !in input[..position] ==> r == "[1:" + NatToString(position) + "] "
  {
    var before := input[..position];
    "[" + NatToString(CountNewlines(before) + 1) + ":"
      + NatToString(position - LastNewline(before)) + "] "
  }

  /**
   * On a later line the column is one more than the number of characters
   * between the last newline and the position, and the line is one more
   * than the newlines before it.
   */
  lemma FormatPositionLaterLine(input: string, a: string, b: string, position: nat)
    requires position <= |input| && input[..position] == a + "\n" + b && '\n' !in b
    ensures FormatPosition(input, position) == "[" + NatToString(CountNewlines(a) + 2) + ":" + NatToString(|b| + 1) + "] "
  {
    var before := input[..position];
    assert |before| == position;
    NewlinesBeforeLine(a, b);
    LastNewlineBeforeLine(a, b);
  }

  lemma NewlinesBeforeLine(a: string, b: string)
    requires '\n' !in b
    ensures CountNewlines(a + "\n" + b) == CountNewlines(a) + 1
  {
    CountNewlinesAppend(a + "\n", b);
    CountNewlinesAppend(a, "\n");
  }

  lemma LastNewlineBeforeLine(a: string, b: string)
    requires '\n' !in b
    ensures LastNewline(a + "\n" + b) == |a|
  {
    var s := a + "\n" + b;
    var k := LastNewline(s);
    assert s[|a|] == '\n';
  }

  /**
   * `CompilerError::format`; slicing past the end of the text panics in
   * the source.
   */
  function FormatError(input: string, position: nat, message: string): (r: Result<string>)
    ensures r.Ok? <==> position <= |input|
    ensures r.Ok? ==> r.value == FormatPosition(input, position) + " " + message
  {
    if position <= |input| then Ok(FormatPosition(input, position) + " " + message)
    else Err(Panic("byte index out of range"))
  }

  /* ---------------- small scanners ---------------- */

  /** Where `skip_whitespace` stops when started at `i`. */
  function WsEnd(input: string, i: nat): (j: nat)
    requires i <= |input|
    ensures i <= j <= |input|
    ensures forall k :: i <= k < j ==> IsWhitespace(input[k])
    ensures j == |input| || !IsWhitespace(input[j])
    decreases |input| - i
  {
    if i < |input| && IsWhitespace(input[i]) then WsEnd(input, i + 1) else i
  }

  method SkipWhitespace(input: string, pos: nat) returns (p: nat)
    requires pos <= |input|
    ensures p == WsEnd(input, pos)
  {
    p := pos;
    while p < |input| && IsWhitespace(input[p])
      invariant pos <= p <= |input|
      invariant WsEnd(input, p) == WsEnd(input, pos)
      decreases |input| - p
    {
      p := p + 1;
    }
  }

  /** Where `grab_alphanum_token` stops when started at `i`. */
  function AlnumEnd(input: string, i: nat): (j: nat)
    requires i <= |input|
    ensures i <= j <= |input|
    ensures forall k :: i <= k < j ==> IsAlphanumeric(input[k])
    ensures j == |input| || !IsAlphanumeric(input[j])
    decreases |input| - i
  {
    if i < |input| && IsAlphanumeric(input[i]) then AlnumEnd(input, i + 1) else i
  }

  method GrabAlphanumToken(input: string, pos: nat) returns (token: string, p: nat)
    requires pos <= |input|
    ensures p == AlnumEnd(input, pos) && token == input[pos..p]
  {
    p := pos;
    while p < |input| && IsAlphanumeric(input[p])
      invariant pos <= p <= |input|
      invariant AlnumEnd(input, p) == AlnumEnd(input, pos)
      decreases |input| - p
    {
      p := p + 1;
    }
    token := input[pos..p];
  }

  /** The comment scan of `skip_comments` from `i`. */
  function CommentEnd(input: string, i: nat): (j: nat)
    requires i <= |input|
    ensures i <= j <= |input|
    decreases |input| - i
  {
    if i == |input| then i
    else if StartsAt(input, i, "-->") then i + 3
    else CommentEnd(input, i + 1)
  }

  /**
   * A comment ends just past the first `-->` after its opener; with none,
   * it runs to the end of the input.
   */
  lemma {:induction false} CommentEndFirst(input: string, i: nat)
    requires i <= |input|
    ensures var j := CommentEnd(input, i);
            (j == |input| && forall k :: i <= k < |input| ==> !StartsAt(input, k, "-->"))
            || (i + 3 <= j && StartsAt(input, j - 3, "-->")
                && forall k :: i <= k < j - 3 ==> !StartsAt(input, k, "-->"))
    decreases |input| - i
  {
    if i < |input| && !StartsAt(input, i, "-->") {
      CommentEndFirst(input, i + 1);
    }
  }

  /** Where `skip_comments` leaves the cursor: past one comment, if one starts here. */
  function CommentSkipped(input: string, pos: nat): (p: nat)
    requires pos <= |input|
    ensures pos <= p <= |input|
    ensures !StartsAt(input, pos, "<!--") ==> p == pos
  {
    if StartsAt(input, pos, "<!--") then CommentEnd(input, pos + 4) else pos
  }

  method SkipComments(input: string, pos: nat) returns (p: nat)
    requires pos <= |input|
    ensures p == CommentSkipped(input, pos)
  {
    p := pos;
    var inComment := false;
    if StartsAt(input, p, "<!--") {
      inComment := true;
      p := p + 4;
    }
    while p < |input| && inComment
      invariant pos <= p <= |input|
      invariant inComment ==> CommentEnd(input, p) == CommentSkipped(input, pos)
      invariant !inComment ==> p == CommentSkipped(input, pos)
      decreases |input| - p
    {
      if StartsAt(input, p, "-->") {
        p := p + 3;
        return;
      }
      p := p + 1;
    }
  }

  /**
   * `search_for_closing` from `pos`: the first occurrence of `needle` at
   * or after `pos`, with the cursor just past it; with none, an error at
   * the end of the input, where the cursor stops.
   */
  function SearchFrom(haystack: string, needle: string, pos: nat): (r: (Result<nat>, nat))
    requires pos <= |haystack|
    ensures r.0.Ok? ==> pos <= r.0.value && StartsAt(haystack, r.0.value, needle)
                        && r.1 == r.0.value + |needle|
                        && forall k :: pos <= k < r.0.value ==> !StartsAt(haystack, k, needle)
    ensures r.0.Err? ==> r == (Err(Located(|haystack|, "expected " + needle)), |haystack|)
                         && forall k :: pos <= k < |haystack| ==> !StartsAt(haystack, k, needle)
    ensures pos <= r.1 <= |haystack|
    decreases |haystack| - pos
  {
    if pos == |haystack| then (Err(Located(pos, "expected " + needle)), pos)
    else if StartsAt(haystack, pos, needle) then (Ok(pos), pos + |needle|)
    else SearchFrom(haystack, needle, pos + 1)
  }

  /** `search_for_closing`, moving the cursor. */
  method SearchForClosing(haystack: string, needle: string, pos: nat) returns (r: Result<nat>, p: nat)
    requires pos <= |haystack|
    ensures (r, p) == SearchFrom(haystack, needle, pos)
  {
    p := pos;
    while p < |haystack|
      invariant pos <= p <= |haystack|
      invariant SearchFrom(haystack, needle, p) == SearchFrom(haystack, needle, pos)
      decreases |haystack| - p
    {
      if StartsAt(haystack, p, needle) {
        var at := p;
        p := p + |needle|;
        return Ok(at), p;
      }
      p := p + 1;
    }
    return Err(Located(p, "expected " + needle)), p;
  }

  /* ---------------- brace blocks ---------------- */

  function Delta(c: char): int {
    if c == '{' then 1 else if c == '}' then -1 else 0
  }

  /** Opening minus closing braces in `s`. */
  function Depth(s: string): int {
    if s == [] then 0 else Depth(s[..|s| - 1]) + Delta(s[|s| - 1])
  }

  /** Every prefix opens at least as many braces as it closes, and `s` closes them all. */
  predicate Balanced(s: string) {
    Depth(s) == 0 && forall k :: 0 <= k <= |s| ==> Depth(s[..k]) >= 0
  }

  /**
   * The loop of `curly_inner` from `i` at nesting `depth`: where it stops
   * and whether it stopped on the brace that closes the block.
   */
  function CurlyEnd(input: string, i: nat, depth: nat): (r: (nat, bool))
    requires i <= |input| && depth >= 1
    ensures i <= r.0 <= |input|
    ensures r.1 ==> i < r.0 && input[r.0 - 1] == '}'
    ensures !r.1 ==> r.0 == |input|
    decreases |input| - i
  {
    if i == |input| then (i, false)
    else
      var d := depth + Delta(input[i]);
      if d == 0 then (i + 1, true) else CurlyEnd(input, i + 1, d)
  }

  lemma {:induction false} CurlyEndBalanced(input: string, start: nat, i: nat, depth: nat)
    requires start <= i <= |input| && depth >= 1
    requires depth == 1 + Depth(input[start..i])
    requires forall k :: start <= k <= i ==> Depth(input[start..k]) >= 0
    ensures CurlyEnd(input, i, depth).1 ==> Balanced(input[start..CurlyEnd(input, i, depth).0 - 1])
    decreases |input| - i
  {
    if i < |input| {
      var d := depth + Delta(input[i]);
      assert input[start..i + 1][..i - start] == input[start..i];
      assert Depth(input[start..i + 1]) == Depth(input[start..i]) + Delta(input[i]);
      if d == 0 {
        var s := input[start..i];
        forall k | 0 <= k <= |s|
          ensures Depth(s[..k]) >= 0
        {
          assert s[..k] == input[start..start + k];
        }
      } else {
        forall k | start <= k <= i + 1
          ensures Depth(input[start..k]) >= 0
        {
        }
        CurlyEndBalanced(input, start, i + 1, d);
      }
    }
  }

  /**
   * `curly_inner` with the cursor on a `{`: the text up to the brace that
   * closes it at the same depth, nested braces kept verbatim, and the
   * cursor just past that brace. Unterminated, the scan runs to the end
   * and the slice drops the last character; a `{` that ends the input
   * makes the slice panic.
   */
  function CurlyInnerSpec(input: string, pos: nat): (r: (Result<string>, nat))
    requires pos < |input|
    ensures pos < r.1 <= |input| && r.1 == CurlyEnd(input, pos + 1, 1).0
    ensures r.0.Err? <==> pos + 1 == |input|
    ensures CurlyEnd(input, pos + 1, 1).1 ==>
              r.0.Ok? && input[r.1 - 1] == '}' && r.0.value == input[pos + 1..r.1 - 1]
              && Balanced(r.0.value)
    ensures !CurlyEnd(input, pos + 1, 1).1 ==>
              r.1 == |input| && (r.0.Ok? ==> r.0.value == input[pos + 1..|input| - 1])
  {
    var (e, found) := CurlyEnd(input, pos + 1, 1);
    CurlyEndBalanced(input, pos + 1, pos + 1, 1);
    if e == pos + 1 then (Err(Panic("slice index starts after its end")), e)
    else (Ok(input[pos + 1..e - 1]), e)
  }

  method CurlyInner(input: string, pos: nat) returns (r: Result<string>, p: nat)
    requires pos < |input|
    ensures (r, p) == CurlyInnerSpec(input, pos)
  {
    p := pos + 1;
    var start := p;
    var depth := 1;
    ghost var found := false;
    while p < |input|
      invariant start <= p <= |input| && depth >= 1 && !found
      invariant CurlyEnd(input, p, depth) == CurlyEnd(input, start, 1)
      decreases |input| - p
    {
      ghost var p0, d0 := p, depth;
      if CharAt(input, p, '{') {
        depth := depth + 1;
      } else if CharAt(input, p, '}') {
        depth := depth - 1;
      }
      p := p + 1;
      if depth == 0 {
        found := true;
        assert CurlyEnd(input, p0, d0) == (p, true);
        break;
      }
    }
    assert CurlyEnd(input, start, 1) == (p, found);
    if p == start {
      r := Err(Panic("slice index starts after its end"));
    } else {
      r := Ok(input[start..p - 1]);
    }
  }

  /* ---------------- directives ---------------- */

  /** `token` appended when it is not empty. */
  function Flush(acc: seq<string>, token: string): (r: seq<string>)
    ensures r == acc || (token != "" && r == acc + [token])
  {
    if token != "" then acc + [token] else acc
  }

  predicate NoneEmpty(tokens: seq<string>) {
    forall i :: 0 <= i < |tokens| ==> tokens[i] != ""
  }

  /**
   * The loop of `tokenize_expression` from `pos`: whitespace separates
   * tokens, a brace block becomes a token of its own (without flushing the
   * word being read), and the character after that block is skipped.
   */
  function TokenizeFrom(expr: string, pos: nat, token: string, acc: seq<string>): (r: Result<seq<string>>)
    requires pos <= |expr| + 1
    ensures NoneEmpty(acc) && r.Ok? ==> NoneEmpty(r.value)
    decreases |expr| + 1 - pos
  {
    if pos >= |expr| then Ok(Flush(acc, token))
    else if IsWhitespace(expr[pos]) then TokenizeFrom(expr, pos + 1, "", Flush(acc, token))
    else if expr[pos] == '{' then
      var (inner, p) := CurlyInnerSpec(expr, pos);
      if inner.Err? then Err(inner.error)
      else TokenizeFrom(expr, p + 1, token, Flush(acc, inner.value))
    else TokenizeFrom(expr, pos + 1, token + [expr[pos]], acc)
  }

  /**
   * Without a brace block, the words are the non-empty pieces between
   * whitespace characters, in order, after those already read.
   */
  lemma {:induction false} TokenizeWords(expr: string, pos: nat, token: string, acc: seq<string>)
    requires pos <= |expr| && NoWhitespace(token)
    requires forall k :: pos <= k < |expr| ==> expr[k] != '{'
    ensures TokenizeFrom(expr, pos, token, acc) == Ok(acc + NonEmpty(SplitWhitespace(token + expr[pos..])))
    decreases |expr| - pos
  {
    if pos == |expr| {
      assert token + expr[pos..] == token;
      WordsEnd(acc, token);
    } else if IsWhitespace(expr[pos]) {
      TokenizeStep(expr, pos, token, acc);
      TokenizeWords(expr, pos + 1, "", Flush(acc, token));
      assert "" + expr[pos + 1..] == expr[pos + 1..];
      assert token + expr[pos..] == token + [expr[pos]] + expr[pos + 1..];
      WordsSplit(acc, token, expr[pos], expr[pos + 1..]);
    } else {
      TokenizeStep(expr, pos, token, acc);
      assert token + expr[pos..] == (token + [expr[pos]]) + expr[pos + 1..];
      TokenizeWords(expr, pos + 1, token + [expr[pos]], acc);
    }
  }

  /**
   * A brace block is one word, spaces included, and the character right
   * after it is skipped: `{#if {a b}c}` has the words `if` and `a b`.
   */
  lemma TokenizeBraceWord()
    ensures TokenizeFrom("#if {a b}c", 1, "", []) == Ok(["if", "a b"])
  {
    var expr := "#if {a b}c";
    CurlyInnerFlat(expr, 4, 8);
    assert expr[5..8] == "a b" && expr[4] == '{' && !IsWhitespace(expr[4]);
    assert Flush(["if"], "a b") == ["if", "a b"];
    assert TokenizeFrom(expr, 4, "", ["if"]) == TokenizeFrom(expr, 10, "", ["if", "a b"]);
    TokenizeStep(expr, 1, "", []);
    TokenizeStep(expr, 2, "i", []);
    TokenizeStep(expr, 3, "if", []);
    assert "" + [expr[1]] == "i" && "i" + [expr[2]] == "if" && IsWhitespace(expr[3]);
    assert Flush([], "if") == ["if"];
  }

  /** One character of the tokenizer loop outside a brace block. */
  lemma TokenizeStep(expr: string, pos: nat, token: string, acc: seq<string>)
    requires pos < |expr| && expr[pos] != '{'
    ensures IsWhitespace(expr[pos]) ==>
              TokenizeFrom(expr, pos, token, acc) == TokenizeFrom(expr, pos + 1, "", Flush(acc, token))
    ensures !IsWhitespace(expr[pos]) ==>
              TokenizeFrom(expr, pos, token, acc) == TokenizeFrom(expr, pos + 1, token + [expr[pos]], acc)
  {
  }

  /** At the end, the word being read is flushed. */
  lemma {:induction false} WordsEnd(acc: seq<string>, token: string)
    requires NoWhitespace(token)
    ensures Flush(acc, token) == acc + NonEmpty(SplitWhitespace(token))
  {
    SplitWhitespaceWord(token, ' ', "");
    NonEmptySingle(token);
    assert acc + [] == acc;
  }

  /** At a whitespace character, the word being read is flushed and a new one starts. */
  lemma {:induction false} WordsSplit(acc: seq<string>, token: string, w: char, rest: string)
    requires NoWhitespace(token) && IsWhitespace(w)
    ensures Flush(acc, token) + NonEmpty(SplitWhitespace(rest)) == acc + NonEmpty(SplitWhitespace(token + [w] + rest))
  {
    var words := SplitWhitespace(rest);
    var ne := NonEmpty([token]);
    assert SplitWhitespace(token + [w] + rest) == [token] + words by {
      SplitWhitespaceWord(token, w, rest);
    }
    assert NonEmpty([token] + words) == ne + NonEmpty(words) by {
      NonEmptyAppend([token], words);
    }
    assert Flush(acc, token) == acc + ne by {
      NonEmptySingle(token);
    }
    ConcatAssoc(acc, ne, NonEmpty(words));
  }

  lemma ConcatAssoc(a: seq<string>, b: seq<string>, c: seq<string>)
    ensures (a + b) + c == a + (b + c)
  {
  }

  /** `tokenize_expression`: the words of a `{#...}` block after the `#`; none is empty. */
  method TokenizeExpression(expr: string) returns (r: Result<seq<string>>)
    ensures r == TokenizeFrom(expr, 1, "", [])
    ensures r.Ok? ==> NoneEmpty(r.value)
  {
    var tokens: seq<string> := [];
    var token := "";
    var pos := 1;
    while pos < |expr|
      invariant pos <= |expr| + 1
      invariant TokenizeFrom(expr, pos, token, tokens) == TokenizeFrom(expr, 1, "", [])
      decreases |expr| + 1 - pos
    {
      var c := expr[pos];
      if IsWhitespace(c) {
        if token != "" {
          tokens := tokens + [token];
          token := "";
        }
      } else if c == '{' {
        var inner, p := CurlyInner(expr, pos);
        if inner.Err? {
          return Err(inner.error);
        }
        if inner.value != "" {
          tokens := tokens + [inner.value];
        }
        pos := p;
      } else {
        token := token + [c];
      }
      pos := pos + 1;
    }
    if token != "" {
      tokens := tokens + [token];
    }
    r := Ok(tokens);
  }

  /** The head of a `{#if ...}` or `{#for ...}` block. */
  datatype Directive =
    | IfDirective(condition: string)
    | ForDirective(iteratorVariable: string, iteratable: string, reactiveList: bool)

  /**
   * The checks `handle_expression` makes on the words of a directive
   * before it looks for the closing block; errors sit at `pos`.
   */
  function ParseDirective(tokens: seq<string>, pos: nat): (r: Result<Directive>)
    ensures |tokens| < 2 ==> r == Err(Located(pos, "Expected expression"))
    ensures |tokens| >= 2 && tokens[0] != "if" && tokens[0] != "for" ==>
              r == Err(Located(pos, "Unknown directive " + tokens[0]))
    ensures |tokens| >= 2 && tokens[0] == "for" && (|tokens| < 4 || tokens[2] != "in") ==>
              r == Err(Located(pos, "Invalid for expression"))
    ensures r.Ok? ==> |tokens| >= 2 && (r.value.IfDirective? <==> tokens[0] == "if")
    ensures r.Ok? && r.value.IfDirective? ==> r.value.condition == Join(tokens[1..], " ")
    ensures r.Ok? && r.value.ForDirective? ==>
              |tokens| >= 4 && tokens[0] == "for" && tokens[2] == "in"
              && r.value.iteratorVariable == tokens[1]
              && (r.value.reactiveList <==> tokens[3] == "$lstate")
              && r.value.iteratable == Join(if r.value.reactiveList then tokens[4..] else tokens[3..], " ")
  {
    if |tokens| < 2 then Err(Located(pos, "Expected expression"))
    else if tokens[0] == "if" then Ok(IfDirective(Join(tokens[1..], " ")))
    else if tokens[0] == "for" then
      if |tokens| < 4 || tokens[2] != "in" then Err(Located(pos, "Invalid for expression"))
      else if tokens[3] == "$lstate" then Ok(ForDirective(tokens[1], Join(tokens[4..], " "), true))
      else Ok(ForDirective(tokens[1], Join(tokens[3..], " "), false))
    else Err(Located(pos, "Unknown directive " + tokens[0]))
  }

  /* ---------------- closing tags ---------------- */

  /** A `<` followed, after whitespace, by `name`: an opening tag of the same name. */
  predicate OpensTag(input: string, q: nat, name: string)
    requires q <= |input|
  {
    CharAt(input, q, '<') && StartsAt(input, WsEnd(input, q + 1), name)
  }

  /**
   * A `</ name >` starting at `q` (whitespace allowed around the name):
   * the index of its `>`.
   */
  function ClosingTagAt(input: string, q: nat, name: string): (r: Option<nat>)
    requires q <= |input|
    ensures r.Some? ==> q < r.value < |input| && input[r.value] == '>' && StartsAt(input, q, "</")
  {
    if StartsAt(input, q, "</") && StartsAt(input, WsEnd(input, q + 2), name) then
      var b := WsEnd(input, WsEnd(input, q + 2) + |name|);
      if CharAt(input, b, '>') then
        assert input[b] == input[b..b + 1][0];
        Some(b)
      else None
    else None
  }

  /** What one round of `find_closing`'s loop decides. */
  datatype Round = Found(gt: nat, lt: nat) | Next(pos: nat, depth: nat)

  /**
   * One round from `pos` at nesting `depth`: skip a comment; a `<` followed
   * by the name counts one level deeper; a closing tag of that name at
   * depth zero is the match, reported as (index of its `>`, index of its
   * `<`), and at a greater depth it closes one level.
   */
  function FindRound(input: string, name: string, pos: nat, depth: nat): (r: Round)
    requires pos < |input|
    ensures r.Next? ==> pos < r.pos <= |input| + 1
  {
    var q := CommentSkipped(input, pos);
    var d := if OpensTag(input, q, name) then depth + 1 else depth;
    var closing := ClosingTagAt(input, q, name);
    if closing.Some? && d == 0 then Found(closing.value, q)
    else Next(q + 1, if closing.Some? then d - 1 else d)
  }

  /** The whole loop of `find_closing` from `pos` at nesting `depth`. */
  function FindClosingFrom(input: string, name: string, pos: nat, depth: nat): (r: Result<(nat, nat)>)
    requires pos <= |input| + 1
    ensures r.Ok? ==> pos <= r.value.1 < r.value.0 < |input|
                      && ClosingTagAt(input, r.value.1, name) == Some(r.value.0)
    ensures r.Err? ==> r == Err(Located(|input|, "Could not find closing tag for " + name))
    decreases |input| + 1 - pos
  {
    if pos >= |input| then Err(Located(|input|, "Could not find closing tag for " + name))
    else
      match FindRound(input, name, pos, depth)
      case Found(gt, lt) => Ok((gt, lt))
      case Next(p, d) => FindClosingFrom(input, name, p, d)
  }

  /**
   * The positions the loop of `find_closing` examines from `pos`: each
   * round looks at the position after any comment, then moves one past it.
   */
  function Visits(input: string, pos: nat): (qs: seq<nat>)
    requires pos <= |input| + 1
    ensures forall i :: 0 <= i < |qs| ==> pos <= qs[i] <= |input|
    ensures forall i, j :: 0 <= i < j < |qs| ==> qs[i] < qs[j]
    decreases |input| + 1 - pos
  {
    if pos >= |input| then []
    else
      var q := CommentSkipped(input, pos);
      [q] + Visits(input, q + 1)
  }

  /** How many of the positions `qs` hold an opening tag whose name starts with `name`. */
  function Opens(input: string, name: string, qs: seq<nat>): nat
    requires forall i :: 0 <= i < |qs| ==> qs[i] <= |input|
  {
    if qs == [] then 0
    else (if OpensTag(input, qs[0], name) then 1 else 0) + Opens(input, name, qs[1..])
  }

  /** How many of the positions `qs` hold a closing tag of `name`. */
  function Closes(input: string, name: string, qs: seq<nat>): nat
    requires forall i :: 0 <= i < |qs| ==> qs[i] <= |input|
  {
    if qs == [] then 0
    else (if ClosingTagAt(input, qs[0], name).Some? then 1 else 0) + Closes(input, name, qs[1..])
  }

  /**
   * The `i`-th examined position is a closing tag of `name` that closes
   * every opening counted so far, its own position included, on top of
   * the `depth` already open.
   */
  predicate MatchAt(input: string, name: string, qs: seq<nat>, i: nat, depth: nat)
    requires i < |qs| && forall k :: 0 <= k < |qs| ==> qs[k] <= |input|
  {
    ClosingTagAt(input, qs[i], name).Some?
    && depth + Opens(input, name, qs[..i + 1]) == Closes(input, name, qs[..i])
  }

  /**
   * What `find_closing` computes, stated by counting: the result is the
   * first examined position where the closing tags seen so far balance
   * the opening tags seen so far; with no such position, it fails.
   */
  lemma {:induction false} FindClosingMatches(input: string, name: string, pos: nat, depth: nat)
    requires pos <= |input| + 1
    ensures var qs := Visits(input, pos);
            var r := FindClosingFrom(input, name, pos, depth);
            (r.Ok? ==> exists i :: 0 <= i < |qs| && qs[i] == r.value.1 && MatchAt(input, name, qs, i, depth)
                                   && forall j :: 0 <= j < i ==> !MatchAt(input, name, qs, j, depth))
            && (r.Err? ==> forall i :: 0 <= i < |qs| ==> !MatchAt(input, name, qs, i, depth))
    decreases |input| + 1 - pos
  {
    var qs := Visits(input, pos);
    if pos < |input| {
      match FindRound(input, name, pos, depth)
      case Found(gt, lt) =>
        FirstRoundMatch(input, name, pos, depth);
      case Next(p, d) =>
        FindClosingMatches(input, name, p, d);
        MatchShift(input, name, pos, depth, p, d);
        var rest := Visits(input, p);
        if FindClosingFrom(input, name, p, d).Ok? {
          var i :| 0 <= i < |rest| && rest[i] == FindClosingFrom(input, name, p, d).value.1
                   && MatchAt(input, name, rest, i, d)
                   && forall j :: 0 <= j < i ==> !MatchAt(input, name, rest, j, d);
          ShiftFirstMatch(input, name, qs, rest, depth, d, i);
        } else {
          ShiftNoMatch(input, name, qs, rest, depth, d);
        }
    }
  }

  /** A first match of `rest` is, one position later, the first match of `qs`. */
  lemma ShiftFirstMatch(input: string, name: string, qs: seq<nat>, rest: seq<nat>, depth: nat, d: nat, i: nat)
    requires |qs| == |rest| + 1 && qs[1..] == rest
    requires forall k :: 0 <= k < |qs| ==> qs[k] <= |input|
    requires forall k :: 0 <= k < |rest| ==> rest[k] <= |input|
    requires !MatchAt(input, name, qs, 0, depth)
    requires forall k :: 0 <= k < |rest| ==> (MatchAt(input, name, qs, k + 1, depth) <==> MatchAt(input, name, rest, k, d))
    requires i < |rest| && MatchAt(input, name, rest, i, d)
    requires forall j :: 0 <= j < i ==> !MatchAt(input, name, rest, j, d)
    ensures qs[i + 1] == rest[i] && MatchAt(input, name, qs, i + 1, depth)
    ensures forall j :: 0 <= j < i + 1 ==> !MatchAt(input, name, qs, j, depth)
  {
    forall j | 0 < j < i + 1
      ensures !MatchAt(input, name, qs, j, depth)
    {
      assert !MatchAt(input, name, rest, j - 1, d);
    }
  }

  /** When `rest` has no match, neither has `qs`. */
  lemma ShiftNoMatch(input: string, name: string, qs: seq<nat>, rest: seq<nat>, depth: nat, d: nat)
    requires |qs| == |rest| + 1 && qs[1..] == rest
    requires forall k :: 0 <= k < |qs| ==> qs[k] <= |input|
    requires forall k :: 0 <= k < |rest| ==> rest[k] <= |input|
    requires !MatchAt(input, name, qs, 0, depth)
    requires forall k :: 0 <= k < |rest| ==> (MatchAt(input, name, qs, k + 1, depth) <==> MatchAt(input, name, rest, k, d))
    requires forall k :: 0 <= k < |rest| ==> !MatchAt(input, name, rest, k, d)
    ensures forall k :: 0 <= k < |qs| ==> !MatchAt(input, name, qs, k, depth)
  {
    forall k | 0 < k < |qs|
      ensures !MatchAt(input, name, qs, k, depth)
    {
      assert !MatchAt(input, name, rest, k - 1, d);
    }
  }

  /** A round that finds the match is a match at the first examined position. */
  lemma FirstRoundMatch(input: string, name: string, pos: nat, depth: nat)
    requires pos < |input| && FindRound(input, name, pos, depth).Found?
    ensures var qs := Visits(input, pos);
            |qs| > 0 && qs[0] == FindRound(input, name, pos, depth).lt && MatchAt(input, name, qs, 0, depth)
  {
    var qs := Visits(input, pos);
    assert qs[..1] == [qs[0]] && qs[..0] == [];
    assert [qs[0]][1..] == [];
  }

  /**
   * A round that moves on is no match, and the later rounds match
   * exactly where the loop started one round later matches.
   */
  lemma MatchShift(input: string, name: string, pos: nat, depth: nat, p: nat, d: nat)
    requires pos < |input| && FindRound(input, name, pos, depth) == Next(p, d)
    ensures var qs := Visits(input, pos);
            var rest := Visits(input, p);
            qs == [qs[0]] + rest && !MatchAt(input, name, qs, 0, depth)
            && forall i :: 0 <= i < |rest| ==>
                 (MatchAt(input, name, qs, i + 1, depth) <==> MatchAt(input, name, rest, i, d))
  {
    var qs := Visits(input, pos);
    var q := CommentSkipped(input, pos);
    var rest := Visits(input, p);
    assert qs == [q] + rest;
    assert qs[..1] == [q] && qs[..0] == [];
    assert [q][1..] == [];
    forall i | 0 <= i < |rest|
      ensures MatchAt(input, name, qs, i + 1, depth) <==> MatchAt(input, name, rest, i, d)
    {
      CountsShift(input, name, q, rest, i);
    }
  }

  /** The counts over `[q] + rest` are those over `rest` plus position `q`. */
  lemma CountsShift(input: string, name: string, q: nat, rest: seq<nat>, i: nat)
    requires q <= |input| && i < |rest| && forall k :: 0 <= k < |rest| ==> rest[k] <= |input|
    ensures var qs := [q] + rest;
            Opens(input, name, qs[..i + 2]) == (if OpensTag(input, q, name) then 1 else 0) + Opens(input, name, rest[..i + 1])
            && Closes(input, name, qs[..i + 1]) == (if ClosingTagAt(input, q, name).Some? then 1 else 0) + Closes(input, name, rest[..i])
  {
    var qs := [q] + rest;
    assert qs[..i + 2][1..] == rest[..i + 1];
    assert qs[..i + 1][1..] == rest[..i];
  }

  /** A round at a character other than `<` examines nothing and moves on. */
  lemma PlainRound(input: string, name: string, k: nat, depth: nat)
    requires k < |input| && input[k] != '<'
    ensures FindClosingFrom(input, name, k, depth) == FindClosingFrom(input, name, k + 1, depth)
  {
    assert !StartsAt(input, k, "<!--") && !StartsAt(input, k, "</");
  }

  /**
   * The opening-tag test only checks that the name starts the tag, so in
   * `<b>x<br/>y</b>` the `<br/>` counts as a nested `b`: its `</b>` then
   * closes that one and no closing tag is left for the outer `b`.
   */
  lemma PrefixNameMisnests()
    ensures FindClosingFrom("<b>x<br/>y</b>", "b", 3, 0)
            == Err(Located(14, "Could not find closing tag for b"))
  {
    var input := "<b>x<br/>y</b>";
    MisnestHead(input);
    MisnestBody(input);
    MisnestTail(input);
  }

  /** From the body start, `<br/>` opens a second `b`. */
  lemma MisnestHead(input: string)
    requires input == "<b>x<br/>y</b>"
    ensures FindClosingFrom(input, "b", 3, 0) == FindClosingFrom(input, "b", 5, 1)
  {
    assert |input| == 14;
    assert input[3] == 'x' && input[4] == '<' && input[5] == 'b' && input[6] == 'r' && input[7] == '/';
    assert StartsAt(input, 5, "b") by { assert input[5..6] == [input[5]]; }
    assert WsEnd(input, 5) == 5;
    assert OpensTag(input, 4, "b");
    assert !StartsAt(input, 4, "</") by { assert input[4..6][1] == input[5]; }
    assert ClosingTagAt(input, 4, "b") == None;
    assert !StartsAt(input, 4, "<!--") by { assert input[4..8][1] == input[5]; }
    assert CommentSkipped(input, 4) == 4;
    assert FindRound(input, "b", 4, 0) == Next(5, 1);
    PlainRound(input, "b", 3, 0);
  }

  /** The rest of `<br/>` and the `y` hold no tag. */
  lemma MisnestBody(input: string)
    requires input == "<b>x<br/>y</b>"
    ensures FindClosingFrom(input, "b", 5, 1) == FindClosingFrom(input, "b", 10, 1)
  {
    assert |input| == 14;
    assert input[5] == 'b' && input[6] == 'r' && input[7] == '/' && input[8] == '>' && input[9] == 'y';
    PlainRun(input, "b", 5, 10, 1);
  }

  /** A stretch without `<` holds no tag: the search passes over it. */
  lemma {:induction false} PlainRun(input: string, name: string, start: nat, stop: nat, depth: nat)
    requires start <= stop <= |input|
    requires forall k :: start <= k < stop ==> input[k] != '<'
    ensures FindClosingFrom(input, name, start, depth) == FindClosingFrom(input, name, stop, depth)
    decreases stop - start
  {
    if start < stop {
      PlainRound(input, name, start, depth);
      PlainRun(input, name, start + 1, stop, depth);
    }
  }

  /** The real `</b>` only brings the depth back to zero, and the input ends. */
  lemma MisnestTail(input: string)
    requires input == "<b>x<br/>y</b>"
    ensures FindClosingFrom(input, "b", 10, 1) == Err(Located(14, "Could not find closing tag for b"))
  {
    assert |input| == 14;
    assert input[10] == '<' && input[11] == '/' && input[12] == 'b' && input[13] == '>';
    PlainRound(input, "b", 13, 0);
    PlainRound(input, "b", 12, 0);
    PlainRound(input, "b", 11, 0);
    assert "Could not find closing tag for " + "b" == "Could not find closing tag for b";
    assert StartsAt(input, 10, "</") by { assert input[10..12] == [input[10], input[11]]; }
    assert StartsAt(input, 12, "b") by { assert input[12..13] == [input[12]]; }
    assert WsEnd(input, 12) == 12 && WsEnd(input, 13) == 13 && WsEnd(input, 11) == 11;
    assert !StartsAt(input, 11, "b") by { assert input[11..12][0] == input[11]; }
    assert !OpensTag(input, 10, "b");
    assert !StartsAt(input, 10, "<!--") by { assert input[10..14][1] == input[11]; }
    assert CommentSkipped(input, 10) == 10;
    assert ClosingTagAt(input, 10, "b") == Some(13);
    assert FindRound(input, "b", 10, 1) == Next(11, 0);
  }

  /** The opening-tag test of one round. */
  method IsOpeningTag(input: string, q: nat, name: string) returns (b: bool)
    requires q <= |input|
    ensures b == OpensTag(input, q, name)
  {
    b := false;
    if CharAt(input, q, '<') {
      var a := SkipWhitespace(input, q + 1);
      b := StartsAt(input, a, name);
    }
  }

  /** The closing-tag test of one round. */
  method MatchClosingTag(input: string, q: nat, name: string) returns (r: Option<nat>)
    requires q <= |input|
    ensures r == ClosingTagAt(input, q, name)
  {
    r := None;
    if StartsAt(input, q, "</") {
      var a := SkipWhitespace(input, q + 2);
      if StartsAt(input, a, name) {
        a := a + |name|;
        a := SkipWhitespace(input, a);
        if CharAt(input, a, '>') {
          r := Some(a);
        }
      }
    }
  }

  /** The body of `find_closing`'s loop. */
  method FindClosingRound(input: string, name: string, pos: nat, depth: nat) returns (r: Round)
    requires pos < |input|
    ensures r == FindRound(input, name, pos, depth)
  {
    var p := SkipComments(input, pos);
    var d := depth;
    var opens := IsOpeningTag(input, p, name);
    if opens {
      d := d + 1;
    }
    var closing := MatchClosingTag(input, p, name);
    if closing.Some? {
      if d == 0 {
        return Found(closing.value, p);
      }
      d := d - 1;
    }
    return Next(p + 1, d);
  }

  /**
   * `find_closing`: the closing tag that matches an opening tag whose `>`
   * ends just before `pos`, counting same-name opening tags as nesting.
   */
  method FindClosing(input: string, name: string, pos: nat) returns (r: Result<(nat, nat)>)
    requires pos <= |input|
    ensures r == FindClosingFrom(input, name, pos, 0)
    ensures r.Ok? ==> pos <= r.value.1 < r.value.0 < |input|
                      && ClosingTagAt(input, r.value.1, name) == Some(r.value.0)
    ensures r.Err? ==> r == Err(Located(|input|, "Could not find closing tag for " + name))
  {
    var p := pos;
    var depth: nat := 0;
    while p < |input|
      invariant p <= |input| + 1
      invariant FindClosingFrom(input, name, p, depth) == FindClosingFrom(input, name, pos, 0)
      decreases |input| + 1 - p
    {
      var round := FindClosingRound(input, name, p, depth);
      match round
      case Found(gt, lt) => return Ok((gt, lt));
      case Next(p', d') => p, depth := p', d';
    }
    r := Err(Located(|input|, "Could not find closing tag for " + name));
  }

  /* ---------------- attributes ---------------- */

  /** The attribute scanner's three states. */
  datatype AttrContext = Outside | Quotes | Curly

  /** The scanner's variables: its state, brace depth, current piece and finished pieces. */
  datatype AttrState = AttrState(ctx: AttrContext, depth: nat, token: string, pieces: seq<string>)

  /** What one round of the attribute loop decides. */
  datatype AttrRound =
    | Scanning(pos: nat, st: AttrState)
    | Stopped(pos: nat, st: AttrState, noCloser: bool)
    | Failed(pos: nat)

  /**
   * One round of the attribute loop of `parse_elem` at `pos`. Outside
   * quotes and braces a whitespace or `=` ends the current piece,
   * whitespace is skipped, `=` is a piece of its own, and `/>` or `>` stops
   * the scan; inside them every character, `>` included, belongs to the
   * value, and the closing quote or depth-matched brace leaves that state.
   */
  function AttrStep(input: string, pos: nat, st: AttrState): (r: AttrRound)
    requires pos < |input|
    ensures r.Scanning? ==> pos < r.pos <= |input|
    ensures r.Stopped? ==> pos <= r.pos < |input|
    ensures r.Failed? ==> r.pos == |input|
  {
    var c := input[pos];
    if st.ctx == Outside then
      var flush := (IsWhitespace(c) || c == '=') && st.token != "";
      var pieces := if flush then st.pieces + [st.token] else st.pieces;
      var token := if flush then "" else st.token;
      var q := WsEnd(input, pos);
      if q == |input| then Failed(q)
      else
        var c2 := input[q];
        var ctx := if c2 == '"' then Quotes else if c2 == '{' then Curly else Outside;
        if StartsAt(input, q, "/>") then Stopped(q, AttrState(ctx, st.depth, token, pieces), true)
        else if CharAt(input, q, '>') then Stopped(q, AttrState(ctx, st.depth, token, pieces), false)
        else if c2 == '=' then Scanning(q + 1, AttrState(ctx, st.depth, token, pieces + ["="]))
        else Scanning(q + 1, AttrState(ctx, st.depth, token + [c2], pieces))
    else
      var token := st.token + [c];
      if st.ctx == Quotes then
        Scanning(pos + 1, AttrState(if c == '"' then Outside else Quotes, st.depth, token, st.pieces))
      else if c == '}' then
        if st.depth == 0 then Scanning(pos + 1, AttrState(Outside, 0, token, st.pieces))
        else Scanning(pos + 1, AttrState(Curly, st.depth - 1, token, st.pieces))
      else if c == '{' then Scanning(pos + 1, AttrState(Curly, st.depth + 1, token, st.pieces))
      else Scanning(pos + 1, AttrState(Curly, st.depth, token, st.pieces))
  }

  /**
   * The attribute loop from `pos`: the raw pieces (names, `=` and values
   * with their quotes or braces), whether the tag ended with `/>`, and
   * where the scan stopped; reading past the end panics.
   */
  function ScanFrom(input: string, pos: nat, st: AttrState): (r: (Result<(seq<string>, bool)>, nat))
    requires pos <= |input|
    ensures pos <= r.1 <= |input|
    ensures r.0.Ok? && r.0.value.1 ==> StartsAt(input, r.1, "/>")
    ensures r.0.Ok? && !r.0.value.1 ==> r.1 == |input| || input[r.1] == '>'
    decreases |input| - pos
  {
    if pos == |input| || (st.ctx == Outside && CharAt(input, pos, '>')) then
      (Ok((Flush(st.pieces, st.token), false)), pos)
    else
      match AttrStep(input, pos, st)
      case Failed(p) => (Err(Panic("called `Option::unwrap()` on a `None` value")), p)
      case Stopped(p, st', noCloser) => (Ok((Flush(st'.pieces, st'.token), noCloser)), p)
      case Scanning(p, st') => ScanFrom(input, p, st')
  }

  /** Inside quotes a `>` is part of the value and does not end the tag. */
  lemma QuotedAngleKept(input: string, pos: nat, depth: nat, token: string, pieces: seq<string>)
    requires pos < |input| && input[pos] == '>'
    ensures ScanFrom(input, pos, AttrState(Quotes, depth, token, pieces))
            == ScanFrom(input, pos + 1, AttrState(Quotes, depth, token + ">", pieces))
  {
  }

  /** Inside braces a `>` is part of the value and does not end the tag. */
  lemma BracedAngleKept(input: string, pos: nat, depth: nat, token: string, pieces: seq<string>)
    requires pos < |input| && input[pos] == '>'
    ensures ScanFrom(input, pos, AttrState(Curly, depth, token, pieces))
            == ScanFrom(input, pos + 1, AttrState(Curly, depth, token + ">", pieces))
  {
  }

  /** The body of the attribute loop of `parse_elem`. */
  method AttributeRound(input: string, pos: nat, st: AttrState) returns (r: AttrRound)
    requires pos < |input|
    ensures r == AttrStep(input, pos, st)
  {
    var c := input[pos];
    var ctx, depth, token, pieces := st.ctx, st.depth, st.token, st.pieces;
    var p := pos;
    if ctx == Outside {
      if (IsWhitespace(c) || c == '=') && token != "" {
        pieces := pieces + [token];
        token := "";
      }
      p := SkipWhitespace(input, p);
      if p == |input| {
        return Failed(p);
      }
      var c2 := input[p];
      if c2 == '"' {
        ctx := Quotes;
      } else if c2 == '{' {
        ctx := Curly;
      }
      if StartsAt(input, p, "/>") {
        return Stopped(p, AttrState(ctx, depth, token, pieces), true);
      }
      if CharAt(input, p, '>') {
        return Stopped(p, AttrState(ctx, depth, token, pieces), false);
      }
      if c2 == '=' {
        pieces := pieces + ["="];
      } else {
        token := token + [c2];
      }
    } else {
      token := token + [c];
      if ctx == Quotes {
        if c == '"' {
          ctx := Outside;
        }
      } else if c == '}' {
        if depth == 0 {
          ctx := Outside;
        } else {
          depth := depth - 1;
        }
      } else if c == '{' {
        depth := depth + 1;
      }
    }
    return Scanning(p + 1, AttrState(ctx, depth, token, pieces));
  }

  /** The attribute loop of `parse_elem`, from just after the tag name. */
  method ScanAttributes(input: string, pos: nat) returns (r: Result<(seq<string>, bool)>, p: nat)
    requires pos <= |input|
    ensures (r, p) == ScanFrom(input, pos, AttrState(Outside, 0, "", []))
  {
    p := pos;
    var st := AttrState(Outside, 0, "", []);
    var noCloser := false;
    while p < |input| && !(st.ctx == Outside && CharAt(input, p, '>'))
      invariant pos <= p <= |input|
      invariant ScanFrom(input, p, st) == ScanFrom(input, pos, AttrState(Outside, 0, "", []))
      decreases |input| - p
    {
      var round := AttributeRound(input, p, st);
      match round
      case Failed(p') =>
        return Err(Panic("called `Option::unwrap()` on a `None` value")), p';
      case Stopped(p', st', noCloser') =>
        p, st, noCloser := p', st', noCloser';
        break;
      case Scanning(p', st') =>
        p, st := p', st';
    }
    r := Ok((Flush(st.pieces, st.token), noCloser));
  }

  /* ---------------- attribute triples ---------------- */

  /**
   * One `name = value` triple of `parse_elem`, errors at `pos`: a quoted
   * value becomes a static attribute and a braced one a reactive one, each
   * with its delimiters stripped. A lone `"` counts as closed and its
   * empty-range slice panics.
   */
  function AttrOf(name: string, eq: string, value: string, pos: nat): (r: Result<Attribute>)
    ensures eq != "=" ==> r == Err(Located(pos, "Expected ="))
    ensures r.Ok? ==> eq == "=" && r.value.Name() == name
    ensures r.Ok? && r.value.StaticAttr? ==>
              r.value.value.Some? && value == "\"" + r.value.value.value + "\""
    ensures r.Ok? && r.value.ReactiveAttr? ==> value == "{" + r.value.expr + "}"
    ensures eq == "=" && |value| >= 2 && value[0] == '"' && value[|value| - 1] == '"' ==>
              r == Ok(StaticAttr(name, Some(value[1..|value| - 1])))
    ensures eq == "=" && |value| >= 2 && value[0] == '{' && value[|value| - 1] == '}' ==>
              r == Ok(ReactiveAttr(name, value[1..|value| - 1]))
    ensures eq == "=" && (value == [] || (value[0] != '"' && value[0] != '{')) ==>
              r == Err(Located(pos, "Invalid attribute value"))
  {
    if eq != "=" then Err(Located(pos, "Expected ="))
    else if |value| > 0 && value[0] == '"' then
      if value[|value| - 1] != '"' && |value| > 1 then
        if value[|value| - 1] == ',' then
          Err(Located(pos, "Commas should not be used to separate attribute arguments"))
        else Err(Located(pos, "Expected \""))
      else if |value| == 1 then Err(Panic("slice index starts after its end"))
      else Ok(StaticAttr(name, Some(value[1..|value| - 1])))
    else if |value| > 0 && value[0] == '{' then
      if value[|value| - 1] != '}' then Err(Located(pos, "Expected }"))
      else Ok(ReactiveAttr(name, value[1..|value| - 1]))
    else Err(Located(pos, "Invalid attribute value"))
  }

  /** `xs` in front of a successful result. */
  function PrependAttrs(xs: seq<Attribute>, r: Result<seq<Attribute>>): Result<seq<Attribute>> {
    if r.Ok? then Ok(xs + r.value) else r
  }

  /**
   * The pieces taken three at a time, as `parse_elem` drains them; fewer
   * than three left is an error, as is the first bad triple.
   */
  function AttrsFrom(pieces: seq<string>, pos: nat): (r: Result<seq<Attribute>>)
    decreases |pieces|
  {
    if pieces == [] then Ok([])
    else if |pieces| < 3 then Err(Located(pos, "Expected attribute value"))
    else
      var a := AttrOf(pieces[0], pieces[1], pieces[2], pos);
      if a.Err? then Err(a.error) else PrependAttrs([a.value], AttrsFrom(pieces[3..], pos))
  }

  /**
   * Successful parsing consumes whole triples: attribute `i` is named by
   * piece `3i`, separated by an `=` piece, and valued by piece `3i + 2`.
   */
  lemma {:induction false} AttrsFromTriples(pieces: seq<string>, pos: nat)
    ensures var r := AttrsFrom(pieces, pos);
            r.Ok? ==> |pieces| == 3 * |r.value|
                      && forall i :: 0 <= i < |r.value| ==>
                           AttrOf(pieces[3 * i], pieces[3 * i + 1], pieces[3 * i + 2], pos) == Ok(r.value[i])
    ensures |pieces| % 3 != 0 ==> AttrsFrom(pieces, pos).Err?
    decreases |pieces|
  {
    if |pieces| >= 3 {
      var tail := pieces[3..];
      AttrsFromTriples(tail, pos);
      var r := AttrsFrom(pieces, pos);
      if r.Ok? {
        var a, rest := AttrOf(pieces[0], pieces[1], pieces[2], pos), AttrsFrom(tail, pos);
        assert a.Ok? && rest.Ok? && r.value == [a.value] + rest.value;
        forall i | 0 <= i < |r.value|
          ensures AttrOf(pieces[3 * i], pieces[3 * i + 1], pieces[3 * i + 2], pos) == Ok(r.value[i])
        {
          if i > 0 {
            var j := i - 1;
            assert tail[3 * j] == pieces[3 * i] && tail[3 * j + 1] == pieces[3 * i + 1]
                   && tail[3 * j + 2] == pieces[3 * i + 2];
          }
        }
      }
    }
  }

  /** The `remove(0)` loop of `parse_elem` over the raw pieces. */
  method ParseAttributes(pieces: seq<string>, pos: nat) returns (r: Result<seq<Attribute>>)
    ensures r == AttrsFrom(pieces, pos)
  {
    var rest := pieces;
    var attrs: seq<Attribute> := [];
    assert AttrsFrom(pieces, pos).Ok? ==> [] + AttrsFrom(pieces, pos).value == AttrsFrom(pieces, pos).value;
    while rest != []
      invariant PrependAttrs(attrs, AttrsFrom(rest, pos)) == AttrsFrom(pieces, pos)
      decreases |rest|
    {
      if |rest| < 3 {
        return Err(Located(pos, "Expected attribute value"));
      }
      var a := AttrOf(rest[0], rest[1], rest[2], pos);
      if a.Err? {
        return Err(a.error);
      }
      ghost var tail := AttrsFrom(rest[3..], pos);
      assert tail.Ok? ==> attrs + [a.value] + tail.value == attrs + ([a.value] + tail.value);
      attrs := attrs + [a.value];
      rest := rest[3..];
    }
    assert attrs + [] == attrs;
    r := Ok(attrs);
  }

  /* ---------------- elements ---------------- */

  /** The first attribute called `name`, as `iter().find` gives it. */
  function FindAttr(attrs: seq<Attribute>, name: string): (r: Option<Attribute>)
    ensures r.Some? ==> r.value in attrs && r.value.Name() == name
    ensures r.None? <==> forall i :: 0 <= i < |attrs| ==> attrs[i].Name() != name
    ensures r.Some? ==> exists i :: 0 <= i < |attrs| && attrs[i] == r.value
                                    && forall j :: 0 <= j < i ==> attrs[j].Name() != name
  {
    if attrs == [] then None
    else if attrs[0].Name() == name then Some(attrs[0])
    else
      var r := FindAttr(attrs[1..], name);
      if r.Some? then
        var i :| 0 <= i < |attrs[1..]| && attrs[1..][i] == r.value
                 && forall j :: 0 <= j < i ==> attrs[1..][j].Name() != name;
        assert attrs[i + 1] == r.value;
        r
      else r
  }

  /** An `id` attribute read as the element's id. */
  function IdOf(a: Attribute): (r: Id)
    ensures r.IsReactive() <==> a.IsReactive()
    ensures a.StaticAttr? && a.value.Some? ==> r == StaticId(a.value.value)
    ensures a.ReactiveAttr? ==> r == ReactiveId(a.expr)
  {
    match a
    case StaticAttr(_, v) => StaticId(if v.Some? then v.value else "")
    case ReactiveAttr(_, e) => ReactiveId(e)
  }

  /** A `class` attribute read as a class list: static values split on spaces, empty pieces dropped. */
  function ClassesOf(a: Attribute): (r: ClassList)
    ensures r.IsReactive() <==> a.IsReactive()
    ensures a.ReactiveAttr? ==> r == ReactiveClasses(a.expr)
    ensures r.StaticClasses? ==>
              forall i :: 0 <= i < |r.names| ==> r.names[i] != "" && ' ' !in r.names[i]
    ensures a.StaticAttr? && a.value.Some? ==> r == StaticClasses(NonEmpty(SplitSpace(a.value.value)))
    ensures a.StaticAttr? && a.value.Some? ==>
              r.StaticClasses? && forall c :: c in SplitSpace(a.value.value) && c != "" ==> c in r.names
  {
    match a
    case StaticAttr(_, v) =>
      var parts := SplitSpace(if v.Some? then v.value else "");
      var names := NonEmpty(parts);
      assert forall i :: 0 <= i < |names| ==> names[i] in parts;
      StaticClasses(names)
    case ReactiveAttr(_, e) => ReactiveClasses(e)
  }

  /** The attributes other than `id` and `class`, in order. */
  function OtherAttrs(attrs: seq<Attribute>): (r: seq<Attribute>)
    ensures forall i :: 0 <= i < |r| ==> r[i] in attrs && r[i].Name() != "id" && r[i].Name() != "class"
    ensures forall i :: 0 <= i < |attrs| && attrs[i].Name() != "id" && attrs[i].Name() != "class" ==>
              attrs[i] in r
    ensures |r| <= |attrs|
  {
    if attrs == [] then []
    else
      var rest := OtherAttrs(attrs[1..]);
      assert forall i :: 1 <= i < |attrs| ==> attrs[i] == attrs[1..][i - 1];
      if attrs[0].Name() != "id" && attrs[0].Name() != "class" then [attrs[0]] + rest else rest
  }

  /**
   * A lower-case tag: the first `id` and `class` attributes become the
   * element's id and class list and leave the attribute list.
   */
  function ElementShape(name: string, attrs: seq<Attribute>, children: seq<Node>): (e: Element)
    ensures e.name == name && e.children == children
    ensures e.id.Some? <==> FindAttr(attrs, "id").Some?
    ensures e.id.Some? ==> e.id.value == IdOf(FindAttr(attrs, "id").value)
    ensures e.classes.Some? <==> FindAttr(attrs, "class").Some?
    ensures e.classes.Some? ==> e.classes.value == ClassesOf(FindAttr(attrs, "class").value)
    ensures forall i :: 0 <= i < |e.attributes| ==>
              e.attributes[i].Name() != "id" && e.attributes[i].Name() != "class"
  {
    var id := FindAttr(attrs, "id");
    var cls := FindAttr(attrs, "class");
    Element(name,
            if id.Some? then Some(IdOf(id.value)) else None,
            if cls.Some? then Some(ClassesOf(cls.value)) else None,
            OtherAttrs(attrs),
            children)
  }

  /** What `parse_elem` learns from an opening tag before it looks for the closing one. */
  datatype Head = Head(name: string, attributes: seq<Attribute>, selfClosing: bool, openEnd: nat)

  /**
   * The opening tag of `name` from `e`, just past the name: the attribute
   * triples, and where the children start: just past its `>`, or on the
   * `>` of a closing `/>`. A bad attribute, or input that ends first, is an
   * error.
   */
  function TagRest(input: string, name: string, e: nat): (r: Result<Head>)
    requires e <= |input|
    ensures r.Ok? ==> r.value.name == name && e < r.value.openEnd <= |input|
    ensures r.Ok? && r.value.selfClosing ==>
              r.value.openEnd < |input| && input[r.value.openEnd - 1] == '/' && input[r.value.openEnd] == '>'
    ensures r.Ok? && !r.value.selfClosing ==> input[r.value.openEnd - 1] == '>'
  {
    var (scan, p) := ScanFrom(input, e, AttrState(Outside, 0, "", []));
    if scan.Err? then Err(scan.error)
    else
      var attrs := AttrsFrom(scan.value.0, p);
      if attrs.Err? then Err(attrs.error)
      else if p == |input| then Err(Located(p, "Expected >. " + name + " tag was never closed"))
      else
        assert scan.value.1 ==> input[p] == input[p..p + 2][0] && input[p + 1] == input[p..p + 2][1];
        Ok(Head(name, attrs.value, scan.value.1, p + 1))
  }

  /**
   * The opening tag at `pos` (a `<`): the tag name after optional
   * whitespace, then the rest of the tag. An empty name is an error.
   */
  function OpeningTag(input: string, pos: nat): (r: Result<Head>)
    requires pos < |input|
    ensures r.Ok? ==> r.value.name != [] && pos + 2 < r.value.openEnd <= |input|
                      && (forall i :: 0 <= i < |r.value.name| ==> IsAlphanumeric(r.value.name[i]))
    ensures AlnumEnd(input, WsEnd(input, pos + 1)) == WsEnd(input, pos + 1) ==>
              r == Err(Located(WsEnd(input, pos + 1), "Expected element name"))
  {
    var q := WsEnd(input, pos + 1);
    var e := AlnumEnd(input, q);
    var name := input[q..e];
    if name == [] then Err(Located(q, "Expected element name")) else TagRest(input, name, e)
  }

  /** The attribute part of `parse_elem`, from just past the tag name. */
  method ReadTagRest(input: string, name: string, e: nat) returns (r: Result<Head>)
    requires e <= |input|
    ensures r == TagRest(input, name, e)
  {
    var scan, p := ScanAttributes(input, e);
    if scan.Err? {
      return Err(scan.error);
    }
    var attrs := ParseAttributes(scan.value.0, p);
    if attrs.Err? {
      return Err(attrs.error);
    }
    if p == |input| {
      return Err(Located(p, "Expected >. " + name + " tag was never closed"));
    }
    r := Ok(Head(name, attrs.value, scan.value.1, p + 1));
  }

  /** The opening-tag part of `parse_elem`, cursor moves included. */
  method ReadOpeningTag(input: string, pos: nat) returns (r: Result<Head>)
    requires pos < |input|
    ensures r == OpeningTag(input, pos)
  {
    var p := pos + 1;
    p := SkipWhitespace(input, p);
    var name;
    name, p := GrabAlphanumToken(input, p);
    if name == [] {
      return Err(Located(p, "Expected element name"));
    }
    r := ReadTagRest(input, name, p);
  }

  /**
   * The node a tag becomes, given where its closing tag starts and its
   * parsed children: `script` keeps its text, `style` is parsed as a
   * stylesheet (errors moved to the tag's offset), an upper-case name is a
   * component hole, anything else an element. A self-closing `script` or
   * `style` slices a reversed range and panics.
   */
  function Classify(input: string, start: nat, h: Head, close: nat, children: seq<Node>): (r: Result<Node>)
    requires h.name != []
    ensures r.Ok? && r.value.ScriptTag? <==> h.name == "script" && h.openEnd <= close <= |input|
    ensures r.Ok? && r.value.ScriptTag? ==> r.value.script == Script(h.attributes, input[h.openEnd..close])
    ensures r.Ok? && r.value.StyleTag? ==> h.name == "style"
    ensures r.Ok? ==> (r.value.ComponentHole? <==> h.name != "script" && h.name != "style" && IsUpper(h.name[0]))
    ensures r.Ok? && r.value.ComponentHole? ==>
              r.value == ComponentHole(h.name, start, h.attributes, input, h.selfClosing, children)
    ensures r.Ok? ==> (r.value.ElementNode? <==> h.name != "script" && h.name != "style" && !IsUpper(h.name[0]))
    ensures r.Ok? && r.value.ElementNode? ==> r.value.elem == ElementShape(h.name, h.attributes, children)
    ensures h.name != "script" && h.name != "style" ==> r.Ok?
    ensures ParsedSeq(children) && (h.selfClosing ==> children == []) && r.Ok? ==> Parsed(r.value)
  {
    if h.name == "script" then
      if h.openEnd <= close <= |input| then Ok(ScriptTag(Script(h.attributes, input[h.openEnd..close])))
      else Err(Panic("slice index starts after its end"))
    else if h.name == "style" then
      if h.openEnd <= close <= |input| then
        match Css.ParseStylesheet(input[h.openEnd..close])
        case Ok(sheet) =>
          Css.ParsedSheetComplete(input[h.openEnd..close]);
          Ok(StyleTag(sheet))
        case Err(Located(at, msg)) => Err(Located(at + h.openEnd, "CSS syntax error: " + msg))
        case Err(e) => Err(e)
      else Err(Panic("slice index starts after its end"))
    else if IsUpper(h.name[0]) then
      Ok(ComponentHole(h.name, start, h.attributes, input, h.selfClosing, children))
    else Ok(ElementNode(ElementShape(h.name, h.attributes, children)))
  }

  /** A tag whose first `id`/`class` are static keeps neither among its attributes. */
  lemma LowerCaseTagIdClass(input: string, start: nat, h: Head, children: seq<Node>)
    requires h.name != [] && h.name != "script" && h.name != "style" && !IsUpper(h.name[0])
    ensures var r := Classify(input, start, h, 0, children);
            r.Ok? && r.value.ElementNode?
            && (forall a :: a in r.value.elem.attributes ==> a.Name() != "id" && a.Name() != "class")
            && (forall a :: a in h.attributes && a.Name() != "id" && a.Name() != "class" ==>
                  a in r.value.elem.attributes)
  {
  }

  /* ---------------- the document loop ---------------- */

  /** `push_text`: the pending text becomes a node unless it is empty. */
  function PushText(text: string, nodes: seq<Node>): (r: seq<Node>)
    ensures text == "" ==> r == nodes
    ensures text != "" ==> |r| == |nodes| + 1 && r[..|nodes|] == nodes && r[|nodes|] == Text(text)
  {
    if text != "" then nodes + [Text(text)] else nodes
  }

  /** No two neighbouring text nodes: plain characters always gather into one node. */
  ghost predicate TextMerged(nodes: seq<Node>) {
    forall i, j :: 0 <= i < j < |nodes| && j == i + 1 ==> !(nodes[i].Text? && nodes[j].Text?)
  }

  /** What `parse` keeps between rounds: parsed nodes, none adjacent texts, no text last. */
  ghost predicate Pending(nodes: seq<Node>) {
    ParsedSeq(nodes) && TextMerged(nodes) && (nodes != [] ==> !nodes[|nodes| - 1].Text?)
  }

  /** Flushing the pending text and then adding a non-text node keeps `Pending`. */
  lemma PushBlockPending(text: string, nodes: seq<Node>, node: Node)
    requires Pending(nodes) && Parsed(node) && !node.Text?
    ensures Pending(PushText(text, nodes) + [node])
  {
    var ns := PushText(text, nodes) + [node];
    assert ns[|ns| - 1] == node;
    forall i, j | 0 <= i < j < |ns| && j == i + 1
      ensures !(ns[i].Text? && ns[j].Text?)
    {
      if j < |nodes| {
        assert ns[i] == nodes[i] && ns[j] == nodes[j];
      }
    }
  }

  /** The final flush leaves parsed nodes with no two texts adjacent. */
  lemma PushTextMerged(text: string, nodes: seq<Node>)
    requires Pending(nodes)
    ensures ParsedSeq(PushText(text, nodes)) && TextMerged(PushText(text, nodes))
  {
    var ns := PushText(text, nodes);
    if text != "" {
      forall i, j | 0 <= i < j < |ns| && j == i + 1
        ensures !(ns[i].Text? && ns[j].Text?)
      {
        assert ns[i] == nodes[i];
      }
    }
  }

  /** The node a `{#...}` directive block becomes around its children. */
  function DirectiveNode(d: Directive, children: seq<Node>): (n: Node)
    ensures n.ConditionalElements? <==> d.IfDirective?
    ensures n.Loop? <==> d.ForDirective?
    ensures n.children == children
  {
    match d
    case IfDirective(c) => ConditionalElements(c, children)
    case ForDirective(v, it, reactive) => Loop(v, it, reactive, children)
  }

  /** The text that closes a directive block: the first one after it is taken. */
  function Closer(d: Directive): string {
    if d.IfDirective? then "{/if}" else "{/for}"
  }

  /** What one round of `parse` read: a plain character, or a whole node. */
  datatype Piece = Plain(c: char) | Block(node: Node)

  /* ---------------- the tree as functions ---------------- */

  /*
   * The recursive descent of `parse`, `parse_elem` and `handle_expression`
   * stated as mutually recursive functions, each returning its result and
   * the position the Rust cursor is left at. Every call goes either to a
   * later position or, at the same position, to a function further down
   * the chain ParseSpec > ParseFrom > RoundSpec > TagSpec, BraceSpec >
   * ElemSpec, with ExprSpec above ParseSpec.
   */

  /**
   * `parse_elem` from a `<`: the opening tag; a self-closing tag has no
   * children and leaves the cursor on its `>`; otherwise the matching
   * closing tag is found, the text between the tags is parsed as the
   * children (except for `script` and `style`, whose text `Classify`
   * reads), and the cursor is left on the closing tag's `>`.
   */
  function ElemSpec(input: string, pos: nat): (r: (Result<Node>, nat))
    requires pos < |input|
    ensures r.0.Ok? ==> pos < r.1 < |input| && input[r.1] == '>' && Parsed(r.0.value) && !r.0.value.Text?
    decreases |input| - pos, 0
  {
    var head := OpeningTag(input, pos);
    if head.Err? then (Err(head.error), pos)
    else
      var h := head.value;
      if h.selfClosing then (Classify(input, pos, h, 0, []), h.openEnd)
      else
        var found := FindClosingFrom(input, h.name, h.openEnd, 0);
        if found.Err? then (Err(found.error), h.openEnd)
        else
          var (endPos, closeStart) := found.value;
          if h.name == "style" || h.name == "script" then
            (Classify(input, pos, h, closeStart, []), endPos)
          else
            var children := ParseSpec(input, h.openEnd, closeStart);
            if children.Err? then (Err(children.error), h.openEnd)
            else (Classify(input, pos, h, closeStart, children.value), endPos)
  }

  /** The `<` arm of a round: the element as a node. */
  function TagSpec(input: string, pos: nat): (r: (Result<Piece>, nat))
    requires pos < |input|
    ensures r.0.Ok? ==> r.0.value.Block? && Parsed(r.0.value.node) && !r.0.value.node.Text? && pos < r.1 < |input|
    decreases |input| - pos, 1
  {
    var (node, q) := ElemSpec(input, pos);
    if node.Err? then (Err(node.error), q) else (Ok(Block(node.value)), q)
  }

  /**
   * The `{` arm of a round: the block's text up to its matching `}`; after
   * `#` it is a directive, after `/` a stray closing block (a panic), and
   * anything else is reactive text. The cursor is left just past the `}`,
   * or past the directive's closing block.
   */
  function BraceSpec(input: string, pos: nat): (r: (Result<Piece>, nat))
    requires pos < |input| && input[pos] == '{'
    ensures r.0.Ok? ==> pos < r.1 <= |input|
    ensures r.0.Ok? && r.0.value.Block? ==> Parsed(r.0.value.node) && !r.0.value.node.Text?
    decreases |input| - pos, 1
  {
    var (inner, q) := CurlyInnerSpec(input, pos);
    if inner.Err? then (Err(inner.error), q)
    else if |inner.value| > 0 && inner.value[0] == '#' then
      var (node, q') := ExprSpec(input, q, inner.value);
      if node.Err? then (Err(node.error), q') else (Ok(Block(node.value)), q')
    else if |inner.value| > 0 && inner.value[0] == '/' then (Err(Panic("explicit panic")), q)
    else (Ok(Block(ReactiveText(inner.value))), q)
  }

  /**
   * One round of `parse`'s loop at `pos`: a comment is skipped, then a
   * `<` starts an element, a `{` a brace block, and any other character
   * is plain text. The cursor is left on the last character the round
   * consumed; running off the end after a comment panics.
   */
  function RoundSpec(input: string, pos: nat): (r: (Result<Piece>, nat))
    requires pos < |input|
    ensures r.0.Ok? ==> pos <= r.1 <= |input|
    ensures r.0.Ok? && r.0.value.Block? ==> Parsed(r.0.value.node) && !r.0.value.node.Text?
    ensures input[pos] != '<' && input[pos] != '{' ==> r == (Ok(Plain(input[pos])), pos)
    decreases |input| - pos, 2
  {
    var q := CommentSkipped(input, pos);
    if q >= |input| then (Err(Panic("called `Option::unwrap()` on a `None` value")), q)
    else if input[q] == '<' then TagSpec(input, q)
    else if input[q] == '{' then BraceSpec(input, q)
    else (Ok(Plain(input[q])), q)
  }

  /**
   * `parse`'s loop from `pos` with `nodes` finished and `text` pending:
   * plain characters gather into the pending text, which is flushed before
   * each node and at the end, and each round resumes one past where the
   * previous one left the cursor. The first error ends the parse.
   */
  function ParseFrom(input: string, pos: nat, end: nat, nodes: seq<Node>, text: string): (r: Result<seq<Node>>)
    requires end <= |input| && Pending(nodes)
    ensures r.Ok? ==> ParsedSeq(r.value) && TextMerged(r.value)
    decreases |input| - pos, 3
  {
    if pos >= end then
      PushTextMerged(text, nodes);
      Ok(PushText(text, nodes))
    else
      var round := RoundSpec(input, pos);
      match round.0
      case Err(e) => Err(e)
      case Ok(Plain(c)) => ParseFrom(input, round.1 + 1, end, nodes, text + [c])
      case Ok(Block(node)) =>
        PushBlockPending(text, nodes, node);
        ParseFrom(input, round.1 + 1, end, PushText(text, nodes) + [node], "")
  }

  /** `parse` over `[start, end)`: the nodes, no two texts adjacent. */
  function ParseSpec(input: string, start: nat, end: nat): (r: Result<seq<Node>>)
    requires start <= end <= |input|
    ensures r.Ok? ==> ParsedSeq(r.value) && TextMerged(r.value)
    decreases |input| - start, 4
  {
    ParseFrom(input, start, end, [], "")
  }

  /**
   * `handle_expression` with the cursor at `pos`, just past a `{#...}`
   * block whose text is `opening`: the directive's words are checked, the
   * first closing block of its kind at or after `pos` is found, the text
   * in between is parsed as the children, and the cursor is left just
   * past that closing block. Errors sit at `pos`.
   */
  function ExprSpec(input: string, pos: nat, opening: string): (r: (Result<Node>, nat))
    requires pos <= |input|
    requires |opening| > 0 && opening[0] == '#'
    ensures r.0.Ok? ==> pos <= r.1 <= |input| && Parsed(r.0.value) && !r.0.value.Text?
    decreases |input| - pos, 5
  {
    var tokens := TokenizeFrom(opening, 1, "", []);
    if tokens.Err? then (Err(tokens.error), pos)
    else
      var directive := ParseDirective(tokens.value, pos);
      if directive.Err? then (Err(directive.error), pos)
      else
        var needle := Closer(directive.value);
        var (closing, p) := SearchFrom(input, needle, pos);
        if closing.Err? then (Err(closing.error), p)
        else
          var children := ParseSpec(input, pos, closing.value);
          if children.Err? then (Err(children.error), p)
          else (Ok(DirectiveNode(directive.value, children.value)), p)
  }

  /** `parse_full` as a function: the whole text parsed as a component's body. */
  function ParseFullSpec(input: string, componentName: string, dialect: Dialect): (r: Result<Component>)
    ensures r.Ok? ==> r.value.name == componentName && r.value.dialect == dialect
                      && r.value.props == [] && !r.value.recursive
                      && ParsedSeq(r.value.children) && TextMerged(r.value.children)
    ensures r.Ok? <==> ParseSpec(input, 0, |input|).Ok?
    ensures r.Ok? ==> r.value.children == ParseSpec(input, 0, |input|).value
  {
    var children := ParseSpec(input, 0, |input|);
    if children.Err? then Err(children.error)
    else Ok(Component(componentName, dialect, [], children.value, false))
  }

  /* ---------------- what the parse promises ---------------- */

  /**
   * An element is its opening tag classified: a bad opening tag is the
   * element's error, and a self-closing tag has no children and leaves
   * the cursor on its `>`. Otherwise the cursor is left on the `>` of the
   * matching closing tag, and the children (of a tag other than `script`
   * and `style`) are the parse of the text between the two tags.
   */
  lemma ElemSpecShape(input: string, pos: nat)
    requires pos < |input|
    ensures OpeningTag(input, pos).Err? ==> ElemSpec(input, pos).0 == Err(OpeningTag(input, pos).error)
    ensures ElemSpec(input, pos).0.Ok? ==>
              OpeningTag(input, pos).Ok?
              && var h := OpeningTag(input, pos).value;
              var (r, p) := ElemSpec(input, pos);
              (h.selfClosing ==> p == h.openEnd && r == Classify(input, pos, h, 0, []))
              && (!h.selfClosing ==>
                    var fc := FindClosingFrom(input, h.name, h.openEnd, 0);
                    fc.Ok? && p == fc.value.0 && fc.value.1 < p
                    && ClosingTagAt(input, fc.value.1, h.name) == Some(p)
                    && (h.name == "script" || h.name == "style" ==> r == Classify(input, pos, h, fc.value.1, []))
                    && (h.name != "script" && h.name != "style" ==>
                          ParseSpec(input, h.openEnd, fc.value.1).Ok?
                          && r == Classify(input, pos, h, fc.value.1, ParseSpec(input, h.openEnd, fc.value.1).value)))
  {
  }

  /**
   * A brace block whose text starts with `/` is a stray closing block and
   * panics; one whose text starts with neither `#` nor `/` is reactive
   * text, with the cursor just past its `}`.
   */
  lemma BraceSpecCases(input: string, pos: nat)
    requires pos < |input| && input[pos] == '{'
    ensures CurlyInnerSpec(input, pos).0.Ok? ==>
              var inner := CurlyInnerSpec(input, pos).0.value;
              (inner != [] && inner[0] == '/' ==> BraceSpec(input, pos).0 == Err(Panic("explicit panic")))
              && ((inner == [] || (inner[0] != '#' && inner[0] != '/')) ==>
                    BraceSpec(input, pos) == (Ok(Block(ReactiveText(inner))), CurlyInnerSpec(input, pos).1))
  {
  }

  /**
   * A directive block: a tokenizing or directive error is the block's
   * error; otherwise the block is an `if` or `for` node whose children
   * are the parse of the text up to the first closing block of its kind
   * at or after `pos`, with the cursor just past that closing block.
   */
  lemma ExprSpecShape(input: string, pos: nat, opening: string)
    requires pos <= |input| && |opening| > 0 && opening[0] == '#'
    ensures var tokens := TokenizeFrom(opening, 1, "", []);
            tokens.Err? ==> ExprSpec(input, pos, opening).0 == Err(tokens.error)
    ensures var tokens := TokenizeFrom(opening, 1, "", []);
            tokens.Ok? && ParseDirective(tokens.value, pos).Err? ==>
              ExprSpec(input, pos, opening).0 == Err(ParseDirective(tokens.value, pos).error)
    ensures var (r, p) := ExprSpec(input, pos, opening);
            r.Ok? ==>
              var tokens := TokenizeFrom(opening, 1, "", []);
              tokens.Ok? && ParseDirective(tokens.value, pos).Ok?
              && var d := ParseDirective(tokens.value, pos).value;
              var needle := Closer(d);
              r.value == DirectiveNode(d, r.value.children)
              && pos + |needle| <= p <= |input| && StartsAt(input, p - |needle|, needle)
              && (forall k :: pos <= k < p - |needle| ==> !StartsAt(input, k, needle))
              && ParseSpec(input, pos, p - |needle|) == Ok(r.value.children)
  {
  }


  /** A stretch with no `<` and no `{` is plain text, gathered after the pending text. */
  lemma {:induction false} ParsePlainFrom(input: string, pos: nat, end: nat, text: string)
    requires pos <= end <= |input|
    requires forall k :: pos <= k < end ==> input[k] != '<' && input[k] != '{'
    ensures ParseFrom(input, pos, end, [], text) == Ok(PushText(text + input[pos..end], []))
    decreases end - pos
  {
    if pos < end {
      assert RoundSpec(input, pos) == (Ok(Plain(input[pos])), pos);
      ParsePlainFrom(input, pos + 1, end, text + [input[pos]]);
      assert text + [input[pos]] + input[pos + 1..end] == text + input[pos..end];
    } else {
      assert text + input[pos..end] == text;
    }
  }

  /** A stretch with no `<` and no `{` parses to a single text node, or to nothing when empty. */
  lemma ParsePlain(input: string, start: nat, end: nat)
    requires start <= end <= |input|
    requires forall k :: start <= k < end ==> input[k] != '<' && input[k] != '{'
    ensures ParseSpec(input, start, end) == Ok(PushText(input[start..end], []))
    ensures start < end ==> ParseSpec(input, start, end) == Ok([Text(input[start..end])])
  {
    ParsePlainFrom(input, start, end, "");
    assert "" + input[start..end] == input[start..end];
  }

  /**
   * After a reactive `{...}` block the round resumes one past the `}`:
   * the character right after the block is never read.
   */
  lemma ReactiveBlockSkipsNext(input: string, pos: nat, end: nat, nodes: seq<Node>, text: string, inner: string, q: nat)
    requires pos < end <= |input| && Pending(nodes) && input[pos] == '{'
    requires CurlyInnerSpec(input, pos) == (Ok(inner), q)
    requires inner == [] || (inner[0] != '#' && inner[0] != '/')
    ensures Pending(PushText(text, nodes) + [ReactiveText(inner)])
    ensures ParseFrom(input, pos, end, nodes, text)
            == ParseFrom(input, q + 1, end, PushText(text, nodes) + [ReactiveText(inner)], "")
  {
    ReactiveRound(input, pos);
    ParseFromBlock(input, pos, end, nodes, text, ReactiveText(inner), q);
  }

  /** A round on a reactive `{...}` block reads the block's text and leaves the cursor past its `}`. */
  lemma ReactiveRound(input: string, pos: nat)
    requires pos < |input| && input[pos] == '{'
    requires CurlyInnerSpec(input, pos).0.Ok?
    requires var inner := CurlyInnerSpec(input, pos).0.value;
             inner == [] || (inner[0] != '#' && inner[0] != '/')
    ensures RoundSpec(input, pos) == (Ok(Block(ReactiveText(CurlyInnerSpec(input, pos).0.value))), CurlyInnerSpec(input, pos).1)
  {
    assert CommentSkipped(input, pos) == pos;
    BraceSpecCases(input, pos);
  }

  /** In `{a}b` the `b` is lost: only the reactive text is produced. */
  lemma ReactiveTextEatsNextChar()
    ensures ParseSpec("{a}b", 0, 4) == Ok([ReactiveText("a")])
  {
    var input := "{a}b";
    assert CurlyEnd(input, 2, 1) == (3, true);
    assert CurlyEnd(input, 1, 1) == (3, true);
    assert input[1..2] == "a";
    assert CurlyInnerSpec(input, 0) == (Ok("a"), 3);
    ReactiveBlockSkipsNext(input, 0, 4, [], "", "a", 3);
    assert PushText("", []) + [ReactiveText("a")] == [ReactiveText("a")];
    assert ParseFrom(input, 4, 4, [ReactiveText("a")], "") == Ok([ReactiveText("a")]);
    assert ParseSpec(input, 0, 4) == ParseFrom(input, 0, 4, [], "");
  }

  /** A brace block with no braces inside ends at the first `}`. */
  lemma {:induction false} CurlyInnerFlat(input: string, pos: nat, close: nat)
    requires pos < close < |input| && input[pos] == '{' && input[close] == '}'
    requires forall k :: pos < k < close ==> input[k] != '{' && input[k] != '}'
    ensures CurlyInnerSpec(input, pos) == (Ok(input[pos + 1..close]), close + 1)
  {
    CurlyEndFlat(input, pos + 1, close);
  }

  lemma {:induction false} CurlyEndFlat(input: string, i: nat, close: nat)
    requires i <= close < |input| && input[close] == '}'
    requires forall k :: i <= k < close ==> input[k] != '{' && input[k] != '}'
    ensures CurlyEnd(input, i, 1) == (close + 1, true)
    decreases close - i
  {
    if i < close {
      CurlyEndFlat(input, i + 1, close);
    }
  }

  /**
   * Directive blocks do not nest: a block of the same kind that opens
   * inside another (its own text starting at or after the outer one's)
   * ends at the same closing block as the outer one.
   */
  lemma SameKindSharesCloser(input: string, pos: nat, opening: string, pos': nat, opening': string)
    requires pos <= pos' <= |input|
    requires |opening| > 0 && opening[0] == '#' && |opening'| > 0 && opening'[0] == '#'
    requires ExprSpec(input, pos, opening).0.Ok? && ExprSpec(input, pos', opening').0.Ok?
    requires ExprSpec(input, pos, opening).0.value.ConditionalElements?
             == ExprSpec(input, pos', opening').0.value.ConditionalElements?
    requires pos' + (if ExprSpec(input, pos, opening).0.value.ConditionalElements? then 5 else 6)
             <= ExprSpec(input, pos, opening).1
    ensures ExprSpec(input, pos', opening').1 == ExprSpec(input, pos, opening).1
  {
    ExprSpecCloser(input, pos, opening);
    ExprSpecCloser(input, pos', opening');
    var needle := BlockCloser(ExprSpec(input, pos, opening).0.value);
    FirstCloserFromInside(input, needle, pos, pos');
  }

  /** The closing block of a directive node's kind. */
  function BlockCloser(n: Node): string {
    if n.ConditionalElements? then "{/if}" else "{/for}"
  }

  /** A directive block ends just past the first closing block of its kind. */
  lemma ExprSpecCloser(input: string, pos: nat, opening: string)
    requires pos <= |input| && |opening| > 0 && opening[0] == '#'
    requires ExprSpec(input, pos, opening).0.Ok?
    ensures var (r, p) := ExprSpec(input, pos, opening);
            var needle := BlockCloser(r.value);
            |needle| <= p && SearchFrom(input, needle, pos) == (Ok(p - |needle|), p)
  {
  }

  /** Searching again from anywhere up to the first match finds that match. */
  lemma FirstCloserFromInside(input: string, needle: string, pos: nat, pos': nat)
    requires pos <= pos' <= |input|
    requires SearchFrom(input, needle, pos).0.Ok? && pos' <= SearchFrom(input, needle, pos).0.value
    ensures SearchFrom(input, needle, pos') == SearchFrom(input, needle, pos)
  {
  }

  /* ---------------- the methods ---------------- */

  /** `parse_elem` with the cursor on a `<`. */
  method ParseElem(input: string, pos: nat) returns (r: Result<Node>, p: nat)
    requires pos < |input|
    ensures (r, p) == ElemSpec(input, pos)
    ensures OpeningTag(input, pos).Err? ==> r == Err(OpeningTag(input, pos).error)
    ensures r.Ok? ==> OpeningTag(input, pos).Ok? && pos < p < |input| && input[p] == '>' && Parsed(r.value) && !r.value.Text?
    decreases |input| - pos, 0
  {
    var head := ReadOpeningTag(input, pos);
    if head.Err? {
      return Err(head.error), pos;
    }
    var h := head.value;
    p := h.openEnd;
    if h.selfClosing {
      r := Classify(input, pos, h, 0, []);
      return;
    }
    var found := FindClosing(input, h.name, p);
    if found.Err? {
      return Err(found.error), p;
    }
    var (endPos, closeStart) := found.value;
    var children: seq<Node> := [];
    if h.name != "style" && h.name != "script" {
      var parsed := Parse(input, p, closeStart);
      if parsed.Err? {
        return Err(parsed.error), p;
      }
      children := parsed.value;
    }
    p := endPos;
    r := Classify(input, pos, h, closeStart, children);
  }

  /** `handle_expression` with the cursor just past a `{#...}` block. */
  method HandleExpression(input: string, pos: nat, opening: string) returns (r: Result<Node>, p: nat)
    requires pos <= |input|
    requires |opening| > 0 && opening[0] == '#'
    ensures (r, p) == ExprSpec(input, pos, opening)
    ensures r.Ok? ==> Parsed(r.value)
    decreases |input| - pos, 4
  {
    p := pos;
    var tokens := TokenizeExpression(opening);
    if tokens.Err? {
      return Err(tokens.error), p;
    }
    var directive := ParseDirective(tokens.value, pos);
    if directive.Err? {
      return Err(directive.error), p;
    }
    var needle := Closer(directive.value);
    var closing;
    closing, p := SearchForClosing(input, needle, p);
    if closing.Err? {
      return Err(closing.error), p;
    }
    var children := Parse(input, pos, closing.value);
    if children.Err? {
      return Err(children.error), p;
    }
    r := Ok(DirectiveNode(directive.value, children.value));
  }

  /** One round of `parse`'s loop. */
  method ParseRound(input: string, pos: nat) returns (r: Result<Piece>, p: nat)
    requires pos < |input|
    ensures (r, p) == RoundSpec(input, pos)
    ensures r.Ok? ==> pos <= p <= |input|
    decreases |input| - pos, 2
  {
    p := SkipComments(input, pos);
    if p >= |input| {
      return Err(Panic("called `Option::unwrap()` on a `None` value")), p;
    }
    var c := input[p];
    if c == '<' {
      r, p := ParseTag(input, p);
      return;
    } else if c == '{' {
      r, p := ParseBrace(input, p);
      return;
    }
    r := Ok(Plain(c));
  }

  /** The `<` arm of a round, with the cursor on the `<`. */
  method ParseTag(input: string, pos: nat) returns (r: Result<Piece>, p: nat)
    requires pos < |input|
    ensures (r, p) == TagSpec(input, pos)
    decreases |input| - pos, 1
  {
    var node, q := ParseElem(input, pos);
    if node.Err? {
      return Err(node.error), q;
    }
    return Ok(Block(node.value)), q;
  }

  /** The `{` arm of a round, with the cursor on the `{`. */
  method ParseBrace(input: string, pos: nat) returns (r: Result<Piece>, p: nat)
    requires pos < |input| && input[pos] == '{'
    ensures (r, p) == BraceSpec(input, pos)
    decreases |input| - pos, 1
  {
    var inner, q := CurlyInner(input, pos);
    if inner.Err? {
      return Err(inner.error), q;
    }
    p := q;
    if |inner.value| > 0 && inner.value[0] == '#' {
      var node, q' := HandleExpression(input, p, inner.value);
      if node.Err? {
        return Err(node.error), q';
      }
      return Ok(Block(node.value)), q';
    } else if |inner.value| > 0 && inner.value[0] == '/' {
      return Err(Panic("explicit panic")), p;
    }
    r := Ok(Block(ReactiveText(inner.value)));
  }

  /** `parse` over `[start, end)`. */
  method Parse(input: string, start: nat, end: nat) returns (r: Result<seq<Node>>)
    requires start <= end <= |input|
    ensures r == ParseSpec(input, start, end)
    ensures r.Ok? ==> ParsedSeq(r.value) && TextMerged(r.value)
    decreases |input| - start, 3
  {
    var pos := start;
    var nodes: seq<Node> := [];
    var text := "";
    while pos < end
      invariant Pending(nodes)
      invariant ParseFrom(input, pos, end, nodes, text) == ParseSpec(input, start, end)
      decreases |input| + 1 - pos
    {
      var piece, q := ParseRound(input, pos);
      if piece.Err? {
        return Err(piece.error);
      }
      if piece.value.Plain? {
        ParseFromPlain(input, pos, end, nodes, text, piece.value.c, q);
        text := text + [piece.value.c];
      } else {
        ParseFromBlock(input, pos, end, nodes, text, piece.value.node, q);
        nodes := PushText(text, nodes) + [piece.value.node];
        text := "";
      }
      pos := q + 1;
    }
    PushTextMerged(text, nodes);
    nodes := PushText(text, nodes);
    r := Ok(nodes);
  }

  /** A round that reads a plain character adds it to the pending text. */
  lemma ParseFromPlain(input: string, pos: nat, end: nat, nodes: seq<Node>, text: string, c: char, q: nat)
    requires pos < end <= |input| && Pending(nodes) && RoundSpec(input, pos) == (Ok(Plain(c)), q)
    ensures ParseFrom(input, pos, end, nodes, text) == ParseFrom(input, q + 1, end, nodes, text + [c])
  {
  }

  /** A round that reads a node flushes the pending text and adds the node. */
  lemma ParseFromBlock(input: string, pos: nat, end: nat, nodes: seq<Node>, text: string, node: Node, q: nat)
    requires pos < end <= |input| && Pending(nodes) && RoundSpec(input, pos) == (Ok(Block(node)), q)
    ensures Pending(PushText(text, nodes) + [node])
    ensures ParseFrom(input, pos, end, nodes, text) == ParseFrom(input, q + 1, end, PushText(text, nodes) + [node], "")
  {
    PushBlockPending(text, nodes, node);
  }

  /**
   * The first round that fails ends the parse with its error: plain text
   * before it is dropped, and nothing after it is read.
   */
  lemma {:induction false} FirstErrorAborts(input: string, pos: nat, j: nat, end: nat, nodes: seq<Node>, text: string)
    requires pos <= j < end <= |input| && Pending(nodes)
    requires forall k :: pos <= k < j ==> input[k] != '<' && input[k] != '{'
    requires RoundSpec(input, j).0.Err?
    ensures ParseFrom(input, pos, end, nodes, text) == Err(RoundSpec(input, j).0.error)
    decreases j - pos
  {
    if pos < j {
      ParseFromPlain(input, pos, end, nodes, text, input[pos], pos);
      FirstErrorAborts(input, pos + 1, j, end, nodes, text + [input[pos]]);
    }
  }

  /** `parse_full`: a whole file as the body of a component of the given name and dialect. */
  method ParseFull(input: string, componentName: string, dialect: Dialect) returns (r: Result<Component>)
    ensures r == ParseFullSpec(input, componentName, dialect)
    ensures r.Ok? ==> r.value.name == componentName && r.value.dialect == dialect
                      && r.value.props == [] && !r.value.recursive
                      && ParsedSeq(r.value.children) && TextMerged(r.value.children)
    ensures (forall k :: 0 <= k < |input| ==> input[k] != '<' && input[k] != '{') ==>
              r == Ok(Component(componentName, dialect, [], PushText(input, []), false))
  {
    if forall k :: 0 <= k < |input| ==> input[k] != '<' && input[k] != '{' {
      ParsePlain(input, 0, |input|);
      assert input[0..|input|] == input;
    }
    var children := Parse(input, 0, |input|);
    if children.Err? {
      return Err(children.error);
    }
    r := Ok(Component(componentName, dialect, [], children.value, false));
  }
}
