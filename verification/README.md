# Lilac compiler core in Dafny

Lilac is a small compiler for reactive web components. A project is a
directory of component files (`*.lilac`, `*.jslilac`, `*.tslilac`,
`*.rslilac`). Each file holds markup made of:

- HTML-like elements;
- reactive `{expressions}` that name `$variables`;
- `{#if …}` … `{/if}` and `{#for x in …}` … `{/for}` blocks (the parser has
  no `elif` or `else`);
- `<script>` and `<style>` tags;
- capitalised tags that instantiate other components (`<Card title="…" />`,
  with `<Children />` marking where an instance's own children go).

The compiler turns such a project into one HTML page with an embedded
script. It works in four steps:

1. It parses every file into a tree of nodes.
2. It pulls the `<style>` rules out of each component and scopes them.
   A rule that names a class gets a per-component suffix on that class,
   and the class is added to the elements the rule selects.
3. It registers every component under its file name. Then it expands the
   `Root` component, replacing each hole with a clone of the component it
   names. A recursion guard stops a component from expanding inside itself.
4. It generates JavaScript that builds the page. Static subtrees become
   HTML strings. Reactive parts become DOM-building code with
   subscriptions: every `$x` in an expression becomes a renamed variable,
   and a change to it re-runs the code that depends on it.

The model has one Dafny module per source file of that core:

| module | file(s) | models |
|---|---|---|
| `Wrappers` | — | `Option`/`Result`, and the error kinds (a message, a message at an offset, a panic) |
| `Text` | — | string helpers: number formatting, splitting on spaces, dedup |
| `Lib` | `src/lib.rs` | the node tree, attributes, ids and class lists, the id counter |
| `Utils` | `src/utils.rs` | `find_and_replace`, `children_of` |
| `Parse` | `src/parse.rs` | the component parser and error formatting |
| `Css` | `src/css.rs` | the CSS tokenizer, selector parser and stylesheet parser |
| `CssComponentScoping` | `src/css_component_scoping.rs` | scoping a component's style rules |
| `JsLexer` | — | the JavaScript token stream the code generator reads |
| `JsComponentScoping` | `src/js_component_scoping.rs` | renaming declared script identifiers per instance |
| `Compile` | `src/compile.rs` | `fill_holes`, which expands component holes |
| `Job` | `src/job.rs` | loading, style collection, the registry loop of `compile` |
| `JsCodegen` | `src/js_codegen.rs` | code generation as functions, with their properties |
| `JsCodegenMethods` | `src/js_codegen.rs` | code generation as the source runs it, with the counter as mutable state |
| `JsCodegenProps` | `src/js_codegen.rs` | properties of the generated code |
| `Pipeline` | `src/lib.rs` | the in-memory entry points `wasm_compile_` and `wasm_compile` |

Where the source changes state step by step, the model does too. The
parser cursor, the loops of the tokenizers, the registry loop and the code
generator are methods, and the process-wide id counter is a `Context`
object. Each such method is proved equal to a function that states what
it computes, and the properties are lemmas about those functions. The
exceptions are the outermost methods `Job.CompileJob`,
`Pipeline.WasmCompileInner` and `Pipeline.WasmCompile`: their contracts
state the result through the functions of the steps they call
(`Job.BuildFrom`, `Compile.FillHoles`, `JsCodegen.FullJs`,
`Pipeline.ErrorPage`).
A Rust panic (`unwrap` on `None`, `unreachable!`, a slice out of bounds)
is an `Err(Panic(…))` value, so the model says exactly which inputs make
the compiler crash.

## Where the source files disagree

The source files come from slightly different revisions. The model
settles each disagreement once:

- `src/compile.rs:25-35` reads a `children` list on a component hole,
  which `src/lib.rs:88-93` does not declare. The model gives a hole its
  parsed children and a `selfClosing` flag, which stands for an absent
  list (`<X/>`).
- `src/js_codegen.rs:233-238` and `src/js_codegen.rs:345-355` read a
  static attribute's value as optional, while `src/parse.rs:388-391`
  stores a plain string. The model's value is an `Option`, and the parser
  always gives `Some`.
- `CompilerError::format` takes the file text only (`src/parse.rs:32`),
  as `src/lib.rs:48` calls it, but `src/job.rs:189` and
  `src/compile.rs:55` pass the file name as well. The model formats
  against the file text only.
- `VOID_ELEMENTS` is imported by `src/js_codegen.rs:9` but is not defined
  in `src/parse.rs`. `JsCodegen.IsVoid` stands for the HTML void element
  list.

## Model

| member | source | states |
|---|---|---|
| Compile.SlotOf | src/compile.rs:23-35 | the content a `Children` hole below a node sees is the hole's own explicit children when it has them, and otherwise the content inherited from above |
| Compile.Instance | src/compile.rs:58-64 | an instance is the registered component with the hole's props; it is flagged recursive when its name is already on the recursion stack |
| Compile.NotFound | src/compile.rs:50-56 | a hole naming an unknown component always fails; when the offset lies within the file, the message is the formatted line/column followed by `Component X not found.` |
| Compile.FillChild | src/compile.rs:13-88 | one child: a hole other than `Children` that expands becomes a component, and its name is registered. A `Children` hole with slot content becomes the anonymous element holding as many nodes as the content. Any other node keeps everything but its children and keeps their number, and a node without children is unchanged |
| Compile.FillInside | src/compile.rs:19-84 | the node keeps everything but its children, and keeps their number; a node without children is unchanged |
| Compile.FillChildren | src/compile.rs:20-84 | a successful expansion of a child list keeps its length |
| Compile.FillHoles | src/compile.rs:5-11 | the root keeps everything but its children, and keeps their number; `Compile.FillHolesResolved` states that no hole is left below it |
| Compile.FillHolesIn | src/compile.rs:13-88 | the loop over a node's children computes exactly the recursive definition of `_fill_holes` (every child filled in order, the first error wins) |
| Compile.FillStep | src/compile.rs:20-84 | one turn of the loop: a child that fails makes the whole child list fail with its error; one that succeeds extends the filled prefix |
| Compile.FillHoleAt | src/compile.rs:21-83 | the loop body for one child computes exactly the specified new value of that child |
| Compile.FillHolesRoot | src/compile.rs:5-11 | `fill_holes` starts from an empty recursion stack and no slot content |
| Compile.LeafUnchanged | src/compile.rs:13-88 | text, reactive text, scripts and style tags pass through the expansion unchanged |
| Compile.MissingComponent | src/compile.rs:50-56 | a hole naming an unregistered component makes the expansion fail, with the hole's position in the message |
| Compile.InstanceOf | src/compile.rs:58-83 | a hole naming a registered component becomes a clone with the hole's props. It is flagged recursive exactly when its name is on the stack, and then keeps its registered children unexpanded. Otherwise its children are expanded with its name pushed and the hole's children as slot content |
| Compile.ChildrenHole | src/compile.rs:37-48 | a `Children` hole with no slot content stays as it is; with slot content it becomes the anonymous element holding that content, expanded under the same stack, and it succeeds exactly when that content does |
| Compile.SiblingsIndependent | src/compile.rs:20-84 | every child starts from a clone of the stack and of the slot, so siblings never see each other's pushes. The list succeeds exactly when every child does; otherwise it fails with the error of the first child that fails |
| Compile.FillChildResolved | src/compile.rs:13-88 | with a registry of parsed components, an expanded child is resolved: no hole is left but `Children` holes, and no expanded component repeats the name of an expanded ancestor |
| Compile.FilledResolved | src/compile.rs:19-84 | an element, conditional or loop whose children expand successfully is resolved |
| Compile.FillChildrenResolved | src/compile.rs:20-84 | every child of a successfully expanded child list is resolved |
| Compile.FillHolesResolved | src/compile.rs:5-11 | expanding a parsed root component keeps the component apart from its children, and every expanded child of it is resolved |
| Compile.FillChildFuel | src/compile.rs:13-88 | the depth bound only limits depth: an expansion of one child that succeeds gives the same result with more fuel |
| Compile.FillInsideFuel | src/compile.rs:13-88 | an expansion of a node's children that succeeds gives the same result with more fuel |
| Compile.FillChildrenFuel | src/compile.rs:20-84 | an expansion of a child list that succeeds gives the same result with more fuel |
| Css.MatchesClasses | src/css.rs:34-42 | a selector matches a class list exactly when it is a plain class selector naming one of the classes |
| Css.RuleMatchesClasses | src/css.rs:9-14 | a rule matches a class list exactly when its selector is a plain class selector naming one of the classes |
| Css.SkipFrom | src/css.rs:274-299 | the skipping loop never moves backwards and stops at the end or on a character that is not whitespace |
| Css.Skipped | src/css.rs:274-299 | the cursor after skipping is at the end of the input or on a character that is not whitespace |
| Css.UnterminatedCommentSwallows | src/css.rs:274-299 | a comment with no `*/` after it runs to the end of the input |
| Css.CommentAfterWhitespaceNotSkipped | src/css.rs:274-299 | a comment that follows whitespace is not skipped: the cursor stops on its `/` |
| Css.SkipWhitespaceAndComments | src/css.rs:274-299 | the skipping loop leaves the cursor exactly where `Skipped` puts it |
| Css.StringEnd | src/css.rs:325-343 | the end found for a string is a `"` at or after its start |
| Css.StringEndFirst | src/css.rs:325-343 | the end found is the first `"` at or after the start that no backslash escapes; nothing is found exactly when there is no such quote |
| Css.EscapedQuoteDoesNotClose | src/css.rs:325-343 | a backslash escapes the next character, so `\"` never closes a string |
| Css.IdEnd | src/css.rs:346-363 | an identifier runs over identifier characters only and stops at the end or on a character that is not one |
| Css.NextTokenSpec | src/css.rs:301-359 | `next_token` returns no token exactly when only whitespace and comments remain, and then leaves the cursor at the end. A token consumes at least one character past the skipped space. A string token keeps both quotes. The only error is `Unterminated string` at the end of the input |
| Css.NextToken | src/css.rs:301-359 | the tokenizer step computes exactly the token and cursor of the specification |
| Css.JoinedFrom | src/css.rs:72-110 | joining colons leaves no colon token. Applied to identifiers and colons it yields identifiers only. A list without colons comes back unchanged |
| Css.ColonsCounted | src/css.rs:77-79 | a run of colons is only counted: skipping `n` colons adds `n` to the count and emits nothing |
| Css.JoinColonsCases | src/css.rs:72-110 | after `n` colons, a token that is not a colon is kept as it is when `n` is 0. An identifier becomes `:x` after one colon and `::x` after two, and three or more are `Too many colons`. Any other token after a colon is `Unexpected token after colon`. Colons at the end of the list are dropped |
| Css.JoinColons | src/css.rs:72-110 | the loop of `join_colons` computes exactly the specified joined list |
| Css.SingleSelector | src/css.rs:117-154 | `#x`, `.x` and `:x` give the id, class and pseudo selector named by the rest of the text; `*` is the universal selector; any other non-empty text is a tag selector of that text. A bare `#`, `.` or `:` is the error `Empty ID name.`, `Empty Class name.` or `Empty Pseudo name.` at the offset, and empty text panics. No part of a result is unset |
| Css.ParseJoined | src/css.rs:112-175 | one token parses as a single selector. With two or more tokens the result is a combinator whose left side is the first token's selector. It is a child selector exactly when the second token is `>` and a next-sibling selector exactly when it is `+`. No part is unset |
| Css.ParseSelector | src/css.rs:112-175 | a parsed selector never contains the unset placeholder |
| Css.Step | src/css.rs:196-250 | one token of the stylesheet parser. After a property name only `:` is accepted; `}` only where a property name is expected; `;` and strings only in a value; `:` only in a selector. Each `}` appends exactly one rule and starts an empty property list. No other token changes the rules collected so far. The machine invariant is preserved |
| Css.ParseFromComplete | src/css.rs:196-259 | every rule the parse loop collects has a real selector |
| Css.ParsedSheetComplete | src/css.rs:177-262 | every rule of a parsed stylesheet has a real selector, never the placeholder |
| Css.ParseFrom | src/css.rs:196-259 | the parse loop only appends to the rules collected so far. When only whitespace and comments remain it returns those rules between rules, and otherwise fails with `Unbalanced curly braces` at the end of the input |
| Css.ParseStylesheet | src/css.rs:177-262 | a stylesheet of nothing but whitespace and comments has no rules; `Css.ParseFrom` and `Css.ParsedSheetComplete` state the rest |
| Css.Parse | src/css.rs:177-262 | the stylesheet parser computes exactly the specified stylesheet, all of whose rules have real selectors |
| CssComponentScoping.ScopedSelector | src/css_component_scoping.rs:115-128 | a tag, class, id or `*` selector becomes the class `tag<prefix><t>`, `class<prefix><c>`, `id<prefix><i>` or `all<prefix>`; every other selector is left as it is |
| CssComponentScoping.SeenExact | src/css_component_scoping.rs:109-132 | the recorded tags, classes and ids are exactly those of the rules whose selector is that simple selector, and `*` is recorded exactly when some rule is `*` |
| CssComponentScoping.HandleCss | src/css_component_scoping.rs:109-132 | every rule keeps its place and its properties and gets its selector rewritten; the names met are recorded |
| CssComponentScoping.AddClass | src/css_component_scoping.rs:22-40 | only the class list changes: an absent list becomes the one class, a static list gets the class appended, and a reactive expression `x` becomes `(x) + " c"` |
| CssComponentScoping.AddClassesFor | src/css_component_scoping.rs:69-75 | the loop over a copy of the static classes changes only the class list |
| CssComponentScoping.AddClassAppends | src/css_component_scoping.rs:22-30 | on a static or absent list, adding a class appends it to the names kept in front |
| CssComponentScoping.AddClassesForGrows | src/css_component_scoping.rs:69-75 | the loop only appends, and every listed class that the rules mention gains its scoped class |
| CssComponentScoping.IdStep | src/css_component_scoping.rs:50-65 | a static id that the rules mention adds its scoped class after the existing ones; otherwise the element is unchanged |
| CssComponentScoping.ClassStep | src/css_component_scoping.rs:67-91 | a static list keeps its classes in front and gains the scoped class of each class the rules mention. A reactive list becomes its expression followed by the mapped scoped classes. An element without a class list is unchanged |
| CssComponentScoping.TagStep | src/css_component_scoping.rs:93-95 | a tag that the rules mention adds its scoped class after the existing ones; otherwise the element is unchanged |
| CssComponentScoping.AllStep | src/css_component_scoping.rs:97-99 | when some rule is `*`, every element gains the `all` class after its existing ones; otherwise the element is unchanged |
| CssComponentScoping.ScopeElement | src/css_component_scoping.rs:50-100 | scoping an element panics exactly when it has a reactive id (the `todo!()`); otherwise only its class list changes |
| CssComponentScoping.ScopeElementClasses | src/css_component_scoping.rs:50-100 | on an element with a static or no id and a static or no class list, scoping keeps the old classes in front. It adds the scoped class of the id, of each class, of the tag and of `*` whenever the rules mention them |
| CssComponentScoping.ReplaceRefs | src/css_component_scoping.rs:42-107 | the tree walk panics exactly when some element below has a reactive id; otherwise every node keeps its kind and its number of children |
| CssComponentScoping.ReplaceRefsSeq | src/css_component_scoping.rs:102-106 | the walk over a child list panics exactly when some child holds a reactive id, and otherwise keeps the number of children |
| CssComponentScoping.ScopeElementIn | src/css_component_scoping.rs:50-100 | the in-place element rewrite computes exactly the specified scoped element |
| CssComponentScoping.ReplaceRefsIn | src/css_component_scoping.rs:42-107 | the in-place tree walk computes exactly the specified scoped tree |
| CssComponentScoping.ReplaceRefsSeqIn | src/css_component_scoping.rs:102-106 | the loop over the children computes exactly the specified scoped child list |
| CssComponentScoping.ScopeCssToComponent | src/css_component_scoping.rs:3-20 | under the prefix `-<name>-`, every rule is rewritten in place and keeps its properties, and the component tree is scoped against the names the rules mention. It panics exactly when the tree holds a reactive id |
| CssComponentScoping.ScopedSheet | src/css_component_scoping.rs:109-132 | every rule keeps its place and its properties, and its selector becomes the scoped selector |
| CssComponentScoping.ScopeSpec | src/css_component_scoping.rs:3-20 | scoping fails exactly when the tree holds a reactive id, with the `todo!()` panic; otherwise only the component's children change |
| CssComponentScoping.ScopingKeepsMatches | src/css_component_scoping.rs:3-132 | what scoping is for: when a rule's simple selector matched an element before (its tag, one of its classes, its id, or `*`), the rewritten selector is a class that the scoped element carries |
| CssComponentScoping.ReplaceRefsComponent | src/css_component_scoping.rs:9-17 | scoping a component changes only its children, and keeps what the parser guarantees of them |
| CssComponentScoping.ReplaceRefsParsed | src/css_component_scoping.rs:42-107 | scoping a parsed tree gives a tree that still meets the parser's guarantees |
| CssComponentScoping.ReplaceRefsSeqParsed | src/css_component_scoping.rs:102-106 | scoping a list of parsed nodes gives nodes that still meet the parser's guarantees |
| CssComponentScoping.ScopedComplete | src/css_component_scoping.rs:109-132 | rewriting selectors never introduces the unset placeholder |
| Lib.Id.IsReactive | src/lib.rs:126-133 | an id is reactive exactly when it is not the static variant |
| Lib.ClassList.IsReactive | src/lib.rs:141-148 | a class list is reactive exactly when it is not the static variant |
| Lib.Attribute.IsReactive | src/lib.rs:162-168 | an attribute is reactive exactly when it is not the static variant |
| Lib.Attribute.Name | src/lib.rs:170-175 | the name returned is the one field that, together with the value, rebuilds the attribute |
| Lib.Context.constructor | src/lib.rs:16 | the process-wide id counter starts at zero |
| Lib.Context.Fresh | src/js_component_scoping.rs:19 | taking an id returns the counter's old value and increments the counter by one |
| Text.NatToString | src/js_component_scoping.rs:16-20 | a counter value prints as a non-empty string of decimal digits |
| Text.NatToStringInjective | src/js_component_scoping.rs:16-20 | distinct counter values print differently, so the prefixes built from them differ |
| Text.SplitSpace | src/parse.rs:483-488 | splitting on single spaces gives at least one piece, and no piece contains a space |
| Text.SplitSpaceJoin | src/parse.rs:483-488 | joining the pieces with single spaces gives back the text, so every character other than the separators is kept, in order |
| Text.NonEmpty | src/parse.rs:487 | every kept piece is a non-empty input piece, and every non-empty input piece is kept |
| Text.NonEmptyAppend | src/parse.rs:487 | the filter works piece by piece: filtering two lists one after the other gives the two filtered lists one after the other, so order and repeats are kept |
| Text.Dedup | src/js_component_scoping.rs:36 | `dedup` keeps the same set of names and the first name. It never lengthens the list. No two neighbours are equal afterwards |
| Text.DedupRemovesOnlyNeighbours | src/js_component_scoping.rs:36 | a list with no equal neighbours is kept as it is, and in general the result is shorter by exactly the number of equal neighbour pairs, so only neighbouring repeats are removed |
| Text.DedupIdempotent | src/js_component_scoping.rs:36 | a second `dedup` changes nothing |
| Text.SplitWhitespaceWord | src/parse.rs:179-184 | a word followed by whitespace is split off as one piece, and a word alone is one piece |
| Utils.PlaceOf | src/utils.rs:12-21 | a token gives a span exactly when it is an identifier spelled `find` or `$find`; the span is the token's own, flagged with a dollar exactly when the spelling is `$find` |
| Utils.PlacesIn | src/utils.rs:10-22 | the collected spans lie inside the text, in order and without overlap, and none ends after the last token |
| Utils.PlacesInExact | src/utils.rs:10-22 | the spans collected are exactly those of the matching tokens: each matching token's span is collected, and every collected span comes from a matching token |
| Utils.NoPlaces | src/utils.rs:10-22 | when no token matches, no span is collected |
| Utils.CollectPlaces | src/utils.rs:10-22 | the collecting loop computes exactly the specified span list |
| Utils.ReplaceRange | src/utils.rs:25-31 | `replace_range` keeps the text before the span and after it, and the span becomes the replacement: the result is longer by exactly the replacement's length less the span's |
| Utils.RightToLeft | src/utils.rs:24-33 | applying the spans from the last to the first never changes the text before the first span |
| Utils.RightToLeftSpliced | src/utils.rs:24-33 | rewriting from the last span to the first leaves each earlier span where it was. The result is therefore the left-to-right splice: the text between spans is kept and every span is replaced |
| Utils.ApplyPlaces | src/utils.rs:24-33 | the rewriting loop computes exactly the left-to-right splice of the spans |
| Utils.FindAndReplace | src/utils.rs:3-36 | `find_and_replace_js_identifiers` rewrites every identifier token equal to `find` into `replace` and every one equal to `$find` into `$replace`, and keeps all other text |
| Utils.NoMatchUnchanged | src/utils.rs:3-36 | text in which no identifier token matches comes back unchanged |
| Utils.ChildrenOf | src/utils.rs:38-46 | a component, element, conditional or loop gives its own child list; every other node gives none |
| Utils.WithChildren | src/utils.rs:38-46 | writing through the reference handed out replaces the child list and nothing else |
| Utils.WithChildrenKeeps | src/utils.rs:38-46 | writing back the list that was read changes nothing, and a second write undoes the first |
| Parse.CountNewlines | src/parse.rs:38 | the count of newlines never exceeds the length, and is zero for text without a newline |
| Parse.CountNewlinesAppend | src/parse.rs:38 | the count adds up over concatenation and one character counts one exactly when it is a newline, so it is the number of newlines |
| Parse.LastNewline | src/parse.rs:39 | `rfind('\n').unwrap_or(0)`: a non-zero result is the index of the last newline; zero means no newline after index 0 |
| Parse.FormatPosition | src/parse.rs:37-41 | on the first line the position prints as `[1:<offset>] ` |
| Parse.FormatPositionLaterLine | src/parse.rs:37-41 | on a later line it prints as `[<line>:<column>] `, the line one more than the newlines before the position and the column one more than the characters between the last newline and the position |
| Parse.FormatError | src/parse.rs:31-41 | formatting succeeds exactly when the offset lies within the text (slicing past the end panics), and then gives the position followed by a space and the message |
| Parse.WsEnd | src/parse.rs:517-521 | whitespace skipping passes only whitespace and stops at the end or on a character that is not whitespace |
| Parse.SkipWhitespace | src/parse.rs:517-521 | the skipping loop computes exactly that stopping point |
| Parse.AlnumEnd | src/parse.rs:507-515 | the token scan passes only alphanumeric characters and stops at the end or on one that is not |
| Parse.GrabAlphanumToken | src/parse.rs:507-515 | the token returned is exactly the text from the start to that stopping point, and the cursor is left there |
| Parse.CommentEnd | src/parse.rs:242-251 | the comment scan never moves backwards or past the end |
| Parse.CommentEndFirst | src/parse.rs:242-251 | a comment ends just past the first `-->` after its opener; with none, it runs to the end of the input |
| Parse.CommentSkipped | src/parse.rs:234-252 | the cursor is moved only when an `<!--` starts exactly at it |
| Parse.SkipComments | src/parse.rs:234-252 | the comment skipper computes exactly that cursor |
| Parse.SearchForClosing | src/parse.rs:150-168 | the result is the first occurrence of the needle at or after the cursor, and the cursor ends just past it. With no occurrence, the error `expected <needle>` sits at the end |
| Parse.SearchFrom | src/parse.rs:150-168 | the search loop finds the first occurrence of the needle at or after the cursor and leaves the cursor just past it; with none, the error `expected <needle>` at the end, with the cursor there |
| Parse.CurlyEnd | src/parse.rs:208-222 | the brace scan stops either just past a `}` that closes the block or at the end of the input |
| Parse.CurlyEndBalanced | src/parse.rs:208-224 | when the scan finds the closing brace, the text inside is balanced: nested braces are kept whole |
| Parse.CurlyInnerSpec | src/parse.rs:203-225 | with the cursor on a `{`, the result is the text up to the brace that closes it, with nested braces kept, and the cursor just past that brace. Unterminated, the scan runs to the end and the slice drops the last character. A `{` that ends the input panics |
| Parse.CurlyInner | src/parse.rs:203-225 | the loop of `curly_inner` computes exactly that text and cursor |
| Parse.Flush | src/parse.rs:196-198 | the pending word is appended only when it is not empty |
| Parse.TokenizeFrom | src/parse.rs:175-198 | no word produced by the tokenizer loop is empty |
| Parse.TokenizeWords | src/parse.rs:175-198 | on text without braces, the words are exactly the non-empty pieces of the text split at whitespace, in order |
| Parse.TokenizeBraceWord | src/parse.rs:184-193 | a brace block is one word, spaces included, and the character right after it is skipped: `{#if {a b}c}` has the words `if` and `a b` |
| Parse.TokenizeExpression | src/parse.rs:170-201 | `tokenize_expression` is the tokenizer loop started after the `#`, and none of its words is empty |
| Parse.ParseDirective | src/parse.rs:88-147 | fewer than two words is `Expected expression`. A first word other than `if` or `for` is `Unknown directive`. A `for` without `x in …` is `Invalid for expression`. An `if` keeps the rest as its condition. A `for` names its variable and is reactive exactly when the list starts with `$lstate`, which is then dropped from the iterated expression |
| Parse.ClosingTagAt | src/parse.rs:536-551 | a closing tag found at a position starts with `</` there and ends with a `>` inside the input |
| Parse.FindRound | src/parse.rs:526-554 | one round of the closing-tag search always moves the cursor forwards |
| Parse.FindClosingFrom | src/parse.rs:523-560 | the result is a closing tag of the given name at or after the cursor, given as the index of its `>` and of its `<`; otherwise the error `Could not find closing tag for <name>` at the end of the input |
| Parse.Visits | src/parse.rs:526-554 | the positions the search visits lie between the cursor and the end, strictly increasing |
| Parse.FindClosingMatches | src/parse.rs:523-560 | depth matching: the closing tag returned is the first visited position where a closing tag of the name meets a depth of zero, counting one up for each opening of the name and one down for each other closing tag; with no such position the search fails |
| Parse.PrefixNameMisnests | src/parse.rs:528-534 | the opening test matches a prefix of the name, so `<br/>` inside `<b>…</b>` counts as an opening of `b` and `<b>x<br/>y</b>` has no closing tag for `b` |
| Parse.IsOpeningTag | src/parse.rs:528-534 | the opening-tag test computes exactly whether a `<` followed, after whitespace, by the name starts here |
| Parse.MatchClosingTag | src/parse.rs:536-551 | the closing-tag test computes exactly the specified match |
| Parse.FindClosingRound | src/parse.rs:527-553 | the loop body computes exactly one specified round |
| Parse.FindClosing | src/parse.rs:523-560 | `find_closing` computes the specified search, so it returns a closing tag of the name at or after the cursor or the error at the end |
| Parse.AttrStep | src/parse.rs:281-343 | one round of the attribute scan either moves forwards, stops on a `>` inside the input, or fails at the end |
| Parse.ScanFrom | src/parse.rs:281-347 | the attribute scan stops on `/>` exactly when the tag is self-closing, and otherwise on a `>` or at the end |
| Parse.QuotedAngleKept | src/parse.rs:282-326 | inside quotes a `>` belongs to the value and does not end the tag |
| Parse.BracedAngleKept | src/parse.rs:282-338 | inside braces a `>` belongs to the value and does not end the tag |
| Parse.AttributeRound | src/parse.rs:284-342 | the loop body computes exactly one specified round |
| Parse.ScanAttributes | src/parse.rs:271-347 | the attribute loop computes exactly the specified scan |
| Parse.AttrOf | src/parse.rs:361-409 | a triple needs `=` in the middle. A quoted value gives a static attribute and a braced value a reactive one, each without its delimiters. The attribute keeps its name. Any other value is `Invalid attribute value` |
| Parse.AttrsFromTriples | src/parse.rs:353-411 | successful attribute parsing consumes whole triples: attribute `i` comes from pieces `3i`, `3i+1` and `3i+2`. A piece count that is not a multiple of three is an error |
| Parse.ParseAttributes | src/parse.rs:349-411 | the `remove(0)` loop computes exactly the specified triples |
| Parse.FindAttr | src/parse.rs:471-481 | `find` returns the first attribute of the name, and nothing exactly when no attribute has it |
| Parse.IdOf | src/parse.rs:474-477 | an `id` attribute gives a static or reactive id of the same kind and value |
| Parse.ClassesOf | src/parse.rs:479-491 | a reactive `class` attribute gives a reactive class list. A static one gives its space-separated words, none empty and none containing a space |
| Parse.OtherAttrs | src/parse.rs:493-496 | the remaining attributes are exactly those not named `id` or `class` |
| Parse.ElementShape | src/parse.rs:470-504 | a lower-case tag becomes an element with the tag's name and children. It has an id or a class list exactly when some attribute of that name exists, read from the first one. Neither name is left among its attributes |
| Parse.TagRest | src/parse.rs:271-420 | after the name, a parsed opening tag ends with `/>` exactly when it is self-closing, and otherwise with `>`; the children start just past it |
| Parse.OpeningTag | src/parse.rs:254-267 | a parsed tag has a non-empty alphanumeric name; a tag with no name is `Expected element name` at the offset after the whitespace |
| Parse.ReadTagRest | src/parse.rs:271-420 | the attribute part of `parse_elem` computes exactly the specified rest of the tag |
| Parse.ReadOpeningTag | src/parse.rs:254-420 | the opening-tag part of `parse_elem` computes exactly the specified tag |
| Parse.Classify | src/parse.rs:445-504 | `script` keeps its text verbatim. `style` is parsed as CSS. An upper-case name is a component hole at the tag's offset. Any other name is an element. Only `script` and `style` can fail, and what the parser builds meets the parser's guarantees |
| Parse.LowerCaseTagIdClass | src/parse.rs:493-496 | an element keeps exactly its attributes other than `id` and `class` |
| Parse.PushText | src/parse.rs:43-48 | the pending text is appended as one text node unless it is empty |
| Parse.PushBlockPending | src/parse.rs:62-76 | flushing the text and then adding a tag or a block never leaves two text nodes next to each other |
| Parse.PushTextMerged | src/parse.rs:83-85 | the final flush leaves parsed nodes with no two texts adjacent |
| Parse.DirectiveNode | src/parse.rs:99-142 | an `if` becomes a conditional and a `for` a loop, around the children given |
| Parse.ParseElem | src/parse.rs:254-505 | `parse_elem` computes exactly `ElemSpec`: a bad opening tag is its error; on success the cursor rests on the `>` that ends the element |
| Parse.HandleExpression | src/parse.rs:88-148 | `handle_expression` computes exactly `ExprSpec`, and a node it returns meets the parser's guarantees |
| Parse.ParseRound | src/parse.rs:57-80 | one round of `parse` computes exactly `RoundSpec`, and never moves the cursor backwards or past the end |
| Parse.ParseTag | src/parse.rs:62-64 | the `<` arm computes exactly `TagSpec` |
| Parse.ParseBrace | src/parse.rs:65-76 | the `{` arm computes exactly `BraceSpec` |
| Parse.Parse | src/parse.rs:50-86 | `parse` over a range computes exactly `ParseSpec`, whose nodes meet the parser's guarantees with no two text nodes adjacent |
| Parse.ParseFull | src/parse.rs:7-21 | `parse_full` computes exactly `ParseFullSpec`: a component of the given name and dialect with no props, not recursive, whose children meet the parser's guarantees; plain text is one text child |
| Parse.ElemSpec | src/parse.rs:254-505 | an element that parses ends on a `>` after its start, meets the parser's guarantees and is not text |
| Parse.ElemSpecShape | src/parse.rs:254-505 | a bad opening tag is its error. A self-closing tag is classified with no children and ends at its `/>`. Otherwise the element ends at the `>` of the closing tag `find_closing` gives. `script` and `style` are classified on their raw text, and any other element's children are `ParseSpec` of the text between the two tags |
| Parse.TagSpec | src/parse.rs:62-64 | the `<` arm yields a node that meets the parser's guarantees and is not text, and moves the cursor forwards |
| Parse.BraceSpec | src/parse.rs:65-76 | the `{` arm moves the cursor forwards, and a node it yields meets the parser's guarantees |
| Parse.BraceSpecCases | src/parse.rs:65-76 | a closing block `{/…}` panics; a block not starting with `#` or `/` is reactive text of exactly the brace content, with the cursor where `curly_inner` leaves it |
| Parse.RoundSpec | src/parse.rs:57-80 | a character other than `<` or `{` is plain text read in place; a node read meets the parser's guarantees; the cursor never moves backwards |
| Parse.ParseFrom | src/parse.rs:50-86 | the nodes the loop returns meet the parser's guarantees, with no two text nodes adjacent |
| Parse.ParseSpec | src/parse.rs:50-86 | the nodes parsed from a range meet the parser's guarantees, with no two text nodes adjacent |
| Parse.ParsePlain | src/parse.rs:50-86 | a range with no `<` or `{` is a single text node, and no node when empty |
| Parse.FirstErrorAborts | src/parse.rs:57-80 | the first round that fails ends the parse with its error; the text read before it is dropped and nothing after it is read |
| Parse.ReactiveRound | src/parse.rs:65-76 | a reactive block is read as a reactive text node of its brace content, and the cursor is left where `curly_inner` leaves it |
| Parse.ReactiveBlockSkipsNext | src/parse.rs:65-80 | after a reactive block the loop adds one more to the cursor, so the parse resumes one character past the place `curly_inner` left it |
| Parse.ReactiveTextEatsNextChar | src/parse.rs:65-80 | `{a}b` parses to the reactive text `a` alone: the `b` is skipped |
| Parse.ExprSpec | src/parse.rs:88-148 | a directive that parses is a node meeting the parser's guarantees, and the cursor stays within the input |
| Parse.ExprSpecShape | src/parse.rs:88-148 | errors of the words and of the directive come back as they are. On success the node is the directive's conditional or loop, the cursor is just past the first closing block of its kind at or after the start, and the children are `ParseSpec` of the text before that closing block |
| Parse.ExprSpecCloser | src/parse.rs:104-134 | the cursor after a directive is just past what `search_for_closing` finds for its closing block |
| Parse.SameKindSharesCloser | src/parse.rs:88-148 | a block of the same kind opened inside another, before the outer one's closer, ends at that same closer: a nested `{#if}` closes at the first `{/if}`, as its parent does |
| Parse.ParseFullSpec | src/parse.rs:7-21 | a parsed file is a component of the given name and dialect with no props, not recursive; it succeeds exactly when the whole text parses, and its children are that parse |
| JsLexer.Scan | src/utils.rs:12-14 | one scanning step always advances, and a token it yields lies within the text it consumed |
| JsLexer.LexFrom | src/utils.rs:12-14 | the tokens of a suffix are in order, disjoint, non-empty and inside that suffix |
| JsLexer.Lex | src/utils.rs:12-14 | the tokens the scanner yields successfully are in order, disjoint, non-empty and inside the text |
| JsLexer.ScanIdentOk | src/js_component_scoping.rs:60-62 | an identifier token of one step is a whole word that is neither a reserved word nor `true`/`false`/`null` |
| JsLexer.LexFromIdentOk | src/js_component_scoping.rs:60-62 | every identifier token of a suffix is such a whole word |
| JsLexer.LexIdentOk | src/js_component_scoping.rs:60-62 | every identifier token of the text is a whole word that is neither reserved nor a literal word |
| JsLexer.LetDeclares | src/js_component_scoping.rs:63-66 | for every identifier word `w` that is not reserved, `let w` scans as the keyword `let` followed by the identifier `w` |
| JsComponentScoping.DeclarationsExact | src/js_component_scoping.rs:60-78 | the names collected by the token pass are exactly the texts of the identifier tokens that follow a declaring keyword |
| JsComponentScoping.Unique | src/js_component_scoping.rs:68-70 | keeping only names not yet listed keeps the same set of names, with no duplicates |
| JsComponentScoping.FirstIndex | src/js_component_scoping.rs:68-70 | the index returned is the first occurrence of the name |
| JsComponentScoping.UniqueOrder | src/js_component_scoping.rs:68-70 | the names kept come in the order of their first occurrence |
| JsComponentScoping.DeclaredIn | src/js_component_scoping.rs:55-81 | the declared names are exactly the identifiers that directly follow a `let`, `const`, `var` or `function` keyword token. Each appears once, in the order of its first declaration |
| JsComponentScoping.LetDeclaresWord | src/js_component_scoping.rs:55-81 | for every identifier word `w` that is not reserved, `let w` declares exactly `w` |
| JsComponentScoping.DeclarationsStep | src/js_component_scoping.rs:61-77 | one more token adds its declared name to the list when the name is new, and otherwise leaves the list as it is |
| JsComponentScoping.GetDeclaredJsIdentifiers | src/js_component_scoping.rs:55-81 | the token loop, which remembers the previous token, computes exactly the declared names |
| JsComponentScoping.RenamedAppend | src/js_component_scoping.rs:46-49 | renaming by a list made of two parts renames by the first part, then by the second |
| JsComponentScoping.Renamed | src/js_component_scoping.rs:43-52 | an expression that uses none of the listed names comes back unchanged; `Renamer.ProcessNoDeclared` and `Utils.FindAndReplace` state each rewrite |
| JsComponentScoping.Identifiers.constructor | src/js_component_scoping.rs:21 | a new shared identifier list is empty |
| JsComponentScoping.Renamer.constructor | src/js_component_scoping.rs:14-23 | a new renamer's prefix is `__<component>_<counter>_`. It takes the current counter value, which is then incremented, and starts with a fresh, empty identifier list |
| JsComponentScoping.Renamer.Clone | src/js_component_scoping.rs:7-11 | a clone copies the prefix and shares the identifier list, so names declared through one are seen by the other |
| JsComponentScoping.Renamer.Rename | src/js_component_scoping.rs:25-27 | a renamed name is the prefix followed by the original name |
| JsComponentScoping.Renamer.ProcessNoDeclared | src/js_component_scoping.rs:43-52 | the expression is rewritten once per listed name, in list order, each name becoming the prefix plus that name; the list is not changed |
| JsComponentScoping.Renamer.Process | src/js_component_scoping.rs:29-41 | the names the expression declares are appended to the shared list and runs of equal neighbours collapse, so the list afterwards holds exactly the old names and the new ones. The expression is then rewritten with the extended list |
| JsComponentScoping.PrefixesDistinct | src/js_component_scoping.rs:14-23 | for one component name, two different counter values give two different prefixes |
| JsCodegen.ScopedSelectorCode | src/js_codegen.rs:838-852 | a tag, class, id or universal selector scoped to a component is written as `.` followed by the class that scoping gives the matching elements |
| JsCodegen.SelectorCode | src/js_codegen.rs:838-852 | a combinator's code starts with its left side's code and ends with its right side's code |
| JsCodegen.SelectorCodeRoundTrip | src/js_codegen.rs:838-852 | writing back a selector parsed from identifier tokens gives the tokens' texts joined by single spaces |
| JsCodegen.SingleSelectorCode | src/js_codegen.rs:838-852 | writing back a single parsed selector gives its text |
| JsCodegen.RuleCode | src/js_codegen.rs:824-836 | a rule's code starts with its selector's code and ` {` and ends with `} ` |
| JsCodegen.StylesheetCode | src/js_codegen.rs:820-822 | every rule adds at least four characters to the sheet's code |
| JsCodegen.StylesheetAppend | src/js_codegen.rs:820-822 | the code of two sheets one after the other is the code of the first followed by the code of the second |
| JsCodegen.StylesheetLast | src/js_codegen.rs:820-822 | the code of the last rule ends the code of the sheet |
| JsCodegen.SingleRule | src/js_codegen.rs:824-836 | a rule's code starts with its selector and ` {` and ends with `} `; a sheet of one rule is that rule's code |
| JsCodegen.PropLines | src/js_codegen.rs:462-489 | one line per prop, in the order of the props |
| JsCodegen.PropsSet | src/js_codegen.rs:462-489 | the props code is empty exactly when the instance has no props |
| JsCodegen.TrimDollars | src/js_codegen.rs:616-623 | the name without its leading dollars: a suffix of the input that does not start with `$` |
| JsCodegen.ScanDepsCount | src/js_codegen.rs:605-635 | the token loop finds one dependency per identifier starting with `$`, and none otherwise; no dependency name starts with `$` |
| JsCodegen.Subscriptions | src/js_codegen.rs:642-648 | one guarded subscription per dependency, in the order the dependencies were found |
| JsCodegen.ReactiveExpr | src/js_codegen.rs:600-656 | an expression without `$` dependencies, after renaming, gets no subscription |
| JsCodegen.IdDomCode | src/js_codegen.rs:273-287 | a reactive id takes one fresh counter value; a static or absent id takes none |
| JsCodegen.ClassDomCode | src/js_codegen.rs:289-306 | a reactive class list takes one fresh counter value; a static or absent one takes none |
| JsCodegen.InputType | src/js_codegen.rs:403-414 | with no static `type` attribute there is no type; otherwise the type is the value of the first one |
| JsCodegen.SpecialAttr | src/js_codegen.rs:382-456 | the attribute fails exactly when it is `bind` on an element other than `input`; an attribute other than `onclick` and `bind` is left to the caller |
| JsCodegen.AttrCode | src/js_codegen.rs:336-380 | one attribute takes at most one fresh counter value |
| JsCodegen.AttrsCode | src/js_codegen.rs:308-317 | the attribute loop never lowers the counter |
| JsCodegen.AttrsErrSticks | src/js_codegen.rs:308-317 | once an attribute fails, the loop fails with that error whatever attributes follow |
| JsCodegen.NodeGen | src/js_codegen.rs:59-123 | generating a node never lowers the counter, so every name drawn afterwards is fresh |
| JsCodegen.LeafGen | src/js_codegen.rs:63-121 | text, reactive text, holes and style tags never lower the counter |
| JsCodegen.TextGen | src/js_codegen.rs:63-78 | text always succeeds and keeps the names; in HTML it is emitted as it is and takes no counter value, in DOM code it takes one |
| JsCodegen.HoleGen | src/js_codegen.rs:98-119 | a hole succeeds exactly when it is `Children`, which emits nothing, or a recursive instance in scope in DOM code. Any other hole not in scope panics with `Component X not replaced.`; no hole takes a counter value |
| JsCodegen.ChildrenGen | src/js_codegen.rs:319-325 | generating a child list never lowers the counter |
| JsCodegen.ScriptGen | src/js_codegen.rs:141-150 | generating a script never lowers the counter |
| JsCodegen.ElementGen | src/js_codegen.rs:163-178 | generating an element never lowers the counter |
| JsCodegen.HtmlGen | src/js_codegen.rs:180-257 | generating an element's HTML never lowers the counter |
| JsCodegen.JsDomGen | src/js_codegen.rs:259-333 | DOM code for an element always takes at least one fresh counter value, for the element variable |
| JsCodegen.ChildProps | src/js_codegen.rs:517-523 | in DOM code the props code is kept and the child's list starts empty; in HTML the child's list holds exactly the names the props code declares |
| JsCodegen.ComponentGen | src/js_codegen.rs:491-560 | generating a component instance never lowers the counter |
| JsCodegen.InstanceGen | src/js_codegen.rs:507-529 | an instance never lowers the counter and leaves the parent's list of names as it was |
| JsCodegen.InstanceBody | src/js_codegen.rs:525-559 | the instance's children never lower the counter, and the parent's list of names is unchanged |
| JsCodegen.ConditionalGen | src/js_codegen.rs:658-715 | a conditional never lowers the counter |
| JsCodegen.CondRest | src/js_codegen.rs:658-715 | a conditional's children never lower the counter |
| JsCodegen.LoopGen | src/js_codegen.rs:717-818 | a loop never lowers the counter |
| JsCodegen.LoopRest | src/js_codegen.rs:717-818 | a loop's body never lowers the counter |
| JsCodegen.LoopBodyGen | src/js_codegen.rs:729-747 | the loop body never lowers the counter |
| JsCodegen.CondFinish | src/js_codegen.rs:658-715 | a conditional succeeds exactly when its children do, and keeps the counter and names they leave |
| JsCodegen.LoopFinish | src/js_codegen.rs:749-818 | a loop succeeds exactly when its body does, and keeps the counter and names it leaves |
| JsCodegen.FullJs | src/js_codegen.rs:35-57 | a page takes at least one fresh counter value, for the root renamer |
| JsCodegenMethods.RuleCodegen | src/js_codegen.rs:824-836 | the rule's code built by the loop over its properties is the rule's code as `RuleCode` defines it |
| JsCodegenMethods.CodegenStylesheet | src/js_codegen.rs:820-822 | the loop over the rules builds exactly the sheet's code |
| JsCodegenMethods.HasReactiveAttributes | src/js_codegen.rs:152-160 | the result is true exactly when some attribute is reactive |
| JsCodegenMethods.CodegenPropsSet | src/js_codegen.rs:462-489 | the props code built by the loop is the props code `PropsSet` defines |
| JsCodegenMethods.ScanDependencies | src/js_codegen.rs:605-635 | the dependencies found are those of the expression |
| JsCodegenMethods.ScanTokens | src/js_codegen.rs:610-635 | the loop over the tokens ends in the state the token-by-token scan defines |
| JsCodegenMethods.ScanToken | src/js_codegen.rs:611-634 | one pass of the loop updates the dependencies, last name and member path as one scan step does |
| JsCodegenMethods.ReplaceDependencies | src/js_codegen.rs:637-640 | each dependency `$x` is replaced by `x.get()` in turn |
| JsCodegenMethods.SubscriptionLines | src/js_codegen.rs:642-648 | one subscription per dependency |
| JsCodegenMethods.ReactiveExpression | src/js_codegen.rs:600-656 | the code is the reactive expression of the renamed input, with one subscription per dependency and one initial call |
| JsCodegenMethods.ReactiveTextCodegen | src/js_codegen.rs:563-598 | the code is the reactive text code for the counter value taken, and exactly one value is taken |
| JsCodegenMethods.FindInputType | src/js_codegen.rs:403-414 | the type found is the first static `type` attribute's value |
| JsCodegenMethods.HandleSpecialAttr | src/js_codegen.rs:382-456 | the code and failure of a special attribute |
| JsCodegenMethods.HandleAttr | src/js_codegen.rs:336-380 | the code one attribute adds and the counter after it; a failure changes nothing else |
| JsCodegenMethods.ReactiveAttrCodegen | src/js_codegen.rs:345-378 | a reactive attribute is a special attribute when handled as one, else an updater with a fresh name |
| JsCodegenMethods.IdCodegen | src/js_codegen.rs:273-287 | the id part's code and the counter after it |
| JsCodegenMethods.ClassCodegen | src/js_codegen.rs:289-306 | the class part's code and the counter after it |
| JsCodegenMethods.AttrStep | src/js_codegen.rs:308-317 | one turn of the attribute loop extends the code by one attribute or fails with its error |
| JsCodegenMethods.AttrsCodegen | src/js_codegen.rs:308-317 | the attribute loop's code and counter, or the first failure |
| JsCodegenMethods.NodeCodegen | src/js_codegen.rs:59-123 | the code, counter and renamer's list after a node agree with the generator; a failure is the generator's failure |
| JsCodegenMethods.LeafCodegen | src/js_codegen.rs:63-121 | the same for nodes without children |
| JsCodegenMethods.TextCodegen | src/js_codegen.rs:63-78 | text is kept in HTML and becomes a text node with a fresh name in DOM code |
| JsCodegenMethods.HoleCodegen | src/js_codegen.rs:98-119 | a hole left in the tree is generated without changing any state |
| JsCodegenMethods.ChildrenCodegen | src/js_codegen.rs:319-325 | the loop over the children agrees with the children's generator, stopping at the first failure |
| JsCodegenMethods.ScriptCodegen | src/js_codegen.rs:141-150 | a script agrees with its generator; in HTML its declarations join the renamer's list |
| JsCodegenMethods.ElementCodegen | src/js_codegen.rs:163-178 | an element agrees with its generator |
| JsCodegenMethods.OpenTagCodegen | src/js_codegen.rs:207-245 | the opening tag built piece by piece is the one `OpenTag` defines |
| JsCodegenMethods.ReactiveHtmlCodegen | src/js_codegen.rs:183-205 | the DOM fallback in HTML agrees with the generator |
| JsCodegenMethods.HtmlCodegen | src/js_codegen.rs:180-257 | an element's HTML agrees with the generator |
| JsCodegenMethods.JsDomCodegen | src/js_codegen.rs:259-333 | an element's DOM code agrees with the generator |
| JsCodegenMethods.ChildPropsCodegen | src/js_codegen.rs:517-523 | the props code passed through the child renamer, and the child's list afterwards |
| JsCodegenMethods.ComponentCodegen | src/js_codegen.rs:491-560 | a component instance agrees with its generator |
| JsCodegenMethods.InstanceCodegen | src/js_codegen.rs:507-529 | an accepted instance agrees with its generator |
| JsCodegenMethods.ChildScope | src/js_codegen.rs:507-523 | the child renamer is new, its prefix takes one fresh counter value, and the props code is set up as `ChildProps` says |
| JsCodegenMethods.InstanceBodyCodegen | src/js_codegen.rs:525-559 | the instance's children with the child renamer, wrapped with the props code |
| JsCodegenMethods.ConditionalCodegen | src/js_codegen.rs:658-715 | a conditional agrees with its generator |
| JsCodegenMethods.CondRestCodegen | src/js_codegen.rs:658-715 | the rest of a conditional agrees with its generator |
| JsCodegenMethods.CondFinishCodegen | src/js_codegen.rs:658-715 | the conditional's code around its children agrees with the generator |
| JsCodegenMethods.LoopBodyCodegen | src/js_codegen.rs:729-747 | the loop body agrees with its generator |
| JsCodegenMethods.LoopInstCodegen | src/js_codegen.rs:761-791 | the code that starts a loop is the one `LoopInst` defines |
| JsCodegenMethods.LoopCodegen | src/js_codegen.rs:717-818 | a loop agrees with its generator |
| JsCodegenMethods.LoopRestCodegen | src/js_codegen.rs:717-818 | the rest of a loop agrees with its generator |
| JsCodegenMethods.LoopFinishCodegen | src/js_codegen.rs:749-818 | the loop's code around its body agrees with the generator |
| JsCodegenMethods.FullJsCodegen | src/js_codegen.rs:35-57 | the page and the counter after it agree with `FullJs` |
| JsCodegenMethods.RootCodegen | src/js_codegen.rs:35-57 | the root is generated in HTML with a renamer that takes one fresh counter value |
| JsCodegenProps.ComponentErrors | src/js_codegen.rs:491-505 | a component of the RsLilac dialect is refused as unsupported; a recursive one is refused in HTML |
| JsCodegenProps.ErrorMessages | src/js_codegen.rs:491-505 | the two messages name the component |
| JsCodegenProps.TextOutput | src/js_codegen.rs:63-78 | text is emitted as it is in HTML; in DOM code it becomes a text node taking one counter value |
| JsCodegenProps.TextNodeShape | src/js_codegen.rs:67-76 | a text node's code holds the text and ends by appending the node to the parent |
| JsCodegenProps.HoleOutput | src/js_codegen.rs:98-119 | a `Children` hole emits nothing; a hole not in scope as a recursive instance panics; a recursive call panics in HTML and in DOM code calls the instance's create function |
| JsCodegenProps.StaticPathIsStatic | src/js_codegen.rs:180-245 | an element goes the static way exactly when its attributes, id and classes are all static |
| JsCodegenProps.ReactiveFallback | src/js_codegen.rs:183-205 | in HTML an element with a reactive part succeeds exactly when its DOM code does, and is an anchor and script around that code |
| JsCodegenProps.ReactiveHtmlShape | src/js_codegen.rs:183-205 | the anchor comes first and the script holds the DOM code |
| JsCodegenProps.ConditionalOutput | src/js_codegen.rs:658-715 | a conditional takes two counter values and generates its children once as DOM code under its element variable; it fails exactly when they fail |
| JsCodegenProps.CondHtmlShape | src/js_codegen.rs:658-715 | in HTML the conditional starts with its anchor and holds its children |
| JsCodegenProps.CondDomEnds | src/js_codegen.rs:658-715 | in DOM code the conditional ends by appending its element to the parent |
| JsCodegenProps.CondDomHolds | src/js_codegen.rs:658-715 | in DOM code the conditional holds its children inside its update function |
| JsCodegenProps.LoopOutput | src/js_codegen.rs:717-818 | a loop takes two counter values and generates its body once as DOM code under its element variable; a reactive list's nameless wrapper changes nothing; it fails exactly when the body fails |
| JsCodegenProps.LoopBodyIsChildren | src/js_codegen.rs:729-747 | the body of a reactive list, wrapped in a nameless element, is the same DOM code as the children alone |
| JsCodegenProps.LoopFuncShape | src/js_codegen.rs:749-757 | the loop function binds the iterator variable to each item before the body |
| JsCodegenProps.VoidElement | src/js_codegen.rs:247-249 | a static void element is its opening tag alone |
| JsCodegenProps.ClosedElement | src/js_codegen.rs:251-256 | any other static element is its opening tag, its children's HTML and its closing tag, and fails when a child fails |
| JsCodegenProps.ClosedShape | src/js_codegen.rs:251-256 | such HTML starts with the opening tag and ends with the closing tag |
| JsCodegenProps.NamelessElement | src/js_codegen.rs:164-170 | a nameless element is nothing but its children, in either mode |
| JsCodegenProps.ChildrenConcat | src/js_codegen.rs:319-325 | children are generated in order, each from the counter and names the previous ones left, and fail with the first failure |
| JsCodegenProps.FullJsPage | src/js_codegen.rs:35-57 | the page wraps the root's HTML, generated with the root renamer and a fresh list; its failure is the root's failure |
| JsCodegenProps.DocumentShape | src/js_codegen.rs:35-57 | the page starts with the doctype and ends with the root's HTML |
| JsCodegenProps.FreshNamesDistinct | src/js_codegen.rs:68-69 | names built from distinct counter values are distinct |
| Job.DialectOf | src/job.rs:176-187 | the four listed extensions are read as dialects, `lilac` and `jslilac` as JsLilac; any other extension is unreachable |
| Job.DialectRoundTrip | src/job.rs:110-125 | every dialect has a listed extension that reads back as that dialect |
| Job.TargetOf | src/job.rs:85-89 | a root of the RsLilac dialect selects the GL target, the others the web target |
| Job.Collect | src/job.rs:152-169 | style tags are removed, a node keeps its kind, and a style tag itself gives its own rules |
| Job.CollectSeq | src/job.rs:158-166 | collecting a child list never adds children |
| Job.CollectClean | src/job.rs:152-169 | no style tag is left anywhere below the node |
| Job.CollectSeqClean | src/job.rs:158-166 | no child left in the list is or holds a style tag |
| Job.CollectSeqAppend | src/job.rs:158-166 | the loop runs from the last child: a later child's rules come first, and a style tag is dropped |
| Job.CollectParsed | src/job.rs:152-169 | collection keeps what the parser guarantees of a tree |
| Job.CollectSeqParsed | src/job.rs:158-166 | the same for a child list |
| Job.CollectComplete | src/job.rs:152-169 | the rules collected from a parsed tree have no unset selector |
| Job.CollectSeqComplete | src/job.rs:158-166 | the same for a child list |
| Job.CollectCssIn | src/job.rs:152-169 | the in-place loop, which removes style tags by index from the back, computes exactly the collection |
| Job.CollectStep | src/job.rs:160-165 | one turn of that loop keeps the children before the index and extends the rules by the child's |
| Job.CollectCss | src/job.rs:142-150 | the component's rules and the component without its style tags; nothing but its children changes |
| Job.Formatted | src/job.rs:189 | a located parse error becomes a message with its line and column; an offset past the text panics; other errors pass unchanged |
| Job.LoadComponent | src/job.rs:171-190 | an unlisted extension panics; a loaded component has the file's name and the extension's dialect, no props, is not recursive, and its children meet the parser's guarantees |
| Job.LoadSpecShape | src/job.rs:171-190 | an unlisted extension panics. Otherwise loading succeeds exactly when the text parses, and gives a component of the file's name and dialect, with no props, not recursive, whose children are the parse of the text. A parse error is formatted, never left with its offset |
| Job.Collected | src/job.rs:142-150 | collecting a component's styles is the collection of its node, and changes only its children |
| Job.PrepareSpec | src/job.rs:56-62 | collecting and scoping change only the component's children; a failure is the scoping panic |
| Job.PrepareParsed | src/job.rs:56-62 | a prepared parsed component still meets the parser's guarantees, and its rules are complete |
| Job.PreparedName | src/job.rs:56-62 | a prepared file was loaded, and its component has the file's name |
| Job.PreparedAll | src/job.rs:56-62 | one prepared component per file, in file order |
| Job.Prepare | src/job.rs:56-62 | collecting and scoping change only the children, keep the parser's guarantees, and give complete rules; a failure is a panic |
| Job.Register | src/job.rs:65-72 | a second component of the same name is refused with the conflicting-definitions message; otherwise the registry gains exactly that component |
| Job.RegisterStep | src/job.rs:56-73 | registering the next file's component extends the registry by that file |
| Job.RegisterKeys | src/job.rs:56-73 | the registry's names are those of the files read so far |
| Job.RegisterDialects | src/job.rs:56-73 | every file read so far has its component, of its own dialect, in the registry |
| Job.RegisterDistinct | src/job.rs:65-70 | a file whose name is not yet registered keeps the names distinct |
| Job.BuildRegistry | src/job.rs:56-73 | the registry loop computes exactly `BuildFrom` over the prepared files; on success the registry holds exactly one component per file, keyed by distinct names, and the rules are complete |
| Job.BuildFromPrepared | src/job.rs:56-73 | a registry loop that succeeds prepared every file it read |
| Job.BuildFromSheet | src/job.rs:56-64 | on success the stylesheet is the one so far followed by every file's rules, in file order |
| Job.BuildFromRegistry | src/job.rs:56-73 | on success the registry keeps every entry it had, and maps each file's name, absent before, to that file's prepared component |
| Job.BuildFromErr | src/job.rs:56-73 | a failed loop fails at some file after only successes: with that file's own error, or with `Conflicting definitions for component 'X'.` when the file prepared but its name was taken |
| Job.BuildOk | src/job.rs:56-73 | from an empty registry, success means every file was prepared, the stylesheet is all files' rules in file order, and each file's name maps to its prepared component |
| Job.BuildStep | src/job.rs:56-73 | one accepted file moves the loop on, with the registry extended and the file's rules appended |
| Job.ExpandRoot | src/job.rs:80-93 | a missing `Root` is `No root component found.`. Otherwise the result is the expansion of `Root`, with the target of its dialect, and every expanded child is resolved; an expansion error is returned as it is |
| Job.FinishBuild | src/job.rs:75-93 | a root stylesheet error fails with its message. On success the stylesheet is the files' rules followed by those of `root.css`, the registry is kept, and the root is `Root` expanded |
| Job.RootCssError | src/job.rs:75-78 | a root stylesheet error keeps its message without the offset |
| Job.CompileJob | src/job.rs:39-100 | a failing registry loop fails the job with its error, and a root stylesheet that does not parse fails it. On success every file is registered as the loop built it, the stylesheet is the loop's rules followed by those of `root.css`, `Root` exists, the target follows its dialect, and the root is `Root` expanded with no hole left to resolve |
| Pipeline.AsSources | src/lib.rs:46-48 | every in-memory file is read as a JsLilac component with its own name and text |
| Pipeline.WasmCompileInner | src/lib.rs:41-81 | a name defined twice or a missing `Root` fails; on success the registry holds the files, all JsLilac, and the output is the page generated from the expanded `Root` |
| Pipeline.RegisteredNames | src/lib.rs:46-64 | a registry built from the files has distinct names, contains `Root` exactly when some file is named so, and is all JsLilac |
| Pipeline.ErrorPage | src/lib.rs:29-39 | success passes through; an error message becomes a red `ERROR:` line; a panic stays a failure |
| Pipeline.ErrorLineMessage | src/lib.rs:29-39 | the error line gives back the message after its head |
| Pipeline.WasmCompile | src/lib.rs:29-39 | the output is `ErrorPage` of the inner result. That result is the registry loop's error when the loop fails, an error with no `Root` or a name defined twice, and on success the page generated from the expanded `Root` |

## Left out

- Command-line parsing (`src/main.rs`), the project configuration and its
  version check (`src/config.rs`), and the file I/O of `src/job.rs`
  (`list_files`, `load_file`, `write_file`, `get_root_css`): the model
  receives the files and the text of `root.css` as values.
- The target dispatcher (`src/codegen.rs`) and the scene-graph generator
  (`src/rs_codegen.rs`). `Job.CompileJob` stops at the selected target and
  the expanded tree. Only the web generator is modelled, which
  `Pipeline.WasmCompileInner` calls directly, as `wasm_compile_` does.
- The runtime library `prelude.js` and the crate version. They enter the
  generated page as the parameters `prelude` and `version`.
- The external `ress` JavaScript scanner. `JsLexer` is a small tokenizer
  standing in for it. Find-and-replace and declaration scanning are
  proved for any token list that `JsLexer.Spans` accepts, but the exact
  tokens of unusual JavaScript (regular expressions, template literals)
  may differ from `ress`, and a scanner error, which the source unwraps,
  does not occur.
- Unbounded recursion in `fill_holes`. A `Children` hole whose slot
  content is itself a `Children` hole makes the source recurse until the
  stack overflows. The model bounds the nesting depth by `fuel` and
  fails with a panic when it runs out. `Compile.FillChildFuel`,
  `Compile.FillInsideFuel` and `Compile.FillChildrenFuel` show that more
  fuel never changes a result that succeeded.
- In-place rewriting of the node tree in `_fill_holes`, `_collect_css` and
  `replace_refs`. The methods return the rewritten tree as a new value;
  the tree has no sharing, so nothing else observes the difference.
- The atomic operations on `ID_COUNTER`. The counter is the field of one
  `Lib.Context` object, and concurrent compilations are not modelled.
- Byte offsets. Text is a sequence of characters, so the model
  and the source agree on ASCII input only.
- Debug `println!` calls in `parse_elem`, the `owo_colors` colouring of
  messages, and the `wasm_bindgen` glue of `wasm_compile`.
- A panic reached inside `wasm_compile` is not caught by the source: the
  model keeps it as a `Panic` failure instead of an error line.
- JsCodegen.NodeGen: its own contract states only that the counter never goes back; what it emits is stated by the lemmas of `JsCodegenProps`.
- JsCodegen.LeafGen: as for `NodeGen`; its output is stated by `JsCodegenProps.TextOutput` and `JsCodegenProps.HoleOutput`.
- JsCodegen.ChildrenGen: as for `NodeGen`; its sequencing is stated by `JsCodegenProps.ChildrenConcat`.
- JsCodegen.ScriptGen: its own contract states only the counter bound.
- JsCodegen.ElementGen: as for `NodeGen`; see `JsCodegenProps.NamelessElement`.
- JsCodegen.HtmlGen: as for `NodeGen`; see `JsCodegenProps.ReactiveFallback`, `JsCodegenProps.VoidElement` and `JsCodegenProps.ClosedElement`.
- JsCodegen.JsDomGen: its own contract states only that the element variable takes a counter value.
- JsCodegen.ComponentGen: as for `NodeGen`; see `JsCodegenProps.ComponentErrors`.
- JsCodegen.InstanceGen: its own contract states the counter bound and that the parent's names are kept, not the code.
- JsCodegen.InstanceBody: as for `InstanceGen`.
- JsCodegen.ConditionalGen: as for `NodeGen`; see `JsCodegenProps.ConditionalOutput`.
- JsCodegen.CondRest: as for `NodeGen`.
- JsCodegen.LoopGen: as for `NodeGen`; see `JsCodegenProps.LoopOutput`.
- JsCodegen.LoopRest: as for `NodeGen`.
- JsCodegen.LoopBodyGen: as for `NodeGen`.
- JsCodegen.AttrCode: its own contract states only that at most one counter value is taken; the code of each attribute kind is not stated.
- JsCodegen.AttrsCode: its own contract states only the counter bound.
- JsCodegen.FullJs: its own contract states only the counter bound; `JsCodegenProps.FullJsPage` states the page.
- JsCodegen.SelectorCode: its own contract states only where a combinator's two sides sit; `JsCodegen.SelectorCodeRoundTrip` states what a parsed selector is written as.
- JsCodegen.RuleCode: its own contract states how the code starts and ends; `JsCodegenMethods.RuleCodegen` is proved equal to it.
- JsCodegen.StylesheetCode: its own contract states only a length bound; `JsCodegen.StylesheetAppend`, `JsCodegen.StylesheetLast` and `JsCodegen.SingleRule` state the concatenation.
- JsCodegen.ReactiveExpr: its own contract states only the case without dependencies; `JsCodegenMethods.ReactiveExpression` is proved equal to it, and `JsCodegen.ScanDepsCount` and `JsCodegen.Subscriptions` state its parts.
- JsComponentScoping.Renamed: its own contract states only the case where no name is used; `JsComponentScoping.Renamer.ProcessNoDeclared` and `Utils.FindAndReplace` state each rewrite.
- Css.ParseStylesheet: its own contract states only the empty stylesheet; `Css.ParseFrom`, `Css.Step` and `Css.ParsedSheetComplete` state the rest.
- Compile.FillChildren: its own contract states only the length; `Compile.FillStep`, `Compile.SiblingsIndependent` and `Compile.FillChildrenResolved` state the rest.
- TokenizeFrom: the words are stated in general only for text without braces (`Parse.TokenizeWords`); a brace block is shown on one example (`Parse.TokenizeBraceWord`).
- FormatPosition: its own contract states the first line; `Parse.FormatPositionLaterLine` states later lines.
