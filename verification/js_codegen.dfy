/**
 * What the web code generator of `src/js_codegen.rs` produces, as
 * functions. A node is generated either as HTML text or, below a reactive
 * construct, as DOM-building JavaScript appended to a parent element
 * variable (`Mode`). Generation consumes values of the process-wide
 * counter for fresh names and may extend the identifier list of the
 * current component's renamer, so every generator takes the counter value
 * `k` and the list `names` and returns both as they are afterwards.
 *
 * The methods that build the text step by step, as the source does, are
 * in `JsCodegenMethods` and are proved to produce exactly these values.
 */
module JsCodegen {
  import opened Wrappers
  import opened Text
  import opened Lib
  import Css
  import JsLexer
  import Utils
  import JsComponentScoping
  import CssComponentScoping

  /** `CodegenType`: HTML text, or DOM code appending to the element variable `parent`. */
  datatype Mode = Html | JsDom(parent: string)

  /** The recursive rename map: component name to the name of its create function. */
  type Rrm = map<string, string>

  /** A successful generation: the code, the next counter value, the renamer's list afterwards. */
  datatype Out = Out(code: string, counter: nat, names: seq<string>)

  function N(k: nat): string {
    NatToString(k)
  }

  /**
   * The HTML void elements, which have no children and no closing tag;
   * this stands for the `VOID_ELEMENTS` table the generator imports.
   */
  predicate IsVoid(name: string) {
    name == "area" || name == "base" || name == "br" || name == "col" || name == "embed"
    || name == "hr" || name == "img" || name == "input" || name == "link" || name == "meta"
    || name == "param" || name == "source" || name == "track" || name == "wbr"
  }

  /* ---------------- stylesheets ---------------- */

  /** `Selector::codegen`; the unset placeholder never reaches it. */
  function SelectorCode(s: Css.Selector): (r: string)
    requires Css.Complete(s)
    ensures s.Descendant? || s.Child? || s.NextSibling? ==>
              |SelectorCode(s.left)| < |r| && r[..|SelectorCode(s.left)|] == SelectorCode(s.left)
              && |SelectorCode(s.right)| < |r| && r[|r| - |SelectorCode(s.right)|..] == SelectorCode(s.right)
  {
    match s
    case All => "*"
    case ID(id) => "#" + id
    case Class(c) => "." + c
    case Tag(t) => t
    case Pseudo(p) => ":" + p
    case Descendant(a, b) => SelectorCode(a) + " " + SelectorCode(b)
    case Child(a, b) => SelectorCode(a) + " > " + SelectorCode(b)
    case NextSibling(a, b) => SelectorCode(a) + " + " + SelectorCode(b)
  }

  /**
   * Generating a parsed selector gives back its words joined by single
   * spaces: each simple selector is written as it was read, and the
   * combinators `>` and `+` between spaces.
   */
  lemma {:induction false} SelectorCodeRoundTrip(s: seq<Css.Token>, pos: nat)
    requires |s| > 0 && Css.AllIdentifiers(s) && Css.ParseJoined(s, pos).Ok?
    ensures SelectorCode(Css.ParseJoined(s, pos).value) == Join(Css.Texts(s), " ")
    decreases |s|
  {
    var x := s[0].text;
    SingleSelectorCode(x, pos);
    if |s| >= 2 {
      var r := Css.ParseJoined(s, pos).value;
      var texts := Css.Texts(s);
      JoinCons(texts);
      assert texts[1..] == Css.Texts(s[1..]);
      if s[1].text == ">" || s[1].text == "+" {
        SelectorCodeRoundTrip(s[2..], pos);
        JoinCons(texts[1..]);
        assert texts[1..][1..] == Css.Texts(s[2..]);
        CombinatorCode(r, x, s[1].text, Join(Css.Texts(s[2..]), " "));
      } else {
        SelectorCodeRoundTrip(s[1..], pos);
      }
    }
  }

  /** A list of two or more parts joins as its head, the separator and the rest. */
  lemma JoinCons(parts: seq<string>)
    requires |parts| >= 2
    ensures Join(parts, " ") == parts[0] + " " + Join(parts[1..], " ")
  {
  }

  /** A combinator between spaces is written as it reads. */
  lemma CombinatorCode(r: Css.Selector, left: string, comb: string, right: string)
    requires Css.Complete(r) && (r.Child? || r.NextSibling?)
    requires comb == (if r.Child? then ">" else "+")
    requires SelectorCode(r.left) == left && SelectorCode(r.right) == right
    ensures SelectorCode(r) == left + " " + (comb + " " + right)
  {
    assert left + " " + (comb + " " + right) == left + (" " + comb + " ") + right;
  }

  /** A simple selector is written back as the word it was read from. */
  lemma SingleSelectorCode(x: string, pos: nat)
    requires Css.SingleSelector(x, pos).Ok?
    ensures SelectorCode(Css.SingleSelector(x, pos).value) == x
  {
    if |x| >= 2 && (x[0] == '#' || x[0] == '.' || x[0] == ':') {
      assert [x[0]] + x[1..] == x;
    }
  }

  /**
   * A simple selector scoped to a component is emitted as a class selector
   * naming the class that scoping gives the matching elements.
   */
  lemma ScopedSelectorCode(s: Css.Selector, prefix: string)
    requires s.Tag? || s.Class? || s.ID? || s.All?
    ensures var sc := CssComponentScoping.ScopedSelector(s, prefix);
      Css.Complete(sc) && sc.Class? && SelectorCode(sc) == "." + sc.className
  {
  }

  /** One declaration: `name:values joined by spaces;`. */
  function PropertyCode(p: Css.Property): string {
    p.name + ":" + Join(p.value, " ") + ";"
  }

  /** The declarations of the first `n` properties, in order. */
  function PropertiesCode(ps: seq<Css.Property>, n: nat): string
    requires n <= |ps|
  {
    if n == 0 then "" else PropertiesCode(ps, n - 1) + PropertyCode(ps[n - 1])
  }

  /** `Rule::codegen`: the selector, ` {`, the declarations, `} `. */
  function RuleCode(r: Css.Rule): (c: string)
    requires Css.Complete(r.selector)
    ensures |c| >= |SelectorCode(r.selector)| + 4
    ensures c[..|SelectorCode(r.selector)| + 2] == SelectorCode(r.selector) + " {"
    ensures c[|c| - 2..] == "} "
  {
    var body := PropertiesCode(r.properties, |r.properties|);
    assert SelectorCode(r.selector) + " {" + body + "} " == (SelectorCode(r.selector) + " {") + (body + "} ");
    SelectorCode(r.selector) + " {" + body + "} "
  }

  /** `codegen_stylesheet`: the rules' code, concatenated in order. */
  function StylesheetCode(ss: Css.StyleSheet): (r: string)
    requires Css.CompleteSheet(ss)
    ensures |r| >= 4 * |ss|
  {
    if ss == [] then "" else StylesheetCode(ss[..|ss| - 1]) + RuleCode(ss[|ss| - 1])
  }

  /** The code of a sheet is the code of its rules, concatenated in order. */
  lemma {:induction false} StylesheetAppend(a: Css.StyleSheet, b: Css.StyleSheet)
    requires Css.CompleteSheet(a) && Css.CompleteSheet(b)
    ensures Css.CompleteSheet(a + b)
    ensures StylesheetCode(a + b) == StylesheetCode(a) + StylesheetCode(b)
    decreases |b|
  {
    if b == [] {
      assert a + b == a;
    } else {
      var b' := b[..|b| - 1];
      Css.CompleteSheetParts(a, b);
      var tail := RuleCode(b[|b| - 1]);
      var front, left, right := StylesheetCode(a + b'), StylesheetCode(a), StylesheetCode(b');
      assert front == left + right by {
        StylesheetAppend(a, b');
      }
      assert StylesheetCode(a + b) == front + tail by {
        assert (a + b)[..|a + b| - 1] == a + b';
        assert (a + b)[|a + b| - 1] == b[|b| - 1];
        StylesheetLast(a + b);
      }
      assert StylesheetCode(b) == right + tail by {
        StylesheetLast(b);
      }
      assert (left + right) + tail == left + (right + tail);
    }
  }

  /** The last rule's code ends the sheet's code. */
  lemma StylesheetLast(ss: Css.StyleSheet)
    requires Css.CompleteSheet(ss) && ss != []
    ensures Css.CompleteSheet(ss[..|ss| - 1])
    ensures StylesheetCode(ss) == StylesheetCode(ss[..|ss| - 1]) + RuleCode(ss[|ss| - 1])
  {
  }

  /** A one-rule sheet is that rule's code. */
  lemma SingleRule(r: Css.Rule)
    requires Css.Complete(r.selector)
    ensures Css.CompleteSheet([r]) && StylesheetCode([r]) == RuleCode(r)
  {
    assert [r][..0] == [];
  }

  /* ---------------- props ---------------- */

  /** One line of `codegen_props_set`; a reactive value is renamed into the component's scope. */
  function PropLine(p: Attribute, prefix: string, names: seq<string>): string {
    match p
    case StaticAttr(name, Some(v)) => "props." + name + " = \"" + v + "\";"
    case StaticAttr(name, None) => "props." + name + " = true;"
    case ReactiveAttr(name, v) => "props." + name + " = " + JsComponentScoping.Renamed(v, names, prefix) + ";"
  }

  function PropLines(props: seq<Attribute>, prefix: string, names: seq<string>): (r: seq<string>)
    ensures |r| == |props|
    ensures forall i :: 0 <= i < |props| ==> r[i] == PropLine(props[i], prefix, names)
  {
    seq(|props|, i requires 0 <= i < |props| => PropLine(props[i], prefix, names))
  }

  /** `codegen_props_set`: nothing without props, otherwise a `props` object and one line per prop. */
  function PropsSet(props: seq<Attribute>, prefix: string, names: seq<string>): (r: string)
    ensures r == "" <==> props == []
  {
    if props == [] then ""
    else "const props = {};\n" + Join(PropLines(props, prefix, names), "\n") + "\n"
  }

  /* ---------------- reactive expressions ---------------- */

  /** `throw_rt_error` */
  function ThrowRt(message: string): string {
    "throw new Error(\"[Lilac runtime error]: " + message + "\")"
  }

  /** `trim_start_matches("$")`: every leading `$` removed. */
  function TrimDollars(s: string): (r: string)
    ensures |r| <= |s| && (r == [] || r[0] != '$')
    ensures r == s[|s| - |r|..]
  {
    if |s| > 0 && s[0] == '$' then TrimDollars(s[1..]) else s
  }

  predicate StartsWithDollar(s: string) {
    |s| > 0 && s[0] == '$'
  }

  /**
   * The locals of the token loop of `reactive_expression`: the
   * dependencies found so far, each with the member path in front of it,
   * the last identifier seen, and the member path being read.
   */
  datatype DepScan = DepScan(deps: seq<(string, string)>, lastName: string, namespace: string)

  /** One token of that loop. */
  function DepStep(s: string, t: JsLexer.Token, st: DepScan): DepScan
    requires t.start <= t.end <= |s|
  {
    if t.kind == JsLexer.Ident then
      var name := JsLexer.TextOf(s, t);
      if StartsWithDollar(name) then
        DepScan(st.deps + [(TrimDollars(name), st.namespace)], TrimDollars(name) + ".get()", "")
      else DepScan(st.deps, name, st.namespace)
    else if t.kind == JsLexer.Punct && JsLexer.TextOf(s, t) == "." then
      DepScan(st.deps, st.lastName, st.namespace + st.lastName + ".")
    else DepScan(st.deps, st.lastName, "")
  }

  /** The loop state after the first `n` tokens. */
  function ScanDeps(s: string, toks: seq<JsLexer.Token>, n: nat): DepScan
    requires n <= |toks| && JsLexer.Spans(s, toks, 0)
  {
    if n == 0 then DepScan([], "", "") else DepStep(s, toks[n - 1], ScanDeps(s, toks, n - 1))
  }

  /** The number of identifiers starting with `$` among the first `n` tokens. */
  function DollarIdents(s: string, toks: seq<JsLexer.Token>, n: nat): nat
    requires n <= |toks| && JsLexer.Spans(s, toks, 0)
  {
    if n == 0 then 0
    else
      var t := toks[n - 1];
      DollarIdents(s, toks, n - 1)
        + (if t.kind == JsLexer.Ident && StartsWithDollar(JsLexer.TextOf(s, t)) then 1 else 0)
  }

  /**
   * Every `$`-identifier is one dependency, in order, named without its
   * dollars; nothing else is.
   */
  lemma {:induction false} ScanDepsCount(s: string, toks: seq<JsLexer.Token>, n: nat)
    requires n <= |toks| && JsLexer.Spans(s, toks, 0)
    ensures |ScanDeps(s, toks, n).deps| == DollarIdents(s, toks, n)
    ensures forall i :: 0 <= i < |ScanDeps(s, toks, n).deps| ==>
      ScanDeps(s, toks, n).deps[i].0 == [] || ScanDeps(s, toks, n).deps[i].0[0] != '$'
  {
    if n > 0 {
      ScanDepsCount(s, toks, n - 1);
    }
  }

  /** The dependencies of an expression. */
  function DepsOf(s: string): seq<(string, string)> {
    var toks := JsLexer.Lex(s);
    ScanDeps(s, toks, |toks|).deps
  }

  /** The replacement loop: `$dep` becomes `dep.get()` for the first `n` dependencies. */
  function ReplaceDeps(expr: string, deps: seq<(string, string)>, n: nat): string
    requires n <= |deps|
  {
    if n == 0 then expr
    else Utils.FindReplaced(ReplaceDeps(expr, deps, n - 1), "$" + deps[n - 1].0, deps[n - 1].0 + ".get()")
  }

  /** The guard and subscription for one dependency. */
  function Subscription(dep: (string, string), updateFn: string, expr: string): string {
    var (name, ns) := dep;
    "if ((" + ns + name + ").__STATE !== true) "
      + ThrowRt(ns + "$" + name + " can only be used with a state type.")
      + ";\n (" + ns + name + ").subscribe(() => (" + updateFn + ")(" + expr + "));"
  }

  function Subscriptions(deps: seq<(string, string)>, updateFn: string, expr: string): (r: seq<string>)
    ensures |r| == |deps|
    ensures forall i :: 0 <= i < |deps| ==> r[i] == Subscription(deps[i], updateFn, expr)
  {
    seq(|deps|, i requires 0 <= i < |deps| => Subscription(deps[i], updateFn, expr))
  }

  /**
   * `reactive_expression`: the expression renamed into the component's
   * scope, each `$x` read as `x.get()`, one subscription per dependency
   * that calls `updateFn` again, and one initial call.
   */
  function ReactiveExpr(expr: string, updateFn: string, prefix: string, names: seq<string>): (r: string)
    ensures var e := JsComponentScoping.Renamed(expr, names, prefix);
            DepsOf(e) == [] ==> r == ReactiveExprCode("", updateFn, e)
  {
    var e := JsComponentScoping.Renamed(expr, names, prefix);
    var deps := DepsOf(e);
    var e2 := ReplaceDeps(e, deps, |deps|);
    ReactiveExprCode(Join(Subscriptions(deps, updateFn, e2), "\n"), updateFn, e2)
  }

  function ReactiveExprCode(subscriptions: string, updateFn: string, expr: string): string {
    Line(8) + subscriptions + Line(8) + "(" + updateFn + ")(" + expr + "); " + Line(8)
  }

  /* ---------------- fixed code shapes ---------------- */

  /*
   * The templates below are the source's format strings with the same
   * text and indentation; `Line(n)` is a line break followed by `n`
   * spaces, and the fixed text is written in short pieces.
   */

  function Spaces(n: nat): string {
    seq(n, _ => ' ')
  }

  function Line(n: nat): string {
    "\n" + Spaces(n)
  }

  function TextNodeCode(parent: string, k: nat, t: string): string {
    var v := "__textNode" + N(k);
    "const " + v + " = " + "document.createTextNode(`" + t + "`);\n" + parent + ".appendChild(" + v + ");\n"
  }

  function HoleCallCode(propsSet: string, createFn: string, parent: string): string {
    "{ " + propsSet + ";" + Line(1) + createFn + "(props, " + parent + "); }"
  }

  function ReactiveTextJs(textNode: string, update: string, r: string): string {
    Line(4) + "let " + textNode + " = " + "document.createTextNode(``);" + Line(4) + "const " + update
      + " = (text) => " + textNode + ".nodeValue = text;" + Line(4) + r + Line(4)
  }

  function ReactiveTextOut(mode: Mode, id: string, js: string, textNode: string): string {
    match mode
    case Html =>
      "<span id=\"" + id + "\"></span>\n" + "<script>\n" + js + "\n" + "document.getElementById(\"" + id
        + "\").appendChild(" + textNode + ");\n" + "</script>"
    case JsDom(parent) => js + "\n" + parent + ".appendChild(" + textNode + ");"
  }

  /** `reactive_text_codegen`, given the counter value it takes. */
  function ReactiveTextCode(x: string, mode: Mode, prefix: string, names: seq<string>, k: nat): string {
    var id := "r" + N(k);
    ReactiveTextOut(mode, id, ReactiveTextJs("__" + id + "textNode", "__" + id + "setTextNode",
                                             ReactiveExpr(x, "__" + id + "setTextNode", prefix, names)),
                    "__" + id + "textNode")
  }

  /** The anchor and script an element with a reactive part becomes in HTML. */
  function ReactiveHtmlCode(id: string, elemVar: string, js: string): string {
    "<span id=\"" + id + "\"></span>" + Line(16) + "<script>" + Line(20) + "const " + elemVar
      + " = document.getElementById(\"" + id + "\");" + Line(20) + js + Line(16) + "</script>"
  }

  /**
   * A reactive id, class list or attribute: an update function performing
   * `assignment` on the element, then the reactive expression `r` that
   * subscribes it.
   */
  function UpdaterCode(update: string, elemVar: string, assignment: string, r: string): string {
    "const " + update + " = (val) => " + elemVar + assignment + ";\n" + r + "\n"
  }

  function StaticIdCode(elemVar: string, id: string): string {
    elemVar + ".id = \"" + id + "\";\n"
  }

  function StaticClassCode(elemVar: string, classes: seq<string>): string {
    elemVar + ".className = \"" + Join(classes, " ") + "\";\n"
  }

  function SetAttributeCode(elemVar: string, name: string, value: Option<string>): string {
    elemVar + ".setAttribute(\"" + name + "\", \"" + (if value.Some? then value.value else "") + "\");\n"
  }

  function OnClickCode(elemVar: string, value: string): string {
    elemVar + ".onclick = (" + value + ");"
  }

  function CreateElementCode(elemVar: string, name: string): string {
    "const " + elemVar + " = document." + "createElement(\"" + name + "\");\n"
  }

  function AppendCode(parent: string, child: string): string {
    parent + ".appendChild(" + child + ");\n"
  }

  function UnsupportedDialect(name: string): string {
    "Unsupported dialect for " + "component " + name + ". Valid dialects for web are " + "JsLilac and TsLilac. The "
      + "target is determined by the " + "dialect of the Root componenet"
  }

  function RecursiveInHtml(name: string): string {
    "Recursive component " + name + " in non-conditional " + "context."
  }

  /** The last step of `Component::codegen`, given the props code and the children's code. */
  function ComponentCode(recursive: bool, mode: Mode, createFn: string, propsSet: string, inner: string): string {
    match mode
    case Html => if propsSet == "" then inner else "<script>\n" + propsSet + "\n</script>\n" + inner
    case JsDom(parent) =>
      if recursive then
        Line(24) + "const " + createFn + " = (props, parent_elem) => {" + Line(28) + "const " + parent
          + " = parent_elem;" + Line(28) + inner + Line(24) + "};" + Line(24) + "{" + Line(28) + propsSet + ";"
          + Line(28) + createFn + "(props, " + parent + ");" + Line(24) + "}" + Line(24)
      else "{\n" + propsSet + ";" + inner + "}\n"
  }

  function CondFunc(id: string, elemVar: string, children: string): string {
    "const " + id + "cond = (c) => {" + Line(8) + elemVar + ".innerHTML = \"\";" + Line(8) + "if (c) {" + Line(12)
      + children + Line(8) + "}" + Spaces(4) + Line(4) + "};"
  }

  function CondCode(mode: Mode, id: string, elemVar: string, func: string, r: string): string {
    match mode
    case Html =>
      "<span id=\"" + id + "\"></span>\n" + "<script>" + Line(4) + "const " + elemVar + " = document.getElementById(\""
        + id + "\");" + Line(4) + func + Line(4) + r + " \n" + "</script>\n"
    case JsDom(parent) =>
      "\nconst " + elemVar + " = " + "document.createElement(\"span\")" + ";\n" + func + "\n" + r + "\n" + parent
        + ".appendChild(" + elemVar + ");\n"
  }

  function LoopFunc(id: string, elemVar: string, iteratorVariable: string, children: string): string {
    "const " + id + "loop = (arr) => {" + Line(8) + elemVar + ".innerHTML = \"\";" + Line(8)
      + "for (let __i = 0; __i < " + "arr.length; __i++) {" + Line(12) + "const " + iteratorVariable + " = arr[__i];"
      + Line(12) + children + Line(8) + "}" + Line(4) + "};"
  }

  /** The subscriptions of a loop over a reactive list `list`. */
  function ListSubscribe(list: string, iteratorVariable: string, elemVar: string, children: string, id: string): string {
    Line(12) + "if (" + list + ".__LSTATE !== true) " + ThrowRt("$lstate can only be used " + "with an lstate type.")
      + "\n" + Line(12) + list + ".subscribeAdd((value, " + "position) => {" + Line(16) + "const " + iteratorVariable
      + " = value;" + Line(16) + "let wrapper_span = undefined;" + Line(16) + "{" + Line(20) + "const " + elemVar
      + " = " + "document.createElement(\"span\")" + ";" + Line(20) + children + Line(20) + "wrapper_span = " + elemVar
      + ";" + Line(16) + "}" + Line(16) + "if (" + elemVar + ".childNodes.length === 0) {" + Line(20) + elemVar
      + ".appendChild(wrapper_span);" + Line(16) + "} else {" + Line(20) + elemVar + ".insertBefore(wrapper_span, "
      + elemVar + ".childNodes[position]);" + Line(16) + "}" + Line(12) + "});" + "\n" + Line(12) + list
      + ".subscribeRemove((position) " + "=> {" + Line(16) + elemVar + ".removeChild(" + elemVar
      + ".childNodes[position]);" + Line(12) + "});" + "\n" + Line(12) + id + "loop(" + list + ".get());" + Line(8)
  }

  function LoopCode(mode: Mode, id: string, elemVar: string, func: string, inst: string): string {
    match mode
    case Html =>
      "<span id=\"" + id + "\"></span>" + Line(16) + "<script>" + Line(20) + "const " + elemVar
        + " = document.getElementById(\"" + id + "\");" + Line(20) + Line(20) + func + Line(20) + inst + " "
        + Line(16) + "</script>"
    case JsDom(parent) =>
      Line(16) + "const " + elemVar + " = " + "document.createElement(\"span\")" + ";" + Line(16) + func + Line(16)
        + inst + Line(16) + parent + ".appendChild(" + elemVar + ");" + Line(16)
  }

  /** The two-way binding of an `input` of type `text` or `checkbox`; nothing for another type. */
  function BindCode(inputType: string, value: string, elemVar: string): string {
    if inputType != "text" && inputType != "checkbox" then ""
    else
      var (field, event) := if inputType == "text" then ("value", "oninput") else ("checked", "onchange");
      "{" + Line(16) + "const value = " + value + ";" + Line(16) + "if (value.__STATE === true) {" + Line(20)
        + "const update_fn = () => (" + elemVar + ")." + field + " = value.get();" + Line(20)
        + "value.subscribe(update_fn);" + Line(20) + "update_fn();" + Line(20) + elemVar + "." + event
        + " = (e) => {" + Line(24) + "value.set(() => " + "e.target." + field + ");" + Line(20) + "};" + Line(16)
        + "} else {" + Line(20) + ThrowRt("bind attribute can only be " + "used with a state type.") + Line(16) + "}"
        + Line(12) + "}"
  }

  function Document(version: string, prelude: string, sheet: string, html: string): string {
    "<!DOCTYPE html>\n" + "<!-- This file was generated " + "by Lilac v" + version + ". -->\n" + "<head>" + Line(4)
      + "<meta charset=\"UTF-8\">\n" + "</head>\n" + "<script>" + prelude + "</script>\n" + "<style>" + sheet
      + "</style>\n" + html
  }

  /* ---------------- elements: the static parts ---------------- */

  predicate AnyReactive(attrs: seq<Attribute>) {
    exists i :: 0 <= i < |attrs| && attrs[i].IsReactive()
  }

  /** The test that sends an element in HTML mode to the DOM fallback. */
  predicate ReactiveElement(e: Element) {
    AnyReactive(e.attributes)
    || (e.id.Some? && e.id.value.IsReactive())
    || (e.classes.Some? && e.classes.value.IsReactive())
  }

  function StaticAttrCode(a: Attribute): string
    requires a.StaticAttr?
  {
    if a.value.Some? then " " + a.name + "=\"" + a.value.value + "\"" else " " + a.name
  }

  /** The attributes of the opening tag, for the first `n` attributes. */
  function StaticAttrsCode(attrs: seq<Attribute>, n: nat): string
    requires n <= |attrs| && !AnyReactive(attrs)
  {
    if n == 0 then "" else StaticAttrsCode(attrs, n - 1) + StaticAttrCode(attrs[n - 1])
  }

  function IdAttrCode(e: Element): string
    requires !ReactiveElement(e)
  {
    if e.id.Some? then " id=\"" + e.id.value.value + "\"" else ""
  }

  function ClassAttrCode(e: Element): string
    requires !ReactiveElement(e)
  {
    if e.classes.Some? then " class=\"" + Join(e.classes.value.names, " ") + "\"" else ""
  }

  /** The opening tag of an element with no reactive part. */
  function OpenTag(e: Element): string
    requires !ReactiveElement(e)
  {
    "<" + e.name + IdAttrCode(e) + ClassAttrCode(e) + StaticAttrsCode(e.attributes, |e.attributes|) + ">"
  }

  /* ---------------- elements: the DOM parts ---------------- */

  /** The id part of `jsdom_codegen`, and the counter after it. */
  function IdDomCode(id: Option<Id>, elemVar: string, prefix: string, names: seq<string>, k: nat): (r: (string, nat))
    ensures r.1 == if id.Some? && id.value.ReactiveId? then k + 1 else k
  {
    match id
    case None => ("", k)
    case Some(StaticId(v)) => (StaticIdCode(elemVar, v), k)
    case Some(ReactiveId(expr)) =>
      (UpdaterCode("__" + N(k) + "update_id", elemVar, ".id = val",
                   ReactiveExpr(expr, "__" + N(k) + "update_id", prefix, names)), k + 1)
  }

  /** The class part of `jsdom_codegen`, and the counter after it. */
  function ClassDomCode(classes: Option<ClassList>, elemVar: string, prefix: string, names: seq<string>, k: nat): (r: (string, nat))
    ensures r.1 == if classes.Some? && classes.value.ReactiveClasses? then k + 1 else k
  {
    match classes
    case None => ("", k)
    case Some(StaticClasses(cl)) => (StaticClassCode(elemVar, cl), k)
    case Some(ReactiveClasses(expr)) =>
      (UpdaterCode("__" + N(k) + "update_classes", elemVar, ".className = val",
                   ReactiveExpr(expr, "__" + N(k) + "update_classes", prefix, names)), k + 1)
  }

  /** A static attribute named `type`. */
  predicate TypeAttr(a: Attribute) {
    a.StaticAttr? && a.name == "type"
  }

  /** The value of the first static `type` attribute, when it has one. */
  function InputType(all: seq<Attribute>): (r: Option<string>)
    ensures r.Some? ==> StaticAttr("type", Some(r.value)) in all
    ensures (forall i :: 0 <= i < |all| ==> !TypeAttr(all[i])) ==> r.None?
    ensures forall i :: 0 <= i < |all| && TypeAttr(all[i]) && (forall j :: 0 <= j < i ==> !TypeAttr(all[j])) ==>
              r == all[i].value
  {
    if all == [] then None
    else if all[0].StaticAttr? && all[0].name == "type" then all[0].value
    else InputType(all[1..])
  }

  /**
   * `handle_special_attr`: `onclick` becomes a handler and `bind` a two-way
   * binding (on an `input` only; any other element fails its assertion);
   * `None` when the attribute is not handled here.
   */
  function SpecialAttr(name: string, value: string, elemVar: string, elemName: string, all: seq<Attribute>,
                       prefix: string, names: seq<string>): (r: Result<Option<string>>)
    ensures r.Err? <==> name == "bind" && elemName != "input"
    ensures name != "onclick" && name != "bind" ==> r == Ok(None)
  {
    if name == "onclick" then
      Ok(Some(OnClickCode(elemVar, JsComponentScoping.Renamed(value, names, prefix))))
    else if name == "bind" then
      var v := JsComponentScoping.Renamed(value, names, prefix);
      if elemName != "input" then Err(Panic("assertion failed: elem_name == \"input\""))
      else
        match InputType(all)
        case None => Ok(None)
        case Some(t) => Ok(Some(BindCode(t, v, elemVar)))
    else Ok(None)
  }

  /** `handle_attr`: the code one attribute adds and the counter after it. */
  function AttrCode(a: Attribute, elemVar: string, elemName: string, all: seq<Attribute>,
                    prefix: string, names: seq<string>, k: nat): (r: Result<(string, nat)>)
    ensures r.Ok? ==> r.value.1 == k || r.value.1 == k + 1
  {
    match a
    case StaticAttr(name, value) => Ok((SetAttributeCode(elemVar, name, value), k))
    case ReactiveAttr(name, v) =>
      match SpecialAttr(name, v, elemVar, elemName, all, prefix, names)
      case Err(x) => Err(x)
      case Ok(Some(code)) => Ok((code, k))
      case Ok(None) =>
        Ok((UpdaterCode("__" + N(k) + "update_attr", elemVar, ".setAttribute(\"" + name + "\", val)",
                        ReactiveExpr(v, "__" + N(k) + "update_attr", prefix, names)), k + 1))
  }

  /** The attribute loop of `jsdom_codegen` over the first `n` attributes. */
  function AttrsCode(attrs: seq<Attribute>, n: nat, elemVar: string, elemName: string,
                     prefix: string, names: seq<string>, k: nat): (r: Result<(string, nat)>)
    requires n <= |attrs|
    ensures r.Ok? ==> r.value.1 >= k
  {
    if n == 0 then Ok(("", k))
    else
      match AttrsCode(attrs, n - 1, elemVar, elemName, prefix, names, k)
      case Err(x) => Err(x)
      case Ok((code, k1)) =>
        match AttrCode(attrs[n - 1], elemVar, elemName, attrs, prefix, names, k1)
        case Err(x) => Err(x)
        case Ok((more, k2)) => Ok((code + more, k2))
  }

  /** Once an attribute fails, the attribute loop fails with that error whatever follows. */
  lemma {:induction false} AttrsErrSticks(attrs: seq<Attribute>, i: nat, j: nat, elemVar: string, elemName: string,
                                          prefix: string, names: seq<string>, k: nat)
    requires i <= j <= |attrs|
    requires AttrsCode(attrs, i, elemVar, elemName, prefix, names, k).Err?
    ensures AttrsCode(attrs, j, elemVar, elemName, prefix, names, k) == AttrsCode(attrs, i, elemVar, elemName, prefix, names, k)
    decreases j
  {
    if j > i {
      AttrsErrSticks(attrs, i, j - 1, elemVar, elemName, prefix, names, k);
    }
  }

  /* ---------------- the tree ---------------- */

  /** A bound on the nesting below a node, used only to show that generation ends. */
  ghost function Height(n: Node): nat
    decreases n, 1
  {
    match n
    case ComponentNode(c) => 1 + HeightSeq(c.children)
    case ElementNode(e) => 1 + HeightSeq(e.children)
    case ConditionalElements(_, cs) => 1 + HeightSeq(cs)
    case Loop(_, _, _, cs) => 1 + HeightSeq(cs)
    case ScriptTag(_) => 2
    case _ => 0
  }

  ghost function HeightSeq(cs: seq<Node>): (h: nat)
    ensures forall i :: 0 <= i < |cs| ==> Height(cs[i]) <= h
    ensures |cs| == 1 ==> h == Height(cs[0])
    decreases cs, 0
  {
    if cs == [] then 0
    else
      var rest := HeightSeq(cs[1..]);
      assert forall i :: 1 <= i < |cs| ==> cs[i] == cs[1..][i - 1];
      if Height(cs[0]) > rest then Height(cs[0]) else rest
  }

  /** `Node::codegen_js` */
  function NodeGen(n: Node, mode: Mode, prefix: string, rrm: Rrm, k: nat, names: seq<string>): (r: Result<Out>)
    ensures r.Ok? ==> r.value.counter >= k
    decreases Height(n), 4, 0
  {
    match n
    case ComponentNode(c) => ComponentGen(c, mode, prefix, rrm, k, names)
    case ElementNode(e) => ElementGen(e, mode, prefix, rrm, k, names)
    case Loop(v, it, reactive, cs) => LoopGen(reactive, v, it, cs, mode, prefix, rrm, k, names)
    case ConditionalElements(cond, cs) => ConditionalGen(cond, cs, mode, prefix, rrm, k, names)
    case ScriptTag(s) => ScriptGen(s, mode, prefix, rrm, k, names)
    case _ => LeafGen(n, mode, prefix, rrm, k, names)
  }

  /** The nodes without children: text, reactive text, a hole left in the tree, and a style tag that was not collected. */
  predicate IsLeaf(n: Node) {
    n.Text? || n.ReactiveText? || n.ComponentHole? || n.StyleTag?
  }

  function LeafGen(n: Node, mode: Mode, prefix: string, rrm: Rrm, k: nat, names: seq<string>): (r: Result<Out>)
    requires IsLeaf(n)
    ensures r.Ok? ==> r.value.counter >= k
  {
    match n
    case Text(t) => TextGen(t, mode, k, names)
    case ReactiveText(x) => Ok(Out(ReactiveTextCode(x, mode, prefix, names, k), k + 1, names))
    case ComponentHole(name, _, props, _, _, _) => HoleGen(name, props, mode, prefix, rrm, k, names)
    case StyleTag(_) => Err(Panic("internal error: entered unreachable code"))
  }

  /** Text: as it is in HTML, a text node from one fresh counter value in DOM code. */
  function TextGen(t: string, mode: Mode, k: nat, names: seq<string>): (r: Result<Out>)
    ensures r.Ok? && r.value.names == names
    ensures r.value.counter == if mode.Html? then k else k + 1
    ensures mode.Html? ==> r.value.code == t
  {
    match mode
    case Html => Ok(Out(t, k, names))
    case JsDom(parent) => Ok(Out(TextNodeCode(parent, k, t), k + 1, names))
  }

  /**
   * A hole left in the tree: a `Children` hole emits nothing, a recursive
   * instance in scope is called with its props in DOM code, anything else
   * is an internal failure.
   */
  function HoleGen(name: string, props: seq<Attribute>, mode: Mode, prefix: string, rrm: Rrm, k: nat,
                   names: seq<string>): (r: Result<Out>)
    ensures r.Ok? ==> r.value.counter == k && r.value.names == names
    ensures r.Ok? <==> name == "Children" || (name in rrm && mode.JsDom?)
    ensures name == "Children" ==> r.value.code == ""
    ensures name != "Children" && name !in rrm ==> r == Err(Panic("Component " + name + " not replaced."))
  {
    if name == "Children" then Ok(Out("", k, names))
    else if name in rrm then
      (match mode
       case JsDom(parent) => Ok(Out(HoleCallCode(PropsSet(props, prefix, names), rrm[name], parent), k, names))
       case Html => Err(Panic("explicit panic")))
    else Err(Panic("Component " + name + " not replaced."))
  }

  /**
   * The children one after the other, each starting from the counter and
   * list the previous one left; the first failure is the result.
   */
  function ChildrenGen(cs: seq<Node>, mode: Mode, prefix: string, rrm: Rrm, k: nat, names: seq<string>): (r: Result<Out>)
    ensures r.Ok? ==> r.value.counter >= k
    decreases HeightSeq(cs), 5, |cs|
  {
    if cs == [] then Ok(Out("", k, names))
    else
      match NodeGen(cs[0], mode, prefix, rrm, k, names)
      case Err(x) => Err(x)
      case Ok(o) =>
        match ChildrenGen(cs[1..], mode, prefix, rrm, o.counter, o.names)
        case Err(x) => Err(x)
        case Ok(rest) => Ok(Out(o.code + rest.code, rest.counter, rest.names))
  }

  /**
   * `ScriptTag::codegen`: in HTML the code is renamed (its declarations
   * join the renamer's list) and emitted as a `script` element; in DOM
   * code it is inlined as it is.
   */
  function ScriptGen(s: Script, mode: Mode, prefix: string, rrm: Rrm, k: nat, names: seq<string>): (r: Result<Out>)
    ensures r.Ok? ==> r.value.counter >= k
    decreases 2, 3, 0
  {
    match mode
    case Html =>
      var names2 := Dedup(names + JsComponentScoping.DeclaredIn(s.code));
      var code := JsComponentScoping.Renamed(s.code, names2, prefix);
      var e := Element("script", None, None, s.attributes, [Text(code)]);
      assert HeightSeq(e.children) == 0;
      ElementGen(e, Html, prefix, rrm, k, names2)
    case JsDom(_) => Ok(Out(s.code + ";\n", k, names))
  }

  /** `Element::codegen`: a nameless element is just its children. */
  function ElementGen(e: Element, mode: Mode, prefix: string, rrm: Rrm, k: nat, names: seq<string>): (r: Result<Out>)
    ensures r.Ok? ==> r.value.counter >= k
    decreases 1 + HeightSeq(e.children), 2, 0
  {
    if e.name == "" then ChildrenGen(e.children, mode, prefix, rrm, k, names)
    else
      match mode
      case Html => HtmlGen(e, prefix, rrm, k, names)
      case JsDom(parent) => JsDomGen(e, parent, prefix, rrm, k, names)
  }

  /**
   * `Element::html_codegen`: an element with a reactive id, class list or
   * attribute becomes an anchor plus DOM code; any other is a tag, its
   * children and its closing tag, or the tag alone for a void element.
   */
  function HtmlGen(e: Element, prefix: string, rrm: Rrm, k: nat, names: seq<string>): (r: Result<Out>)
    ensures r.Ok? ==> r.value.counter >= k
    decreases 1 + HeightSeq(e.children), 1, 0
  {
    if ReactiveElement(e) then
      var elemVar := "__elem_reactive_html_" + N(k);
      var id := "r" + N(k + 1);
      match JsDomGen(e, elemVar, prefix, rrm, k + 2, names)
      case Err(x) => Err(x)
      case Ok(js) => Ok(Out(ReactiveHtmlCode(id, elemVar, js.code), js.counter, js.names))
    else if IsVoid(e.name) then Ok(Out(OpenTag(e), k, names))
    else
      match ChildrenGen(e.children, Html, prefix, rrm, k, names)
      case Err(x) => Err(x)
      case Ok(o) => Ok(Out(OpenTag(e) + o.code + "</" + e.name + ">", o.counter, o.names))
  }

  /** `Element::jsdom_codegen`: create the element, set its parts, build its children, append it. */
  function JsDomGen(e: Element, parent: string, prefix: string, rrm: Rrm, k: nat, names: seq<string>): (r: Result<Out>)
    ensures r.Ok? ==> r.value.counter > k
    decreases 1 + HeightSeq(e.children), 0, 0
  {
    var elemVar := "__elem" + N(k);
    var (idCode, k1) := IdDomCode(e.id, elemVar, prefix, names, k + 1);
    var (classCode, k2) := ClassDomCode(e.classes, elemVar, prefix, names, k1);
    match AttrsCode(e.attributes, |e.attributes|, elemVar, e.name, prefix, names, k2)
    case Err(x) => Err(x)
    case Ok((attrCode, k3)) =>
      match ChildrenGen(e.children, JsDom(elemVar), prefix, rrm, k3, names)
      case Err(x) => Err(x)
      case Ok(o) =>
        Ok(Out(CreateElementCode(elemVar, e.name) + idCode + classCode + attrCode + o.code + AppendCode(parent, elemVar),
               o.counter, o.names))
  }

  /**
   * The props code of a component instance as its children see it, and the
   * child renamer's list: in HTML the code goes through the child's renamer,
   * so its declarations start that list; in DOM code it is kept as it is.
   */
  function ChildProps(props: string, mode: Mode, childPrefix: string): (r: (string, seq<string>))
    ensures mode.JsDom? ==> r == (props, [])
    ensures forall x :: x in r.1 <==> mode.Html? && x in JsComponentScoping.DeclaredIn(props)
  {
    if mode.Html? then
      var childNames := Dedup(JsComponentScoping.DeclaredIn(props));
      (JsComponentScoping.Renamed(props, childNames, childPrefix), childNames)
    else (props, [])
  }

  /**
   * `Component::codegen`: only the web dialects, and a recursive instance
   * only inside DOM code.
   */
  function ComponentGen(c: Component, mode: Mode, prefix: string, rrm: Rrm, k: nat, names: seq<string>): (r: Result<Out>)
    ensures r.Ok? ==> r.value.counter >= k
    decreases 1 + HeightSeq(c.children), 2, 0
  {
    if c.dialect != JsLilac && c.dialect != TsLilac then Err(Message(UnsupportedDialect(c.name)))
    else if c.recursive && mode.Html? then Err(Message(RecursiveInHtml(c.name)))
    else InstanceGen(c, mode, prefix, rrm, k, names)
  }

  /**
   * The rest of `Component::codegen`. The props are set up with the
   * parent's renamer; the children are generated with a renamer of their
   * own, whose prefix takes a fresh counter value; the parent's list is
   * left as it was.
   */
  function InstanceGen(c: Component, mode: Mode, prefix: string, rrm: Rrm, k: nat, names: seq<string>): (r: Result<Out>)
    ensures r.Ok? ==> r.value.counter >= k && r.value.names == names
    decreases 1 + HeightSeq(c.children), 1, 0
  {
    var createFn := "__create" + c.name + N(k);
    var rrm2 := if c.recursive then rrm[c.name := createFn] else rrm;
    var childPrefix := "__" + c.name + "_" + N(k + 1) + "_";
    var cp := ChildProps(PropsSet(c.props, prefix, names), mode, childPrefix);
    InstanceBody(c, mode, createFn, cp.0, childPrefix, rrm2, k + 2, cp.1, names)
  }

  /** The children of a component instance in their own scope, wrapped with its props code. */
  function InstanceBody(c: Component, mode: Mode, createFn: string, propsSet: string, childPrefix: string, rrm: Rrm,
                        k: nat, childNames: seq<string>, names: seq<string>): (r: Result<Out>)
    ensures r.Ok? ==> r.value.counter >= k && r.value.names == names
    decreases 1 + HeightSeq(c.children), 0, 0
  {
    match ChildrenGen(c.children, mode, childPrefix, rrm, k, childNames)
    case Err(x) => Err(x)
    case Ok(inner) => Ok(Out(ComponentCode(c.recursive, mode, createFn, propsSet, inner.code), inner.counter, names))
  }

  /** `conditional_elements_codegen` */
  function ConditionalGen(cond: string, cs: seq<Node>, mode: Mode, prefix: string, rrm: Rrm, k: nat, names: seq<string>): (r: Result<Out>)
    ensures r.Ok? ==> r.value.counter >= k
    decreases 1 + HeightSeq(cs), 3, 0
  {
    CondRest(cond, cs, mode, "r" + N(k), "__elem" + N(k + 1), prefix, rrm, k + 2, names)
  }

  /** `conditional_elements_codegen` once its id and element variable are drawn. */
  function CondRest(cond: string, cs: seq<Node>, mode: Mode, id: string, elemVar: string, prefix: string, rrm: Rrm,
                    k: nat, names: seq<string>): (r: Result<Out>)
    ensures r.Ok? ==> r.value.counter >= k
    decreases 1 + HeightSeq(cs), 2, 0
  {
    CondFinish(ChildrenGen(cs, JsDom(elemVar), prefix, rrm, k, names), cond, mode, id, elemVar, prefix)
  }

  /**
   * `loop_codegen`: the body is generated once into a function run per
   * item; a reactive list also subscribes to insertions and removals.
   */
  function LoopGen(reactive: bool, v: string, it: string, cs: seq<Node>, mode: Mode, prefix: string, rrm: Rrm,
                   k: nat, names: seq<string>): (r: Result<Out>)
    ensures r.Ok? ==> r.value.counter >= k
    decreases 1 + HeightSeq(cs), 3, 0
  {
    LoopRest(reactive, v, it, cs, mode, "r" + N(k), "__elem" + N(k + 1), prefix, rrm, k + 2, names)
  }

  /** `loop_codegen` once its id and element variable are drawn. */
  function LoopRest(reactive: bool, v: string, it: string, cs: seq<Node>, mode: Mode, id: string, elemVar: string,
                    prefix: string, rrm: Rrm, k: nat, names: seq<string>): (r: Result<Out>)
    ensures r.Ok? ==> r.value.counter >= k
    decreases 1 + HeightSeq(cs), 2, 2
  {
    LoopFinish(LoopBodyGen(reactive, cs, elemVar, prefix, rrm, k, names), reactive, v, it, mode, id, elemVar, prefix)
  }

  /** The loop body: for a reactive list the children go through a nameless element. */
  function LoopBodyGen(reactive: bool, cs: seq<Node>, elemVar: string, prefix: string, rrm: Rrm, k: nat,
                       names: seq<string>): (r: Result<Out>)
    ensures r.Ok? ==> r.value.counter >= k
    decreases 1 + HeightSeq(cs), 2, 1
  {
    if reactive then ElementGen(Element("", None, None, [], cs), JsDom(elemVar), prefix, rrm, k, names)
    else ChildrenGen(cs, JsDom(elemVar), prefix, rrm, k, names)
  }

  /** The conditional's code around its generated children `body`. */
  function CondFinish(body: Result<Out>, cond: string, mode: Mode, id: string, elemVar: string, prefix: string): (r: Result<Out>)
    ensures r.Ok? <==> body.Ok?
    ensures r.Ok? ==> r.value.counter == body.value.counter && r.value.names == body.value.names
  {
    match body
    case Err(x) => Err(x)
    case Ok(ch) =>
      var func := CondFunc(id, elemVar, ch.code);
      Ok(Out(CondCode(mode, id, elemVar, func, ReactiveExpr(cond, id + "cond", prefix, ch.names)), ch.counter, ch.names))
  }

  /** The loop's code around its generated body `body`. */
  function LoopFinish(body: Result<Out>, reactive: bool, v: string, it: string, mode: Mode, id: string, elemVar: string,
                      prefix: string): (r: Result<Out>)
    ensures r.Ok? <==> body.Ok?
    ensures r.Ok? ==> r.value.counter == body.value.counter && r.value.names == body.value.names
  {
    match body
    case Err(x) => Err(x)
    case Ok(ch) =>
      var func := LoopFunc(id, elemVar, v, ch.code);
      Ok(Out(LoopCode(mode, id, elemVar, func, LoopInst(reactive, v, it, elemVar, ch.code, id, prefix, ch.names)),
             ch.counter, ch.names))
  }

  /** What starts a loop: the list's subscriptions for a reactive list, else a reactive expression. */
  function LoopInst(reactive: bool, v: string, it: string, elemVar: string, children: string, id: string,
                    prefix: string, names: seq<string>): string
  {
    if reactive then ListSubscribe(JsComponentScoping.Renamed(it, names, prefix), v, elemVar, children, id)
    else ReactiveExpr(it, id + "loop", prefix, names)
  }

  /**
   * `full_js_codegen`: the page around the root's HTML. The root renamer
   * takes the first counter value. `version` and `prelude` stand for the
   * crate version and the text of `prelude.js` compiled into the binary.
   */
  function FullJs(root: Node, ss: Css.StyleSheet, version: string, prelude: string, k: nat): (r: Result<Out>)
    requires Css.CompleteSheet(ss)
    ensures r.Ok? ==> r.value.counter > k
  {
    match NodeGen(root, Html, "__root_" + N(k) + "_", map[], k + 1, [])
    case Err(x) => Err(x)
    case Ok(o) => Ok(Out(Document(version, prelude, StylesheetCode(ss), o.code), o.counter, o.names))
  }
}
