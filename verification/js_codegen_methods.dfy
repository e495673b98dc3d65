/**
 * The web code generator of `src/js_codegen.rs` as the source runs it:
 * code strings grown piece by piece, the process-wide counter bumped for
 * every fresh name, and each component's renamer extending its identifier
 * list as scripts are processed. Every method is proved to produce what
 * the functions of `JsCodegen` say, from the counter value and the
 * renamer's list it started with.
 */
module JsCodegenMethods {
  import opened Wrappers
  import opened Text
  import opened Lib
  import Css
  import JsLexer
  import Utils
  import opened JsComponentScoping
  import opened JsCodegen

  /**
   * A method's outcome agrees with a generator's value: the same code, the
   * counter and the renamer's list left as the generator says; the same
   * error on failure.
   */
  predicate Agrees(r: Result<string>, g: Result<Out>, counter: nat, names: seq<string>) {
    (r, counter, names) == Seen(g, counter, names)
  }

  /** What a generator's result leaves behind; an error leaves the counter and the names as they are. */
  function Seen(g: Result<Out>, counter: nat, names: seq<string>): (Result<string>, nat, seq<string>) {
    match g
    case Ok(o) => (Ok(o.code), o.counter, o.names)
    case Err(e) => (Err(e), counter, names)
  }

  /** `code` in front of a generator's output. */
  function Then(code: string, g: Result<Out>): Result<Out> {
    match g
    case Err(e) => Err(e)
    case Ok(o) => Ok(o.(code := code + o.code))
  }

  lemma ThenThen(a: string, b: string, g: Result<Out>)
    ensures Then(a, Then(b, g)) == Then(a + b, g)
  {
    if g.Ok? {
      assert a + (b + g.value.code) == (a + b) + g.value.code;
    }
  }

  lemma ThenEmpty(g: Result<Out>)
    ensures Then("", g) == g
  {
    if g.Ok? {
      assert "" + g.value.code == g.value.code;
    }
  }

  /** One step of `ChildrenGen` from position `i`. */
  lemma ChildrenStep(cs: seq<Node>, i: nat, mode: Mode, prefix: string, rrm: Rrm, k: nat, names: seq<string>)
    requires i < |cs|
    ensures ChildrenGen(cs[i..], mode, prefix, rrm, k, names) ==
      match NodeGen(cs[i], mode, prefix, rrm, k, names)
      case Err(e) => Err(e)
      case Ok(o) => Then(o.code, ChildrenGen(cs[i + 1..], mode, prefix, rrm, o.counter, o.names))
  {
    assert cs[i..][0] == cs[i];
    assert cs[i..][1..] == cs[i + 1..];
  }

  /* ---------------- stylesheets ---------------- */

  /** `Rule::codegen` */
  method RuleCodegen(rule: Css.Rule) returns (code: string)
    requires Css.Complete(rule.selector)
    ensures code == RuleCode(rule)
  {
    code := SelectorCode(rule.selector) + " {";
    var i := 0;
    while i < |rule.properties|
      invariant i <= |rule.properties|
      invariant code == SelectorCode(rule.selector) + " {" + PropertiesCode(rule.properties, i)
    {
      var p := rule.properties[i];
      code := code + p.name + ":" + Join(p.value, " ") + ";";
      i := i + 1;
    }
    code := code + "} ";
  }

  /** `codegen_stylesheet` */
  method CodegenStylesheet(ss: Css.StyleSheet) returns (code: string)
    requires Css.CompleteSheet(ss)
    ensures code == StylesheetCode(ss)
  {
    code := "";
    var i := 0;
    while i < |ss|
      invariant i <= |ss|
      invariant code == StylesheetCode(ss[..i])
    {
      assert ss[..i + 1][..i] == ss[..i];
      var rule := RuleCodegen(ss[i]);
      code := code + rule;
      i := i + 1;
    }
    assert ss[..i] == ss;
  }

  /* ---------------- props and reactive expressions ---------------- */

  /** `has_reactive_attributes` */
  method HasReactiveAttributes(attrs: seq<Attribute>) returns (r: bool)
    ensures r <==> AnyReactive(attrs)
  {
    var i := 0;
    while i < |attrs|
      invariant i <= |attrs|
      invariant forall j :: 0 <= j < i ==> !attrs[j].IsReactive()
    {
      if attrs[i].IsReactive() {
        return true;
      }
      i := i + 1;
    }
    return false;
  }

  /** `codegen_props_set` */
  method CodegenPropsSet(props: seq<Attribute>, cvr: Renamer) returns (r: string)
    ensures r == PropsSet(props, cvr.prefix, cvr.ids.names)
  {
    if props == [] {
      return "";
    }
    var sets: seq<string> := [];
    var i := 0;
    while i < |props|
      invariant i <= |props| && |sets| == i
      invariant forall j :: 0 <= j < i ==> sets[j] == PropLine(props[j], cvr.prefix, cvr.ids.names)
    {
      var line;
      match props[i] {
        case StaticAttr(name, Some(v)) =>
          line := "props." + name + " = \"" + v + "\";";
        case StaticAttr(name, None) =>
          line := "props." + name + " = true;";
        case ReactiveAttr(name, v) =>
          var expr := cvr.ProcessNoDeclared(v);
          line := "props." + name + " = " + expr + ";";
      }
      sets := sets + [line];
      i := i + 1;
    }
    assert sets == PropLines(props, cvr.prefix, cvr.ids.names);
    r := "const props = {};\n" + Join(sets, "\n") + "\n";
  }

  /** The token loop of `reactive_expression`: the `$`-dependencies and the member path before each. */
  method ScanDependencies(expr: string) returns (deps: seq<(string, string)>)
    ensures deps == DepsOf(expr)
  {
    var toks := JsLexer.Lex(expr);
    deps := ScanTokens(expr, toks);
  }

  /** The loop itself, over the tokens of `expr`. */
  method ScanTokens(expr: string, toks: seq<JsLexer.Token>) returns (deps: seq<(string, string)>)
    requires JsLexer.Spans(expr, toks, 0)
    ensures deps == ScanDeps(expr, toks, |toks|).deps
  {
    deps := [];
    var lastName, namespace := "", "";
    for i := 0 to |toks|
      invariant DepScan(deps, lastName, namespace) == ScanDeps(expr, toks, i)
    {
      deps, lastName, namespace := ScanToken(expr, toks[i], deps, lastName, namespace);
    }
  }

  /** One pass of that loop, on the token `t`. */
  method ScanToken(expr: string, t: JsLexer.Token, deps: seq<(string, string)>, lastName: string, namespace: string)
    returns (deps': seq<(string, string)>, lastName': string, namespace': string)
    requires t.start <= t.end <= |expr|
    ensures DepScan(deps', lastName', namespace') == DepStep(expr, t, DepScan(deps, lastName, namespace))
  {
    deps', lastName', namespace' := deps, lastName, namespace;
    if t.kind == JsLexer.Ident {
      var name := JsLexer.TextOf(expr, t);
      lastName' := name;
      if StartsWithDollar(lastName') {
        lastName' := TrimDollars(lastName') + ".get()";
      }
      if StartsWithDollar(name) {
        deps' := deps' + [(TrimDollars(name), namespace')];
        namespace' := "";
      }
    } else if t.kind == JsLexer.Punct {
      if JsLexer.TextOf(expr, t) == "." {
        namespace' := namespace' + lastName' + ".";
      } else {
        namespace' := "";
      }
    } else {
      namespace' := "";
    }
  }

  /** The replacement loop of `reactive_expression`. */
  method ReplaceDependencies(expr: string, deps: seq<(string, string)>) returns (r: string)
    ensures r == ReplaceDeps(expr, deps, |deps|)
  {
    r := expr;
    for j := 0 to |deps|
      invariant r == ReplaceDeps(expr, deps, j)
    {
      r := Utils.FindAndReplace(r, "$" + deps[j].0, deps[j].0 + ".get()");
    }
  }

  /** The subscriptions of `reactive_expression`, one per dependency. */
  method SubscriptionLines(deps: seq<(string, string)>, updateFn: string, expr: string) returns (subs: seq<string>)
    ensures subs == Subscriptions(deps, updateFn, expr)
  {
    subs := [];
    var j := 0;
    while j < |deps|
      invariant j <= |deps| && |subs| == j
      invariant forall m :: 0 <= m < j ==> subs[m] == Subscription(deps[m], updateFn, expr)
    {
      subs := subs + [Subscription(deps[j], updateFn, expr)];
      j := j + 1;
    }
  }

  /** `reactive_expression` */
  method ReactiveExpression(x: string, updateFn: string, cvr: Renamer) returns (r: string)
    ensures r == ReactiveExpr(x, updateFn, cvr.prefix, cvr.ids.names)
  {
    var expr := cvr.ProcessNoDeclared(x);
    var deps := ScanDependencies(expr);
    var replaced := ReplaceDependencies(expr, deps);
    var subscriptions := SubscriptionLines(deps, updateFn, replaced);
    r := ReactiveExprCode(Join(subscriptions, "\n"), updateFn, replaced);
  }

  /** `reactive_text_codegen` */
  method ReactiveTextCodegen(x: string, mode: Mode, cvr: Renamer, ctx: Context) returns (r: string)
    modifies ctx
    ensures r == ReactiveTextCode(x, mode, cvr.prefix, cvr.ids.names, old(ctx.counter))
    ensures ctx.counter == old(ctx.counter) + 1
  {
    var n := ctx.Fresh();
    var id := "r" + N(n);
    var update := "__" + id + "setTextNode";
    var textNode := "__" + id + "textNode";
    var rx := ReactiveExpression(x, update, cvr);
    var js := ReactiveTextJs(textNode, update, rx);
    r := ReactiveTextOut(mode, id, js, textNode);
  }

  /* ---------------- attributes ---------------- */

  /** The `find` of `handle_special_attr`: the first static `type` attribute's value. */
  method FindInputType(all: seq<Attribute>) returns (t: Option<string>)
    ensures t == InputType(all)
  {
    var i := 0;
    while i < |all|
      invariant i <= |all|
      invariant InputType(all) == InputType(all[i..])
    {
      assert all[i..][1..] == all[i + 1..];
      if all[i].StaticAttr? && all[i].name == "type" {
        return all[i].value;
      }
      i := i + 1;
    }
    return None;
  }

  /** `handle_special_attr`; `None` stands for its `false`. */
  method HandleSpecialAttr(name: string, value: string, elemVar: string, elemName: string,
                           all: seq<Attribute>, cvr: Renamer) returns (r: Result<Option<string>>)
    ensures r == SpecialAttr(name, value, elemVar, elemName, all, cvr.prefix, cvr.ids.names)
  {
    if name == "onclick" {
      var v := cvr.ProcessNoDeclared(value);
      return Ok(Some(OnClickCode(elemVar, v)));
    } else if name == "bind" {
      var v := cvr.ProcessNoDeclared(value);
      if elemName != "input" {
        return Err(Panic("assertion failed: elem_name == \"input\""));
      }
      var inputType := FindInputType(all);
      match inputType
      case None => return Ok(None);
      case Some(t) => return Ok(Some(BindCode(t, v, elemVar)));
    }
    return Ok(None);
  }

  /** `handle_attr`: the code one attribute adds. */
  method HandleAttr(a: Attribute, elemVar: string, elemName: string, all: seq<Attribute>,
                    cvr: Renamer, ctx: Context) returns (r: Result<string>)
    modifies ctx
    ensures match AttrCode(a, elemVar, elemName, all, cvr.prefix, cvr.ids.names, old(ctx.counter))
            case Ok(v) => r == Ok(v.0) && ctx.counter == v.1
            case Err(e) => r == Err(e)
  {
    match a
    case StaticAttr(name, value) =>
      r := Ok(SetAttributeCode(elemVar, name, value));
    case ReactiveAttr(name, value) =>
      r := ReactiveAttrCodegen(name, value, elemVar, elemName, all, cvr, ctx);
  }

  /** The reactive arm of `handle_attr`: a special attribute, else an updater. */
  method ReactiveAttrCodegen(name: string, value: string, elemVar: string, elemName: string, all: seq<Attribute>,
                             cvr: Renamer, ctx: Context) returns (r: Result<string>)
    modifies ctx
    ensures match AttrCode(ReactiveAttr(name, value), elemVar, elemName, all, cvr.prefix, cvr.ids.names, old(ctx.counter))
            case Ok(v) => r == Ok(v.0) && ctx.counter == v.1
            case Err(e) => r == Err(e)
  {
    var special := HandleSpecialAttr(name, value, elemVar, elemName, all, cvr);
    match special
    case Err(e) => r := Err(e);
    case Ok(Some(code)) => r := Ok(code);
    case Ok(None) =>
      var n := ctx.Fresh();
      var update := "__" + N(n) + "update_attr";
      var rx := ReactiveExpression(value, update, cvr);
      r := Ok(UpdaterCode(update, elemVar, ".setAttribute(\"" + name + "\", val)", rx));
  }

  /** The id part of `jsdom_codegen`. */
  method IdCodegen(id: Option<Id>, elemVar: string, cvr: Renamer, ctx: Context) returns (code: string)
    modifies ctx
    ensures (code, ctx.counter) == IdDomCode(id, elemVar, cvr.prefix, cvr.ids.names, old(ctx.counter))
  {
    code := "";
    if id.Some? {
      match id.value
      case StaticId(v) =>
        code := StaticIdCode(elemVar, v);
      case ReactiveId(x) =>
        var n := ctx.Fresh();
        var update := "__" + N(n) + "update_id";
        var rx := ReactiveExpression(x, update, cvr);
        code := UpdaterCode(update, elemVar, ".id = val", rx);
    }
  }

  /** The class part of `jsdom_codegen`. */
  method ClassCodegen(classes: Option<ClassList>, elemVar: string, cvr: Renamer, ctx: Context) returns (code: string)
    modifies ctx
    ensures (code, ctx.counter) == ClassDomCode(classes, elemVar, cvr.prefix, cvr.ids.names, old(ctx.counter))
  {
    code := "";
    if classes.Some? {
      match classes.value
      case StaticClasses(cl) =>
        code := StaticClassCode(elemVar, cl);
      case ReactiveClasses(x) =>
        var n := ctx.Fresh();
        var update := "__" + N(n) + "update_classes";
        var rx := ReactiveExpression(x, update, cvr);
        code := UpdaterCode(update, elemVar, ".className = val", rx);
    }
  }

  /** One turn of the attribute loop of `jsdom_codegen`: `code` so far, then `handle_attr` on attribute `i`. */
  method AttrStep(attrs: seq<Attribute>, i: nat, elemVar: string, elemName: string, cvr: Renamer, ctx: Context,
                  code: string, ghost k: nat) returns (r: Result<string>)
    requires i < |attrs|
    requires AttrsCode(attrs, i, elemVar, elemName, cvr.prefix, cvr.ids.names, k) == Ok((code, ctx.counter))
    modifies ctx
    ensures match AttrsCode(attrs, i + 1, elemVar, elemName, cvr.prefix, cvr.ids.names, k)
            case Ok(v) => r == Ok(v.0) && ctx.counter == v.1
            case Err(e) => r == Err(e)
  {
    var more := HandleAttr(attrs[i], elemVar, elemName, attrs, cvr, ctx);
    if more.Err? {
      return Err(more.error);
    }
    r := Ok(code + more.value);
  }

  /** The attribute loop of `jsdom_codegen`. */
  method AttrsCodegen(attrs: seq<Attribute>, elemVar: string, elemName: string, cvr: Renamer, ctx: Context)
    returns (r: Result<string>)
    modifies ctx
    ensures match AttrsCode(attrs, |attrs|, elemVar, elemName, cvr.prefix, cvr.ids.names, old(ctx.counter))
            case Ok(v) => r == Ok(v.0) && ctx.counter == v.1
            case Err(e) => r == Err(e)
  {
    ghost var k := ctx.counter;
    var code := "";
    var i := 0;
    while i < |attrs|
      invariant i <= |attrs|
      invariant AttrsCode(attrs, i, elemVar, elemName, cvr.prefix, cvr.ids.names, k) == Ok((code, ctx.counter))
    {
      var step := AttrStep(attrs, i, elemVar, elemName, cvr, ctx, code, k);
      if step.Err? {
        AttrsErrSticks(attrs, i + 1, |attrs|, elemVar, elemName, cvr.prefix, cvr.ids.names, k);
        return step;
      }
      code := step.value;
      i := i + 1;
    }
    r := Ok(code);
  }

  /* ---------------- the tree ---------------- */

  /** `Node::codegen_js` */
  method NodeCodegen(n: Node, mode: Mode, cvr: Renamer, rrm: Rrm, ctx: Context) returns (r: Result<string>)
    modifies ctx, cvr.ids
    ensures Agrees(r, NodeGen(n, mode, cvr.prefix, rrm, old(ctx.counter), old(cvr.ids.names)), ctx.counter, cvr.ids.names)
    decreases Height(n), 4, 0
  {
    match n
    case ComponentNode(c) =>
      r := ComponentCodegen(c, mode, cvr, rrm, ctx);
    case ElementNode(e) =>
      r := ElementCodegen(e, mode, cvr, rrm, ctx);
    case Loop(v, it, reactive, cs) =>
      r := LoopCodegen(reactive, v, it, cs, mode, cvr, rrm, ctx);
    case ConditionalElements(cond, cs) =>
      r := ConditionalCodegen(cond, cs, mode, cvr, rrm, ctx);
    case ScriptTag(s) =>
      r := ScriptCodegen(s, mode, cvr, rrm, ctx);
    case _ =>
      r := LeafCodegen(n, mode, cvr, rrm, ctx);
  }

  /** The arms of `Node::codegen` for nodes without children. */
  method LeafCodegen(n: Node, mode: Mode, cvr: Renamer, rrm: Rrm, ctx: Context) returns (r: Result<string>)
    requires IsLeaf(n)
    modifies ctx
    ensures Agrees(r, LeafGen(n, mode, cvr.prefix, rrm, old(ctx.counter), cvr.ids.names), ctx.counter, cvr.ids.names)
  {
    match n
    case Text(t) =>
      r := TextCodegen(t, mode, cvr, ctx);
    case ReactiveText(x) =>
      var code := ReactiveTextCodegen(x, mode, cvr, ctx);
      r := Ok(code);
    case ComponentHole(name, _, props, _, _, _) =>
      r := HoleCodegen(name, props, mode, cvr, rrm, ctx);
    case StyleTag(_) =>
      r := Err(Panic("internal error: entered unreachable code"));
  }

  /** The text arm of `Node::codegen`. */
  method TextCodegen(t: string, mode: Mode, cvr: Renamer, ctx: Context) returns (r: Result<string>)
    modifies ctx
    ensures Agrees(r, TextGen(t, mode, old(ctx.counter), cvr.ids.names), ctx.counter, cvr.ids.names)
  {
    match mode {
      case Html =>
        r := Ok(t);
      case JsDom(parent) =>
        var k := ctx.Fresh();
        r := Ok(TextNodeCode(parent, k, t));
    }
  }

  /** The component-hole arm of `Node::codegen`; it changes no state. */
  method HoleCodegen(name: string, props: seq<Attribute>, mode: Mode, cvr: Renamer, rrm: Rrm, ctx: Context)
    returns (r: Result<string>)
    ensures Agrees(r, HoleGen(name, props, mode, cvr.prefix, rrm, ctx.counter, cvr.ids.names), ctx.counter, cvr.ids.names)
  {
    if name == "Children" {
      r := Ok("");
    } else if name in rrm {
      var propsSet := CodegenPropsSet(props, cvr);
      match mode {
        case JsDom(parent) =>
          r := Ok(HoleCallCode(propsSet, rrm[name], parent));
        case Html =>
          r := Err(Panic("explicit panic"));
      }
    } else {
      r := Err(Panic("Component " + name + " not replaced."));
    }
  }

  /** The children's code, one after the other; the first failure ends the loop. */
  method ChildrenCodegen(cs: seq<Node>, mode: Mode, cvr: Renamer, rrm: Rrm, ctx: Context) returns (r: Result<string>)
    modifies ctx, cvr.ids
    ensures Agrees(r, ChildrenGen(cs, mode, cvr.prefix, rrm, old(ctx.counter), old(cvr.ids.names)), ctx.counter, cvr.ids.names)
    decreases HeightSeq(cs), 5, |cs|
  {
    var code := "";
    var i := 0;
    assert cs[0..] == cs;
    ThenEmpty(ChildrenGen(cs, mode, cvr.prefix, rrm, ctx.counter, cvr.ids.names));
    while i < |cs|
      invariant i <= |cs|
      invariant ChildrenGen(cs, mode, cvr.prefix, rrm, old(ctx.counter), old(cvr.ids.names))
        == Then(code, ChildrenGen(cs[i..], mode, cvr.prefix, rrm, ctx.counter, cvr.ids.names))
    {
      ChildrenStep(cs, i, mode, cvr.prefix, rrm, ctx.counter, cvr.ids.names);
      ghost var g := NodeGen(cs[i], mode, cvr.prefix, rrm, ctx.counter, cvr.ids.names);
      var c := NodeCodegen(cs[i], mode, cvr, rrm, ctx);
      match c
      case Err(e) =>
        return Err(e);
      case Ok(s) =>
        ThenThen(code, s, ChildrenGen(cs[i + 1..], mode, cvr.prefix, rrm, ctx.counter, cvr.ids.names));
        code := code + s;
      i := i + 1;
    }
    assert code + "" == code;
    r := Ok(code);
  }

  /** `ScriptTag::codegen` */
  method ScriptCodegen(s: Script, mode: Mode, cvr: Renamer, rrm: Rrm, ctx: Context) returns (r: Result<string>)
    modifies ctx, cvr.ids
    ensures Agrees(r, ScriptGen(s, mode, cvr.prefix, rrm, old(ctx.counter), old(cvr.ids.names)), ctx.counter, cvr.ids.names)
    decreases 2, 3, 0
  {
    match mode
    case Html =>
      var code := cvr.Process(s.code);
      var e := Element("script", None, None, s.attributes, [Text(code)]);
      assert HeightSeq(e.children) == 0;
      r := ElementCodegen(e, Html, cvr, rrm, ctx);
    case JsDom(_) =>
      r := Ok(s.code + ";\n");
  }

  /** `Element::codegen` */
  method ElementCodegen(e: Element, mode: Mode, cvr: Renamer, rrm: Rrm, ctx: Context) returns (r: Result<string>)
    modifies ctx, cvr.ids
    ensures Agrees(r, ElementGen(e, mode, cvr.prefix, rrm, old(ctx.counter), old(cvr.ids.names)), ctx.counter, cvr.ids.names)
    decreases 1 + HeightSeq(e.children), 2, 0
  {
    if e.name == "" {
      r := ChildrenCodegen(e.children, mode, cvr, rrm, ctx);
    } else {
      match mode
      case Html =>
        r := HtmlCodegen(e, cvr, rrm, ctx);
      case JsDom(parent) =>
        r := JsDomCodegen(e, parent, cvr, rrm, ctx);
    }
  }

  /** The opening tag `Element::html_codegen` builds for an element with no reactive part. */
  method OpenTagCodegen(e: Element) returns (code: string)
    requires !ReactiveElement(e)
    ensures code == OpenTag(e)
  {
    var attrs := "";
    for i := 0 to |e.attributes|
      invariant attrs == StaticAttrsCode(e.attributes, i)
    {
      var attr := e.attributes[i];
      assert !attr.IsReactive();
      if attr.value.Some? {
        attrs := attrs + (" " + attr.name + "=\"" + attr.value.value + "\"");
      } else {
        attrs := attrs + (" " + attr.name);
      }
    }
    code := "<" + e.name + IdAttrCode(e) + ClassAttrCode(e) + attrs + ">";
  }

  /** The fallback of `Element::html_codegen` for an element with a reactive part: an anchor and DOM code. */
  method ReactiveHtmlCodegen(e: Element, cvr: Renamer, rrm: Rrm, ctx: Context) returns (r: Result<string>)
    requires ReactiveElement(e)
    modifies ctx, cvr.ids
    ensures Agrees(r, HtmlGen(e, cvr.prefix, rrm, old(ctx.counter), old(cvr.ids.names)), ctx.counter, cvr.ids.names)
    decreases 1 + HeightSeq(e.children), 0, 1
  {
    var a := ctx.Fresh();
    var elemVar := "__elem_reactive_html_" + N(a);
    var b := ctx.Fresh();
    var id := "r" + N(b);
    var js := JsDomCodegen(e, elemVar, cvr, rrm, ctx);
    match js
    case Err(x) => r := Err(x);
    case Ok(code) => r := Ok(ReactiveHtmlCode(id, elemVar, code));
  }

  /** `Element::html_codegen` */
  method HtmlCodegen(e: Element, cvr: Renamer, rrm: Rrm, ctx: Context) returns (r: Result<string>)
    modifies ctx, cvr.ids
    ensures Agrees(r, HtmlGen(e, cvr.prefix, rrm, old(ctx.counter), old(cvr.ids.names)), ctx.counter, cvr.ids.names)
    decreases 1 + HeightSeq(e.children), 1, 0
  {
    var reactiveAttrs := HasReactiveAttributes(e.attributes);
    if reactiveAttrs || (e.id.Some? && e.id.value.IsReactive()) || (e.classes.Some? && e.classes.value.IsReactive()) {
      r := ReactiveHtmlCodegen(e, cvr, rrm, ctx);
      return;
    }
    var code := OpenTagCodegen(e);
    if IsVoid(e.name) {
      return Ok(code);
    }
    var children := ChildrenCodegen(e.children, Html, cvr, rrm, ctx);
    match children
    case Err(x) => r := Err(x);
    case Ok(c) => r := Ok(code + c + "</" + e.name + ">");
  }

  /** `Element::jsdom_codegen` */
  method JsDomCodegen(e: Element, parent: string, cvr: Renamer, rrm: Rrm, ctx: Context) returns (r: Result<string>)
    modifies ctx, cvr.ids
    ensures Agrees(r, JsDomGen(e, parent, cvr.prefix, rrm, old(ctx.counter), old(cvr.ids.names)), ctx.counter, cvr.ids.names)
    decreases 1 + HeightSeq(e.children), 0, 0
  {
    var n := ctx.Fresh();
    var elemVar := "__elem" + N(n);
    var idCode := IdCodegen(e.id, elemVar, cvr, ctx);
    var classCode := ClassCodegen(e.classes, elemVar, cvr, ctx);
    var attrs := AttrsCodegen(e.attributes, elemVar, e.name, cvr, ctx);
    if attrs.Err? {
      return Err(attrs.error);
    }
    var code := CreateElementCode(elemVar, e.name) + idCode + classCode + attrs.value;
    var children := ChildrenCodegen(e.children, JsDom(elemVar), cvr, rrm, ctx);
    match children
    case Err(x) => r := Err(x);
    case Ok(c) => r := Ok(code + c + AppendCode(parent, elemVar));
  }

  /** The props code of `Component::codegen` passed through the new child renamer in HTML. */
  method ChildPropsCodegen(props: string, mode: Mode, child: Renamer) returns (propsSet: string)
    requires child.ids.names == []
    modifies child.ids
    ensures (propsSet, child.ids.names) == ChildProps(props, mode, child.prefix)
  {
    propsSet := props;
    if mode.Html? {
      assert [] + JsComponentScoping.DeclaredIn(props) == JsComponentScoping.DeclaredIn(props);
      propsSet := child.Process(propsSet);
    }
  }

  /** `Component::codegen` */
  method ComponentCodegen(c: Component, mode: Mode, cvr: Renamer, rrm: Rrm, ctx: Context) returns (r: Result<string>)
    modifies ctx, cvr.ids
    ensures Agrees(r, ComponentGen(c, mode, cvr.prefix, rrm, old(ctx.counter), old(cvr.ids.names)), ctx.counter, cvr.ids.names)
    decreases 1 + HeightSeq(c.children), 2, 0
  {
    if c.dialect != JsLilac && c.dialect != TsLilac {
      return Err(Message(UnsupportedDialect(c.name)));
    }
    if c.recursive && mode.Html? {
      return Err(Message(RecursiveInHtml(c.name)));
    }
    r := InstanceCodegen(c, mode, cvr, rrm, ctx);
  }

  /** The rest of `Component::codegen`, once the dialect and the context are accepted. */
  method InstanceCodegen(c: Component, mode: Mode, cvr: Renamer, rrm: Rrm, ctx: Context) returns (r: Result<string>)
    modifies ctx, cvr.ids
    ensures Agrees(r, InstanceGen(c, mode, cvr.prefix, rrm, old(ctx.counter), old(cvr.ids.names)), ctx.counter, cvr.ids.names)
    decreases 1 + HeightSeq(c.children), 1, 0
  {
    var n := ctx.Fresh();
    var createFn := "__create" + c.name + N(n);
    var rrm2 := if c.recursive then rrm[c.name := createFn] else rrm;
    var propsSet, child := ChildScope(c, mode, cvr, ctx);
    r := InstanceBodyCodegen(c, mode, createFn, propsSet, child, rrm2, ctx, cvr.ids.names);
  }

  /** The props code of `Component::codegen` and the renamer its children get. */
  method ChildScope(c: Component, mode: Mode, cvr: Renamer, ctx: Context) returns (propsSet: string, child: Renamer)
    modifies ctx
    ensures fresh(child) && fresh(child.ids)
    ensures child.prefix == "__" + c.name + "_" + N(old(ctx.counter)) + "_"
    ensures ctx.counter == old(ctx.counter) + 1
    ensures (propsSet, child.ids.names) == ChildProps(PropsSet(c.props, cvr.prefix, cvr.ids.names), mode, child.prefix)
  {
    propsSet := CodegenPropsSet(c.props, cvr);
    child := new Renamer(c.name, ctx);
    propsSet := ChildPropsCodegen(propsSet, mode, child);
  }

  /** The children of `Component::codegen` with the child renamer, wrapped with the props code. */
  method InstanceBodyCodegen(c: Component, mode: Mode, createFn: string, propsSet: string, child: Renamer, rrm: Rrm,
                             ctx: Context, ghost names: seq<string>) returns (r: Result<string>)
    modifies ctx, child.ids
    ensures match InstanceBody(c, mode, createFn, propsSet, child.prefix, rrm, old(ctx.counter), old(child.ids.names), names)
            case Ok(o) => r == Ok(o.code) && ctx.counter == o.counter
            case Err(e) => r == Err(e)
    decreases 1 + HeightSeq(c.children), 0, 0
  {
    var inner := ChildrenCodegen(c.children, mode, child, rrm, ctx);
    match inner
    case Err(x) => r := Err(x);
    case Ok(code) => r := Ok(ComponentCode(c.recursive, mode, createFn, propsSet, code));
  }

  /** `conditional_elements_codegen` */
  method ConditionalCodegen(cond: string, cs: seq<Node>, mode: Mode, cvr: Renamer, rrm: Rrm, ctx: Context)
    returns (r: Result<string>)
    modifies ctx, cvr.ids
    ensures Agrees(r, ConditionalGen(cond, cs, mode, cvr.prefix, rrm, old(ctx.counter), old(cvr.ids.names)), ctx.counter, cvr.ids.names)
    decreases 1 + HeightSeq(cs), 3, 0
  {
    var a := ctx.Fresh();
    var id := "r" + N(a);
    var b := ctx.Fresh();
    var elemVar := "__elem" + N(b);
    r := CondRestCodegen(cond, cs, mode, id, elemVar, cvr, rrm, ctx);
  }

  /** `conditional_elements_codegen` once its id and element variable are drawn. */
  method CondRestCodegen(cond: string, cs: seq<Node>, mode: Mode, id: string, elemVar: string, cvr: Renamer, rrm: Rrm,
                         ctx: Context) returns (r: Result<string>)
    modifies ctx, cvr.ids
    ensures Agrees(r, CondRest(cond, cs, mode, id, elemVar, cvr.prefix, rrm, old(ctx.counter), old(cvr.ids.names)), ctx.counter, cvr.ids.names)
    decreases 1 + HeightSeq(cs), 2, 0
  {
    var children := ChildrenCodegen(cs, JsDom(elemVar), cvr, rrm, ctx);
    r := CondFinishCodegen(children, ChildrenGen(cs, JsDom(elemVar), cvr.prefix, rrm, old(ctx.counter), old(cvr.ids.names)),
                           ctx.counter, cond, mode, id, elemVar, cvr);
  }

  /** The conditional's code around its generated children. */
  method CondFinishCodegen(children: Result<string>, ghost body: Result<Out>, ghost counter: nat, cond: string, mode: Mode,
                           id: string, elemVar: string, cvr: Renamer) returns (r: Result<string>)
    requires Agrees(children, body, counter, cvr.ids.names)
    ensures Agrees(r, CondFinish(body, cond, mode, id, elemVar, cvr.prefix), counter, cvr.ids.names)
  {
    if children.Err? {
      return Err(children.error);
    }
    var func := CondFunc(id, elemVar, children.value);
    var rx := ReactiveExpression(cond, id + "cond", cvr);
    r := Ok(CondCode(mode, id, elemVar, func, rx));
  }

  /** The body of `loop_codegen`'s loop function. */
  method LoopBodyCodegen(reactive: bool, cs: seq<Node>, elemVar: string, cvr: Renamer, rrm: Rrm, ctx: Context)
    returns (r: Result<string>)
    modifies ctx, cvr.ids
    ensures Agrees(r, LoopBodyGen(reactive, cs, elemVar, cvr.prefix, rrm, old(ctx.counter), old(cvr.ids.names)), ctx.counter, cvr.ids.names)
    decreases 1 + HeightSeq(cs), 2, 1
  {
    if reactive {
      r := ElementCodegen(Element("", None, None, [], cs), JsDom(elemVar), cvr, rrm, ctx);
    } else {
      r := ChildrenCodegen(cs, JsDom(elemVar), cvr, rrm, ctx);
    }
  }

  /** The `instantiate_and_subscribe` code of `loop_codegen`. */
  method LoopInstCodegen(reactive: bool, v: string, it: string, elemVar: string, children: string, id: string,
                         cvr: Renamer) returns (r: string)
    ensures r == LoopInst(reactive, v, it, elemVar, children, id, cvr.prefix, cvr.ids.names)
  {
    if reactive {
      var list := cvr.ProcessNoDeclared(it);
      r := ListSubscribe(list, v, elemVar, children, id);
    } else {
      r := ReactiveExpression(it, id + "loop", cvr);
    }
  }

  /** `loop_codegen` */
  method LoopCodegen(reactive: bool, v: string, it: string, cs: seq<Node>, mode: Mode, cvr: Renamer, rrm: Rrm,
                     ctx: Context) returns (r: Result<string>)
    modifies ctx, cvr.ids
    ensures Agrees(r, LoopGen(reactive, v, it, cs, mode, cvr.prefix, rrm, old(ctx.counter), old(cvr.ids.names)), ctx.counter, cvr.ids.names)
    decreases 1 + HeightSeq(cs), 3, 0
  {
    var a := ctx.Fresh();
    var id := "r" + N(a);
    var b := ctx.Fresh();
    var elemVar := "__elem" + N(b);
    r := LoopRestCodegen(reactive, v, it, cs, mode, id, elemVar, cvr, rrm, ctx);
  }

  /** `loop_codegen` once its id and element variable are drawn. */
  method LoopRestCodegen(reactive: bool, v: string, it: string, cs: seq<Node>, mode: Mode, id: string, elemVar: string,
                         cvr: Renamer, rrm: Rrm, ctx: Context) returns (r: Result<string>)
    modifies ctx, cvr.ids
    ensures Agrees(r, LoopRest(reactive, v, it, cs, mode, id, elemVar, cvr.prefix, rrm, old(ctx.counter), old(cvr.ids.names)), ctx.counter, cvr.ids.names)
    decreases 1 + HeightSeq(cs), 2, 2
  {
    var children := LoopBodyCodegen(reactive, cs, elemVar, cvr, rrm, ctx);
    r := LoopFinishCodegen(children, LoopBodyGen(reactive, cs, elemVar, cvr.prefix, rrm, old(ctx.counter), old(cvr.ids.names)),
                           ctx.counter, reactive, v, it, mode, id, elemVar, cvr);
  }

  /** The loop's code around its generated body. */
  method LoopFinishCodegen(children: Result<string>, ghost body: Result<Out>, ghost counter: nat, reactive: bool, v: string,
                           it: string, mode: Mode, id: string, elemVar: string, cvr: Renamer) returns (r: Result<string>)
    requires Agrees(children, body, counter, cvr.ids.names)
    ensures Agrees(r, LoopFinish(body, reactive, v, it, mode, id, elemVar, cvr.prefix), counter, cvr.ids.names)
  {
    if children.Err? {
      return Err(children.error);
    }
    var func := LoopFunc(id, elemVar, v, children.value);
    var inst := LoopInstCodegen(reactive, v, it, elemVar, children.value, id, cvr);
    r := Ok(LoopCode(mode, id, elemVar, func, inst));
  }

  /** `full_js_codegen` */
  method FullJsCodegen(root: Node, ss: Css.StyleSheet, version: string, prelude: string, ctx: Context)
    returns (r: Result<string>)
    requires Css.CompleteSheet(ss)
    modifies ctx
    ensures match FullJs(root, ss, version, prelude, old(ctx.counter))
            case Ok(o) => r == Ok(o.code) && ctx.counter == o.counter
            case Err(e) => r == Err(e)
  {
    var html := RootCodegen(root, ctx);
    if html.Err? {
      return Err(html.error);
    }
    var sheet := CodegenStylesheet(ss);
    r := Ok(Document(version, prelude, sheet, html.value));
  }

  /** The page body: the root in HTML mode, under a renamer of its own. */
  method RootCodegen(root: Node, ctx: Context) returns (r: Result<string>)
    modifies ctx
    ensures match NodeGen(root, Html, "__root_" + N(old(ctx.counter)) + "_", map[], old(ctx.counter) + 1, [])
            case Ok(o) => r == Ok(o.code) && ctx.counter == o.counter
            case Err(e) => r == Err(e)
  {
    var cvr := new Renamer("root", ctx);
    assert "__" + "root" + "_" == "__root_";
    r := NodeCodegen(root, Html, cvr, map[], ctx);
  }
}
