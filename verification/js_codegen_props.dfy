/**
 * What the web code generator promises about its output: the error cases
 * of `Component::codegen` and of component holes, the verbatim text of
 * HTML mode, the shape of an element's HTML, the DOM fallback for elements
 * with a reactive part, the sequencing of children, and the page produced
 * by `full_js_codegen`.
 */
module JsCodegenProps {
  import opened Wrappers
  import opened Text
  import opened Lib
  import Css
  import opened JsCodegen

  /** A component of a dialect other than JsLilac and TsLilac is refused; a recursive one is refused in HTML. */
  lemma ComponentErrors(c: Component, mode: Mode, prefix: string, rrm: Rrm, k: nat, names: seq<string>)
    ensures c.dialect == RsLilac ==>
              NodeGen(ComponentNode(c), mode, prefix, rrm, k, names) == Err(Message(UnsupportedDialect(c.name)))
    ensures c.dialect != RsLilac && c.recursive && mode.Html? ==>
              NodeGen(ComponentNode(c), mode, prefix, rrm, k, names) == Err(Message(RecursiveInHtml(c.name)))
  {
  }

  /** The two messages name the component. */
  lemma ErrorMessages(name: string)
    ensures StartsAt(UnsupportedDialect(name), 0, "Unsupported dialect for component " + name + ".")
    ensures RecursiveInHtml(name) == "Recursive component " + name + " in non-conditional context."
  {
    var head := "Unsupported dialect for component " + name + ".";
    assert UnsupportedDialect(name) == head + UnsupportedDialect(name)[|head|..];
  }

  /**
   * Text is emitted as it is in HTML; in DOM code it becomes a text node
   * named from one fresh counter value (see `TextNodeShape`).
   */
  lemma TextOutput(t: string, mode: Mode, prefix: string, rrm: Rrm, k: nat, names: seq<string>)
    ensures mode.Html? ==> NodeGen(Text(t), mode, prefix, rrm, k, names) == Ok(Out(t, k, names))
    ensures mode.JsDom? ==> NodeGen(Text(t), mode, prefix, rrm, k, names) == Ok(Out(TextNodeCode(mode.parent, k, t), k + 1, names))
  {
  }

  /** The DOM code of a text node holds the text and ends by appending the node to the parent. */
  lemma TextNodeShape(parent: string, k: nat, t: string)
    ensures exists i :: StartsAt(TextNodeCode(parent, k, t), i, t)
    ensures var code, append := TextNodeCode(parent, k, t), AppendCode(parent, "__textNode" + N(k));
            StartsAt(code, |code| - |append|, append)
  {
    var v := "__textNode" + N(k);
    var head := "const " + v + " = " + "document.createTextNode(`";
    var code := TextNodeCode(parent, k, t);
    var append := parent + ".appendChild(" + v + ");\n";
    assert code == head + t + "`);\n" + append;
    assert code == head + (t + ("`);\n" + append));
    assert StartsAt(code, |head|, t);
    assert code == (head + t + "`);\n") + append;
  }

  /**
   * A `Children` hole left in the tree emits nothing; a hole naming a
   * component that is not a recursive instance in scope was never
   * replaced; a recursive call cannot be written as HTML.
   */
  lemma HoleOutput(name: string, position: nat, props: seq<Attribute>, contents: string, closed: bool,
                   children: seq<Node>, mode: Mode, prefix: string, rrm: Rrm, k: nat, names: seq<string>)
    ensures var r := NodeGen(ComponentHole(name, position, props, contents, closed, children), mode, prefix, rrm, k, names);
            && (name == "Children" ==> r == Ok(Out("", k, names)))
            && (name != "Children" && name !in rrm ==> r == Err(Panic("Component " + name + " not replaced.")))
            && (name != "Children" && name in rrm && mode.Html? ==> r.Err? && r.error.Panic?)
            && (name != "Children" && name in rrm && mode.JsDom? ==>
                  r.Ok? && r.value.counter == k && exists i :: StartsAt(r.value.code, i, rrm[name] + "(props, "))
  {
    if name != "Children" && name in rrm && mode.JsDom? {
      var ps := PropsSet(props, prefix, names);
      var head := "{ " + ps + ";" + Line(1);
      var code := HoleCallCode(ps, rrm[name], mode.parent);
      assert code == head + (rrm[name] + "(props, ") + (mode.parent + "); }");
      assert StartsAt(code, |head|, rrm[name] + "(props, ");
    }
  }

  /** On the static path every part of an element is static, so the opening tag can be written as text. */
  lemma StaticPathIsStatic(e: Element)
    ensures !ReactiveElement(e) <==>
              (forall i :: 0 <= i < |e.attributes| ==> e.attributes[i].StaticAttr?)
              && (e.id.None? || e.id.value.StaticId?)
              && (e.classes.None? || e.classes.value.StaticClasses?)
  {
    if !ReactiveElement(e) {
      forall i | 0 <= i < |e.attributes|
        ensures e.attributes[i].StaticAttr?
      {
        assert !e.attributes[i].IsReactive();
      }
    } else if AnyReactive(e.attributes) {
      var i :| 0 <= i < |e.attributes| && e.attributes[i].IsReactive();
      assert !e.attributes[i].StaticAttr?;
    }
  }

  /**
   * In HTML, a named element with a reactive part becomes an anchor `span`
   * and a script around the DOM code of the element (see `ReactiveHtmlShape`).
   */
  lemma ReactiveFallback(e: Element, prefix: string, rrm: Rrm, k: nat, names: seq<string>)
    requires e.name != "" && ReactiveElement(e)
    ensures var r, elemVar := ElementGen(e, Html, prefix, rrm, k, names), "__elem_reactive_html_" + N(k);
            var js := JsDomGen(e, elemVar, prefix, rrm, k + 2, names);
            && (r.Ok? <==> js.Ok?)
            && (r.Ok? ==> r.value.code == ReactiveHtmlCode("r" + N(k + 1), elemVar, js.value.code))
  {
  }

  /** The anchor comes first, and the script holds the DOM code. */
  lemma ReactiveHtmlShape(id: string, elemVar: string, js: string)
    ensures StartsAt(ReactiveHtmlCode(id, elemVar, js), 0, "<span id=\"" + id + "\"></span>")
    ensures exists i :: StartsAt(ReactiveHtmlCode(id, elemVar, js), i, js)
  {
    var span := "<span id=\"" + id + "\"></span>";
    var head := span + Line(16) + "<script>" + Line(20) + "const " + elemVar + " = document.getElementById(\"" + id
      + "\");" + Line(20);
    var code := ReactiveHtmlCode(id, elemVar, js);
    assert code == head + js + (Line(16) + "</script>");
    assert StartsAt(code, |head|, js);
    assert code == span + code[|span|..];
  }

  /**
   * A conditional draws two counter values, for its anchor id and its
   * element variable, and generates its children once as DOM code under
   * that variable; it fails exactly when they fail. The condition is a
   * reactive expression read with the names the children left.
   */
  lemma ConditionalOutput(cond: string, cs: seq<Node>, mode: Mode, prefix: string, rrm: Rrm, k: nat, names: seq<string>)
    ensures var id, elemVar := "r" + N(k), "__elem" + N(k + 1);
            var r, body := NodeGen(ConditionalElements(cond, cs), mode, prefix, rrm, k, names),
                           ChildrenGen(cs, JsDom(elemVar), prefix, rrm, k + 2, names);
            && (r.Ok? <==> body.Ok?)
            && (r.Err? ==> r.error == body.error)
            && (r.Ok? ==> r.value.counter == body.value.counter && r.value.names == body.value.names
                          && r.value.code == CondCode(mode, id, elemVar, CondFunc(id, elemVar, body.value.code),
                                                      ReactiveExpr(cond, id + "cond", prefix, body.value.names)))
  {
    ConditionalUnfold(ConditionalElements(cond, cs), mode, prefix, rrm, k, names);
    ConditionalFrame(cond, cs, mode, prefix, rrm, k, names);
  }

  /** A conditional node is generated by the conditional's generator. */
  lemma ConditionalUnfold(n: Node, mode: Mode, prefix: string, rrm: Rrm, k: nat, names: seq<string>)
    requires n.ConditionalElements?
    ensures NodeGen(n, mode, prefix, rrm, k, names) == ConditionalGen(n.condition, n.children, mode, prefix, rrm, k, names)
  {
  }

  /** The conditional's generator puts its frame around its children's DOM code. */
  lemma ConditionalFrame(cond: string, cs: seq<Node>, mode: Mode, prefix: string, rrm: Rrm, k: nat, names: seq<string>)
    ensures var elemVar := "__elem" + N(k + 1);
            ConditionalGen(cond, cs, mode, prefix, rrm, k, names)
            == CondFinish(ChildrenGen(cs, JsDom(elemVar), prefix, rrm, k + 2, names), cond, mode, "r" + N(k), elemVar, prefix)
  {
  }


  /** The conditional's update function around the children. */
  lemma CondFuncParts(id: string, elemVar: string, children: string) returns (pre: string, post: string)
    ensures CondFunc(id, elemVar, children) == pre + children + post
  {
    pre := "const " + id + "cond = (c) => {" + Line(8) + elemVar + ".innerHTML = \"\";" + Line(8) + "if (c) {" + Line(12);
    post := Line(8) + "}" + Spaces(4) + Line(4) + "};";
  }

  /** `b` sits at `|a|` in `a + b + c`. */
  lemma Within(a: string, b: string, c: string)
    ensures StartsAt(a + b + c, |a|, b)
  {
    assert (a + b + c)[|a|..|a| + |b|] == b;
  }

  /** The anchor and script of a conditional in HTML around its update function. */
  lemma CondHtmlParts(id: string, elemVar: string, func: string, r: string) returns (head: string, tail: string)
    ensures CondCode(Html, id, elemVar, func, r) == head + func + tail
    ensures StartsAt(head, 0, "<span id=\"" + id + "\"></span>")
  {
    var span := "<span id=\"" + id + "\"></span>";
    var rest := "\n" + "<script>" + Line(4) + "const " + elemVar + " = document.getElementById(\"" + id + "\");" + Line(4);
    head := span + rest;
    tail := Line(4) + r + " \n" + "</script>\n";
    assert head[..|span|] == span;
  }

  /** The element a conditional creates in DOM code around its update function, appended last. */
  lemma CondDomParts(parent: string, id: string, elemVar: string, func: string, r: string) returns (head: string, mid: string)
    ensures CondCode(JsDom(parent), id, elemVar, func, r) == head + func + mid + AppendCode(parent, elemVar)
  {
    head := "\nconst " + elemVar + " = " + "document.createElement(\"span\")" + ";\n";
    mid := "\n" + r + "\n";
  }

  /** In HTML the conditional starts with its anchor and holds its children inside the update function. */
  lemma CondHtmlShape(id: string, elemVar: string, children: string, r: string)
    ensures StartsAt(CondCode(Html, id, elemVar, CondFunc(id, elemVar, children), r), 0, "<span id=\"" + id + "\"></span>")
    ensures exists i :: StartsAt(CondCode(Html, id, elemVar, CondFunc(id, elemVar, children), r), i, children)
  {
    var pre, post := CondFuncParts(id, elemVar, children);
    var head, tail := CondHtmlParts(id, elemVar, pre + children + post, r);
    var code := head + (pre + children + post) + tail;
    var span := "<span id=\"" + id + "\"></span>";
    assert code[..|span|] == head[..|span|];
    assert code == (head + pre) + children + (post + tail);
    Within(head + pre, children, post + tail);
  }

  /** `b` ends `a + b`. */
  lemma Ends(a: string, b: string)
    ensures StartsAt(a + b, |a|, b)
  {
    assert (a + b)[|a|..|a| + |b|] == b;
  }

  /** In DOM code the conditional ends by appending its element to the parent. */
  lemma CondDomEnds(parent: string, id: string, elemVar: string, children: string, r: string)
    ensures var code, append := CondCode(JsDom(parent), id, elemVar, CondFunc(id, elemVar, children), r),
                                AppendCode(parent, elemVar);
            StartsAt(code, |code| - |append|, append)
  {
    var head, mid := CondDomParts(parent, id, elemVar, CondFunc(id, elemVar, children), r);
    Ends(head + CondFunc(id, elemVar, children) + mid, AppendCode(parent, elemVar));
  }

  /** In DOM code the conditional holds its children inside the update function. */
  lemma CondDomHolds(parent: string, id: string, elemVar: string, children: string, r: string)
    ensures exists i :: StartsAt(CondCode(JsDom(parent), id, elemVar, CondFunc(id, elemVar, children), r), i, children)
  {
    var pre, post := CondFuncParts(id, elemVar, children);
    var head, mid := CondDomParts(parent, id, elemVar, pre + children + post, r);
    var append := AppendCode(parent, elemVar);
    assert head + (pre + children + post) + mid + append == (head + pre) + children + (post + mid + append);
    Within(head + pre, children, post + mid + append);
  }

  /**
   * A loop draws two counter values like a conditional and generates its
   * body once as DOM code under its element variable, for a reactive list
   * through a nameless element, which is the same; it fails exactly when
   * the body fails.
   */
  lemma LoopOutput(v: string, it: string, reactive: bool, cs: seq<Node>, mode: Mode, prefix: string, rrm: Rrm, k: nat,
                   names: seq<string>)
    ensures var id, elemVar := "r" + N(k), "__elem" + N(k + 1);
            var r, body := NodeGen(Loop(v, it, reactive, cs), mode, prefix, rrm, k, names),
                           ChildrenGen(cs, JsDom(elemVar), prefix, rrm, k + 2, names);
            && (r.Ok? <==> body.Ok?)
            && (r.Err? ==> r.error == body.error)
            && (r.Ok? ==> r.value.counter == body.value.counter && r.value.names == body.value.names
                          && r.value.code == LoopCode(mode, id, elemVar, LoopFunc(id, elemVar, v, body.value.code),
                                                      LoopInst(reactive, v, it, elemVar, body.value.code, id, prefix,
                                                               body.value.names)))
  {
    var id, elemVar := "r" + N(k), "__elem" + N(k + 1);
    var body := ChildrenGen(cs, JsDom(elemVar), prefix, rrm, k + 2, names);
    LoopBodyIsChildren(reactive, cs, elemVar, prefix, rrm, k + 2, names);
    calc {
      NodeGen(Loop(v, it, reactive, cs), mode, prefix, rrm, k, names);
      LoopGen(reactive, v, it, cs, mode, prefix, rrm, k, names);
      LoopRest(reactive, v, it, cs, mode, id, elemVar, prefix, rrm, k + 2, names);
      LoopFinish(LoopBodyGen(reactive, cs, elemVar, prefix, rrm, k + 2, names), reactive, v, it, mode, id, elemVar, prefix);
      LoopFinish(body, reactive, v, it, mode, id, elemVar, prefix);
    }
  }

  /** The body of a loop is its children's DOM code, whether or not the list is reactive. */
  lemma LoopBodyIsChildren(reactive: bool, cs: seq<Node>, elemVar: string, prefix: string, rrm: Rrm, k: nat,
                           names: seq<string>)
    ensures LoopBodyGen(reactive, cs, elemVar, prefix, rrm, k, names) == ChildrenGen(cs, JsDom(elemVar), prefix, rrm, k, names)
  {
    NamelessElement(Element("", None, None, [], cs), JsDom(elemVar), prefix, rrm, k, names);
  }

  /** The loop function binds the iterator variable to each item and then runs the body. */
  lemma LoopFuncShape(id: string, elemVar: string, v: string, children: string)
    ensures var f := LoopFunc(id, elemVar, v, children);
            exists i :: StartsAt(f, i, "const " + v + " = arr[__i];" + Line(12) + children)
  {
    var head := "const " + id + "loop = (arr) => {" + Line(8) + elemVar + ".innerHTML = \"\";" + Line(8)
      + "for (let __i = 0; __i < " + "arr.length; __i++) {" + Line(12);
    var bind := "const " + v + " = arr[__i];" + Line(12) + children;
    var f := LoopFunc(id, elemVar, v, children);
    assert f == head + bind + (Line(8) + "}" + Line(4) + "};");
    assert StartsAt(f, |head|, bind);
  }

  /** A void element with no reactive part is its opening tag alone. */
  lemma VoidElement(e: Element, prefix: string, rrm: Rrm, k: nat, names: seq<string>)
    requires e.name != "" && !ReactiveElement(e) && IsVoid(e.name)
    ensures ElementGen(e, Html, prefix, rrm, k, names) == Ok(Out(OpenTag(e), k, names))
  {
  }

  /** Any other element with no reactive part is its opening tag, its children's HTML and its closing tag. */
  lemma ClosedElement(e: Element, prefix: string, rrm: Rrm, k: nat, names: seq<string>)
    requires e.name != "" && !ReactiveElement(e) && !IsVoid(e.name)
    ensures var r, cs := ElementGen(e, Html, prefix, rrm, k, names), ChildrenGen(e.children, Html, prefix, rrm, k, names);
            && (r.Ok? <==> cs.Ok?)
            && (r.Ok? ==> r.value.code == OpenTag(e) + cs.value.code + "</" + e.name + ">")
  {
  }

  /** Such text starts with the opening tag and ends with the closing tag. */
  lemma ClosedShape(open: string, inner: string, name: string)
    ensures var code := open + inner + "</" + name + ">";
            StartsAt(code, 0, open) && StartsAt(code, |code| - |name| - 3, "</" + name + ">")
  {
    var code := open + inner + "</" + name + ">";
    assert code == open + (inner + "</" + name + ">");
    assert code == (open + inner) + ("</" + name + ">");
  }

  /** A nameless element is nothing but its children, in either mode. */
  lemma NamelessElement(e: Element, mode: Mode, prefix: string, rrm: Rrm, k: nat, names: seq<string>)
    requires e.name == ""
    ensures ElementGen(e, mode, prefix, rrm, k, names) == ChildrenGen(e.children, mode, prefix, rrm, k, names)
  {
  }

  /** The output `first`, followed by the children `b` generated from the counter and list it leaves. */
  function FollowedBy(first: Result<Out>, b: seq<Node>, mode: Mode, prefix: string, rrm: Rrm): Result<Out> {
    match first
    case Err(x) => Err(x)
    case Ok(o) =>
      match ChildrenGen(b, mode, prefix, rrm, o.counter, o.names)
      case Err(x) => Err(x)
      case Ok(p) => Ok(Out(o.code + p.code, p.counter, p.names))
  }

  /**
   * Children are generated in order, each from the counter and list the
   * previous ones left: two runs of children generate as the first run
   * followed by the second, and fail with the first failure.
   */
  lemma {:induction false} ChildrenConcat(a: seq<Node>, b: seq<Node>, mode: Mode, prefix: string, rrm: Rrm, k: nat,
                                          names: seq<string>)
    ensures ChildrenGen(a + b, mode, prefix, rrm, k, names) == FollowedBy(ChildrenGen(a, mode, prefix, rrm, k, names), b, mode, prefix, rrm)
    decreases |a|
  {
    if a == [] {
      assert a + b == b;
      var r := ChildrenGen(b, mode, prefix, rrm, k, names);
      if r.Ok? {
        assert "" + r.value.code == r.value.code;
      }
    } else {
      var first := NodeGen(a[0], mode, prefix, rrm, k, names);
      assert (a + b)[0] == a[0];
      assert (a + b)[1..] == a[1..] + b;
      if first.Ok? {
        var o := first.value;
        var rest := ChildrenGen(a[1..], mode, prefix, rrm, o.counter, o.names);
        var joined := ChildrenGen(a[1..] + b, mode, prefix, rrm, o.counter, o.names);
        assert joined == FollowedBy(rest, b, mode, prefix, rrm) by {
          ChildrenConcat(a[1..], b, mode, prefix, rrm, o.counter, o.names);
        }
        if rest.Ok? {
          var q := rest.value;
          var last := ChildrenGen(b, mode, prefix, rrm, q.counter, q.names);
          if last.Ok? {
            assert o.code + (q.code + last.value.code) == (o.code + q.code) + last.value.code;
          }
        }
      }
    }
  }

  /**
   * The page: the doctype and generator comment, the prelude script, the
   * stylesheet and then the root's HTML; the root is generated with the
   * root renamer `__root_<k>_` and a fresh list, and its failure is the
   * page's failure.
   */
  lemma FullJsPage(root: Node, ss: Css.StyleSheet, version: string, prelude: string, k: nat)
    requires Css.CompleteSheet(ss)
    ensures var html := NodeGen(root, Html, "__root_" + N(k) + "_", map[], k + 1, []);
            var r := FullJs(root, ss, version, prelude, k);
            && (r.Err? <==> html.Err?)
            && (r.Err? ==> r.error == html.error)
            && (r.Ok? ==> r.value.code == Document(version, prelude, StylesheetCode(ss), html.value.code)
                          && r.value.counter == html.value.counter)
  {
  }

  /** The page starts with the doctype and ends with the root's HTML. */
  lemma DocumentShape(version: string, prelude: string, sheet: string, html: string)
    ensures StartsAt(Document(version, prelude, sheet, html), 0, "<!DOCTYPE html>\n")
    ensures var d := Document(version, prelude, sheet, html); StartsAt(d, |d| - |html|, html)
  {
    var d := Document(version, prelude, sheet, html);
    var front := "<!DOCTYPE html>\n" + "<!-- This file was generated " + "by Lilac v" + version + ". -->\n" + "<head>"
      + Line(4) + "<meta charset=\"UTF-8\">\n" + "</head>\n" + "<script>" + prelude + "</script>\n" + "<style>"
      + sheet + "</style>\n";
    assert d == front + html;
    assert d == "<!DOCTYPE html>\n" + d[|"<!DOCTYPE html>\n"|..];
  }

  /** Names built from distinct counter values are distinct. */
  lemma FreshNamesDistinct(stem: string, a: nat, b: nat)
    ensures stem + N(a) == stem + N(b) <==> a == b
  {
    if stem + N(a) == stem + N(b) {
      assert N(a) == (stem + N(a))[|stem|..];
      NatToStringInjective(a, b);
    }
  }
}
