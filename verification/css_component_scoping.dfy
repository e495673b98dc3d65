/**
 * `src/css_component_scoping.rs`: confining a component's style rules to
 * the component. Each simple selector (`tag`, `.class`, `#id`, `*`) of
 * the component's rules is rewritten into a class selector carrying the
 * prefix `-<Component>-`, and every element the original selector would
 * have matched is given that class.
 */
module CssComponentScoping {
  import opened Wrappers
  import opened Lib
  import opened Css
  import opened Utils

  /** The names the rules' simple selectors mentioned, in rule order, and whether `*` occurred. */
  datatype Seen = Seen(ids: seq<string>, classes: seq<string>, tags: seq<string>, all: bool)

  /** The rewritten form of a rule's selector. */
  function ScopedSelector(s: Selector, prefix: string): (r: Selector)
    ensures s.Tag? ==> r == Class("tag" + prefix + s.tag)
    ensures s.Class? ==> r == Class("class" + prefix + s.className)
    ensures s.ID? ==> r == Class("id" + prefix + s.id)
    ensures s.All? ==> r == Class("all" + prefix)
    ensures !(s.Tag? || s.Class? || s.ID? || s.All?) ==> r == s
  {
    match s
    case Tag(t) => Class("tag" + prefix + t)
    case Class(c) => Class("class" + prefix + c)
    case ID(i) => Class("id" + prefix + i)
    case All => Class("all" + prefix)
    case _ => s
  }

  /** What one rule adds to the record. */
  function Record(seen: Seen, s: Selector): Seen {
    match s
    case Tag(t) => seen.(tags := seen.tags + [t])
    case Class(c) => seen.(classes := seen.classes + [c])
    case ID(i) => seen.(ids := seen.ids + [i])
    case All => seen.(all := true)
    case _ => seen
  }

  /** The record of the first `n` rules. */
  function SeenIn(css: StyleSheet, n: nat): Seen
    requires n <= |css|
  {
    if n == 0 then Seen([], [], [], false) else Record(SeenIn(css, n - 1), css[n - 1].selector)
  }

  /** The record names exactly the tags, classes and ids of the simple selectors, and `*`. */
  lemma {:induction false} SeenExact(css: StyleSheet, n: nat)
    requires n <= |css|
    ensures forall t :: t in SeenIn(css, n).tags <==> exists i :: 0 <= i < n && css[i].selector == Tag(t)
    ensures forall c :: c in SeenIn(css, n).classes <==> exists i :: 0 <= i < n && css[i].selector == Class(c)
    ensures forall x :: x in SeenIn(css, n).ids <==> exists i :: 0 <= i < n && css[i].selector == ID(x)
    ensures SeenIn(css, n).all <==> exists i :: 0 <= i < n && css[i].selector == All
  {
    if n > 0 {
      SeenExact(css, n - 1);
      var s := css[n - 1].selector;
      if s.Tag? {
        assert css[n - 1].selector == Tag(s.tag);
      } else if s.Class? {
        assert css[n - 1].selector == Class(s.className);
      } else if s.ID? {
        assert css[n - 1].selector == ID(s.id);
      }
    }
  }

  /**
   * `handle_css`: every rule keeps its properties and place, its selector
   * is rewritten, and the names met are recorded.
   */
  method HandleCss(css: StyleSheet, prefix: string) returns (out: StyleSheet, seen: Seen)
    ensures |out| == |css|
    ensures forall i :: 0 <= i < |css| ==>
              out[i].properties == css[i].properties && out[i].selector == ScopedSelector(css[i].selector, prefix)
    ensures seen == SeenIn(css, |css|)
  {
    out := [];
    seen := Seen([], [], [], false);
    var i := 0;
    while i < |css|
      invariant i <= |css| && |out| == i
      invariant forall k :: 0 <= k < i ==>
                  out[k].properties == css[k].properties && out[k].selector == ScopedSelector(css[k].selector, prefix)
      invariant seen == SeenIn(css, i)
    {
      var rule := css[i];
      match rule.selector {
        case Tag(t) =>
          seen := seen.(tags := seen.tags + [t]);
          rule := rule.(selector := Class("tag" + prefix + t));
        case Class(c) =>
          seen := seen.(classes := seen.classes + [c]);
          rule := rule.(selector := Class("class" + prefix + c));
        case ID(x) =>
          seen := seen.(ids := seen.ids + [x]);
          rule := rule.(selector := Class("id" + prefix + x));
        case All =>
          seen := seen.(all := true);
          rule := rule.(selector := Class("all" + prefix));
        case _ =>
      }
      out := out + [rule];
      i := i + 1;
    }
  }

  /* ---------------- elements ---------------- */

  /** `add_class` */
  function AddClass(e: Element, c: string): (r: Element)
    ensures r == e.(classes := r.classes)
    ensures e.classes.None? ==> r.classes == Some(StaticClasses([c]))
    ensures e.classes.Some? && e.classes.value.StaticClasses? ==>
              r.classes == Some(StaticClasses(e.classes.value.names + [c]))
    ensures e.classes.Some? && e.classes.value.ReactiveClasses? ==>
              r.classes == Some(ReactiveClasses("(" + e.classes.value.expr + ") + \" " + c + "\""))
  {
    match e.classes
    case None => e.(classes := Some(StaticClasses([c])))
    case Some(StaticClasses(names)) => e.(classes := Some(StaticClasses(names + [c])))
    case Some(ReactiveClasses(x)) => e.(classes := Some(ReactiveClasses("(" + x + ") + \" " + c + "\"")))
  }

  /** The loop over a snapshot `cl` of the static classes: one added class per listed one. */
  function AddClassesFor(e: Element, cl: seq<string>, classes: seq<string>, prefix: string): (r: Element)
    ensures r == e.(classes := r.classes)
    decreases |cl|
  {
    if cl == [] then e
    else
      var e' := if cl[0] in classes then AddClass(e, "class" + prefix + cl[0]) else e;
      AddClassesFor(e', cl[1..], classes, prefix)
  }

  /** An element whose class list, if any, is static. */
  predicate StaticOrNone(e: Element) {
    e.classes.None? || e.classes.value.StaticClasses?
  }

  /** The static class names of an element; none without a class list. */
  function Names(e: Element): seq<string>
    requires StaticOrNone(e)
  {
    if e.classes.None? then [] else e.classes.value.names
  }

  /** `b` is `a` with more names after it. */
  predicate Extends(a: seq<string>, b: seq<string>) {
    |a| <= |b| && b[..|a|] == a
  }

  lemma ExtendsTrans(a: seq<string>, b: seq<string>, c: seq<string>)
    requires Extends(a, b) && Extends(b, c)
    ensures Extends(a, c)
    ensures forall x :: x in b ==> x in c
  {
    assert c[..|a|] == c[..|b|][..|a|];
    forall x | x in b
      ensures x in c
    {
      var k :| 0 <= k < |b| && b[k] == x;
      assert c[k] == c[..|b|][k];
    }
  }

  lemma ExtendsKeeps(a: seq<string>, b: seq<string>)
    requires Extends(a, b)
    ensures forall x :: x in a ==> x in b
  {
    forall x | x in a
      ensures x in b
    {
      var k :| 0 <= k < |a| && a[k] == x;
      assert b[k] == b[..|a|][k];
    }
  }

  /** `add_class` on a static or absent list appends. */
  lemma AddClassAppends(e: Element, c: string)
    requires StaticOrNone(e)
    ensures StaticOrNone(AddClass(e, c)) && Names(AddClass(e, c)) == Names(e) + [c]
    ensures Extends(Names(e), Names(AddClass(e, c))) && c in Names(AddClass(e, c))
  {
    assert (Names(e) + [c])[..|Names(e)|] == Names(e);
  }

  /** A static class list only grows: each listed class seen in the rules adds its scoped class. */
  lemma {:induction false} AddClassesForGrows(e: Element, cl: seq<string>, classes: seq<string>, prefix: string)
    requires StaticOrNone(e)
    ensures var r := AddClassesFor(e, cl, classes, prefix);
      StaticOrNone(r) && Extends(Names(e), Names(r))
      && forall c :: c in cl && c in classes ==> "class" + prefix + c in Names(r)
    decreases |cl|
  {
    if cl == [] {
      assert Names(e)[..|Names(e)|] == Names(e);
    } else {
      var e' := if cl[0] in classes then AddClass(e, "class" + prefix + cl[0]) else e;
      if cl[0] in classes {
        AddClassAppends(e, "class" + prefix + cl[0]);
      } else {
        assert Names(e)[..|Names(e)|] == Names(e);
      }
      AddClassesForGrows(e', cl[1..], classes, prefix);
      var r := AddClassesFor(e, cl, classes, prefix);
      ExtendsTrans(Names(e), Names(e'), Names(r));
    }
  }

  /** The reactive class expression, extended by the scoped form of each of its classes. */
  function ReactiveScoped(x: string, prefix: string): string {
    "(" + x + ") + \" \" + (" + x + ").split(\" \").map((s) => \"class" + prefix + "\" + s).join(\" \")"
  }

  /** The id step: a static id the rules mention adds its scoped class. */
  function IdStep(e: Element, prefix: string, seen: Seen): (r: Element)
    requires e.id.None? || e.id.value.StaticId?
    ensures r == e.(classes := r.classes)
    ensures !(e.id.Some? && e.id.value.value in seen.ids) ==> r == e
    ensures StaticOrNone(e) ==> StaticOrNone(r) && Extends(Names(e), Names(r))
    ensures StaticOrNone(e) && e.id.Some? && e.id.value.value in seen.ids ==> "id" + prefix + e.id.value.value in Names(r)
  {
    if e.id.Some? && e.id.value.value in seen.ids then AddClassChecked(e, "id" + prefix + e.id.value.value) else Same(e)
  }

  /** The class step: static classes add their scoped classes, a reactive list is extended. */
  function ClassStep(e: Element, prefix: string, seen: Seen): (r: Element)
    ensures r == e.(classes := r.classes)
    ensures e.classes.None? ==> r == e
    ensures StaticOrNone(e) ==> StaticOrNone(r) && Extends(Names(e), Names(r))
    ensures StaticOrNone(e) ==> forall c :: c in Names(e) && c in seen.classes ==> "class" + prefix + c in Names(r)
    ensures !StaticOrNone(e) ==> r.classes == Some(ReactiveClasses(ReactiveScoped(e.classes.value.expr, prefix)))
  {
    match e.classes
    case Some(StaticClasses(cl)) =>
      AddClassesForGrows(e, cl, seen.classes, prefix);
      AddClassesFor(e, cl, seen.classes, prefix)
    case Some(ReactiveClasses(x)) => e.(classes := Some(ReactiveClasses(ReactiveScoped(x, prefix))))
    case None => e
  }

  /** The tag step. */
  function TagStep(e: Element, prefix: string, seen: Seen): (r: Element)
    ensures r == e.(classes := r.classes)
    ensures e.name !in seen.tags ==> r == e
    ensures StaticOrNone(e) ==> StaticOrNone(r) && Extends(Names(e), Names(r))
    ensures StaticOrNone(e) && e.name in seen.tags ==> "tag" + prefix + e.name in Names(r)
  {
    if e.name in seen.tags then AddClassChecked(e, "tag" + prefix + e.name) else Same(e)
  }

  /** The `*` step. */
  function AllStep(e: Element, prefix: string, seen: Seen): (r: Element)
    ensures r == e.(classes := r.classes)
    ensures !seen.all ==> r == e
    ensures StaticOrNone(e) ==> StaticOrNone(r) && Extends(Names(e), Names(r))
    ensures StaticOrNone(e) && seen.all ==> "all" + prefix in Names(r)
  {
    if seen.all then AddClassChecked(e, "all" + prefix) else Same(e)
  }

  /** `add_class`, with what it does to a static list at hand. */
  function AddClassChecked(e: Element, c: string): (r: Element)
    ensures r == AddClass(e, c)
    ensures StaticOrNone(e) ==> StaticOrNone(r) && Extends(Names(e), Names(r)) && c in Names(r)
  {
    if StaticOrNone(e) then AddClassAppends(e, c); AddClass(e, c) else AddClass(e, c)
  }

  /** An element, with the fact that its names extend themselves at hand. */
  function Same(e: Element): (r: Element)
    ensures r == e
    ensures StaticOrNone(e) ==> Extends(Names(e), Names(r))
  {
    if StaticOrNone(e) then assert Names(e)[..|Names(e)|] == Names(e); e else e
  }

  /**
   * `replace_refs` on one element: id, then classes, then tag, then `*`.
   * A reactive id reaches `todo!()`.
   */
  function ScopeElement(e: Element, prefix: string, seen: Seen): (r: Result<Element>)
    ensures r.Err? <==> e.id.Some? && e.id.value.ReactiveId?
    ensures r.Err? ==> r.error == Panic("not yet implemented")
    ensures r.Ok? ==> r.value == e.(classes := r.value.classes)
  {
    if e.id.Some? && e.id.value.ReactiveId? then Err(Panic("not yet implemented"))
    else Ok(AllStep(TagStep(ClassStep(IdStep(e, prefix, seen), prefix, seen), prefix, seen), prefix, seen))
  }

  /**
   * On an element without reactive classes only the class list changes:
   * the classes it had are kept in front, and it gains the scoped class of
   * its id, each of its classes, its tag and `*` whenever the rules
   * mention them.
   */
  lemma ScopeElementClasses(e: Element, prefix: string, seen: Seen)
    requires e.id.None? || e.id.value.StaticId?
    requires StaticOrNone(e)
    ensures var r := ScopeElement(e, prefix, seen);
      r.Ok? && StaticOrNone(r.value) && Extends(Names(e), Names(r.value))
      && (e.id.Some? && e.id.value.value in seen.ids ==> "id" + prefix + e.id.value.value in Names(r.value))
      && (forall c :: c in Names(e) && c in seen.classes ==> "class" + prefix + c in Names(r.value))
      && (e.name in seen.tags ==> "tag" + prefix + e.name in Names(r.value))
      && (seen.all ==> "all" + prefix in Names(r.value))
  {
    var e1 := IdStep(e, prefix, seen);
    var e2 := ClassStep(e1, prefix, seen);
    var e3 := TagStep(e2, prefix, seen);
    var e4 := AllStep(e3, prefix, seen);
    ExtendsKeeps(Names(e), Names(e1));
    ExtendsTrans(Names(e), Names(e1), Names(e2));
    ExtendsTrans(Names(e), Names(e2), Names(e3));
    ExtendsTrans(Names(e), Names(e3), Names(e4));
    ExtendsTrans(Names(e2), Names(e3), Names(e4));
  }

  /* ---------------- the tree ---------------- */

  /** Some element reachable through child lists has a reactive id. */
  predicate HasReactiveId(n: Node)
    decreases n
  {
    (n.ElementNode? && n.elem.id.Some? && n.elem.id.value.ReactiveId?)
    || (HasChildren(n) && exists i :: 0 <= i < |ChildrenOf(n).value| && HasReactiveId(ChildrenOf(n).value[i]))
  }

  /** `replace_refs` as a value: the element itself, then every child. */
  function ReplaceRefs(n: Node, prefix: string, seen: Seen): (r: Result<Node>)
    ensures r.Err? <==> HasReactiveId(n)
    ensures r.Err? ==> r.error == Panic("not yet implemented")
    ensures r.Ok? ==> HasChildren(r.value) == HasChildren(n)
    ensures r.Ok? && HasChildren(n) ==> |ChildrenOf(r.value).value| == |ChildrenOf(n).value|
    decreases n, 1
  {
    var head :=
      if n.ElementNode? then
        match ScopeElement(n.elem, prefix, seen)
        case Ok(e) => Ok(ElementNode(e))
        case Err(x) => Err(x)
      else Ok(n);
    match head
    case Err(x) => Err(x)
    case Ok(m) =>
      if !HasChildren(n) then Ok(m)
      else
        assert ChildrenOf(m) == ChildrenOf(n);
        match ReplaceRefsSeq(ChildrenOf(n).value, prefix, seen)
        case Ok(cs) => Ok(WithChildren(m, cs))
        case Err(x) => Err(x)
  }

  function ReplaceRefsSeq(cs: seq<Node>, prefix: string, seen: Seen): (r: Result<seq<Node>>)
    ensures r.Err? <==> exists i :: 0 <= i < |cs| && HasReactiveId(cs[i])
    ensures r.Err? ==> r.error == Panic("not yet implemented")
    ensures r.Ok? ==> |r.value| == |cs|
    decreases cs, 0
  {
    if cs == [] then Ok([])
    else
      match ReplaceRefs(cs[0], prefix, seen)
      case Err(x) => Err(x)
      case Ok(c) =>
        match ReplaceRefsSeq(cs[1..], prefix, seen)
        case Err(x) =>
          assert exists i :: 0 <= i < |cs| - 1 && HasReactiveId(cs[1..][i]);
          Err(x)
        case Ok(rest) =>
          assert forall i :: 0 < i < |cs| ==> cs[i] == cs[1..][i - 1];
          Ok([c] + rest)
  }

  /* ---------------- the methods ---------------- */

  /** The element part of `replace_refs`. */
  method ScopeElementIn(e: Element, prefix: string, seen: Seen) returns (r: Result<Element>)
    ensures r == ScopeElement(e, prefix, seen)
  {
    var el := e;
    if el.id.Some? {
      match el.id.value {
        case StaticId(s) =>
          if s in seen.ids {
            el := AddClass(el, "id" + prefix + s);
          }
        case ReactiveId(_) =>
          return Err(Panic("not yet implemented"));
      }
    }
    if el.classes.Some? {
      match el.classes.value {
        case StaticClasses(cl) =>
          ghost var start := el;
          var i := 0;
          assert cl[0..] == cl;
          while i < |cl|
            invariant i <= |cl|
            invariant AddClassesFor(el, cl[i..], seen.classes, prefix) == AddClassesFor(start, cl, seen.classes, prefix)
          {
            assert cl[i..][1..] == cl[i + 1..];
            if cl[i] in seen.classes {
              el := AddClass(el, "class" + prefix + cl[i]);
            }
            i := i + 1;
          }
        case ReactiveClasses(x) =>
          el := el.(classes := Some(ReactiveClasses(ReactiveScoped(x, prefix))));
      }
    }
    if el.name in seen.tags {
      el := AddClass(el, "tag" + prefix + el.name);
    }
    if seen.all {
      el := AddClass(el, "all" + prefix);
    }
    r := Ok(el);
  }

  /** `replace_refs`: the element itself, then its children. */
  method ReplaceRefsIn(n: Node, prefix: string, seen: Seen) returns (r: Result<Node>)
    ensures r == ReplaceRefs(n, prefix, seen)
    decreases n, 1
  {
    var node := n;
    if n.ElementNode? {
      var e := ScopeElementIn(n.elem, prefix, seen);
      if e.Err? {
        return Err(e.error);
      }
      node := ElementNode(e.value);
    }
    if !HasChildren(n) {
      return Ok(node);
    }
    assert ChildrenOf(node) == ChildrenOf(n);
    var cs := ReplaceRefsSeqIn(ChildrenOf(n).value, prefix, seen);
    if cs.Err? {
      return Err(cs.error);
    }
    r := Ok(WithChildren(node, cs.value));
  }

  /** The loop of `replace_refs` over a child list. */
  method ReplaceRefsSeqIn(cs: seq<Node>, prefix: string, seen: Seen) returns (r: Result<seq<Node>>)
    ensures r == ReplaceRefsSeq(cs, prefix, seen)
    decreases cs, 0
  {
    var out: seq<Node> := [];
    var i := 0;
    assert cs[0..] == cs;
    ghost var all := ReplaceRefsSeq(cs, prefix, seen);
    if all.Ok? {
      assert out + all.value == all.value;
    }
    while i < |cs|
      invariant 0 <= i <= |cs|
      invariant ReplaceRefsSeq(cs, prefix, seen) == PrependNodes(out, ReplaceRefsSeq(cs[i..], prefix, seen))
    {
      var c := ReplaceRefsIn(cs[i], prefix, seen);
      if c.Err? {
        return Err(c.error);
      }
      assert cs[i..][1..] == cs[i + 1..];
      ghost var tail := ReplaceRefsSeq(cs[i + 1..], prefix, seen);
      if tail.Ok? {
        assert out + ([c.value] + tail.value) == (out + [c.value]) + tail.value;
      }
      out := out + [c.value];
      i := i + 1;
    }
    assert out + [] == out;
    r := Ok(out);
  }

  function PrependNodes(xs: seq<Node>, r: Result<seq<Node>>): Result<seq<Node>> {
    match r
    case Ok(rest) => Ok(xs + rest)
    case Err(e) => Err(e)
  }

  /** The rules of `css`, each with its selector rewritten under `prefix`. */
  function ScopedSheet(css: StyleSheet, prefix: string): (out: StyleSheet)
    ensures |out| == |css|
    ensures forall i :: 0 <= i < |css| ==>
              out[i].properties == css[i].properties && out[i].selector == ScopedSelector(css[i].selector, prefix)
  {
    seq(|css|, i requires 0 <= i < |css| => css[i].(selector := ScopedSelector(css[i].selector, prefix)))
  }

  /**
   * What `scope_css_to_component` computes: the rules scoped under
   * `-<name>-`, and the component whose tree `replace_refs` rewrote with
   * the names those rules mention; a reactive id anywhere stops it.
   */
  function ScopeSpec(component: Component, styles: StyleSheet): (r: Result<(StyleSheet, Component)>)
    ensures r.Ok? <==> !HasReactiveId(ComponentNode(component))
    ensures r.Err? ==> r.error == Panic("not yet implemented")
    ensures r.Ok? ==> r.value.1 == component.(children := r.value.1.children)
  {
    var prefix := "-" + component.name + "-";
    var m := ReplaceRefs(ComponentNode(component), prefix, SeenIn(styles, |styles|));
    if m.Err? then Err(m.error)
    else
      ReplaceRefsComponent(component, prefix, SeenIn(styles, |styles|));
      Ok((ScopedSheet(styles, prefix), m.value.comp))
  }

  /**
   * `scope_css_to_component`: the component's rules rewritten under the
   * prefix `-<name>-`, and its tree given the matching classes.
   */
  method ScopeCssToComponent(component: Component, styles: StyleSheet) returns (r: Result<(StyleSheet, Component)>)
    ensures r == ScopeSpec(component, styles)
    ensures r.Ok? <==> !HasReactiveId(ComponentNode(component))
    ensures r.Err? ==> r.error == Panic("not yet implemented")
    ensures r.Ok? ==>
      var prefix := "-" + component.name + "-";
      var (out, c) := r.value;
      |out| == |styles|
      && (forall i :: 0 <= i < |styles| ==>
            out[i].properties == styles[i].properties && out[i].selector == ScopedSelector(styles[i].selector, prefix))
      && ReplaceRefs(ComponentNode(component), prefix, SeenIn(styles, |styles|)) == Ok(ComponentNode(c))
  {
    var prefix := "-" + component.name + "-";
    var out, seen := HandleCss(styles, prefix);
    assert out == ScopedSheet(styles, prefix);
    var node := ReplaceRefsIn(ComponentNode(component), prefix, seen);
    if node.Err? {
      return Err(node.error);
    }
    match node.value {
      case ComponentNode(c) => r := Ok((out, c));
      case _ => assert false;
    }
  }

  /**
   * What scoping promises: when a simple selector of a rule matched an
   * element before (its tag, one of its classes, its id, or `*`), the
   * rewritten selector is a class the scoped element carries.
   */
  lemma ScopingKeepsMatches(css: StyleSheet, i: nat, e: Element, prefix: string)
    requires i < |css|
    requires e.id.None? || e.id.value.StaticId?
    requires StaticOrNone(e)
    requires var s := css[i].selector;
      (s.Tag? && s.tag == e.name)
      || (s.Class? && e.classes.Some? && s.className in e.classes.value.names)
      || (s.ID? && e.id == Some(StaticId(s.id)))
      || s.All?
    ensures var r := ScopeElement(e, prefix, SeenIn(css, |css|));
      r.Ok? && StaticOrNone(r.value)
      && ScopedSelector(css[i].selector, prefix).Class?
      && ScopedSelector(css[i].selector, prefix).className in Names(r.value)
  {
    SeenExact(css, |css|);
    ScopeElementClasses(e, prefix, SeenIn(css, |css|));
  }

  /**
   * Scoping a component changes only its tree, and keeps what the parser
   * guarantees of that tree.
   */
  lemma ReplaceRefsComponent(c: Component, prefix: string, seen: Seen)
    requires ReplaceRefs(ComponentNode(c), prefix, seen).Ok?
    ensures var m := ReplaceRefs(ComponentNode(c), prefix, seen).value;
      m.ComponentNode? && m.comp == c.(children := m.comp.children)
      && (ParsedSeq(c.children) ==> ParsedSeq(m.comp.children))
  {
    if ParsedSeq(c.children) {
      ReplaceRefsSeqParsed(c.children, prefix, seen);
    }
  }

  lemma {:induction false} ReplaceRefsParsed(n: Node, prefix: string, seen: Seen)
    requires Parsed(n) && ReplaceRefs(n, prefix, seen).Ok?
    ensures Parsed(ReplaceRefs(n, prefix, seen).value)
    decreases n, 1
  {
    if HasChildren(n) {
      ReplaceRefsSeqParsed(ChildrenOf(n).value, prefix, seen);
    }
  }

  lemma {:induction false} ReplaceRefsSeqParsed(cs: seq<Node>, prefix: string, seen: Seen)
    requires ParsedSeq(cs) && ReplaceRefsSeq(cs, prefix, seen).Ok?
    ensures ParsedSeq(ReplaceRefsSeq(cs, prefix, seen).value)
    decreases cs, 0
  {
    if cs != [] {
      ReplaceRefsParsed(cs[0], prefix, seen);
      ReplaceRefsSeqParsed(cs[1..], prefix, seen);
    }
  }

  /** Scoping a rule keeps its selector set. */
  lemma ScopedComplete(css: StyleSheet, out: StyleSheet, prefix: string)
    requires CompleteSheet(css) && |out| == |css|
    requires forall i :: 0 <= i < |css| ==> out[i].selector == ScopedSelector(css[i].selector, prefix)
    ensures CompleteSheet(out)
  {
  }
}
