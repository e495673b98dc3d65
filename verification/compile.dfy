/**
 * `src/compile.rs`: hole filling. Every `ComponentHole` is replaced by a
 * clone of the registry component it names, carrying the hole's props;
 * a `Children` hole receives the content written between the enclosing
 * instance's tags. Each child starts from its own copy of the ancestor
 * stack, and an instance already on that stack is flagged `recursive`
 * and not descended into.
 *
 * The source rewrites the tree in place and recurses without bound (a
 * `Children` hole whose slot content is itself a `Children` hole never
 * stops); the model computes the new tree as a value and bounds the
 * nesting depth by `fuel`, running out of which is a `Panic`.
 */
module Compile {
  import opened Wrappers
  import opened Lib
  import opened Utils
  import Parse

  type Registry = map<string, Component>

  /** What running out of stack becomes. */
  const Overflow := Panic("stack overflow")

  /**
   * The slot content a node's descendants see: the explicit children of a
   * hole that was not self-closing, otherwise the inherited slot.
   */
  function SlotOf(n: Node, slot: Option<seq<Node>>): (r: Option<seq<Node>>)
    ensures n.ComponentHole? && !n.selfClosing ==> r == Some(n.children)
    ensures !(n.ComponentHole? && !n.selfClosing) ==> r == slot
  {
    if n.ComponentHole? && !n.selfClosing then Some(n.children) else slot
  }

  /** The clone a hole named `name` with props `props` becomes under `stack`. */
  function Instance(reg: Registry, name: string, props: seq<Attribute>, stack: seq<string>): (c: Component)
    requires name in reg
    ensures c == reg[name].(props := props, recursive := reg[name].recursive || name in stack)
  {
    reg[name].(props := props, recursive := reg[name].recursive || name in stack)
  }

  /** The error for a hole naming no registered component, formatted against its file. */
  function NotFound(name: string, position: nat, contents: string): (r: Result<Node>)
    ensures r.Err?
    ensures position <= |contents| ==>
              r == Err(Message(Parse.FormatPosition(contents, position) + " Component " + name + " not found."))
  {
    var message := "Component " + name + " not found.";
    match Parse.FormatError(contents, position, message)
    case Ok(msg) =>
      assert msg == Parse.FormatPosition(contents, position) + " Component " + name + " not found.";
      Err(Message(msg))
    case Err(e) => Err(e)
  }

  /** One iteration of the loop in `_fill_holes`: the new value of the child `n`. */
  function FillChild(n: Node, stack: seq<string>, reg: Registry, slot: Option<seq<Node>>, fuel: nat): (r: Result<Node>)
    ensures r.Ok? && n.ComponentHole? && n.name != "Children" ==> r.value.ComponentNode? && n.name in reg
    ensures r.Ok? && n.ComponentHole? && n.name == "Children" && slot.Some? ==>
              r.value.ElementNode? && r.value.elem.name == "" && |r.value.elem.children| == |slot.value|
    ensures r.Ok? && !n.ComponentHole? && HasChildren(n) ==>
              HasChildren(r.value) && r.value == WithChildren(n, ChildrenOf(r.value).value)
              && |ChildrenOf(r.value).value| == |ChildrenOf(n).value|
    ensures !n.ComponentHole? && !HasChildren(n) ==> r == Ok(n)
    decreases fuel, 4, 0
  {
    match n
    case ComponentHole(name, position, props, contents, _, _) =>
      if name == "Children" then
        (match slot
         case None => Ok(n)
         case Some(s) => FillInside(Anonymous(s), stack, reg, SlotOf(n, slot), fuel))
      else if name !in reg then NotFound(name, position, contents)
      else
        var instance := Instance(reg, name, props, stack);
        if instance.recursive then Ok(ComponentNode(instance))
        else FillInside(ComponentNode(instance), stack + [name], reg, SlotOf(n, slot), fuel)
    case ComponentNode(c) =>
      if c.recursive then Ok(n) else FillInside(n, stack, reg, slot, fuel)
    case _ => FillInside(n, stack, reg, slot, fuel)
  }

  /** `_fill_holes` on `n`: every child filled, first error wins. */
  function FillInside(n: Node, stack: seq<string>, reg: Registry, slot: Option<seq<Node>>, fuel: nat): (r: Result<Node>)
    ensures !HasChildren(n) ==> r == Ok(n)
    ensures r.Ok? && HasChildren(n) ==>
              HasChildren(r.value) && r.value == WithChildren(n, ChildrenOf(r.value).value)
              && |ChildrenOf(r.value).value| == |ChildrenOf(n).value|
    decreases fuel, 3, 0
  {
    if !HasChildren(n) then Ok(n)
    else
      match FillChildren(ChildrenOf(n).value, stack, reg, slot, fuel)
      case Ok(cs) => Ok(WithChildren(n, cs))
      case Err(e) => Err(e)
  }

  /** The children in order, each from the same stack and slot; a non-empty list needs fuel. */
  function FillChildren(cs: seq<Node>, stack: seq<string>, reg: Registry, slot: Option<seq<Node>>, fuel: nat): (r: Result<seq<Node>>)
    ensures r.Ok? ==> |r.value| == |cs|
    decreases fuel, 2, |cs|
  {
    if cs == [] then Ok([])
    else if fuel == 0 then Err(Overflow)
    else
      match FillChild(cs[0], stack, reg, slot, fuel - 1)
      case Err(e) => Err(e)
      case Ok(c) =>
        match FillChildren(cs[1..], stack, reg, slot, fuel)
        case Err(e) => Err(e)
        case Ok(rest) => Ok([c] + rest)
  }

  /** `fill_holes`: start with an empty stack and no slot content. */
  function FillHoles(root: Node, reg: Registry, fuel: nat): (r: Result<Node>)
    ensures !HasChildren(root) ==> r == Ok(root)
    ensures r.Ok? && HasChildren(root) ==>
              HasChildren(r.value) && r.value == WithChildren(root, ChildrenOf(r.value).value)
              && |ChildrenOf(r.value).value| == |ChildrenOf(root).value|
  {
    FillInside(root, [], reg, None, fuel)
  }

  function PrependNodes(xs: seq<Node>, r: Result<seq<Node>>): Result<seq<Node>> {
    match r
    case Ok(rest) => Ok(xs + rest)
    case Err(e) => Err(e)
  }

  /* ---------------- the methods ---------------- */

  /** `_fill_holes`: the loop over the children of `n`. */
  method FillHolesIn(n: Node, stack: seq<string>, reg: Registry, slot: Option<seq<Node>>, fuel: nat)
    returns (r: Result<Node>)
    ensures r == FillInside(n, stack, reg, slot, fuel)
    decreases fuel, 0
  {
    if !HasChildren(n) {
      return Ok(n);
    }
    var cs := ChildrenOf(n).value;
    var out: seq<Node> := [];
    var i := 0;
    assert cs[0..] == cs;
    ghost var all := FillChildren(cs, stack, reg, slot, fuel);
    if all.Ok? {
      assert out + all.value == all.value;
    }
    while i < |cs|
      invariant 0 <= i <= |cs|
      invariant FillChildren(cs, stack, reg, slot, fuel) == PrependNodes(out, FillChildren(cs[i..], stack, reg, slot, fuel))
    {
      if fuel == 0 {
        return Err(Overflow);
      }
      var next := FillStep(cs, i, out, stack, reg, slot, fuel);
      if next.Err? {
        return Err(next.error);
      }
      out := next.value;
      i := i + 1;
    }
    assert out + [] == out;
    r := Ok(WithChildren(n, out));
  }

  /** One turn of the loop in `_fill_holes`: the filled child `cs[i]` joins the filled ones `out`. */
  method FillStep(cs: seq<Node>, i: nat, out: seq<Node>, stack: seq<string>, reg: Registry, slot: Option<seq<Node>>,
                  fuel: nat) returns (r: Result<seq<Node>>)
    requires i < |cs| && fuel > 0
    requires FillChildren(cs, stack, reg, slot, fuel) == PrependNodes(out, FillChildren(cs[i..], stack, reg, slot, fuel))
    ensures r.Err? ==> FillChildren(cs, stack, reg, slot, fuel) == Err(r.error)
    ensures r.Ok? ==> FillChildren(cs, stack, reg, slot, fuel) == PrependNodes(r.value, FillChildren(cs[i + 1..], stack, reg, slot, fuel))
    decreases fuel - 1, 2
  {
    var c := FillHoleAt(cs[i], stack, reg, slot, fuel - 1);
    if c.Err? {
      return Err(c.error);
    }
    assert cs[i..][1..] == cs[i + 1..];
    ghost var tail := FillChildren(cs[i + 1..], stack, reg, slot, fuel);
    if tail.Ok? {
      assert out + ([c.value] + tail.value) == (out + [c.value]) + tail.value;
    }
    r := Ok(out + [c.value]);
  }

  /** The body of the loop in `_fill_holes` for the child `n`. */
  method FillHoleAt(n: Node, stack: seq<string>, reg: Registry, slot: Option<seq<Node>>, fuel: nat)
    returns (r: Result<Node>)
    ensures r == FillChild(n, stack, reg, slot, fuel)
    decreases fuel, 1
  {
    var recursionStack := stack;
    var instanceChildren := slot;
    var node := n;
    if n.ComponentHole? {
      if !n.selfClosing {
        instanceChildren := Some(n.children);
      }
      if n.name == "Children" {
        if slot.None? {
          return Ok(n);
        }
        node := Anonymous(slot.value);
      } else {
        if n.name !in reg {
          return NotFound(n.name, n.position, n.fileContents);
        }
        var instance := reg[n.name].(props := n.props);
        if n.name in recursionStack {
          instance := instance.(recursive := true);
        }
        recursionStack := recursionStack + [n.name];
        node := ComponentNode(instance);
      }
    }
    if node.ComponentNode? && node.comp.recursive {
      return Ok(node);
    }
    r := FillHolesIn(node, recursionStack, reg, instanceChildren, fuel);
  }

  /** `fill_holes` */
  method FillHolesRoot(root: Node, reg: Registry, fuel: nat) returns (r: Result<Node>)
    ensures r == FillHoles(root, reg, fuel)
  {
    r := FillHolesIn(root, [], reg, None, fuel);
  }

  /* ---------------- properties ---------------- */

  /** Text, reactive text, scripts and styles come out as they went in. */
  lemma LeafUnchanged(n: Node, stack: seq<string>, reg: Registry, slot: Option<seq<Node>>, fuel: nat)
    requires n.Text? || n.ReactiveText? || n.ScriptTag? || n.StyleTag?
    ensures FillChild(n, stack, reg, slot, fuel) == Ok(n)
    ensures FillInside(n, stack, reg, slot, fuel) == Ok(n)
  {
  }

  /** A hole naming no registered component fails, with the hole's position in the message. */
  lemma MissingComponent(n: Node, stack: seq<string>, reg: Registry, slot: Option<seq<Node>>, fuel: nat)
    requires n.ComponentHole? && n.name != "Children" && n.name !in reg
    ensures FillChild(n, stack, reg, slot, fuel).Err?
    ensures n.position <= |n.fileContents| ==>
              FillChild(n, stack, reg, slot, fuel)
              == Err(Message(Parse.FormatPosition(n.fileContents, n.position) + " Component " + n.name + " not found."))
  {
  }

  /**
   * A hole naming a registered component becomes a clone of it with the
   * hole's props; it is flagged recursive exactly when its name is on the
   * stack, and then keeps the registry children untouched; otherwise its
   * children are filled under the stack extended by its name, with the
   * hole's own children (if any) as slot content.
   */
  lemma InstanceOf(n: Node, stack: seq<string>, reg: Registry, slot: Option<seq<Node>>, fuel: nat)
    requires n.ComponentHole? && n.name != "Children" && n.name in reg
    requires !reg[n.name].recursive
    ensures var r := FillChild(n, stack, reg, slot, fuel);
      r.Ok? ==>
        r.value.ComponentNode?
        && r.value.comp.name == reg[n.name].name
        && r.value.comp.dialect == reg[n.name].dialect
        && r.value.comp.props == n.props
        && (r.value.comp.recursive <==> n.name in stack)
        && (n.name in stack ==> r.value.comp.children == reg[n.name].children)
        && (n.name !in stack ==>
              FillChildren(reg[n.name].children, stack + [n.name], reg, SlotOf(n, slot), fuel)
              == Ok(r.value.comp.children))
    ensures n.name in stack ==> FillChild(n, stack, reg, slot, fuel).Ok?
  {
  }

  /**
   * A `Children` hole with no slot content stays as it is; with slot
   * content it becomes the anonymous element holding that content, filled
   * under the same stack.
   */
  lemma ChildrenHole(n: Node, stack: seq<string>, reg: Registry, slot: Option<seq<Node>>, fuel: nat)
    requires n.ComponentHole? && n.name == "Children"
    ensures slot.None? ==> FillChild(n, stack, reg, slot, fuel) == Ok(n)
    ensures slot.Some? ==>
      var inner := FillChildren(slot.value, stack, reg, SlotOf(n, slot), fuel);
      (FillChild(n, stack, reg, slot, fuel).Ok? <==> inner.Ok?)
      && (inner.Ok? ==> FillChild(n, stack, reg, slot, fuel) == Ok(Anonymous(inner.value)))
  {
  }

  /**
   * Every child is filled from the same stack and slot, so a sibling never
   * sees another's pushes; the list succeeds exactly when every child does,
   * and otherwise fails with the error of the first child that fails.
   */
  lemma {:induction false} SiblingsIndependent(cs: seq<Node>, stack: seq<string>, reg: Registry,
                                               slot: Option<seq<Node>>, fuel: nat)
    requires fuel > 0
    ensures var r := FillChildren(cs, stack, reg, slot, fuel);
      (r.Ok? <==> forall i :: 0 <= i < |cs| ==> FillChild(cs[i], stack, reg, slot, fuel - 1).Ok?)
      && (r.Ok? ==>
            |r.value| == |cs|
            && forall i :: 0 <= i < |cs| ==> FillChild(cs[i], stack, reg, slot, fuel - 1) == Ok(r.value[i]))
      && (r.Err? ==>
            exists i :: 0 <= i < |cs| && FillChild(cs[i], stack, reg, slot, fuel - 1) == Err(r.error)
                        && forall j :: 0 <= j < i ==> FillChild(cs[j], stack, reg, slot, fuel - 1).Ok?)
    decreases |cs|
  {
    if cs != [] {
      SiblingsIndependent(cs[1..], stack, reg, slot, fuel);
      var r := FillChildren(cs, stack, reg, slot, fuel);
      var head := FillChild(cs[0], stack, reg, slot, fuel - 1);
      var tail := FillChildren(cs[1..], stack, reg, slot, fuel);
      forall i | 0 < i < |cs|
        ensures FillChild(cs[i], stack, reg, slot, fuel - 1) == FillChild(cs[1..][i - 1], stack, reg, slot, fuel - 1)
      {
      }
      if head.Err? {
        assert FillChild(cs[0], stack, reg, slot, fuel - 1) == Err(r.error);
      } else if tail.Err? {
        var i :| 0 <= i < |cs[1..]| && FillChild(cs[1..][i], stack, reg, slot, fuel - 1) == Err(tail.error)
                 && forall j :: 0 <= j < i ==> FillChild(cs[1..][j], stack, reg, slot, fuel - 1).Ok?;
        assert FillChild(cs[i + 1], stack, reg, slot, fuel - 1) == Err(r.error);
      } else {
        assert r.value == [head.value] + tail.value;
      }
    }
  }

  /* ---------------- expanded paths ---------------- */

  /** The registry maps each name to the parsed component of that name. */
  predicate RegistryOk(reg: Registry) {
    forall k :: k in reg ==> reg[k].name == k && ParsedSeq(reg[k].children)
  }

  predicate SlotParsed(slot: Option<seq<Node>>) {
    slot.Some? ==> ParsedSeq(slot.value)
  }

  /**
   * The shape of a filled tree below the ancestor names `stack`: the only
   * holes left are `Children` holes, and every expanded (non-recursive)
   * component has a name none of its expanded ancestors has.
   */
  predicate Resolved(n: Node, stack: seq<string>)
    decreases n
  {
    match n
    case ComponentNode(c) =>
      c.recursive
      || (c.name !in stack && forall i :: 0 <= i < |c.children| ==> Resolved(c.children[i], stack + [c.name]))
    case ComponentHole(name, _, _, _, _, _) => name == "Children"
    case ElementNode(e) => forall i :: 0 <= i < |e.children| ==> Resolved(e.children[i], stack)
    case ConditionalElements(_, cs) => forall i :: 0 <= i < |cs| ==> Resolved(cs[i], stack)
    case Loop(_, _, _, cs) => forall i :: 0 <= i < |cs| ==> Resolved(cs[i], stack)
    case _ => true
  }

  /** Every node of `cs` is resolved under `stack`. */
  predicate AllResolved(cs: seq<Node>, stack: seq<string>) {
    forall i :: 0 <= i < |cs| ==> Resolved(cs[i], stack)
  }

  lemma {:induction false} FillChildResolved(n: Node, stack: seq<string>, reg: Registry,
                                             slot: Option<seq<Node>>, fuel: nat)
    requires RegistryOk(reg) && SlotParsed(slot) && Parsed(n)
    ensures FillChild(n, stack, reg, slot, fuel).Ok? ==> Resolved(FillChild(n, stack, reg, slot, fuel).value, stack)
    decreases fuel, 4, 0
  {
    var r := FillChild(n, stack, reg, slot, fuel);
    if r.Ok? {
      match n
      case ComponentHole(name, position, props, contents, closed, kids) =>
        assert SlotParsed(SlotOf(n, slot));
        if name == "Children" {
          if slot.Some? {
            var a := Anonymous(slot.value);
            FillChildrenResolved(slot.value, stack, reg, SlotOf(n, slot), fuel);
            assert r == FillInside(a, stack, reg, SlotOf(n, slot), fuel);
            var cs := FillChildren(slot.value, stack, reg, SlotOf(n, slot), fuel).value;
            assert r.value == WithChildren(a, cs);
            ResolvedWith(a, cs, stack);
          }
        } else if name in reg {
          var inst := Instance(reg, name, props, stack);
          if !inst.recursive {
            var c := ComponentNode(inst);
            FillChildrenResolved(inst.children, stack + [name], reg, SlotOf(n, slot), fuel);
            assert r == FillInside(c, stack + [name], reg, SlotOf(n, slot), fuel);
            var cs := FillChildren(inst.children, stack + [name], reg, SlotOf(n, slot), fuel).value;
            assert r.value == WithChildren(c, cs);
            ResolvedWith(c, cs, stack);
          }
        }
      case ElementNode(_) => FilledResolved(n, stack, reg, slot, fuel);
      case ConditionalElements(_, _) => FilledResolved(n, stack, reg, slot, fuel);
      case Loop(_, _, _, _) => FilledResolved(n, stack, reg, slot, fuel);
      case _ =>
    }
  }

  /** An element, a conditional or a loop of parsed children is resolved once filled. */
  lemma {:induction false} FilledResolved(n: Node, stack: seq<string>, reg: Registry,
                                          slot: Option<seq<Node>>, fuel: nat)
    requires RegistryOk(reg) && SlotParsed(slot) && Parsed(n)
    requires n.ElementNode? || n.ConditionalElements? || n.Loop?
    ensures FillChild(n, stack, reg, slot, fuel).Ok? ==> Resolved(FillChild(n, stack, reg, slot, fuel).value, stack)
    decreases fuel, 3, 0
  {
    var r := FillChild(n, stack, reg, slot, fuel);
    if r.Ok? {
      assert r == FillInside(n, stack, reg, slot, fuel);
      FillChildrenResolved(ChildrenOf(n).value, stack, reg, slot, fuel);
      var cs := FillChildren(ChildrenOf(n).value, stack, reg, slot, fuel).value;
      assert r.value == WithChildren(n, cs);
      ResolvedWith(n, cs, stack);
    }
  }

  /** A node whose new children are resolved (below its name, for a component) is resolved. */
  lemma ResolvedWith(n: Node, cs: seq<Node>, stack: seq<string>)
    requires HasChildren(n)
    requires n.ComponentNode? ==> !n.comp.recursive && n.comp.name !in stack && AllResolved(cs, stack + [n.comp.name])
    requires !n.ComponentNode? ==> AllResolved(cs, stack)
    ensures Resolved(WithChildren(n, cs), stack)
  {
  }

  lemma {:induction false} FillChildrenResolved(cs: seq<Node>, stack: seq<string>, reg: Registry,
                                                slot: Option<seq<Node>>, fuel: nat)
    requires RegistryOk(reg) && SlotParsed(slot) && ParsedSeq(cs)
    ensures FillChildren(cs, stack, reg, slot, fuel).Ok? ==> AllResolved(FillChildren(cs, stack, reg, slot, fuel).value, stack)
    decreases fuel, 2, |cs|
  {
    var r := FillChildren(cs, stack, reg, slot, fuel);
    if r.Ok? && cs != [] {
      assert fuel > 0;
      assert Parsed(cs[0]);
      assert ParsedSeq(cs[1..]) by {
        forall i | 0 <= i < |cs[1..]|
          ensures Parsed(cs[1..][i])
        {
          assert cs[1..][i] == cs[i + 1];
        }
      }
      FillChildResolved(cs[0], stack, reg, slot, fuel - 1);
      FillChildrenResolved(cs[1..], stack, reg, slot, fuel);
      var c := FillChild(cs[0], stack, reg, slot, fuel - 1).value;
      var rest := FillChildren(cs[1..], stack, reg, slot, fuel).value;
      assert r.value == [c] + rest;
      forall i | 0 <= i < |r.value|
        ensures Resolved(r.value[i], stack)
      {
        if i == 0 {
          assert r.value[0] == c;
        } else {
          assert r.value[i] == rest[i - 1];
        }
      }
    }
  }

  /**
   * Filling a parsed root component leaves no hole but `Children` holes,
   * and along every chain of expanded instances below it the names are
   * distinct.
   */
  lemma FillHolesResolved(root: Component, reg: Registry, fuel: nat)
    requires RegistryOk(reg) && ParsedSeq(root.children)
    ensures var r := FillHoles(ComponentNode(root), reg, fuel);
      r.Ok? ==> r.value.ComponentNode? && r.value.comp == root.(children := r.value.comp.children)
                && forall i :: 0 <= i < |r.value.comp.children| ==> Resolved(r.value.comp.children[i], [])
  {
    FillChildrenResolved(root.children, [], reg, None, fuel);
    var cs := FillChildren(root.children, [], reg, None, fuel);
    if cs.Ok? {
      assert FillHoles(ComponentNode(root), reg, fuel) == Ok(ComponentNode(root.(children := cs.value)));
    }
  }

  /* ---------------- fuel ---------------- */

  lemma {:induction false} FillChildFuel(n: Node, stack: seq<string>, reg: Registry, slot: Option<seq<Node>>, fuel: nat)
    ensures FillChild(n, stack, reg, slot, fuel).Ok? ==>
              FillChild(n, stack, reg, slot, fuel + 1) == FillChild(n, stack, reg, slot, fuel)
    decreases fuel, 4, 0
  {
    match n
    case ComponentHole(name, _, props, _, _, _) =>
      if name == "Children" {
        if slot.Some? {
          FillInsideFuel(Anonymous(slot.value), stack, reg, SlotOf(n, slot), fuel);
        }
      } else if name in reg {
        FillInsideFuel(ComponentNode(Instance(reg, name, props, stack)), stack + [name], reg, SlotOf(n, slot), fuel);
      }
    case _ => FillInsideFuel(n, stack, reg, slot, fuel);
  }

  lemma {:induction false} FillInsideFuel(n: Node, stack: seq<string>, reg: Registry, slot: Option<seq<Node>>, fuel: nat)
    ensures FillInside(n, stack, reg, slot, fuel).Ok? ==>
              FillInside(n, stack, reg, slot, fuel + 1) == FillInside(n, stack, reg, slot, fuel)
    decreases fuel, 3, 0
  {
    if HasChildren(n) {
      FillChildrenFuel(ChildrenOf(n).value, stack, reg, slot, fuel);
    }
  }

  /** Fuel only bounds the depth: a fill that succeeds gives the same tree with more fuel. */
  lemma {:induction false} FillChildrenFuel(cs: seq<Node>, stack: seq<string>, reg: Registry, slot: Option<seq<Node>>, fuel: nat)
    ensures FillChildren(cs, stack, reg, slot, fuel).Ok? ==>
              FillChildren(cs, stack, reg, slot, fuel + 1) == FillChildren(cs, stack, reg, slot, fuel)
    decreases fuel, 2, |cs|
  {
    if cs != [] && fuel > 0 {
      FillChildFuel(cs[0], stack, reg, slot, fuel - 1);
      FillChildrenFuel(cs[1..], stack, reg, slot, fuel);
    }
  }
}
