/**
 * The data model of `src/lib.rs`: the markup tree every pass works on,
 * and the process-wide counter that seeds every generated name.
 */
module Lib {
  import opened Wrappers
  import Css

  /** The source-language flavour of a component; it selects the target. */
  datatype Dialect = JsLilac | TsLilac | RsLilac

  datatype Id =
    | StaticId(value: string)
    | ReactiveId(expr: string)
  {
    /** `Id::is_reactive` */
    predicate IsReactive()
      ensures IsReactive() <==> !StaticId?
    {
      match this
      case ReactiveId(_) => true
      case _ => false
    }
  }

  datatype ClassList =
    | StaticClasses(names: seq<string>)
    | ReactiveClasses(expr: string)
  {
    /** `ClassList::is_reactive` */
    predicate IsReactive()
      ensures IsReactive() <==> !StaticClasses?
    {
      match this
      case ReactiveClasses(_) => true
      case _ => false
    }
  }

  /**
   * `Attribute`; a static value is optional (`None` is a bare
   * presence attribute such as `disabled`), the parser always gives one.
   */
  datatype Attribute =
    | StaticAttr(name: string, value: Wrappers.Option<string>)
    | ReactiveAttr(name: string, expr: string)
  {
    /** `Attribute::is_reactive` */
    predicate IsReactive()
      ensures IsReactive() <==> !StaticAttr?
    {
      match this
      case ReactiveAttr(_, _) => true
      case _ => false
    }

    /** `Attribute::name`: the name of whichever variant this is. */
    function Name(): (r: string)
      ensures StaticAttr? ==> StaticAttr(r, value) == this
      ensures ReactiveAttr? ==> ReactiveAttr(r, expr) == this
    {
      match this
      case ReactiveAttr(n, _) => n
      case StaticAttr(n, _) => n
    }
  }

  datatype Element = Element(
    name: string,
    id: Wrappers.Option<Id>,
    classes: Wrappers.Option<ClassList>,
    attributes: seq<Attribute>,
    children: seq<Node>)

  datatype Script = Script(attributes: seq<Attribute>, code: string)

  datatype Component = Component(
    name: string,
    dialect: Dialect,
    props: seq<Attribute>,
    children: seq<Node>,
    /** set on an instance whose name is already on its ancestor chain */
    recursive: bool)

  datatype Node =
    | ComponentNode(comp: Component)
      /**
       * an unresolved reference to a component; `selfClosing` stands for the
       * source's absent child list (`<X/>`), otherwise `children` are the
       * explicit children, possibly none
       */
    | ComponentHole(name: string, position: nat, props: seq<Attribute>,
                    fileContents: string, selfClosing: bool, children: seq<Node>)
    | ElementNode(elem: Element)
    | ScriptTag(script: Script)
    | StyleTag(sheet: Css.StyleSheet)
    | Text(text: string)
    | ReactiveText(expr: string)
    | ConditionalElements(condition: string, children: seq<Node>)
    | Loop(iteratorVariable: string, iteratable: string, reactiveList: bool, children: seq<Node>)

  /**
   * What the markup parser produces: no resolved component anywhere (only
   * holes), no empty text node and no selector left unset in a style
   * block, including inside a hole's children.
   */
  predicate Parsed(n: Node)
    decreases n
  {
    match n
    case ComponentNode(_) => false
    case ComponentHole(_, _, _, _, closed, cs) =>
      (closed ==> cs == []) && forall i :: 0 <= i < |cs| ==> Parsed(cs[i])
    case ElementNode(e) => forall i :: 0 <= i < |e.children| ==> Parsed(e.children[i])
    case Text(t) => t != ""
    case StyleTag(sheet) => Css.CompleteSheet(sheet)
    case ConditionalElements(_, cs) => forall i :: 0 <= i < |cs| ==> Parsed(cs[i])
    case Loop(_, _, _, cs) => forall i :: 0 <= i < |cs| ==> Parsed(cs[i])
    case _ => true
  }

  predicate ParsedSeq(ns: seq<Node>) {
    forall i :: 0 <= i < |ns| ==> Parsed(ns[i])
  }

  /** The anonymous wrapper element (name `""`) used for slot content. */
  function Anonymous(children: seq<Node>): Node {
    ElementNode(Element("", None, None, [], children))
  }

  /**
   * `ID_COUNTER`, owned by a compilation context instead of being global.
   * Every generated name takes the current value and bumps it.
   */
  class Context {
    var counter: nat

    constructor ()
      ensures counter == 0
    {
      counter := 0;
    }

    /** `ID_COUNTER.fetch_add(1)` */
    method Fresh() returns (n: nat)
      modifies this
      ensures n == old(counter) && counter == old(counter) + 1
    {
      n := counter;
      counter := counter + 1;
    }
  }
}
