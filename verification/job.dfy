/**
 * `src/job.rs`: the command-line build. Every component file is parsed
 * with the dialect its extension names, its `<style>` blocks are
 * collected and scoped, the components are registered by name, the root
 * stylesheet is appended, and the `Root` component is expanded.
 *
 * Reading the project directory, the configuration and version check,
 * code generation and writing the output are left to the caller: the
 * files arrive as values and the build stops at the expanded tree.
 */
module Job {
  import opened Wrappers
  import opened Lib
  import opened Utils
  import Css
  import Parse
  import Compile
  import CssComponentScoping

  /* ---------------- dialects and targets ---------------- */

  datatype Target = Unknown | Web | GL

  /** The extensions `list_files` keeps. */
  predicate Listed(ext: string) {
    ext == "lilac" || ext == "rslilac" || ext == "tslilac" || ext == "jslilac"
  }

  /** The dialect `load_componet` picks for an extension; any other is unreachable. */
  function DialectOf(ext: string): (r: Result<Dialect>)
    ensures r.Ok? <==> Listed(ext)
    ensures r == Ok(JsLilac) <==> ext == "lilac" || ext == "jslilac"
    ensures r.Err? ==> r.error.Panic?
  {
    if ext == "lilac" || ext == "jslilac" then Ok(JsLilac)
    else if ext == "tslilac" then Ok(TsLilac)
    else if ext == "rslilac" then Ok(RsLilac)
    else Err(Panic("internal error: entered unreachable code"))
  }

  /** The extension a file of dialect `d` is written with. */
  function ExtensionOf(d: Dialect): string {
    match d
    case JsLilac => "jslilac"
    case TsLilac => "tslilac"
    case RsLilac => "rslilac"
  }

  /** Every dialect has a listed extension that reads back as that dialect. */
  lemma DialectRoundTrip(d: Dialect)
    ensures Listed(ExtensionOf(d)) && DialectOf(ExtensionOf(d)) == Ok(d)
  {
  }

  /** The code generator a root component of dialect `d` selects. */
  function TargetOf(d: Dialect): (t: Target)
    ensures t != Unknown
    ensures t == GL <==> d == RsLilac
  {
    match d
    case JsLilac => Web
    case TsLilac => Web
    case RsLilac => GL
  }

  /* ---------------- collecting styles ---------------- */

  /**
   * `_collect_css` as a value: the rules of a style tag itself, then those
   * collected from its children, and the node with every style tag removed
   * from its child lists.
   */
  function Collect(n: Node): (r: (Css.StyleSheet, Node))
    ensures HasChildren(r.1) == HasChildren(n)
    ensures r.1.StyleTag? == n.StyleTag?
    ensures n.StyleTag? ==> r == (n.sheet, n)
    decreases n, 1
  {
    var own := if n.StyleTag? then n.sheet else [];
    if HasChildren(n) then
      var inner := CollectSeq(ChildrenOf(n).value);
      (own + inner.0, WithChildren(n, inner.1))
    else (own, n)
  }

  /**
   * The loop of `_collect_css` over a child list, which runs from the last
   * child to the first: the rules of the later children come first.
   */
  function CollectSeq(cs: seq<Node>): (r: (Css.StyleSheet, seq<Node>))
    ensures |r.1| <= |cs|
    decreases cs, 0
  {
    if cs == [] then ([], [])
    else
      var head := Collect(cs[0]);
      var rest := CollectSeq(cs[1..]);
      (rest.0 + head.0, (if head.1.StyleTag? then [] else [head.1]) + rest.1)
  }

  /** No child list anywhere below `n` holds a style tag. */
  predicate NoStyleTags(n: Node)
    decreases n
  {
    HasChildren(n) ==>
      forall i :: 0 <= i < |ChildrenOf(n).value| ==>
        !ChildrenOf(n).value[i].StyleTag? && NoStyleTags(ChildrenOf(n).value[i])
  }

  /** After collection no style tag is left below the node. */
  lemma {:induction false} CollectClean(n: Node)
    ensures NoStyleTags(Collect(n).1)
    decreases n, 1
  {
    if HasChildren(n) {
      CollectSeqClean(ChildrenOf(n).value);
    }
  }

  lemma {:induction false} CollectSeqClean(cs: seq<Node>)
    ensures forall i :: 0 <= i < |CollectSeq(cs).1| ==>
      !CollectSeq(cs).1[i].StyleTag? && NoStyleTags(CollectSeq(cs).1[i])
    decreases cs, 0
  {
    if cs != [] {
      CollectClean(cs[0]);
      CollectSeqClean(cs[1..]);
    }
  }

  /**
   * Appending a child puts its rules in front of the rules collected so
   * far, and its cleaned copy after the children kept so far; a style tag
   * contributes its rules and is dropped.
   */
  lemma {:induction false} CollectSeqAppend(cs: seq<Node>, x: Node)
    ensures CollectSeq(cs + [x]) ==
      (Collect(x).0 + CollectSeq(cs).0,
       CollectSeq(cs).1 + (if x.StyleTag? then [] else [Collect(x).1]))
  {
    var own := Collect(x);
    var last := if x.StyleTag? then [] else [own.1];
    if cs == [] {
      assert CollectSeq([x]) == ([] + own.0, last + []) by {
        assert [x][1..] == [];
      }
      assert cs + [x] == [x];
      assert [] + own.0 == own.0 + [];
      assert last + [] == [] + last;
    } else {
      var head, rest := Collect(cs[0]), CollectSeq(cs[1..]);
      var kept := if head.1.StyleTag? then [] else [head.1];
      var next := CollectSeq(cs[1..] + [x]);
      assert CollectSeq(cs + [x]) == (next.0 + head.0, kept + next.1) by {
        assert (cs + [x])[0] == cs[0];
        assert (cs + [x])[1..] == cs[1..] + [x];
      }
      assert next == (own.0 + rest.0, rest.1 + last) by {
        CollectSeqAppend(cs[1..], x);
      }
      assert CollectSeq(cs) == (rest.0 + head.0, kept + rest.1);
      var sheet, nodes := (own.0 + rest.0) + head.0, kept + (rest.1 + last);
      assert sheet == own.0 + (rest.0 + head.0);
      assert nodes == (kept + rest.1) + last;
    }
  }

  /** Collection keeps what the parser guarantees of a tree. */
  lemma {:induction false} CollectParsed(n: Node)
    requires Parsed(n)
    ensures Parsed(Collect(n).1)
    decreases n, 1
  {
    if HasChildren(n) {
      CollectSeqParsed(ChildrenOf(n).value);
    }
  }

  lemma {:induction false} CollectSeqParsed(cs: seq<Node>)
    requires ParsedSeq(cs)
    ensures ParsedSeq(CollectSeq(cs).1)
    decreases cs, 0
  {
    if cs != [] {
      CollectParsed(cs[0]);
      CollectSeqParsed(cs[1..]);
    }
  }

  /** The rules collected from a parsed tree have no unset selector. */
  lemma {:induction false} CollectComplete(n: Node)
    requires Parsed(n)
    ensures Css.CompleteSheet(Collect(n).0)
    decreases n, 1
  {
    if HasChildren(n) {
      CollectSeqComplete(ChildrenOf(n).value);
    }
  }

  lemma {:induction false} CollectSeqComplete(cs: seq<Node>)
    requires ParsedSeq(cs)
    ensures Css.CompleteSheet(CollectSeq(cs).0)
    decreases cs, 0
  {
    if cs != [] {
      CollectComplete(cs[0]);
      CollectSeqComplete(cs[1..]);
    }
  }

  /** `_collect_css`, rewriting the node in place. */
  method CollectCssIn(n: Node) returns (ss: Css.StyleSheet, m: Node)
    ensures (ss, m) == Collect(n)
    decreases n, 1
  {
    var own := if n.StyleTag? then n.sheet else [];
    ss := own;
    if !HasChildren(n) {
      return own, n;
    }
    var children := ChildrenOf(n).value;
    ghost var cs := children;
    var i := |children|;
    assert cs[|cs|..] == [];
    assert cs[..|cs|] + [] == cs;
    while i > 0
      invariant 0 <= i <= |cs|
      invariant children == cs[..i] + CollectSeq(cs[i..]).1
      invariant ss == own + CollectSeq(cs[i..]).0
    {
      i := i - 1;
      var s, c := CollectCssIn(children[i]);
      CollectStep(cs, i, children, s, c);
      ss := ss + s;
      // the child is rewritten in place, then removed when it is a style tag
      children := children[..i] + (if c.StyleTag? then [] else [c]) + children[i + 1..];
    }
    assert cs[0..] == cs;
    assert cs[..0] + CollectSeq(cs).1 == CollectSeq(cs).1;
    m := WithChildren(n, children);
  }

  /** One iteration of the loop of `_collect_css`, from the child at `i`. */
  lemma CollectStep(cs: seq<Node>, i: nat, children: seq<Node>, s: Css.StyleSheet, c: Node)
    requires i < |cs|
    requires children == cs[..i + 1] + CollectSeq(cs[i + 1..]).1
    requires (s, c) == Collect(cs[i])
    ensures children[i] == cs[i]
    ensures children[..i] + (if c.StyleTag? then [] else [c]) + children[i + 1..]
            == cs[..i] + CollectSeq(cs[i..]).1
    ensures CollectSeq(cs[i + 1..]).0 + s == CollectSeq(cs[i..]).0
  {
    assert cs[i..][1..] == cs[i + 1..];
    assert cs[..i + 1] == cs[..i] + [cs[i]];
    assert children[..i] == cs[..i];
    assert children[i + 1..] == CollectSeq(cs[i + 1..]).1;
  }

  /** `collect_css`: the component's rules, and the component without its style tags. */
  method CollectCss(component: Component) returns (styles: Css.StyleSheet, c: Component)
    ensures (styles, ComponentNode(c)) == Collect(ComponentNode(component))
    ensures c == component.(children := c.children)
  {
    var node;
    styles, node := CollectCssIn(ComponentNode(component));
    match node {
      case ComponentNode(x) => c := x;
      case _ => assert false;
    }
  }

  /* ---------------- loading and registering ---------------- */

  /** A component file: its name without extension, the extension, and the text. */
  datatype SourceFile = SourceFile(name: string, extension: string, contents: string)

  /**
   * `CompilerError::format` applied to a parse error against the file's
   * text; an offset past the end panics when sliced.
   */
  function Formatted(contents: string, e: Error): (r: Error)
    ensures e.Located? && e.position <= |contents| ==>
      r == Message(Parse.FormatPosition(contents, e.position) + " " + e.message)
    ensures e.Located? && e.position > |contents| ==> r.Panic?
    ensures !e.Located? ==> r == e
  {
    match e
    case Located(p, msg) =>
      (match Parse.FormatError(contents, p, msg)
       case Ok(s) => Message(s)
       case Err(x) => x)
    case _ => e
  }

  /**
   * What `load_componet` computes for a file: the dialect its extension
   * names, then the whole text parsed as the component named after the
   * file, a parse error formatted against that text.
   */
  function LoadSpec(f: SourceFile): Result<Component> {
    var dialect := DialectOf(f.extension);
    if dialect.Err? then Err(dialect.error)
    else
      var c := Parse.ParseFullSpec(f.contents, f.name, dialect.value);
      if c.Err? then Err(Formatted(f.contents, c.error)) else c
  }

  /**
   * A file loads when its extension is listed and its text parses; the
   * component is named after the file, has the file's dialect and the
   * parsed tree, and a failure is a panic or a formatted message.
   */
  lemma LoadSpecShape(f: SourceFile)
    ensures var r := LoadSpec(f);
            (DialectOf(f.extension).Err? ==> r.Err? && r.error.Panic?)
            && (DialectOf(f.extension).Ok? ==> (r.Ok? <==> Parse.ParseSpec(f.contents, 0, |f.contents|).Ok?))
            && (r.Ok? ==> r.value.name == f.name && DialectOf(f.extension) == Ok(r.value.dialect)
                          && r.value.props == [] && !r.value.recursive && ParsedSeq(r.value.children)
                          && r.value.children == Parse.ParseSpec(f.contents, 0, |f.contents|).value)
            && (r.Err? && DialectOf(f.extension).Ok? ==> !r.error.Located?)
  {
  }

  /** `load_componet`: the dialect from the extension, then the parse. */
  method LoadComponent(f: SourceFile) returns (r: Result<Component>)
    ensures r == LoadSpec(f)
  {
    var dialect := DialectOf(f.extension);
    if dialect.Err? {
      return Err(dialect.error);
    }
    var c := Parse.ParseFull(f.contents, f.name, dialect.value);
    if c.Err? {
      return Err(Formatted(f.contents, c.error));
    }
    r := c;
  }

  /** `collect_css` as a value: the component's rules, and the component without its style tags. */
  function Collected(c: Component): (r: (Css.StyleSheet, Component))
    ensures (r.0, ComponentNode(r.1)) == Collect(ComponentNode(c))
    ensures r.1 == c.(children := r.1.children)
  {
    var inner := CollectSeq(c.children);
    assert [] + inner.0 == inner.0;
    (inner.0, c.(children := inner.1))
  }

  /**
   * What registering a loaded component first does to it: its style tags
   * are collected, then the rules and the tree are scoped to it.
   */
  function PrepareSpec(c: Component): (r: Result<(Css.StyleSheet, Component)>)
    ensures r.Ok? ==> r.value.1 == c.(children := r.value.1.children)
    ensures r.Err? ==> r.error == Panic("not yet implemented")
  {
    var (styles, collected) := Collected(c);
    CssComponentScoping.ScopeSpec(collected, styles)
  }

  /** Preparing a parsed component keeps its tree parsed and its rules complete. */
  lemma PrepareParsed(c: Component)
    requires ParsedSeq(c.children) && PrepareSpec(c).Ok?
    ensures ParsedSeq(PrepareSpec(c).value.1.children) && Css.CompleteSheet(PrepareSpec(c).value.0)
  {
    var (styles, collected) := Collected(c);
    CollectSeqParsed(c.children);
    CollectSeqComplete(c.children);
    var prefix := "-" + collected.name + "-";
    CssComponentScoping.ScopedComplete(styles, PrepareSpec(c).value.0, prefix);
    CssComponentScoping.ReplaceRefsComponent(collected, prefix, CssComponentScoping.SeenIn(styles, |styles|));
  }

  /** The component as it is registered: style tags collected, classes scoped. */
  method Prepare(component: Component) returns (r: Result<(Css.StyleSheet, Component)>)
    requires ParsedSeq(component.children)
    ensures r == PrepareSpec(component)
    ensures r.Ok? ==> ParsedSeq(r.value.1.children) && Css.CompleteSheet(r.value.0)
  {
    var styles, collected := CollectCss(component);
    r := CssComponentScoping.ScopeCssToComponent(collected, styles);
    if r.Ok? {
      PrepareParsed(component);
    }
  }

  /** A file loaded and prepared: its scoped rules and its component. */
  function Prepared(f: SourceFile): Result<(Css.StyleSheet, Component)> {
    match LoadSpec(f)
    case Err(e) => Err(e)
    case Ok(c) => PrepareSpec(c)
  }

  /** A prepared file's component is named after the file. */
  lemma PreparedName(f: SourceFile)
    requires Prepared(f).Ok?
    ensures LoadSpec(f).Ok? && Prepared(f).value.1.name == f.name
  {
    LoadSpecShape(f);
  }

  /** Adding a component to the registry; a second component of the same name is refused. */
  function Register(reg: Compile.Registry, c: Component): (r: Result<Compile.Registry>)
    ensures r.Err? <==> c.name in reg
    ensures r.Err? ==> r.error == Message("Conflicting definitions for component '" + c.name + "'.")
    ensures r.Ok? ==> r.value.Keys == reg.Keys + {c.name} && r.value[c.name] == c
                      && forall k :: k in reg ==> r.value[k] == reg[k]
  {
    if c.name in reg then Err(Message("Conflicting definitions for component '" + c.name + "'."))
    else Ok(reg[c.name := c])
  }

  /** The names of the first `n` files. */
  predicate DistinctNames(files: seq<SourceFile>, n: nat)
    requires n <= |files|
  {
    forall j, k :: 0 <= j < k < n ==> files[j].name != files[k].name
  }

  /**
   * `reg` holds one component per name for exactly the first `n` files,
   * each keyed by its own name, with the dialect its extension names and
   * no properties; which tree each holds is stated by `BuildOk`.
   */
  ghost predicate Registered(files: seq<SourceFile>, n: nat, reg: Compile.Registry)
    requires n <= |files|
  {
    DistinctNames(files, n)
    && Compile.RegistryOk(reg)
    && (forall k :: k in reg <==> exists j :: 0 <= j < n && files[j].name == k)
    && (forall j :: 0 <= j < n ==> files[j].name in reg && DialectOf(files[j].extension) == Ok(reg[files[j].name].dialect))
    && forall k :: k in reg ==> !reg[k].recursive && reg[k].props == []
  }

  /** Registering the component of the next file extends the registry by that file. */
  lemma {:induction false} RegisterStep(files: seq<SourceFile>, n: nat, reg: Compile.Registry, c: Component)
    requires n < |files| && Registered(files, n, reg)
    requires c.name == files[n].name && DialectOf(files[n].extension) == Ok(c.dialect)
    requires !c.recursive && c.props == [] && ParsedSeq(c.children)
    requires c.name !in reg
    ensures Registered(files, n + 1, reg[c.name := c])
  {
    var next := reg[c.name := c];
    assert DistinctNames(files, n + 1) by { RegisterDistinct(files, n, reg); }
    assert Compile.RegistryOk(next);
    assert forall k :: k in next <==> exists j :: 0 <= j < n + 1 && files[j].name == k by {
      RegisterKeys(files, n, reg, c, next);
    }
    assert forall j :: 0 <= j < n + 1 ==>
             files[j].name in next && DialectOf(files[j].extension) == Ok(next[files[j].name].dialect) by {
      RegisterDialects(files, n, reg, c);
    }
  }

  /** The names in the extended registry are those of the first `n + 1` files. */
  lemma RegisterKeys(files: seq<SourceFile>, n: nat, reg: Compile.Registry, c: Component, next: Compile.Registry)
    requires n < |files| && c.name == files[n].name && next == reg[c.name := c]
    requires forall k :: k in reg <==> exists j :: 0 <= j < n && files[j].name == k
    ensures forall k :: k in next <==> exists j :: 0 <= j < n + 1 && files[j].name == k
  {
    forall k
      ensures k in next <==> exists j :: 0 <= j < n + 1 && files[j].name == k
    {
      if k in reg {
        var j :| 0 <= j < n && files[j].name == k;
        assert 0 <= j < n + 1 && files[j].name == k;
      }
    }
  }

  /** Every one of the first `n + 1` files has its component, of its own dialect, in the extended registry. */
  lemma RegisterDialects(files: seq<SourceFile>, n: nat, reg: Compile.Registry, c: Component)
    requires n < |files| && c.name == files[n].name && DialectOf(files[n].extension) == Ok(c.dialect)
    requires forall j :: 0 <= j < n ==> files[j].name in reg && DialectOf(files[j].extension) == Ok(reg[files[j].name].dialect)
    requires DistinctNames(files, n + 1)
    ensures forall j :: 0 <= j < n + 1 ==>
              files[j].name in reg[c.name := c] && DialectOf(files[j].extension) == Ok(reg[c.name := c][files[j].name].dialect)
  {
    forall j | 0 <= j < n + 1
      ensures files[j].name in reg[c.name := c] && DialectOf(files[j].extension) == Ok(reg[c.name := c][files[j].name].dialect)
    {
      if j < n {
        assert files[j].name != c.name;
      }
    }
  }

  /** A file whose name is not yet registered keeps the names distinct. */
  lemma {:induction false} RegisterDistinct(files: seq<SourceFile>, n: nat, reg: Compile.Registry)
    requires n < |files| && Registered(files, n, reg) && files[n].name !in reg
    ensures DistinctNames(files, n + 1)
  {
    forall j | 0 <= j < n
      ensures files[j].name != files[n].name
    {
      assert files[j].name in reg;
    }
  }

  /** Each file loaded and prepared, in file order. */
  function PreparedAll(files: seq<SourceFile>): (ps: seq<Result<(Css.StyleSheet, Component)>>)
    ensures |ps| == |files| && forall j :: 0 <= j < |files| ==> ps[j] == Prepared(files[j])
  {
    seq(|files|, j requires 0 <= j < |files| => Prepared(files[j]))
  }

  /**
   * The registry loop of `compile` from file `i`, given what loading and
   * preparing each file gave, with the registry and the concatenated rules
   * built so far: the first file that fails to load, to be scoped or to
   * register under a fresh name stops the build.
   */
  function BuildFrom(ps: seq<Result<(Css.StyleSheet, Component)>>, i: nat, reg: Compile.Registry, sheet: Css.StyleSheet)
    : (r: Result<(Compile.Registry, Css.StyleSheet)>)
    requires i <= |ps|
    decreases |ps| - i
  {
    if i == |ps| then Ok((reg, sheet))
    else
      match ps[i]
      case Err(e) => Err(e)
      case Ok(p) =>
        match Register(reg, p.1)
        case Err(e) => Err(e)
        case Ok(next) => BuildFrom(ps, i + 1, next, sheet + p.0)
  }

  /** The rules of the files from `i` onwards, in file order. */
  function SheetsFrom(ps: seq<Result<(Css.StyleSheet, Component)>>, i: nat): Css.StyleSheet
    requires i <= |ps| && forall j :: i <= j < |ps| ==> ps[j].Ok?
    decreases |ps| - i
  {
    if i == |ps| then [] else ps[i].value.0 + SheetsFrom(ps, i + 1)
  }

  /** A build that succeeds prepared every file. */
  lemma {:induction false} BuildFromPrepared(ps: seq<Result<(Css.StyleSheet, Component)>>, i: nat, reg: Compile.Registry, sheet: Css.StyleSheet)
    requires i <= |ps| && BuildFrom(ps, i, reg, sheet).Ok?
    ensures forall j :: i <= j < |ps| ==> ps[j].Ok?
    decreases |ps| - i
  {
    if i < |ps| {
      var p := ps[i].value;
      BuildFromPrepared(ps, i + 1, Register(reg, p.1).value, sheet + p.0);
    }
  }

  /**
   * The rules of a build that succeeds are those built so far followed by
   * each file's rules, in file order.
   */
  lemma {:induction false} BuildFromSheet(ps: seq<Result<(Css.StyleSheet, Component)>>, i: nat, reg: Compile.Registry, sheet: Css.StyleSheet)
    requires i <= |ps| && BuildFrom(ps, i, reg, sheet).Ok?
    ensures forall j :: i <= j < |ps| ==> ps[j].Ok?
    ensures BuildFrom(ps, i, reg, sheet).value.1 == sheet + SheetsFrom(ps, i)
    decreases |ps| - i
  {
    BuildFromPrepared(ps, i, reg, sheet);
    if i < |ps| {
      var p := ps[i].value;
      BuildFromSheet(ps, i + 1, Register(reg, p.1).value, sheet + p.0);
      assert sheet + p.0 + SheetsFrom(ps, i + 1) == sheet + (p.0 + SheetsFrom(ps, i + 1));
    }
  }

  /**
   * The registry of a build that succeeds keeps what it held, and maps the
   * name of each further component, fresh before, to that component.
   */
  lemma {:induction false} BuildFromRegistry(ps: seq<Result<(Css.StyleSheet, Component)>>, i: nat, reg: Compile.Registry, sheet: Css.StyleSheet)
    requires i <= |ps| && BuildFrom(ps, i, reg, sheet).Ok?
    ensures forall j :: i <= j < |ps| ==> ps[j].Ok?
    ensures var out := BuildFrom(ps, i, reg, sheet).value.0;
            (forall k :: k in reg ==> k in out && out[k] == reg[k])
            && forall j :: i <= j < |ps| ==>
                 ps[j].value.1.name !in reg && ps[j].value.1.name in out && out[ps[j].value.1.name] == ps[j].value.1
    decreases |ps| - i
  {
    BuildFromPrepared(ps, i, reg, sheet);
    if i < |ps| {
      var p := ps[i].value;
      BuildFromRegistry(ps, i + 1, Register(reg, p.1).value, sheet + p.0);
    }
  }

  /**
   * A build that fails stops at the first file that fails: every earlier
   * file was prepared, and the error is that file's own, or the conflict
   * of its component's name with one already registered.
   */
  lemma {:induction false} BuildFromErr(ps: seq<Result<(Css.StyleSheet, Component)>>, i: nat, reg: Compile.Registry, sheet: Css.StyleSheet)
    requires i <= |ps| && BuildFrom(ps, i, reg, sheet).Err?
    ensures exists j :: i <= j < |ps| && (forall k :: i <= k < j ==> ps[k].Ok?)
              && (ps[j].Err? ==> BuildFrom(ps, i, reg, sheet).error == ps[j].error)
              && (ps[j].Ok? ==>
                    BuildFrom(ps, i, reg, sheet).error
                    == Message("Conflicting definitions for component '" + ps[j].value.1.name + "'."))
    decreases |ps| - i
  {
    var e := BuildFrom(ps, i, reg, sheet).error;
    if ps[i].Ok? && Register(reg, ps[i].value.1).Ok? {
      var p := ps[i].value;
      BuildFromErr(ps, i + 1, Register(reg, p.1).value, sheet + p.0);
      var j :| i + 1 <= j < |ps| && (forall k :: i + 1 <= k < j ==> ps[k].Ok?)
               && (ps[j].Err? ==> e == ps[j].error)
               && (ps[j].Ok? ==> e == Message("Conflicting definitions for component '" + ps[j].value.1.name + "'."));
      assert forall k :: i <= k < j ==> ps[k].Ok?;
    }
  }

  /**
   * The components a build registers: every file was prepared, the name
   * of each file holds that file's prepared component, and the rules are
   * each file's rules in file order.
   */
  lemma BuildOk(files: seq<SourceFile>)
    requires BuildFrom(PreparedAll(files), 0, map[], []).Ok?
    ensures forall j :: 0 <= j < |files| ==> Prepared(files[j]).Ok?
    ensures var out := BuildFrom(PreparedAll(files), 0, map[], []).value;
            out.1 == SheetsFrom(PreparedAll(files), 0)
            && forall j :: 0 <= j < |files| ==> files[j].name in out.0 && out.0[files[j].name] == Prepared(files[j]).value.1
  {
    var ps := PreparedAll(files);
    BuildFromSheet(ps, 0, map[], []);
    BuildFromRegistry(ps, 0, map[], []);
    assert [] + SheetsFrom(ps, 0) == SheetsFrom(ps, 0);
    forall j | 0 <= j < |files|
      ensures Prepared(files[j]).value.1.name == files[j].name
    {
      PreparedName(files[j]);
    }
  }

  /** One file registered moves the build on by one file. */
  lemma BuildStep(ps: seq<Result<(Css.StyleSheet, Component)>>, i: nat, reg: Compile.Registry, sheet: Css.StyleSheet,
                  styles: Css.StyleSheet, c: Component, next: Compile.Registry)
    requires i < |ps| && ps[i] == Ok((styles, c)) && Register(reg, c) == Ok(next)
    ensures BuildFrom(ps, i, reg, sheet) == BuildFrom(ps, i + 1, next, sheet + styles)
  {
  }

  /**
   * The registry loop of `compile`: every file is loaded, prepared and
   * registered in order, and the component rules are concatenated.
   */
  method BuildRegistry(files: seq<SourceFile>) returns (r: Result<(Compile.Registry, Css.StyleSheet)>)
    ensures r == BuildFrom(PreparedAll(files), 0, map[], [])
    ensures r.Ok? ==> Registered(files, |files|, r.value.0) && Css.CompleteSheet(r.value.1)
  {
    var reg: Compile.Registry := map[];
    var stylesheet: Css.StyleSheet := [];
    var i := 0;
    ghost var ps := PreparedAll(files);
    while i < |files|
      invariant 0 <= i <= |files|
      invariant Registered(files, i, reg)
      invariant Css.CompleteSheet(stylesheet)
      invariant BuildFrom(ps, i, reg, stylesheet) == BuildFrom(ps, 0, map[], [])
    {
      var loaded := LoadComponent(files[i]);
      LoadSpecShape(files[i]);
      if loaded.Err? {
        return Err(loaded.error);
      }
      var prepared := Prepare(loaded.value);
      if prepared.Err? {
        return Err(prepared.error);
      }
      var (styles, component) := prepared.value;
      var next := Register(reg, component);
      if next.Err? {
        return Err(next.error);
      }
      BuildStep(ps, i, reg, stylesheet, styles, component, next.value);
      stylesheet := stylesheet + styles;
      RegisterStep(files, i, reg, component);
      reg := next.value;
      i := i + 1;
    }
    r := Ok((reg, stylesheet));
  }

  /** The text of a root stylesheet error: the message without its offset. */
  function RootCssError(e: Error): (r: Error)
    ensures e.Located? ==> r == Message("Error parsing root.css: " + e.message)
    ensures !e.Located? ==> r == e
  {
    match e
    case Located(_, msg) => Message("Error parsing root.css: " + msg)
    case _ => e
  }

  /** What a successful build hands to code generation. */
  datatype Build = Build(target: Target, registry: Compile.Registry, root: Node, stylesheet: Css.StyleSheet)

  /**
   * The end of `compile`: the `Root` component picks the code generator
   * and is expanded against the registry; without one the build stops.
   */
  method ExpandRoot(reg: Compile.Registry, fuel: nat) returns (r: Result<(Target, Node)>)
    requires Compile.RegistryOk(reg)
    ensures "Root" !in reg ==> r == Err(Message("No root component found."))
    ensures "Root" in reg ==>
              var filled := Compile.FillHoles(ComponentNode(reg["Root"]), reg, fuel);
              (filled.Err? ==> r == Err(filled.error))
              && (filled.Ok? ==> r == Ok((TargetOf(reg["Root"].dialect), filled.value)))
    ensures r.Ok? ==>
              var root := r.value.1;
              root.ComponentNode? && root.comp.name == "Root"
              && forall i :: 0 <= i < |root.comp.children| ==> Compile.Resolved(root.comp.children[i], [])
  {
    if "Root" !in reg {
      return Err(Message("No root component found."));
    }
    var root := reg["Root"];
    var target := TargetOf(root.dialect);
    var filled := Compile.FillHolesRoot(ComponentNode(root), reg, fuel);
    if filled.Err? {
      return Err(filled.error);
    }
    Compile.FillHolesResolved(root, reg, fuel);
    r := Ok((target, filled.value));
  }

  /**
   * The end of `compile` once the registry is built: the rules of
   * `root.css` follow the component rules, then `Root` is expanded.
   */
  method FinishBuild(reg: Compile.Registry, sheets: Css.StyleSheet, rootCss: string, fuel: nat) returns (r: Result<Build>)
    requires Compile.RegistryOk(reg) && Css.CompleteSheet(sheets)
    ensures Css.ParseStylesheet(rootCss).Err? ==> r == Err(RootCssError(Css.ParseStylesheet(rootCss).error))
    ensures r.Ok? ==>
      var b := r.value;
      Css.ParseStylesheet(rootCss).Ok? && b.stylesheet == sheets + Css.ParseStylesheet(rootCss).value
      && Css.CompleteSheet(b.stylesheet)
      && b.registry == reg && "Root" in reg
      && b.target == TargetOf(reg["Root"].dialect)
      && Compile.FillHoles(ComponentNode(reg["Root"]), reg, fuel) == Ok(b.root)
      && b.root.ComponentNode? && b.root.comp.name == "Root"
      && forall i :: 0 <= i < |b.root.comp.children| ==> Compile.Resolved(b.root.comp.children[i], [])
  {
    var rootRules := Css.Parse(rootCss);
    if rootRules.Err? {
      return Err(RootCssError(rootRules.error));
    }
    var expanded := ExpandRoot(reg, fuel);
    if expanded.Err? {
      return Err(expanded.error);
    }
    r := Ok(Build(expanded.value.0, reg, expanded.value.1, sheets + rootRules.value));
  }

  /**
   * `compile` up to code generation: the registry, the root stylesheet
   * (the text of `root.css`, empty when there is none), the `Root`
   * component and its expansion. `fuel` bounds the nesting depth of the
   * expansion. The rules handed on are every file's rules in file order
   * (`BuildOk`), then those of `root.css`; the first error stops the build.
   */
  method CompileJob(files: seq<SourceFile>, rootCss: string, fuel: nat) returns (r: Result<Build>)
    ensures r.Ok? ==>
      var b := r.value;
      Registered(files, |files|, b.registry)
      && Css.CompleteSheet(b.stylesheet)
      && (exists j :: 0 <= j < |files| && files[j].name == "Root")
      && "Root" in b.registry
      && b.target == TargetOf(b.registry["Root"].dialect)
      && Compile.FillHoles(ComponentNode(b.registry["Root"]), b.registry, fuel) == Ok(b.root)
      && b.root.ComponentNode? && b.root.comp.name == "Root"
      && forall i :: 0 <= i < |b.root.comp.children| ==> Compile.Resolved(b.root.comp.children[i], [])
    ensures Css.ParseStylesheet(rootCss).Err? ==> r.Err?
    ensures BuildFrom(PreparedAll(files), 0, map[], []).Err? ==> r == Err(BuildFrom(PreparedAll(files), 0, map[], []).error)
    ensures r.Ok? ==> Css.ParseStylesheet(rootCss).Ok?
                      && exists sheets :: BuildFrom(PreparedAll(files), 0, map[], []) == Ok((r.value.registry, sheets))
                                          && r.value.stylesheet == sheets + Css.ParseStylesheet(rootCss).value
  {
    var built := BuildRegistry(files);
    if built.Err? {
      return Err(built.error);
    }
    var (reg, stylesheet) := built.value;
    r := FinishBuild(reg, stylesheet, rootCss, fuel);
    if r.Ok? {
      assert Registered(files, |files|, reg);
      var j :| 0 <= j < |files| && files[j].name == "Root";
    }
  }


}
