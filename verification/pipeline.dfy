/**
 * The browser entry points of `src/lib.rs`: `wasm_compile_` runs the
 * whole pipeline on in-memory files (parse, collect and scope styles,
 * register, expand the `Root` component, generate the page) and
 * `wasm_compile` turns a failure into an HTML error line.
 */
module Pipeline {
  import opened Wrappers
  import opened Text
  import opened Lib
  import Css
  import Compile
  import Job
  import JsCodegen
  import JsCodegenMethods

  /** `File`: a component's name and its text. */
  datatype WasmFile = WasmFile(name: string, contents: string)

  /** Every in-memory file is read as a JsLilac component. */
  function AsSources(files: seq<WasmFile>): (r: seq<Job.SourceFile>)
    ensures |r| == |files|
    ensures forall i :: 0 <= i < |files| ==>
              r[i].name == files[i].name && r[i].contents == files[i].contents && Job.DialectOf(r[i].extension) == Ok(JsLilac)
  {
    seq(|files|, i requires 0 <= i < |files| => Job.SourceFile(files[i].name, "jslilac", files[i].contents))
  }

  /**
   * `wasm_compile_`. The registry is built as in `compile`, every file
   * with the JsLilac dialect; a name defined twice or a missing `Root`
   * fails; the expanded `Root` is generated as a page. `fuel` bounds the
   * nesting depth of the expansion, `version` and `prelude` stand for the
   * crate version and the runtime library compiled into the binary, and
   * `ctx` holds the process-wide counter.
   */
  method WasmCompileInner(files: seq<WasmFile>, version: string, prelude: string, fuel: nat, ctx: Context)
    returns (r: Result<string>, ghost reg: Compile.Registry, ghost root: Node, ghost sheet: Css.StyleSheet)
    modifies ctx
    ensures (exists j, k :: 0 <= j < k < |files| && files[j].name == files[k].name) ==> r.Err?
    ensures (forall j :: 0 <= j < |files| ==> files[j].name != "Root") ==> r.Err?
    ensures Job.BuildFrom(Job.PreparedAll(AsSources(files)), 0, map[], []).Err? ==>
              r == Err(Job.BuildFrom(Job.PreparedAll(AsSources(files)), 0, map[], []).error)
    ensures r.Ok? ==> Job.BuildFrom(Job.PreparedAll(AsSources(files)), 0, map[], []) == Ok((reg, sheet))
    ensures r.Ok? ==> Job.Registered(AsSources(files), |files|, reg) && "Root" in reg
                      && (forall name :: name in reg ==> reg[name].dialect == JsLilac)
                      && Compile.FillHoles(ComponentNode(reg["Root"]), reg, fuel) == Ok(root)
                      && Css.CompleteSheet(sheet)
                      && JsCodegen.FullJs(root, sheet, version, prelude, old(ctx.counter)).Ok?
                      && r.value == JsCodegen.FullJs(root, sheet, version, prelude, old(ctx.counter)).value.code
  {
    var sources := AsSources(files);
    var built := Job.BuildRegistry(sources);
    if built.Err? {
      return Err(built.error), map[], Text(""), [];
    }
    var (components, stylesheet) := built.value;
    reg, sheet := components, stylesheet;
    RegisteredNames(files, components);
    if "Root" !in components {
      return Err(Message("No root component found.")), reg, Text(""), sheet;
    }
    var filled := Compile.FillHolesRoot(ComponentNode(components["Root"]), components, fuel);
    if filled.Err? {
      return Err(filled.error), reg, Text(""), sheet;
    }
    root := filled.value;
    r := JsCodegenMethods.FullJsCodegen(filled.value, stylesheet, version, prelude, ctx);
  }

  /** What a registry built from the in-memory files says about their names and dialects. */
  lemma RegisteredNames(files: seq<WasmFile>, reg: Compile.Registry)
    requires Job.Registered(AsSources(files), |files|, reg)
    ensures forall j, k :: 0 <= j < k < |files| ==> files[j].name != files[k].name
    ensures "Root" in reg <==> exists j :: 0 <= j < |files| && files[j].name == "Root"
    ensures forall name :: name in reg ==> reg[name].dialect == JsLilac
  {
    var sources := AsSources(files);
    forall name | name in reg
      ensures reg[name].dialect == JsLilac
    {
      var j :| 0 <= j < |files| && sources[j].name == name;
      assert Job.DialectOf(sources[j].extension) == Ok(reg[sources[j].name].dialect);
    }
    if "Root" in reg {
      var j :| 0 <= j < |files| && sources[j].name == "Root";
      assert files[j].name == "Root";
    }
  }

  /** The fixed head of the error line. */
  const ErrorHead := "<span style=\"color: red; font-weight: bold;\">ERROR:</span> "

  /**
   * `wasm_compile`: the page on success, else the error line. An error
   * message becomes text; a panic is not caught and stays a failure.
   */
  function ErrorPage(r: Result<string>): (s: Result<string>)
    ensures r.Ok? ==> s == r
    ensures r.Err? && r.error.Panic? ==> s == r
    ensures r.Err? && !r.error.Panic? ==> s.Ok? && StartsAt(s.value, 0, ErrorHead)
  {
    match r
    case Ok(page) => Ok(page)
    case Err(Message(m)) => Ok(ErrorHead + m)
    case Err(Located(_, m)) => Ok(ErrorHead + m)
    case Err(Panic(p)) => Err(Panic(p))
  }

  /** The error line gives the message back after its head, so the two kinds of output never mix up. */
  lemma ErrorLineMessage(m: string)
    ensures ErrorPage(Err(Message(m))).value[|ErrorHead|..] == m
    ensures ErrorPage(Err(Message(m))).value[..|ErrorHead|] == ErrorHead
  {
  }

  /**
   * `wasm_compile`: the page of `wasm_compile_`, or its error line. `inner`
   * is what `wasm_compile_` returned.
   */
  method WasmCompile(files: seq<WasmFile>, version: string, prelude: string, fuel: nat, ctx: Context)
    returns (s: Result<string>, ghost inner: Result<string>)
    modifies ctx
    ensures s == ErrorPage(inner)
    ensures Job.BuildFrom(Job.PreparedAll(AsSources(files)), 0, map[], []).Err? ==>
              inner == Err(Job.BuildFrom(Job.PreparedAll(AsSources(files)), 0, map[], []).error)
    ensures (forall j :: 0 <= j < |files| ==> files[j].name != "Root") ==> inner.Err?
    ensures (exists j, k :: 0 <= j < k < |files| && files[j].name == files[k].name) ==> inner.Err?
    ensures inner.Ok? ==> exists reg: Compile.Registry, root: Node, sheet: Css.StyleSheet ::
              Job.BuildFrom(Job.PreparedAll(AsSources(files)), 0, map[], []) == Ok((reg, sheet))
              && "Root" in reg && Compile.FillHoles(ComponentNode(reg["Root"]), reg, fuel) == Ok(root)
              && Css.CompleteSheet(sheet) && JsCodegen.FullJs(root, sheet, version, prelude, old(ctx.counter)).Ok?
              && inner.value == JsCodegen.FullJs(root, sheet, version, prelude, old(ctx.counter)).value.code
  {
    var r, reg, root, sheet := WasmCompileInner(files, version, prelude, fuel, ctx);
    inner := r;
    s := ErrorPage(r);
  }
}
