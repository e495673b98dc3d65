/**
 * `src/js_component_scoping.rs`: per-instance renaming of the variables a
 * component's scripts declare. Each renamer owns a prefix `__<name>_<N>_`
 * built from the compilation counter, and a list of declared names that
 * its clones share and that only ever grows.
 */
module JsComponentScoping {
  import opened Wrappers
  import opened Text
  import opened Lib
  import JsLexer
  import Utils

  /* ---------------- declared identifiers ---------------- */

  /** The keywords after which an identifier is a declaration. */
  predicate Declaring(kw: string) {
    kw == "let" || kw == "const" || kw == "var" || kw == "function"
  }

  /** Token `k` is an identifier whose previous token is a declaring keyword. */
  predicate DeclaredAt(s: string, toks: seq<JsLexer.Token>, k: nat)
    requires JsLexer.Spans(s, toks, 0) && k < |toks|
  {
    0 < k && toks[k].kind == JsLexer.Ident && toks[k - 1].kind == JsLexer.Keyword
    && Declaring(JsLexer.TextOf(s, toks[k - 1]))
  }

  /** The names declared by the first `n` tokens, in token order, repeats included. */
  function Declarations(s: string, toks: seq<JsLexer.Token>, n: nat): seq<string>
    requires JsLexer.Spans(s, toks, 0) && n <= |toks|
  {
    if n == 0 then []
    else
      Declarations(s, toks, n - 1)
        + (if DeclaredAt(s, toks, n - 1) then [JsLexer.TextOf(s, toks[n - 1])] else [])
  }

  lemma {:induction false} DeclarationsExact(s: string, toks: seq<JsLexer.Token>, n: nat)
    requires JsLexer.Spans(s, toks, 0) && n <= |toks|
    ensures forall x :: x in Declarations(s, toks, n) <==>
              exists k :: 0 <= k < n && DeclaredAt(s, toks, k) && JsLexer.TextOf(s, toks[k]) == x
  {
    if n > 0 {
      DeclarationsExact(s, toks, n - 1);
    }
  }

  predicate NoDuplicates(xs: seq<string>) {
    forall i, j :: 0 <= i < j < |xs| ==> xs[i] != xs[j]
  }

  /** `if !identifiers.contains(&ident) { identifiers.push(ident) }` */
  function AddNew(acc: seq<string>, x: string): seq<string> {
    if x in acc then acc else acc + [x]
  }

  /** Each name of `xs` once, in the order of first occurrence. */
  function Unique(xs: seq<string>): (r: seq<string>)
    ensures forall x :: x in r <==> x in xs
    ensures NoDuplicates(r)
  {
    if xs == [] then []
    else
      var init := xs[..|xs| - 1];
      assert xs == init + [xs[|xs| - 1]];
      AddNew(Unique(init), xs[|xs| - 1])
  }

  /** Where `x` first occurs in `xs`. */
  function FirstIndex(xs: seq<string>, x: string): (k: nat)
    requires x in xs
    ensures k < |xs| && xs[k] == x && x !in xs[..k]
  {
    var init := xs[..|xs| - 1];
    assert xs == init + [xs[|xs| - 1]];
    if x in init then
      var k := FirstIndex(init, x);
      assert xs[..k] == init[..k];
      k
    else |xs| - 1
  }

  /** The names come in the order in which they first occur. */
  lemma {:induction false} UniqueOrder(xs: seq<string>)
    ensures forall i, j :: 0 <= i < j < |Unique(xs)| ==>
              FirstIndex(xs, Unique(xs)[i]) < FirstIndex(xs, Unique(xs)[j])
    decreases |xs|
  {
    if xs != [] {
      var init := xs[..|xs| - 1];
      var last := xs[|xs| - 1];
      assert xs == init + [last];
      UniqueOrder(init);
      var u := Unique(init);
      forall x | x in init
        ensures FirstIndex(xs, x) == FirstIndex(init, x)
      {
      }
      forall i, j | 0 <= i < j < |Unique(xs)|
        ensures FirstIndex(xs, Unique(xs)[i]) < FirstIndex(xs, Unique(xs)[j])
      {
        if j < |u| {
          assert Unique(xs)[i] == u[i] && Unique(xs)[j] == u[j];
        } else {
          assert Unique(xs)[j] == last && last !in init;
          assert Unique(xs)[i] == u[i] && u[i] in init;
        }
      }
    }
  }

  /**
   * `get_declared_js_identifiers` as a value: exactly the identifiers that
   * directly follow a `let`, `const`, `var` or `function` keyword token,
   * each once, in the order of their first declaration.
   */
  function DeclaredIn(expr: string): (r: seq<string>)
    ensures var toks := JsLexer.Lex(expr);
      NoDuplicates(r)
      && (forall x :: x in r <==> x in Declarations(expr, toks, |toks|))
      && (forall x :: x in r <==>
            exists k :: 0 <= k < |toks| && DeclaredAt(expr, toks, k) && JsLexer.TextOf(expr, toks[k]) == x)
      && (forall i, j :: 0 <= i < j < |r| ==>
            FirstIndex(Declarations(expr, toks, |toks|), r[i]) < FirstIndex(Declarations(expr, toks, |toks|), r[j]))
  {
    var toks := JsLexer.Lex(expr);
    DeclarationsExact(expr, toks, |toks|);
    UniqueOrder(Declarations(expr, toks, |toks|));
    Unique(Declarations(expr, toks, |toks|))
  }

  /** `let w` declares exactly `w`, for every identifier word `w`. */
  lemma LetDeclaresWord(w: string)
    requires JsLexer.IdentWord(w)
    ensures DeclaredIn("let " + w) == [w]
  {
    var s := "let " + w;
    JsLexer.LetDeclares(w);
    var toks := JsLexer.Lex(s);
    assert JsLexer.TextOf(s, toks[0]) == "let" by {
      assert s[0..3] == "let";
    }
    assert JsLexer.TextOf(s, toks[1]) == w by {
      assert s[4..4 + |w|] == w;
    }
    assert Declarations(s, toks, 1) == [];
    assert DeclaredAt(s, toks, 1);
    assert Declarations(s, toks, 2) == [w];
    assert [w][..0] == [];
    assert Unique([w]) == [w];
  }

  /** One more token adds its declared name if that name is new. */
  lemma DeclarationsStep(s: string, toks: seq<JsLexer.Token>, i: nat)
    requires JsLexer.Spans(s, toks, 0) && i < |toks|
    ensures Unique(Declarations(s, toks, i + 1))
            == if DeclaredAt(s, toks, i) then AddNew(Unique(Declarations(s, toks, i)), JsLexer.TextOf(s, toks[i]))
               else Unique(Declarations(s, toks, i))
  {
    var before := Declarations(s, toks, i);
    if DeclaredAt(s, toks, i) {
      assert (before + [JsLexer.TextOf(s, toks[i])])[..|before|] == before;
    } else {
      assert before + [] == before;
    }
  }

  /** `get_declared_js_identifiers`: one pass over the tokens, remembering the previous one. */
  method GetDeclaredJsIdentifiers(expr: string) returns (names: seq<string>)
    ensures names == DeclaredIn(expr)
  {
    var toks := JsLexer.Lex(expr);
    names := [];
    var previous: Option<JsLexer.Token> := None;
    var i := 0;
    while i < |toks|
      invariant i <= |toks|
      invariant names == Unique(Declarations(expr, toks, i))
      invariant previous == if i == 0 then None else Some(toks[i - 1])
    {
      var item := toks[i];
      DeclarationsStep(expr, toks, i);
      var declares := false;
      if item.kind == JsLexer.Ident && previous.Some? && previous.value.kind == JsLexer.Keyword {
        var kw := JsLexer.TextOf(expr, previous.value);
        declares := kw == "let" || kw == "const" || kw == "var" || kw == "function";
      }
      assert declares == DeclaredAt(expr, toks, i);
      if declares {
        var ident := JsLexer.TextOf(expr, item);
        if ident !in names {
          names := names + [ident];
        }
      }
      previous := Some(item);
      i := i + 1;
    }
  }

  /* ---------------- renaming ---------------- */

  /**
   * Find-and-replace once per listed name, in list order, each name to
   * `prefix` + name; text that uses none of the listed names, neither as
   * `x` nor as `$x`, comes back unchanged.
   */
  function Renamed(expr: string, names: seq<string>, prefix: string): (r: string)
    ensures (forall n :: n in names ==>
               forall j :: 0 <= j < |JsLexer.Lex(expr)| ==> Utils.PlaceOf(expr, JsLexer.Lex(expr)[j], n).None?)
            ==> r == expr
    decreases |names|
  {
    if names == [] then expr
    else
      Utils.NoMatchUnchanged(expr, names[0], prefix + names[0]);
      assert names[0] in names;
      assert forall n :: n in names[1..] ==> n in names;
      Renamed(Utils.FindReplaced(expr, names[0], prefix + names[0]), names[1..], prefix)
  }

  /** Renaming by a list in two parts renames by the first part, then the second. */
  lemma {:induction false} RenamedAppend(expr: string, a: seq<string>, b: seq<string>, prefix: string)
    ensures Renamed(expr, a + b, prefix) == Renamed(Renamed(expr, a, prefix), b, prefix)
    decreases |a|
  {
    if a != [] {
      assert (a + b)[0] == a[0] && (a + b)[1..] == a[1..] + b;
      RenamedAppend(Utils.FindReplaced(expr, a[0], prefix + a[0]), a[1..], b, prefix);
    } else {
      assert a + b == b;
    }
  }

  /** The shared, growing list behind `Rc<RefCell<Vec<String>>>`. */
  class Identifiers {
    var names: seq<string>

    constructor ()
      ensures names == []
    {
      names := [];
    }
  }

  /** `ComponentVariableRenamer` */
  class Renamer {
    const prefix: string
    const ids: Identifiers

    /** `new`: the prefix takes the current counter value, which is then bumped. */
    constructor (componentName: string, ctx: Context)
      modifies ctx
      ensures prefix == "__" + componentName + "_" + NatToString(old(ctx.counter)) + "_"
      ensures ctx.counter == old(ctx.counter) + 1
      ensures fresh(ids) && ids.names == []
    {
      var n := ctx.Fresh();
      prefix := "__" + componentName + "_" + NatToString(n) + "_";
      ids := new Identifiers();
    }

    /** `clone`: the prefix is copied and the identifier list is shared. */
    constructor Clone(other: Renamer)
      ensures prefix == other.prefix && ids == other.ids
    {
      prefix := other.prefix;
      ids := other.ids;
    }

    /** `rename`: the prefix followed by the name. */
    function Rename(x: string): (r: string)
      ensures |r| == |prefix| + |x| && r[..|prefix|] == prefix && r[|prefix|..] == x
    {
      prefix + x
    }

    /** `process_no_declared`: the list is read, not changed. */
    method ProcessNoDeclared(expr: string) returns (r: string)
      ensures r == Renamed(expr, ids.names, prefix)
    {
      var names := ids.names;
      r := expr;
      var i := 0;
      assert names[0..] == names;
      while i < |names|
        invariant i <= |names|
        invariant Renamed(r, names[i..], prefix) == Renamed(expr, names, prefix)
      {
        assert names[i..][1..] == names[i + 1..];
        var repl := Rename(names[i]);
        r := Utils.FindAndReplace(r, names[i], repl);
        i := i + 1;
      }
    }

    /**
     * `process`: the names `expr` declares are appended to the shared list,
     * runs of equal neighbours collapse, and `expr` is then rewritten as
     * `process_no_declared` rewrites it with the extended list.
     */
    method Process(expr: string) returns (r: string)
      modifies ids
      ensures ids.names == Dedup(old(ids.names) + DeclaredIn(expr))
      ensures forall x :: x in ids.names <==> x in old(ids.names) || x in DeclaredIn(expr)
      ensures r == Renamed(expr, ids.names, prefix)
    {
      var declared := GetDeclaredJsIdentifiers(expr);
      ids.names := ids.names + declared;
      ids.names := Dedup(ids.names);
      r := ProcessNoDeclared(expr);
    }
  }

  /** Two counter values give two different prefixes, so instances never share names. */
  lemma PrefixesDistinct(name: string, a: nat, b: nat)
    requires a != b
    ensures "__" + name + "_" + NatToString(a) + "_" != "__" + name + "_" + NatToString(b) + "_"
  {
    var p := "__" + name + "_";
    var x, y := p + NatToString(a) + "_", p + NatToString(b) + "_";
    if x == y {
      assert |NatToString(a)| == |NatToString(b)|;
      assert NatToString(a) == x[|p|..|x| - 1] == y[|p|..|y| - 1] == NatToString(b);
      NatToStringInjective(a, b);
    }
  }
}
