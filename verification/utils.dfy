/**
 * `src/utils.rs`: token-exact renaming of JavaScript identifiers, and the
 * accessor for the child list of a container node.
 */
module Utils {
  import opened Wrappers
  import opened Lib
  import JsLexer

  /* ---------------- find and replace ---------------- */

  /** A span to rewrite; `dollar` marks a `$find` match, which keeps its `$`. */
  datatype Place = Place(start: nat, end: nat, dollar: bool)

  /** The spans lie inside a text of length `n`, in order and without overlap. */
  predicate PlacesOk(places: seq<Place>, n: nat) {
    (forall k :: 0 <= k < |places| ==> places[k].start <= places[k].end <= n)
    && (forall k, l :: 0 <= k < l < |places| ==> places[k].end <= places[l].start)
  }

  /** What a span becomes. */
  function Replacement(p: Place, replace: string): string {
    if p.dollar then "$" + replace else replace
  }

  /** The span a token contributes: an identifier equal to `find`, or to `$find`. */
  function PlaceOf(s: string, t: JsLexer.Token, find: string): (r: Option<Place>)
    requires t.start <= t.end <= |s|
    ensures r.Some? <==> t.kind == JsLexer.Ident && (s[t.start..t.end] == find || s[t.start..t.end] == "$" + find)
    ensures r.Some? ==> r.value.start == t.start && r.value.end == t.end
    ensures r.Some? ==> (r.value.dollar <==> s[t.start..t.end] != find)
  {
    if t.kind == JsLexer.Ident then
      if s[t.start..t.end] == find then Some(Place(t.start, t.end, false))
      else if s[t.start..t.end] == "$" + find then Some(Place(t.start, t.end, true))
      else None
    else None
  }

  /** The matching spans among `toks`, in token order (the collecting loop). */
  function PlacesIn(s: string, toks: seq<JsLexer.Token>, find: string): (r: seq<Place>)
    requires JsLexer.Spans(s, toks, 0)
    ensures PlacesOk(r, |s|)
    ensures forall k :: 0 <= k < |r| ==> |toks| > 0 && r[k].end <= toks[|toks| - 1].end
    decreases |toks|
  {
    if toks == [] then []
    else
      var init := toks[..|toks| - 1];
      assert JsLexer.Spans(s, init, 0);
      var r := PlacesIn(s, init, find);
      var last := toks[|toks| - 1];
      var p := PlaceOf(s, last, find);
      assert forall k :: 0 <= k < |r| ==> r[k].end <= last.start by {
        if |init| > 0 {
          assert init[|init| - 1] == toks[|toks| - 2];
        }
      }
      if p.Some? then r + [p.value] else r
  }

  /**
   * The spans are exactly those of the matching tokens: every identifier
   * token equal to `find` or `$find` is rewritten, and nothing else is.
   */
  lemma {:induction false} PlacesInExact(s: string, toks: seq<JsLexer.Token>, find: string)
    requires JsLexer.Spans(s, toks, 0)
    ensures forall j :: 0 <= j < |toks| && PlaceOf(s, toks[j], find).Some? ==>
              PlaceOf(s, toks[j], find).value in PlacesIn(s, toks, find)
    ensures forall p :: p in PlacesIn(s, toks, find) ==>
              exists j :: 0 <= j < |toks| && PlaceOf(s, toks[j], find) == Some(p)
    decreases |toks|
  {
    if toks != [] {
      var init, last := toks[..|toks| - 1], toks[|toks| - 1];
      assert JsLexer.Spans(s, init, 0);
      var prev, r := PlacesIn(s, init, find), PlacesIn(s, toks, find);
      assert r == if PlaceOf(s, last, find).Some? then prev + [PlaceOf(s, last, find).value] else prev;
      PlacesInExact(s, init, find);
      forall j | 0 <= j < |toks| && PlaceOf(s, toks[j], find).Some?
        ensures PlaceOf(s, toks[j], find).value in r
      {
        if j < |init| {
          assert toks[j] == init[j];
        }
      }
      forall p | p in r
        ensures exists j :: 0 <= j < |toks| && PlaceOf(s, toks[j], find) == Some(p)
      {
        if p in prev {
          var j :| 0 <= j < |init| && PlaceOf(s, init[j], find) == Some(p);
          assert toks[j] == init[j];
        } else {
          assert PlaceOf(s, last, find) == Some(p);
        }
      }
    }
  }

  /**
   * The rewritten text read left to right from `from`: the text between
   * spans kept, each span replaced. This is the meaning of the edit.
   */
  function Spliced(s: string, places: seq<Place>, replace: string, from: nat): string
    requires from <= |s| && PlacesOk(places, |s|)
    requires places != [] ==> from <= places[0].start
    decreases |places|
  {
    if places == [] then s[from..]
    else
      s[from..places[0].start] + Replacement(places[0], replace)
        + Spliced(s, places[1..], replace, places[0].end)
  }

  /** `replace_range`: the text with `[p.start, p.end)` replaced. */
  function ReplaceRange(s: string, p: Place, replace: string): (r: string)
    requires p.start <= p.end <= |s|
    ensures |r| >= p.start && r[..p.start] == s[..p.start]
    ensures |r| == |s| - (p.end - p.start) + |Replacement(p, replace)|
    ensures r[|r| - (|s| - p.end)..] == s[p.end..]
  {
    s[..p.start] + Replacement(p, replace) + s[p.end..]
  }

  /** The spans applied from the last to the first, as the rewriting loop does. */
  function RightToLeft(s: string, places: seq<Place>, replace: string): (r: string)
    requires PlacesOk(places, |s|)
    ensures places != [] ==> |r| >= places[0].start && r[..places[0].start] == s[..places[0].start]
    decreases |places|
  {
    if places == [] then s
    else
      var p := places[0];
      var rest := RightToLeft(s, places[1..], replace);
      assert |rest| >= p.end && rest[..p.end] == s[..p.end] by {
        if |places| > 1 {
          assert p.end <= places[1].start;
          assert rest[..p.end] == rest[..places[1].start][..p.end];
        }
      }
      assert rest[..p.start] == s[..p.start] by {
        assert rest[..p.start] == rest[..p.end][..p.start];
      }
      ReplaceRange(rest, p, replace)
  }

  /** Splitting a splice at a point `k` before its first span. */
  lemma {:induction false} SplicedSplit(s: string, places: seq<Place>, replace: string, from: nat, k: nat)
    requires from <= k <= |s| && PlacesOk(places, |s|)
    requires places != [] ==> k <= places[0].start
    ensures Spliced(s, places, replace, from) == s[from..k] + Spliced(s, places, replace, k)
  {
    if places == [] {
      assert s[from..] == s[from..k] + s[k..];
    } else {
      PlacesOkTail(places, |s|);
      var p := places[0];
      var repl, after := Replacement(p, replace), Spliced(s, places[1..], replace, p.end);
      var whole, head, tail := s[from..p.start], s[from..k], s[k..p.start];
      assert Spliced(s, places, replace, from) == whole + (repl + after) by {
        assert whole + repl + after == whole + (repl + after);
      }
      assert Spliced(s, places, replace, k) == tail + (repl + after) by {
        assert tail + repl + after == tail + (repl + after);
      }
      assert whole == head + tail;
      assert (head + tail) + (repl + after) == head + (tail + (repl + after));
    }
  }

  /** The spans after the first are in order, and the first ends before them. */
  lemma PlacesOkTail(places: seq<Place>, n: nat)
    requires PlacesOk(places, n) && places != []
    ensures PlacesOk(places[1..], n) && places[0].start <= places[0].end <= n
    ensures |places| > 1 ==> places[0].end <= places[1].start
  {
  }

  /**
   * Rewriting from the last span to the first leaves every earlier span
   * where it was, so the result is the left-to-right splice.
   */
  lemma {:induction false} RightToLeftSpliced(s: string, places: seq<Place>, replace: string)
    requires PlacesOk(places, |s|)
    ensures RightToLeft(s, places, replace) == Spliced(s, places, replace, 0)
    decreases |places|
  {
    if places != [] {
      var p := places[0];
      var tail := places[1..];
      assert PlacesOk(tail, |s|);
      RightToLeftSpliced(s, tail, replace);
      var rest := RightToLeft(s, tail, replace);
      assert rest == Spliced(s, tail, replace, 0);
      SplicedSplit(s, tail, replace, 0, p.end);
      assert rest == s[0..p.end] + Spliced(s, tail, replace, p.end);
      assert rest[p.end..] == Spliced(s, tail, replace, p.end);
      assert rest[..p.start] == s[..p.start];
      calc {
        RightToLeft(s, places, replace);
        rest[..p.start] + Replacement(p, replace) + rest[p.end..];
        s[0..p.start] + Replacement(p, replace) + Spliced(s, tail, replace, p.end);
        Spliced(s, places, replace, 0);
      }
    }
  }

  /**
   * `find_and_replace_js_identifiers` as a value: every identifier token
   * equal to `find` becomes `replace`, every one equal to `$find` becomes
   * `$replace`, and all other text is kept.
   */
  function FindReplaced(expr: string, find: string, replace: string): string {
    var toks := JsLexer.Lex(expr);
    Spliced(expr, PlacesIn(expr, toks, find), replace, 0)
  }

  /** The first loop of `find_and_replace_js_identifiers`: the matching spans in token order. */
  method CollectPlaces(expr: string, toks: seq<JsLexer.Token>, find: string) returns (places: seq<Place>)
    requires JsLexer.Spans(expr, toks, 0)
    ensures places == PlacesIn(expr, toks, find)
  {
    places := [];
    var i := 0;
    while i < |toks|
      invariant i <= |toks|
      invariant JsLexer.Spans(expr, toks[..i], 0)
      invariant places == PlacesIn(expr, toks[..i], find)
    {
      assert toks[..i + 1][..i] == toks[..i];
      var p := PlaceOf(expr, toks[i], find);
      if p.Some? {
        places := places + [p.value];
      }
      i := i + 1;
    }
    assert toks[..i] == toks;
  }

  /** The second loop: `replace_range` on each span, from the last to the first. */
  method ApplyPlaces(expr: string, places: seq<Place>, replace: string) returns (r: string)
    requires PlacesOk(places, |expr|)
    ensures r == Spliced(expr, places, replace, 0)
  {
    r := expr;
    var k := |places|;
    while k > 0
      invariant 0 <= k <= |places|
      invariant PlacesOk(places[k..], |expr|)
      invariant r == RightToLeft(expr, places[k..], replace)
    {
      k := k - 1;
      assert places[k..][1..] == places[k + 1..];
      r := r[..places[k].start] + Replacement(places[k], replace) + r[places[k].end..];
    }
    RightToLeftSpliced(expr, places, replace);
  }

  /** `find_and_replace_js_identifiers` */
  method FindAndReplace(expr: string, find: string, replace: string) returns (r: string)
    ensures r == FindReplaced(expr, find, replace)
  {
    var toks := JsLexer.Lex(expr);
    var places := CollectPlaces(expr, toks, find);
    r := ApplyPlaces(expr, places, replace);
  }

  /** Text in which no identifier token matches comes back unchanged. */
  lemma NoMatchUnchanged(expr: string, find: string, replace: string)
    ensures (forall j :: 0 <= j < |JsLexer.Lex(expr)| ==> PlaceOf(expr, JsLexer.Lex(expr)[j], find).None?) ==>
              FindReplaced(expr, find, replace) == expr
  {
    NoPlaces(expr, JsLexer.Lex(expr), find);
    assert expr[0..] == expr;
  }

  /** No matching token, no span. */
  lemma {:induction false} NoPlaces(s: string, toks: seq<JsLexer.Token>, find: string)
    requires JsLexer.Spans(s, toks, 0)
    ensures (forall j :: 0 <= j < |toks| ==> PlaceOf(s, toks[j], find).None?) ==> PlacesIn(s, toks, find) == []
    decreases |toks|
  {
    if toks != [] {
      var init := toks[..|toks| - 1];
      assert JsLexer.Spans(s, init, 0);
      NoPlaces(s, init, find);
      assert forall j :: 0 <= j < |init| ==> init[j] == toks[j];
    }
  }

  /* ---------------- children ---------------- */

  /** A node that `children_of` gives a child list for. */
  predicate HasChildren(n: Node) {
    n.ComponentNode? || n.ElementNode? || n.ConditionalElements? || n.Loop?
  }

  /**
   * `children_of`: the child list of a component, element, conditional or
   * loop, and nothing for any other node (component holes included).
   */
  function ChildrenOf(n: Node): (r: Option<seq<Node>>)
    ensures r.Some? <==> HasChildren(n)
    ensures n.ComponentNode? ==> r == Some(n.comp.children)
    ensures n.ElementNode? ==> r == Some(n.elem.children)
    ensures n.ConditionalElements? || n.Loop? ==> r == Some(n.children)
  {
    match n
    case ComponentNode(c) => Some(c.children)
    case ElementNode(e) => Some(e.children)
    case ConditionalElements(_, cs) => Some(cs)
    case Loop(_, _, _, cs) => Some(cs)
    case _ => None
  }

  /** Writing through the reference `children_of` hands out. */
  function WithChildren(n: Node, cs: seq<Node>): (r: Node)
    requires HasChildren(n)
    ensures HasChildren(r) && ChildrenOf(r) == Some(cs)
    ensures n.ComponentNode? ==> r == ComponentNode(n.comp.(children := cs))
    ensures n.ElementNode? ==> r == ElementNode(n.elem.(children := cs))
    ensures n.ConditionalElements? ==> r == ConditionalElements(n.condition, cs)
    ensures n.Loop? ==> r == Loop(n.iteratorVariable, n.iteratable, n.reactiveList, cs)
  {
    match n
    case ComponentNode(c) => ComponentNode(c.(children := cs))
    case ElementNode(e) => ElementNode(e.(children := cs))
    case ConditionalElements(cond, _) => ConditionalElements(cond, cs)
    case Loop(v, it, reactive, _) => Loop(v, it, reactive, cs)
  }

  /** Writing back the list read is no change; everything but the children is kept. */
  lemma WithChildrenKeeps(n: Node, cs: seq<Node>)
    requires HasChildren(n)
    ensures WithChildren(n, ChildrenOf(n).value) == n
    ensures WithChildren(WithChildren(n, cs), ChildrenOf(n).value) == n
  {
  }
}
