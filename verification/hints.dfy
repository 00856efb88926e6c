/**
 * The body of the `inlay_hint` handler (src/main.rs): collecting one
 * `(start, end, label)` entry per `let` statement of every ordinary function,
 * and projecting those entries onto positions of the document's text.
 */
module Hints {
  import opened Wrappers
  import opened Syntax
  import opened Positions

  /** One entry of the handler's `inlays` vector: span start, span end and label. */
  datatype Site = Site(start: u32, end: u32, typeLabel: Option<string>)

  /** The hint the editor receives: where it is anchored and what it reads. */
  datatype Hint = Hint(position: Position, value: string)

  /** Reading a hint label back: the literal kind it names, if any. */
  function KindOfLabel(text: string): Option<LiteralKind>
  {
    if text == ": array" then Some(Array)
    else if text == ": bool" then Some(Bool)
    else if text == ": integer" then Some(Integer)
    else if text == ": string" then Some(Str)
    else None
  }

  /**
   * The label of a let-bound expression: present exactly for literals, and it
   * names the literal's kind, so no two kinds share a label.
   */
  function Label(kind: ExpressionKind): (r: Option<string>)
    ensures r.Some? <==> kind.Literal?
    ensures kind.Literal? ==> KindOfLabel(r.value) == Some(kind.literal)
  {
    match kind
    case Literal(Array) => Some(": array")
    case Literal(Bool) => Some(": bool")
    case Literal(Integer) => Some(": integer")
    case Literal(Str) => Some(": string")
    case NonLiteral => None
  }

  /** The entry one `let` statement contributes. */
  function SiteOf(e: Expression): Site
  {
    Site(e.span.start, e.span.end, Label(e.kind))
  }

  /** The entries of a function body, in statement order. */
  function BodySites(body: seq<Statement>): seq<Site>
    decreases |body|
  {
    if body == [] then []
    else
      BodySites(body[..|body| - 1]) +
      match body[|body| - 1]
      case Let(e) => [SiteOf(e)]
      case Other => []
  }

  /** The entries of a list of functions: those of each `Normal` one, in order. */
  function ModuleSites(functions: seq<Function>): seq<Site>
    decreases |functions|
  {
    if functions == [] then []
    else
      var f := functions[|functions| - 1];
      ModuleSites(functions[..|functions| - 1]) + if f.kind == Normal then BodySites(f.body) else []
  }

  /**
   * Everything the handler collects from one parsed module: exactly the entries
   * that the `let` statements of its `Normal` functions yield.
   */
  function Sites(m: Module): (r: seq<Site>)
    ensures forall s :: s in r <==> exists i, j :: LetSiteAt(m.functions, i, j, s)
  {
    AllSitesComeFromLets(m.functions);
    ModuleSites(m.functions)
  }

  /** The indices of the `let` statements of a body, in increasing order. */
  function LetIndices(body: seq<Statement>): (ix: seq<nat>)
    ensures forall k :: 0 <= k < |ix| ==> ix[k] < |body| && body[ix[k]].Let?
    ensures forall k, l :: 0 <= k < l < |ix| ==> ix[k] < ix[l]
    ensures forall j :: 0 <= j < |body| && body[j].Let? ==> j in ix
    decreases |body|
  {
    if body == [] then []
    else
      LetIndices(body[..|body| - 1]) + if body[|body| - 1].Let? then [|body| - 1] else []
  }

  /**
   * A body yields exactly one entry per `let` statement, in statement order, and
   * each entry carries that statement's expression span and label.
   */
  lemma {:induction false} BodySitesAreLets(body: seq<Statement>)
    ensures |BodySites(body)| == |LetIndices(body)|
    ensures forall k :: 0 <= k < |BodySites(body)| ==>
              BodySites(body)[k] == SiteOf(body[LetIndices(body)[k]].expression)
    decreases |body|
  {
    if body != [] {
      var init := body[..|body| - 1];
      BodySitesAreLets(init);
      forall k | 0 <= k < |LetIndices(init)|
        ensures body[LetIndices(init)[k]] == init[LetIndices(init)[k]]
      {
      }
    }
  }

  /** The functions of a module contribute their entries in module order. */
  lemma {:induction false} ModuleSitesAppend(fs: seq<Function>, gs: seq<Function>)
    ensures ModuleSites(fs + gs) == ModuleSites(fs) + ModuleSites(gs)
    decreases |gs|
  {
    if gs == [] {
      assert fs + gs == fs;
    } else {
      var init, g := gs[..|gs| - 1], gs[|gs| - 1];
      var tail := if g.kind == Normal then BodySites(g.body) else [];
      ModuleSitesAppend(fs, init);
      assert (fs + gs)[..|fs + gs| - 1] == fs + init;
      assert ModuleSites(fs + gs) == ModuleSites(fs + init) + tail;
      assert ModuleSites(gs) == ModuleSites(init) + tail;
    }
  }

  /** Statement `j` of function `i` is a `let` inside a `Normal` function and yields `s`. */
  ghost predicate LetSiteAt(fs: seq<Function>, i: int, j: int, s: Site)
  {
    0 <= i < |fs| && fs[i].kind == Normal &&
    0 <= j < |fs[i].body| && fs[i].body[j].Let? &&
    s == SiteOf(fs[i].body[j].expression)
  }

  /** Every `let` of a body shows up among its entries. */
  lemma BodySiteOfLet(body: seq<Statement>, j: nat)
    requires j < |body| && body[j].Let?
    ensures SiteOf(body[j].expression) in BodySites(body)
  {
    BodySitesAreLets(body);
    var k :| 0 <= k < |LetIndices(body)| && LetIndices(body)[k] == j;
    assert BodySites(body)[k] == SiteOf(body[j].expression);
  }

  /** Every entry of a body comes from one of its `let` statements. */
  lemma BodySiteHasLet(body: seq<Statement>, s: Site)
    requires s in BodySites(body)
    ensures exists j :: 0 <= j < |body| && body[j].Let? && s == SiteOf(body[j].expression)
  {
    BodySitesAreLets(body);
    var k :| 0 <= k < |BodySites(body)| && BodySites(body)[k] == s;
    var j := LetIndices(body)[k];
    assert body[j].Let? && s == SiteOf(body[j].expression);
  }

  /** Every collected entry comes from a `let` of a `Normal` function. */
  lemma {:induction false} SiteHasLet(fs: seq<Function>, s: Site)
    requires s in ModuleSites(fs)
    ensures exists i, j :: LetSiteAt(fs, i, j, s)
    decreases |fs|
  {
    assert fs != [];
    var n := |fs| - 1;
    var init, f := fs[..n], fs[n];
    var tail := if f.kind == Normal then BodySites(f.body) else [];
    assert ModuleSites(fs) == ModuleSites(init) + tail;
    if s in ModuleSites(init) {
      SiteHasLet(init, s);
      var i, j :| LetSiteAt(init, i, j, s);
      assert LetSiteAt(fs, i, j, s);
    } else {
      BodySiteHasLet(f.body, s);
      var j :| 0 <= j < |f.body| && f.body[j].Let? && s == SiteOf(f.body[j].expression);
      assert LetSiteAt(fs, n, j, s);
    }
  }

  /** Every `let` of a `Normal` function has its entry collected. */
  lemma {:induction false} LetHasSite(fs: seq<Function>, i: int, j: int, s: Site)
    requires LetSiteAt(fs, i, j, s)
    ensures s in ModuleSites(fs)
    decreases |fs|
  {
    var n := |fs| - 1;
    var init, f := fs[..n], fs[n];
    assert ModuleSites(fs) == ModuleSites(init) + if f.kind == Normal then BodySites(f.body) else [];
    if i < n {
      assert LetSiteAt(init, i, j, s);
      LetHasSite(init, i, j, s);
    } else {
      BodySiteOfLet(f.body, j);
    }
  }

  /**
   * An entry is collected exactly when some `let` of some `Normal` function
   * yields it: other functions and other statements contribute nothing.
   */
  lemma SitesComeFromLets(fs: seq<Function>, s: Site)
    ensures s in ModuleSites(fs) <==> exists i, j :: LetSiteAt(fs, i, j, s)
  {
    if s in ModuleSites(fs) {
      SiteHasLet(fs, s);
    }
    if exists i, j :: LetSiteAt(fs, i, j, s) {
      var i, j :| LetSiteAt(fs, i, j, s);
      LetHasSite(fs, i, j, s);
    }
  }

  /** `SitesComeFromLets` for every entry at once. */
  lemma AllSitesComeFromLets(fs: seq<Function>)
    ensures forall s :: s in ModuleSites(fs) <==> exists i, j :: LetSiteAt(fs, i, j, s)
  {
    forall s
      ensures s in ModuleSites(fs) <==> exists i, j :: LetSiteAt(fs, i, j, s)
    {
      SitesComeFromLets(fs, s);
    }
  }

  /**
   * `fn main() { let x = 1; let y = true; let z = foo(); }` yields three entries:
   * the non-literal `z` is collected too, with no label.
   */
  lemma ThreeLetsExample(x: Span, y: Span, z: Span)
    ensures var body := [Let(Expression(Literal(Integer), x)), Let(Expression(Literal(Bool), y)),
                         Let(Expression(NonLiteral, z))];
            Sites(Module([Function(Normal, body)])) ==
              [Site(x.start, x.end, Some(": integer")), Site(y.start, y.end, Some(": bool")),
               Site(z.start, z.end, None)]
  {
    var body := [Let(Expression(Literal(Integer), x)), Let(Expression(Literal(Bool), y)),
                 Let(Expression(NonLiteral, z))];
    assert body[..2][..1] == body[..1];
    assert body[..1][..0] == [];
    assert BodySites(body[..1]) == [Site(x.start, x.end, Some(": integer"))];
    assert BodySites(body[..2]) == BodySites(body[..1]) + [Site(y.start, y.end, Some(": bool"))];
    assert BodySites(body) == BodySites(body[..2]) + [Site(z.start, z.end, None)];
    assert [Function(Normal, body)][..0] == [];
    assert ModuleSites([Function(Normal, body)]) == BodySites(body);
  }

  /**
   * The nested `for_each` walk of the handler: for each `Normal` function, for
   * each `let` of its body, push the expression's span and label.
   */
  method ExtractInlays(m: Module) returns (inlays: seq<Site>)
    ensures inlays == Sites(m)
  {
    inlays := [];
    var i := 0;
    while i < |m.functions|
      invariant 0 <= i <= |m.functions|
      invariant inlays == ModuleSites(m.functions[..i])
    {
      var f := m.functions[i];
      assert m.functions[..i + 1][..i] == m.functions[..i];
      if f.kind == Normal {
        var j := 0;
        while j < |f.body|
          invariant 0 <= j <= |f.body|
          invariant inlays == ModuleSites(m.functions[..i]) + BodySites(f.body[..j])
        {
          assert f.body[..j + 1][..j] == f.body[..j];
          match f.body[j] {
            case Let(e) =>
              var literalType := Label(e.kind);
              inlays := inlays + [Site(e.span.start, e.span.end, literalType)];
            case Other =>
          }
          j := j + 1;
        }
        assert f.body[..j] == f.body;
      }
      i := i + 1;
    }
    assert m.functions[..i] == m.functions;
  }

  /**
   * What the projection needs of one entry to run without panicking: the
   * `start - 2` subtraction must not underflow, the offset must lie within the
   * text, and the label must be present.
   */
  function Projectable(text: seq<char>, s: Site): (ok: bool)
    ensures ok <==> s.start >= 2 && OffsetToPosition(text, s.start as int - 2).Some? && s.typeLabel.Some?
  {
    s.start >= 2 && s.start as int - 2 <= |text| && s.typeLabel.Some?
  }

  /** Hint `h` carries the label of entry `s` and sits where offset `start - 2` lies. */
  ghost predicate AnchoredAt(text: seq<char>, h: Hint, s: Site)
  {
    s.typeLabel == Some(h.value) && PositionToOffset(text, h.position) == Some(s.start as int - 2)
  }

  /** The `.map(...)` step for one entry: a hint at `start - 2` with the entry's label. */
  function ProjectSite(text: seq<char>, s: Site): (h: Hint)
    requires Projectable(text, s)
    ensures AnchoredAt(text, h, s)
  {
    var offset := s.start as int - 2;
    PositionRoundTrip(text, offset);
    Hint(OffsetToPosition(text, offset).value, s.typeLabel.value)
  }

  /**
   * The projection of all entries: one hint per entry, in the same order, each
   * anchored at the position whose offset is the entry's start minus 2.
   */
  function Project(text: seq<char>, sites: seq<Site>): (hints: seq<Hint>)
    requires forall k :: 0 <= k < |sites| ==> Projectable(text, sites[k])
    ensures |hints| == |sites|
    ensures forall k :: 0 <= k < |sites| ==>
              AnchoredAt(text, hints[k], sites[k])
  {
    seq(|sites|, k requires 0 <= k < |sites| => ProjectSite(text, sites[k]))
  }

  /**
   * A `let` bound to anything but a literal inside a `Normal` function yields an
   * entry without a label, so projecting that module's entries cannot proceed
   * (the handler's `unwrap` on the label panics).
   */
  lemma NonLiteralLetBlocksProjection(m: Module, text: seq<char>, i: nat, j: nat)
    requires i < |m.functions| && m.functions[i].kind == Normal
    requires j < |m.functions[i].body| && m.functions[i].body[j].Let?
    requires m.functions[i].body[j].expression.kind == NonLiteral
    ensures exists k :: 0 <= k < |Sites(m)| && !Projectable(text, Sites(m)[k])
  {
    var s := SiteOf(m.functions[i].body[j].expression);
    assert LetSiteAt(m.functions, i, j, s);
    SitesComeFromLets(m.functions, s);
    var k :| 0 <= k < |Sites(m)| && Sites(m)[k] == s;
  }
}
