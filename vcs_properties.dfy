/** What the VCS001 rule guarantees about a whole module: which construct is
    examined, which indent it is held to, which elements are checked, and
    what the host receives. */
module VcsProperties {
  import opened SyntaxTree
  import opened LineFilter
  import opened VcsExt

  /** The statement at `k` is the first one the selector stops at. */
  predicate FirstRecognisedAt(body: seq<Stmt>, k: nat)
  {
    k < |body| && Recognised(body[k]) && forall j | 0 <= j < k :: !Recognised(body[j])
  }

  // ---------------------------------------------------------------------------
  // Construct selection and the canonical indent

  /** `FirstRecognised` finds exactly the statement `FirstRecognisedAt` names. */
  lemma FirstRecognisedIsUnique(body: seq<Stmt>, k: nat)
    requires FirstRecognisedAt(body, k)
    ensures FirstRecognised(body) == Some(k)
  {
    var r := FirstRecognised(body);
    assert r.Some?;
    assert !(r.value < k);
    assert !(k < r.value);
  }

  /** A definition found first is held to its own column + 1. */
  lemma FunctionDefSelected(body: seq<Stmt>, k: nat, indent: int)
    requires FirstRecognisedAt(body, k)
    requires body[k].FunctionDef? || body[k].AsyncFunctionDef?
    ensures Determine(body, indent) ==
      Selection(Found(FunctionDefElements(body[k].args)), body[k].col + 1)
  {
    FirstRecognisedIsUnique(body, k);
  }

  /** An `if` found first is held to its own column + 4. */
  lemma IfSelected(body: seq<Stmt>, k: nat, indent: int)
    requires FirstRecognisedAt(body, k)
    requires body[k].If?
    ensures Determine(body, indent) == Selection(IfOutcome(body[k].test), body[k].col + 4)
  {
    FirstRecognisedIsUnique(body, k);
  }

  /** A class found first is examined through its first plain function
      definition, skipping async ones, at that definition's column + 1. */
  lemma ClassSelected(body: seq<Stmt>, k: nat, m: nat, indent: int)
    requires FirstRecognisedAt(body, k)
    requires body[k].ClassDef?
    requires m < |body[k].body| && body[k].body[m].FunctionDef?
    requires forall j | 0 <= j < m :: !body[k].body[j].FunctionDef?
    ensures var f := body[k].body[m];
      Determine(body, indent) == Selection(Found(FunctionDefElements(f.args)), f.col + 1)
  {
    FirstRecognisedIsUnique(body, k);
    var r := FirstPlainFunctionDef(body[k].body);
    assert r.Some?;
    assert !(r.value < m);
    assert !(m < r.value);
  }

  /** A class found first with no plain function definition yields nothing
      and leaves the indent where it was. */
  lemma ClassWithoutMethodSelected(body: seq<Stmt>, k: nat, indent: int)
    requires FirstRecognisedAt(body, k)
    requires body[k].ClassDef?
    requires forall j | 0 <= j < |body[k].body| :: !body[k].body[j].FunctionDef?
    ensures Determine(body, indent) == Selection(NoConstruct, indent)
  {
    FirstRecognisedIsUnique(body, k);
  }

  /** A module with no definition, class or `if` yields nothing and leaves
      the indent where it was. */
  lemma NothingRecognisedSelected(body: seq<Stmt>, indent: int)
    requires forall j | 0 <= j < |body| :: !Recognised(body[j])
    ensures Determine(body, indent) == Selection(NoConstruct, indent)
  {
  }

  /** "No construct" never moves the indent, and happens exactly when there
      is no recognised statement or the first one is a class without a plain
      function definition. */
  lemma NoConstructIff(body: seq<Stmt>, indent: int)
    ensures Determine(body, indent).result.NoConstruct? ==> Determine(body, indent).indent == indent
    ensures Determine(body, indent).result.NoConstruct? <==>
      FirstRecognised(body).None? ||
      (body[FirstRecognised(body).value].ClassDef? &&
       FirstPlainFunctionDef(body[FirstRecognised(body).value].body).None?)
  {
    match FirstRecognised(body)
    case None =>
    case Some(k) =>
      match body[k]
      case FunctionDef(_, _) =>
      case AsyncFunctionDef(_, _) =>
      case ClassDef(_) =>
      case If(_, _, _, test) =>
        assert !IfOutcome(test).NoConstruct?;
  }

  /** Statements after the first recognised one are never looked at. */
  lemma LaterStatementsIgnored(body: seq<Stmt>, rest: seq<Stmt>, k: nat, indent: int)
    requires FirstRecognisedAt(body, k)
    ensures Determine(body + rest, indent) == Determine(body, indent)
  {
    FirstRecognisedIsUnique(body, k);
    assert FirstRecognisedAt(body + rest, k) by {
      forall j | 0 <= j <= k ensures (body + rest)[j] == body[j] { }
    }
    FirstRecognisedIsUnique(body + rest, k);
  }

  /** Statements of other kinds before the first recognised one change
      nothing. */
  lemma UnrecognisedPrefixIgnored(prefix: seq<Stmt>, body: seq<Stmt>, indent: int)
    requires forall j | 0 <= j < |prefix| :: !Recognised(prefix[j])
    ensures Determine(prefix + body, indent) == Determine(body, indent)
  {
    match FirstRecognised(body)
    case None =>
      forall j | 0 <= j < |prefix + body|
        ensures !Recognised((prefix + body)[j])
      {
        if j >= |prefix| {
          assert (prefix + body)[j] == body[j - |prefix|];
        }
      }
    case Some(k) =>
      assert FirstRecognisedAt(prefix + body, |prefix| + k) by {
        assert (prefix + body)[|prefix| + k] == body[k];
        forall j | 0 <= j < |prefix| + k
          ensures !Recognised((prefix + body)[j])
        {
          if j >= |prefix| {
            assert (prefix + body)[j] == body[j - |prefix|];
          }
        }
      }
      FirstRecognisedIsUnique(prefix + body, |prefix| + k);
  }

  // ---------------------------------------------------------------------------
  // The function-definition path

  /** A definition without parameters has nothing to check: the filter runs
      over an empty storage. */
  lemma NoParametersNoElements()
    ensures FunctionDefElements([]) == []
  {
    assert !MultilineDeterminator.ContainsSameLinenums(Lines(LinenoStorageOf([])));
  }

  /** Parameters all on one line have nothing to check. */
  lemma SameLineParametersNoElements(args: seq<Node>)
    requires |args| > 0
    requires forall i | 0 <= i < |args| :: args[i].line == args[0].line
    ensures FunctionDefElements(args) == []
  {
    var lines := Lines(LinenoStorageOf(args));
    assert forall i | 0 <= i < |lines| :: lines[i] == lines[0];
  }

  /** Parameters on two or more lines are checked after the line filter. */
  lemma MultiLineParametersFiltered(args: seq<Node>, i: nat, j: nat)
    requires i < |args| && j < |args| && args[i].line != args[j].line
    ensures FunctionDefElements(args) == Filtered(LinenoStorageOf(args))
  {
    var lines := Lines(LinenoStorageOf(args));
    assert lines[i] != lines[0] || lines[j] != lines[0];
  }

  /** Every element checked on the function path is one of its parameters. */
  lemma ElementsAreParameters(args: seq<Node>)
    ensures forall e | e in FunctionDefElements(args) :: e in args
  {
    var storage := LinenoStorageOf(args);
    var idx := KeptIndices(storage, |storage|);
    forall e | e in Filtered(storage)
      ensures e in args
    {
      var p :| 0 <= p < |idx| && Filtered(storage)[p] == e;
      assert e == args[idx[p]];
    }
  }

  // ---------------------------------------------------------------------------
  // Validation

  /** At most one problem per check: none exactly when every column is the
      canonical indent, otherwise the position of the first element off it. */
  lemma ViolationIsFirstMismatch(indent: int, elems: seq<Node>)
    ensures |Violation(indent, elems)| <= 1
    ensures Violation(indent, elems) == [] <==> forall i | 0 <= i < |elems| :: elems[i].col == indent
    ensures Violation(indent, elems) != [] ==> exists k | 0 <= k < |elems| ::
      elems[k].col != indent && (forall j | 0 <= j < k :: elems[j].col == indent) &&
      Violation(indent, elems) == [(elems[k].line, elems[k].col)]
  {
    match FirstMismatch(elems, indent)
    case None =>
    case Some(k) =>
      assert elems[k].col != indent;
  }

  // ---------------------------------------------------------------------------
  // What the host receives

  /** A run yields at most one diagnostic, always VCS001 with the rule's tag. */
  lemma RunEmitsAtMostOneVcs001(body: seq<Stmt>)
    ensures Run(body).Diagnostics? ==> |Run(body).items| <= 1
    ensures Run(body).Diagnostics? ==> forall i | 0 <= i < |Run(body).items| ::
      Run(body).items[i].message == MsgVcs001 && Run(body).items[i].checker == PluginType
  {
    var sel := Determine(body, 0);
    if sel.result.Found? && sel.result.elements != [] {
      ViolationIsFirstMismatch(sel.indent, sel.result.elements);
    }
  }

  /** Only an `if` can make the check raise. */
  lemma OnlyIfRaises(body: seq<Stmt>)
    ensures Run(body).Raised? ==>
      FirstRecognised(body).Some? && body[FirstRecognised(body).value].If?
  {
    match FirstRecognised(body)
    case None =>
    case Some(k) =>
      match body[k]
      case FunctionDef(_, _) =>
      case AsyncFunctionDef(_, _) =>
      case ClassDef(members) =>
        assert !Determine(body, 0).result.Crashed?;
      case If(_, _, _, _) =>
  }

  /** A module without a construct, or whose construct has nothing to check,
      yields no diagnostic. */
  lemma NothingToCheckSilent(body: seq<Stmt>)
    requires Determine(body, 0).result == NoConstruct || Determine(body, 0).result == Found([])
    ensures Run(body) == Diagnostics([])
  {
  }

  /** A first definition whose parameters share one line yields no
      diagnostic, whatever their columns. */
  lemma SingleLineSignatureSilent(body: seq<Stmt>, k: nat)
    requires FirstRecognisedAt(body, k)
    requires body[k].FunctionDef? || body[k].AsyncFunctionDef?
    requires |body[k].args| > 0
    requires forall i | 0 <= i < |body[k].args| :: body[k].args[i].line == body[k].args[0].line
    ensures Run(body) == Diagnostics([])
  {
    FunctionDefSelected(body, k, 0);
    SameLineParametersNoElements(body[k].args);
  }

  /** A first definition whose parameters all sit at its column + 1 yields no
      diagnostic. */
  lemma AlignedParametersSilent(body: seq<Stmt>, k: nat)
    requires FirstRecognisedAt(body, k)
    requires body[k].FunctionDef? || body[k].AsyncFunctionDef?
    requires forall i | 0 <= i < |body[k].args| :: body[k].args[i].col == body[k].col + 1
    ensures Run(body) == Diagnostics([])
  {
    FunctionDefSelected(body, k, 0);
    var elems := FunctionDefElements(body[k].args);
    ElementsAreParameters(body[k].args);
    forall i | 0 <= i < |elems|
      ensures elems[i].col == body[k].col + 1
    {
      assert elems[i] in elems;
    }
    ViolationIsFirstMismatch(body[k].col + 1, elems);
  }

  /** On a multi-line signature with exactly one parameter off the canonical
      indent, that parameter is reported when it starts a new line... */
  lemma MisalignedKeptParameterReported(body: seq<Stmt>, k: nat, m: nat, i: nat)
    requires FirstRecognisedAt(body, k)
    requires body[k].FunctionDef? || body[k].AsyncFunctionDef?
    requires var args := body[k].args;
      m < |args| && i < |args| && args[i].line != args[m].line
    requires forall j | 0 <= j < |body[k].args| && j != m :: body[k].args[j].col == body[k].col + 1
    requires body[k].args[m].col != body[k].col + 1
    requires Kept(LinenoStorageOf(body[k].args), m)
    ensures var p := body[k].args[m];
      Run(body) == Diagnostics([Diagnostic(p.line, p.col, MsgVcs001, PluginType)])
  {
    FunctionDefSelected(body, k, 0);
    MultiLineParametersFiltered(body[k].args, i, m);
    KeptMismatchReported(body[k].args, body[k].col + 1, m);
    var p := body[k].args[m];
    assert Filtered(LinenoStorageOf(body[k].args)) != [] by {
      assert m in KeptIndices(LinenoStorageOf(body[k].args), |body[k].args|);
    }
    assert ToDiagnostics([(p.line, p.col)]) == [Diagnostic(p.line, p.col, MsgVcs001, PluginType)];
  }

  /** The filtered parameters' only element off the indent is the kept
      parameter `m`. */
  lemma KeptMismatchReported(args: seq<Node>, c: int, m: nat)
    requires m < |args| && args[m].col != c
    requires forall j | 0 <= j < |args| && j != m :: args[j].col == c
    requires Kept(LinenoStorageOf(args), m)
    ensures Violation(c, Filtered(LinenoStorageOf(args))) == [(args[m].line, args[m].col)]
  {
    var storage := LinenoStorageOf(args);
    var idx := KeptIndices(storage, |storage|);
    var elems := Filtered(storage);
    assert m in idx;
    var p :| 0 <= p < |idx| && idx[p] == m;
    forall q | 0 <= q < |elems| && q != p
      ensures elems[q].col == c
    {
      assert elems[q] == args[idx[q]];
      assert idx[q] != idx[p];
    }
    assert elems[p] == args[m];
    OnlyMismatchReported(c, elems, p);
  }

  /** A single element off the indent is the one reported. */
  lemma OnlyMismatchReported(indent: int, elems: seq<Node>, p: nat)
    requires p < |elems| && elems[p].col != indent
    requires forall q | 0 <= q < |elems| && q != p :: elems[q].col == indent
    ensures Violation(indent, elems) == [(elems[p].line, elems[p].col)]
  {
    var first := FirstMismatch(elems, indent);
    assert first.Some?;
    assert first.value == p;
  }

  /** ...and not reported at all when its line does not exceed the line of a
      parameter kept before it, because the filter dropped it. */
  lemma MisalignedDroppedParameterSilent(body: seq<Stmt>, k: nat, m: nat, i: nat)
    requires FirstRecognisedAt(body, k)
    requires body[k].FunctionDef? || body[k].AsyncFunctionDef?
    requires var args := body[k].args;
      m < |args| && i < |args| && args[i].line != args[m].line
    requires forall j | 0 <= j < |body[k].args| && j != m :: body[k].args[j].col == body[k].col + 1
    requires !Kept(LinenoStorageOf(body[k].args), m)
    ensures Run(body) == Diagnostics([])
  {
    FunctionDefSelected(body, k, 0);
    MultiLineParametersFiltered(body[k].args, i, m);
    DroppedMismatchSilent(body[k].args, body[k].col + 1, m);
  }

  /** When the filter drops the only parameter off the indent, the filtered
      parameters have no violation. */
  lemma DroppedMismatchSilent(args: seq<Node>, c: int, m: nat)
    requires m < |args|
    requires forall j | 0 <= j < |args| && j != m :: args[j].col == c
    requires !Kept(LinenoStorageOf(args), m)
    ensures Violation(c, Filtered(LinenoStorageOf(args))) == []
  {
    var storage := LinenoStorageOf(args);
    var idx := KeptIndices(storage, |storage|);
    var elems := Filtered(storage);
    forall q | 0 <= q < |elems|
      ensures elems[q].col == c
    {
      assert elems[q] == args[idx[q]];
      assert idx[q] != m;
    }
    ViolationIsFirstMismatch(c, elems);
  }

  /** A class is checked exactly as its first plain function definition
      would be on its own. */
  lemma ClassCheckedAsItsMethod(members: seq<Stmt>, rest: seq<Stmt>, m: nat)
    requires m < |members| && members[m].FunctionDef?
    requires forall j | 0 <= j < m :: !members[j].FunctionDef?
    ensures Run([ClassDef(members)] + rest) == Run([members[m]])
  {
    var body := [ClassDef(members)] + rest;
    assert Determine(body, 0) == Determine([members[m]], 0) by {
      assert FirstRecognisedAt(body, 0);
      ClassSelected(body, 0, m, 0);
      assert FirstRecognisedAt([members[m]], 0);
      FunctionDefSelected([members[m]], 0, 0);
    }
    SameSelectionSameRun(body, [members[m]]);
  }

  /** The diagnostics depend on the module only through the selection. */
  lemma SameSelectionSameRun(body: seq<Stmt>, other: seq<Stmt>)
    requires Determine(body, 0) == Determine(other, 0)
    ensures Run(body) == Run(other)
  {
  }

  /** A class without a plain function definition yields no diagnostic, even
      when it has async ones. */
  lemma ClassWithoutMethodSilent(members: seq<Stmt>, rest: seq<Stmt>)
    requires forall j | 0 <= j < |members| :: !members[j].FunctionDef?
    ensures Run([ClassDef(members)] + rest) == Diagnostics([])
  {
    var body := [ClassDef(members)] + rest;
    assert FirstRecognisedAt(body, 0);
    ClassWithoutMethodSelected(body, 0, 0);
  }

  /** A first `if` whose names all sit on one line yields no diagnostic,
      whatever their columns. */
  lemma SingleLineIfSilent(body: seq<Stmt>, k: nat)
    requires FirstRecognisedAt(body, k)
    requires body[k].If? && body[k].test.BoolOp?
    requires var ops := body[k].test.values;
      |ops| > 0 && forall i | 0 <= i < |ops| :: ops[i].Name? && ops[i].line == ops[0].line
    ensures Run(body) == Diagnostics([])
  {
    IfSelected(body, k, 0);
    var ops := body[k].test.values;
    var lines := Lines(LinenoStorageOf(ops));
    assert forall i | 0 <= i < |lines| :: lines[i] == lines[0];
  }

  /** A first `if` whose test is not a boolean operation (a single name, a
      call, a comparison) never binds `operators` and raises. */
  lemma NonBoolOpIfRaises(body: seq<Stmt>, k: nat)
    requires FirstRecognisedAt(body, k)
    requires body[k].If? && !body[k].test.BoolOp?
    ensures Run(body) == Raised(OperatorsUnbound)
  {
    IfSelected(body, k, 0);
  }

  /** A first `if` whose boolean operation has an operand other than a name
      never binds `operands` and raises. */
  lemma NonNameOperandRaises(body: seq<Stmt>, k: nat, i: nat)
    requires FirstRecognisedAt(body, k)
    requires body[k].If? && body[k].test.BoolOp?
    requires i < |body[k].test.values| && !body[k].test.values[i].Name?
    ensures Run(body) == Raised(OperandsUnbound)
  {
    IfSelected(body, k, 0);
    assert KindOf(body[k].test.values[i]) != NameKind;
  }

  /** A first `if` whose names span several lines reaches the missing merge
      routine and raises. */
  lemma MultiLineIfRaises(body: seq<Stmt>, k: nat, i: nat, j: nat)
    requires FirstRecognisedAt(body, k)
    requires body[k].If? && body[k].test.BoolOp?
    requires var ops := body[k].test.values;
      (forall n | 0 <= n < |ops| :: ops[n].Name?) &&
      i < |ops| && j < |ops| && ops[i].line != ops[j].line
    ensures Run(body) == Raised(MixRoutineMissing)
  {
    IfSelected(body, k, 0);
    var ops := body[k].test.values;
    var lines := Lines(LinenoStorageOf(ops));
    assert lines[i] != lines[0] || lines[j] != lines[0];
  }

  /** `def f(\n\ta,\n\tb):` with `def` at column 0 and both parameters at
      column 1: nothing to report. */
  lemma AlignedTwoLineSignature()
    ensures Run([FunctionDef(0, [Arg(2, 1), Arg(3, 1)])]) == Diagnostics([])
  {
    AlignedParametersSilent([FunctionDef(0, [Arg(2, 1), Arg(3, 1)])], 0);
  }

  /** `def f(\n\ta,\n\t\tb):` with `b` at column 2: one diagnostic at `b`. */
  lemma MisalignedSecondParameter()
    ensures Run([FunctionDef(0, [Arg(2, 1), Arg(3, 2)])]) ==
      Diagnostics([Diagnostic(3, 2, MsgVcs001, PluginType)])
  {
    var body := [FunctionDef(0, [Arg(2, 1), Arg(3, 2)])];
    var storage := LinenoStorageOf(body[0].args);
    assert PrefixMax(storage, 1) == 2;
    MisalignedKeptParameterReported(body, 0, 1, 0);
  }
}
