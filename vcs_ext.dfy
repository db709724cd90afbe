/** The VCS001 rule: pick the first definition, class or `if` at the top level
    of a module, collect the elements that start continuation lines, and report
    the first one whose column is not the construct's canonical indent. The
    functions give the meaning of each step; the classes carry the mutable
    fields and loops the rule is written with, and their methods are proved
    against those functions. */
module VcsExt {
  import opened SyntaxTree
  import opened LineFilter

  const MsgVcs001: string := "VCS001 no one tab for line continuation"

  /** Columns a parameter continuation sits right of its `def`. */
  const IndentDifferDefAndBody: int := 1
  /** Columns an `if` continuation sits right of its `if`. */
  const IndentDifferIfAndSignature: int := 4

  /** The rule class the host gets with every diagnostic (`type(self)`). */
  datatype CheckerTag = PluginType

  datatype Diagnostic = Diagnostic(line: int, col: int, message: string, checker: CheckerTag)

  /** The diagnostics of one file, or the exception the check raised. */
  datatype RunResult = Diagnostics(items: seq<Diagnostic>) | Raised(reason: Crash)

  /** What the construct selector leaves behind: its result and the value of
      `correct_indent`. */
  datatype Selection = Selection(result: Extracted, indent: int)

  // ---------------------------------------------------------------------------
  // isinstanceInIterable

  predicate AllOfKind(target: seq<Node>, classinfo: Kind)
  {
    forall i | 0 <= i < |target| :: KindOf(target[i]) == classinfo
  }

  /** Whether every node of `target` is of class `classinfo`; vacuously true
      for an empty sequence. */
  method IsInstanceInIterable(target: seq<Node>, classinfo: Kind) returns (b: bool)
    ensures b <==> AllOfKind(target, classinfo)
    ensures target == [] ==> b
  {
    for i := 0 to |target|
      invariant forall j | 0 <= j < i :: KindOf(target[j]) == classinfo
    {
      if KindOf(target[i]) != classinfo {
        return false;
      }
    }
    return true;
  }

  // ---------------------------------------------------------------------------
  // Specification of MultilineDeterminator

  /** `dict(zip(nodes, map(lambda x: x.lineno, nodes)))`. */
  function LinenoStorageOf(nodes: seq<Node>): Storage
  {
    seq(|nodes|, i requires 0 <= i < |nodes| => (nodes[i], nodes[i].line))
  }

  /** `list(storage.values())`. */
  function Lines(s: Storage): seq<int>
  {
    seq(|s|, i requires 0 <= i < |s| => s[i].1)
  }

  /** A statement the selector stops at. */
  predicate Recognised(st: Stmt)
  {
    st.FunctionDef? || st.AsyncFunctionDef? || st.ClassDef? || st.If?
  }

  /** The position of the first recognised statement of a body. */
  function FirstRecognised(body: seq<Stmt>): (r: Option<nat>)
    ensures r.None? <==> forall j | 0 <= j < |body| :: !Recognised(body[j])
    ensures r.Some? ==> r.value < |body| && Recognised(body[r.value])
    ensures r.Some? ==> forall j | 0 <= j < r.value :: !Recognised(body[j])
  {
    if body == [] then None
    else if Recognised(body[0]) then Some(0)
    else match FirstRecognised(body[1..])
      case None => None
      case Some(k) => Some(k + 1)
  }

  /** The position of the first plain (not async) function definition of a
      class body. */
  function FirstPlainFunctionDef(body: seq<Stmt>): (r: Option<nat>)
    ensures r.None? <==> forall j | 0 <= j < |body| :: !body[j].FunctionDef?
    ensures r.Some? ==> r.value < |body| && body[r.value].FunctionDef?
    ensures r.Some? ==> forall j | 0 <= j < r.value :: !body[j].FunctionDef?
  {
    if body == [] then None
    else if body[0].FunctionDef? then Some(0)
    else match FirstPlainFunctionDef(body[1..])
      case None => None
      case Some(k) => Some(k + 1)
  }

  /** The elements `_findMultilinesInFunctionDef` returns for a parameter
      list: none when every parameter is on one line, otherwise the filtered
      parameters. */
  function FunctionDefElements(args: seq<Node>): seq<Node>
  {
    var storage := LinenoStorageOf(args);
    if MultilineDeterminator.ContainsSameLinenums(Lines(storage)) then [] else Filtered(storage)
  }

  /** The outcome of `_findMultilinesInIf` for the test of an `if`. */
  function IfOutcome(test: Node): Extracted
  {
    if !test.BoolOp? then Crashed(OperatorsUnbound)
    else if !AllOfKind(test.values, NameKind) then Crashed(OperandsUnbound)
    else if MultilineDeterminator.ContainsSameLinenums(Lines(LinenoStorageOf(test.values))) then Found([])
    else Crashed(MixRoutineMissing)
  }

  /** Examining one recognised top-level statement, starting from indent `indent`. */
  function Examine(st: Stmt, indent: int): Selection
    requires Recognised(st)
  {
    match st
    case FunctionDef(col, args) => Selection(Found(FunctionDefElements(args)), col + IndentDifferDefAndBody)
    case AsyncFunctionDef(col, args) => Selection(Found(FunctionDefElements(args)), col + IndentDifferDefAndBody)
    case ClassDef(members) =>
      (match FirstPlainFunctionDef(members)
       case None => Selection(NoConstruct, indent)
       case Some(j) => Selection(Found(FunctionDefElements(members[j].args)), members[j].col + IndentDifferDefAndBody))
    case If(col, _, _, test) => Selection(IfOutcome(test), col + IndentDifferIfAndSignature)
  }

  /** What `getMultilinesIndents` returns for a module body, and the
      `correct_indent` it leaves, starting from `indent`. */
  function Determine(body: seq<Stmt>, indent: int): Selection
  {
    match FirstRecognised(body)
    case None => Selection(NoConstruct, indent)
    case Some(k) => Examine(body[k], indent)
  }

  // ---------------------------------------------------------------------------
  // Specification of IndentChecker

  /** `list(map(lambda x: x.col_offset, args))`. */
  function Cols(args: seq<Node>): seq<int>
  {
    seq(|args|, i requires 0 <= i < |args| => args[i].col)
  }

  /** The position of the first element whose column is not `indent`. */
  function FirstMismatch(elems: seq<Node>, indent: int): (r: Option<nat>)
    ensures r.None? <==> forall i | 0 <= i < |elems| :: elems[i].col == indent
    ensures r.Some? ==> r.value < |elems| && elems[r.value].col != indent
    ensures r.Some? ==> forall j | 0 <= j < r.value :: elems[j].col == indent
  {
    if elems == [] then None
    else if elems[0].col != indent then Some(0)
    else match FirstMismatch(elems[1..], indent)
      case None => None
      case Some(k) => Some(k + 1)
  }

  /** The problems one check of `elems` against `indent` records. */
  function Violation(indent: int, elems: seq<Node>): seq<(int, int)>
  {
    match FirstMismatch(elems, indent)
    case None => []
    case Some(k) => [(elems[k].line, elems[k].col)]
  }

  // ---------------------------------------------------------------------------
  // Specification of Plugin

  function ToDiagnostics(problems: seq<(int, int)>): seq<Diagnostic>
  {
    seq(|problems|, i requires 0 <= i < |problems| =>
      Diagnostic(problems[i].0, problems[i].1, MsgVcs001, PluginType))
  }

  /** What iterating the plugin over a module body produces. */
  function Run(body: seq<Stmt>): RunResult
  {
    var sel := Determine(body, 0);
    match sel.result
    case NoConstruct => Diagnostics([])
    case Crashed(reason) => Raised(reason)
    case Found(elems) =>
      if elems == [] then Diagnostics([])
      else Diagnostics(ToDiagnostics(Violation(sel.indent, elems)))
  }

  // ---------------------------------------------------------------------------
  // The classes

  class MultilineDeterminator {
    const tree: seq<Stmt>
    var correctIndent: int

    constructor (tree: seq<Stmt>)
      ensures this.tree == tree && correctIndent == 0
    {
      this.tree := tree;
      correctIndent := 0;
    }

    /** Examines the first recognised top-level statement; `NoConstruct` when
        there is none. */
    method GetMultilinesIndents() returns (r: Extracted)
      modifies this`correctIndent
      ensures Selection(r, correctIndent) == Determine(tree, old(correctIndent))
    {
      for i := 0 to |tree|
        invariant forall j | 0 <= j < i :: !Recognised(tree[j])
        invariant correctIndent == old(correctIndent)
      {
        var node := tree[i];
        if node.FunctionDef? || node.AsyncFunctionDef? {
          r := FindMultilinesInFunctionDef(node);
          return;
        } else if node.ClassDef? {
          r := FindMultilinesInClassDef(node);
          return;
        } else if node.If? {
          r := FindMultilinesInIf(node);
          return;
        }
      }
      r := NoConstruct;
    }

    /** The indent the last examined construct asks for. */
    function GetCorrectIndent(): (r: int)
      reads this
      ensures r == correctIndent
    {
      correctIndent
    }

    method FindMultilinesInFunctionDef(node: Stmt) returns (r: Extracted)
      requires node.FunctionDef? || node.AsyncFunctionDef?
      modifies this`correctIndent
      ensures correctIndent == node.col + IndentDifferDefAndBody
      ensures r == Found(FunctionDefElements(node.args))
    {
      var defStatementIndent := node.col;
      correctIndent := defStatementIndent + IndentDifferDefAndBody;
      var args := node.args;
      var linenumsArgs := LinenoStorageOf(args);
      if ContainsSameLinenums(Lines(linenumsArgs)) {
        return Found([]);
      }
      var multilinesArgs := RemoveObjectsOnSameLine(linenumsArgs);
      return Found(multilinesArgs);
    }

    method FindMultilinesInClassDef(node: Stmt) returns (r: Extracted)
      requires node.ClassDef?
      modifies this`correctIndent
      ensures Selection(r, correctIndent) == Examine(node, old(correctIndent))
    {
      for i := 0 to |node.body|
        invariant forall j | 0 <= j < i :: !node.body[j].FunctionDef?
        invariant correctIndent == old(correctIndent)
      {
        var functionDef := node.body[i];
        if functionDef.FunctionDef? {
          assert FirstPlainFunctionDef(node.body) == Some(i);
          r := FindMultilinesInFunctionDef(functionDef);
          return;
        }
      }
      assert FirstPlainFunctionDef(node.body).None?;
      r := NoConstruct;
    }

    /** Follows the source up to its same-line fast path; a multi-line test
        reaches the call of the missing merge routine, and a test of another
        shape reaches an unbound local. */
    method FindMultilinesInIf(node: Stmt) returns (r: Extracted)
      requires node.If?
      modifies this`correctIndent
      ensures correctIndent == node.col + IndentDifferIfAndSignature
      ensures r == IfOutcome(node.test)
    {
      var ifStatementIndent := node.col;
      correctIndent := ifStatementIndent + IndentDifferIfAndSignature;
      var maybeOperators := node.test;
      if !maybeOperators.BoolOp? {
        return Crashed(OperatorsUnbound);
      }
      var operators := maybeOperators;
      var maybeOperands := operators.values;
      var allNames := IsInstanceInIterable(maybeOperands, NameKind);
      if !allNames {
        return Crashed(OperandsUnbound);
      }
      var operands := maybeOperands;
      var linenumsOperands := LinenoStorageOf(operands);
      if ContainsSameLinenums(Lines(linenumsOperands)) {
        return Found([]);
      }
      r := Crashed(MixRoutineMissing);
    }

    /** The list holds exactly one distinct value: it is non-empty and every
        entry equals the first. */
    static function ContainsSameLinenums(linenums: seq<int>): (b: bool)
      ensures b <==> |linenums| > 0 && forall i | 0 <= i < |linenums| :: linenums[i] == linenums[0]
    {
      SingletonSetIffAllEqual(linenums);
      |set x | x in linenums| == 1
    }

    /** Keeps, in insertion order, each entry whose line is above 0 and above
        the line of the last entry kept. */
    static method RemoveObjectsOnSameLine(linenumsObjs: Storage) returns (result: seq<Node>)
      ensures result == Filtered(linenumsObjs)
      ensures |result| <= |linenumsObjs|
    {
      result := [];
      var lastAddedObjLineno := 0;
      for i := 0 to |linenumsObjs|
        invariant lastAddedObjLineno == PrefixMax(linenumsObjs, i)
        invariant result == Project(linenumsObjs, KeptIndices(linenumsObjs, i))
      {
        var (obj, lineno) := linenumsObjs[i];
        if lineno != 0 && lineno > lastAddedObjLineno {
          lastAddedObjLineno := lineno;
          result := result + [obj];
        }
      }
    }
  }

  /** The set of values of a list has one element exactly when the list is
      non-empty and constant. */
  lemma SingletonSetIffAllEqual(linenums: seq<int>)
    ensures |set x | x in linenums| == 1 <==>
      |linenums| > 0 && forall i | 0 <= i < |linenums| :: linenums[i] == linenums[0]
  {
    var values := set x | x in linenums;
    if |linenums| > 0 && forall i | 0 <= i < |linenums| :: linenums[i] == linenums[0] {
      assert values == {linenums[0]};
    }
    assert |linenums| == 0 ==> values == {};
    forall i | 0 <= i < |linenums| && linenums[i] != linenums[0]
      ensures |values| >= 2
    {
      var rest := values - {linenums[0]};
      assert linenums[i] in rest;
      assert |rest| == |values| - 1;
    }
  }

  class IndentChecker {
    const correctIndent: int
    const args: seq<Node>
    var problems: seq<(int, int)>

    constructor (correctIndent: int, args: seq<Node>)
      ensures this.correctIndent == correctIndent && this.args == args && problems == []
    {
      this.correctIndent := correctIndent;
      this.args := args;
      problems := [];
    }

    method UpdateProblems()
      modifies this`problems
      ensures problems == old(problems) + Violation(correctIndent, args)
    {
      CheckMultilinesIndents();
    }

    /** Appends the position of the first element off the canonical indent,
        if there is one. The source raises when the two scans disagree; that
        branch is unreachable. */
    method CheckMultilinesIndents()
      modifies this`problems
      ensures problems == old(problems) + Violation(correctIndent, args)
    {
      var argsIndents := Cols(args);
      assert forall i | 0 <= i < |args| :: argsIndents[i] == args[i].col;
      var allCorrect := AllCorrect(argsIndents);
      if !allCorrect {
        var argWithIndentNotOne := GetArgWithIndentNotOne(args);
        match argWithIndentNotOne
        case None =>
          assert false;
        case Some(arg) =>
          problems := problems + [(arg.line, arg.col)];
      }
    }

    method AllCorrect(target: seq<int>) returns (b: bool)
      ensures b <==> forall i | 0 <= i < |target| :: target[i] == correctIndent
    {
      for i := 0 to |target|
        invariant forall j | 0 <= j < i :: target[j] == correctIndent
      {
        if target[i] != correctIndent {
          return false;
        }
      }
      return true;
    }

    /** The first element whose column is not the canonical indent. */
    method GetArgWithIndentNotOne(argsIndents: seq<Node>) returns (r: Option<Node>)
      ensures r.None? <==> forall i | 0 <= i < |argsIndents| :: argsIndents[i].col == correctIndent
      ensures r.Some? ==> exists k | 0 <= k < |argsIndents| ::
        r.value == argsIndents[k] && argsIndents[k].col != correctIndent &&
        forall j | 0 <= j < k :: argsIndents[j].col == correctIndent
      ensures r == match FirstMismatch(argsIndents, correctIndent)
        case None => None
        case Some(k) => Some(argsIndents[k])
    {
      for i := 0 to |argsIndents|
        invariant forall j | 0 <= j < i :: argsIndents[j].col == correctIndent
      {
        if argsIndents[i].col != correctIndent {
          ghost var first := FirstMismatch(argsIndents, correctIndent);
          assert first.Some?;
          assert first.value >= i;
          assert first.value <= i;
          return Some(argsIndents[i]);
        }
      }
      return None;
    }
  }

  class Plugin {
    const tree: seq<Stmt>

    constructor (tree: seq<Stmt>)
      ensures this.tree == tree
    {
      this.tree := tree;
    }

    /** All diagnostics for the module: at most one, always VCS001. */
    method Iter() returns (out: RunResult)
      ensures out == Run(tree)
      ensures out.Diagnostics? ==> |out.items| <= 1
      ensures out.Diagnostics? ==> forall i | 0 <= i < |out.items| ::
        out.items[i].message == MsgVcs001 && out.items[i].checker == PluginType
    {
      var determinator := new MultilineDeterminator(tree);
      var indents := determinator.GetMultilinesIndents();
      var correctIndent := determinator.GetCorrectIndent();
      if indents.Crashed? {
        return Raised(indents.reason);
      }
      out := Diagnostics([]);
      if indents.Found? && indents.elements != [] {
        var checker := new IndentChecker(correctIndent, indents.elements);
        checker.UpdateProblems();
        var items: seq<Diagnostic> := [];
        for i := 0 to |checker.problems|
          invariant items == ToDiagnostics(checker.problems[..i])
        {
          var (lineno, col) := checker.problems[i];
          items := items + [Diagnostic(lineno, col, MsgVcs001, PluginType)];
        }
        out := Diagnostics(items);
      }
    }
  }
}
