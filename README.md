# VCS001 continuation-indent rule, modelled in Dafny

`flake8_vcs_ext.py` is a flake8 plugin with one rule, VCS001. A continuation
line inside a multi-line parameter list, or inside a multi-line boolean `if`
test, must sit one fixed offset to the right of the statement that opens it.
The plugin does three things:

- **`MultilineDeterminator`** scans the module's top-level statements. It stops
  at the first `def`, `async def`, `class` or `if`. A class is examined through
  the first plain `def` in its body. The scan sets `correct_indent` to the
  statement's column + 1 for definitions and + 4 for `if`. It returns the
  elements that start new lines, filtered so that their lines strictly
  increase.
- **`IndentChecker`** records the position of the first element whose column
  is not `correct_indent`, if there is one.
- **`Plugin.__iter__`** chains the two and yields at most one
  `(line, col, "VCS001 no one tab for line continuation", type)` tuple.

Files:

- `syntax_tree.dfy` (module `SyntaxTree`): the slice of Python's `ast` the rule
  reads, as closed datatypes. It also holds the outcome of extraction:
  no construct, the elements found, or the exception that stopped it.
- `line_filter.dfy` (module `LineFilter`): a specification of
  `_removeObjectsOnSameLine` that does not use its loop. An entry is kept
  exactly when its line is a new record: above 0 and above every earlier line.
  The module also holds the lemmas about that filter.
- `vcs_ext.dfy` (module `VcsExt`): specification functions for selection
  (`Determine`), validation (`Violation`) and emission (`Run`), plus the
  three classes with the source's fields and loops. Each class method is
  proved against those functions.
- `vcs_properties.dfy` (module `VcsProperties`): lemmas about the whole
  module. They cover which construct is examined, which indent applies,
  which elements are checked, and what the host receives.

The rule's state changes are modelled as state changes:

- `correct_indent` is a mutable field of `MultilineDeterminator`. The `Find…`
  methods set it, and `Plugin.Iter` reads it afterwards.
- `problems` is a mutable field of `IndentChecker`, appended to by
  `CheckMultilinesIndents`.
- The dict `LinenoStorage` keeps insertion order and is keyed by distinct node
  objects, so it is modelled as a sequence of (node, line) pairs.

The exception at line 126 is modelled as an `assert false` in the branch
that would raise it. The branch verifies, which proves the exception can
never happen: if not every column is correct, a first mismatch exists.

Three behaviours of the code are easy to miss; the model follows the code in
each:

- A class is examined through its first plain `def`. An `async def` member is
  skipped, because line 53 tests only `ast.FunctionDef`.
- A parameter off the canonical indent is reported only if the line filter
  keeps it (`MisalignedKeptParameterReported`). A parameter whose line does
  not exceed an earlier kept line is never checked, so a module whose only
  misplaced parameter is such a one yields no diagnostic
  (`MisalignedDroppedParameterSilent`).
- A multi-line `if` does not combine operators and operands. It calls a method
  that exists only as a comment (lines 77 and 105-108), so it raises
  `AttributeError`. An `if` test that is not a `BoolOp`, or that has an operand
  other than a name, reaches an unbound local variable (lines 64-71) and
  raises `UnboundLocalError`. The model makes each of these an explicit
  `Crashed` or `Raised` outcome rather than a precondition.

## Model

| member | source | states |
|---|---|---|
| VcsExt.IsInstanceInIterable | flake8_vcs_ext.py:8-12 | true exactly when every node of the sequence has the given class; true for an empty sequence |
| VcsExt.MultilineDeterminator.constructor | flake8_vcs_ext.py:16-18 | keeps the module body; `correct_indent` starts at 0 |
| VcsExt.MultilineDeterminator.GetMultilinesIndents | flake8_vcs_ext.py:20-29 | result and new `correct_indent` are those of `Determine`: only the first recognised top-level statement is examined, and there is no construct when none exists |
| VcsExt.FirstRecognised | flake8_vcs_ext.py:21-29 | the position of the first def, async def, class or if; absent exactly when the body has none |
| VcsExt.MultilineDeterminator.GetCorrectIndent | flake8_vcs_ext.py:31-32 | returns `correct_indent` |
| VcsExt.MultilineDeterminator.FindMultilinesInFunctionDef | flake8_vcs_ext.py:34-48 | sets `correct_indent` to the definition's column + 1; returns an empty list when all parameters share a line, otherwise the filtered parameters |
| VcsExt.MultilineDeterminator.FindMultilinesInClassDef | flake8_vcs_ext.py:50-55 | examines the first plain `def` of the class and leaves the indent alone when there is none |
| VcsExt.FirstPlainFunctionDef | flake8_vcs_ext.py:52-55 | the position of the first non-async `def` of a class body; absent exactly when there is none |
| VcsExt.MultilineDeterminator.FindMultilinesInIf | flake8_vcs_ext.py:57-83 | sets `correct_indent` to the if's column + 4; names on one line give nothing to check; other shapes and multi-line tests end in the exception the code raises |
| VcsExt.MultilineDeterminator.ContainsSameLinenums | flake8_vcs_ext.py:85-91 | true exactly when the list is non-empty and every entry equals the first (one distinct value); false for an empty list |
| VcsExt.SingletonSetIffAllEqual | flake8_vcs_ext.py:89 | a list's set of values has size 1 exactly when the list is non-empty and constant |
| VcsExt.MultilineDeterminator.RemoveObjectsOnSameLine | flake8_vcs_ext.py:93-103 | the loop returns exactly the record-line entries in insertion order (`Filtered`), never more than its input |
| LineFilter.PrefixMax | flake8_vcs_ext.py:98-101 | the record line so far is at least 0, bounds every earlier line, and is 0 or one of them |
| LineFilter.KeptIndices | flake8_vcs_ext.py:97-103 | the kept positions are strictly increasing, in range, no more than the input, and are exactly the record-line entries |
| LineFilter.PrefixMaxIsLastKeptLine | flake8_vcs_ext.py:98-101 | the record line equals the line of the last kept entry (`last_added_obj_lineno`), 0 before any is kept |
| LineFilter.DroppedUnlessAboveLastKept | flake8_vcs_ext.py:100 | an entry is kept exactly when its line is non-zero and above the last kept line, even when no earlier entry had its line |
| LineFilter.KeptLinesStrictlyRise | flake8_vcs_ext.py:99-102 | each kept entry's line is strictly greater than that of every entry kept before it |
| LineFilter.KeptLinesPositive | flake8_vcs_ext.py:100 | no entry with line 0 or below is kept |
| LineFilter.FirstKeptIsFirstPositiveLine | flake8_vcs_ext.py:98-102 | the first kept entry is the first entry with a positive line |
| LineFilter.NothingKeptIffNoPositiveLine | flake8_vcs_ext.py:97-103 | the result is empty exactly when no entry has a positive line |
| LineFilter.OutOfOrderLinesDropped | flake8_vcs_ext.py:99-103 | lines 3, 1, 2 keep only the first entry: new but lower lines are dropped |
| VcsExt.IndentChecker.constructor | flake8_vcs_ext.py:112-116 | stores the canonical indent and the elements; `problems` starts empty |
| VcsExt.IndentChecker.UpdateProblems | flake8_vcs_ext.py:118-119 | appends the check's violation, if any, to `problems` |
| VcsExt.IndentChecker.CheckMultilinesIndents | flake8_vcs_ext.py:121-130 | appends nothing when every column is correct, otherwise the (line, column) of the first mismatch; the raise at line 126 is unreachable |
| VcsExt.IndentChecker.AllCorrect | flake8_vcs_ext.py:132-136 | true exactly when every column equals the canonical indent |
| VcsExt.IndentChecker.GetArgWithIndentNotOne | flake8_vcs_ext.py:138-143 | the first element whose column differs from the canonical indent; none exactly when every column matches |
| VcsExt.FirstMismatch | flake8_vcs_ext.py:140-143 | the position of an element off the indent with every earlier element on it; absent exactly when all match |
| VcsExt.Plugin.constructor | flake8_vcs_ext.py:147-148 | keeps the module body |
| VcsExt.Plugin.Iter | flake8_vcs_ext.py:150-160 | yields `Run(tree)`: at most one diagnostic, each carrying VCS001 and the rule's tag |
| VcsProperties.FirstRecognisedIsUnique | flake8_vcs_ext.py:21-28 | the statement the selector stops at is exactly the first recognised one |
| VcsProperties.FunctionDefSelected | flake8_vcs_ext.py:22-24 | a first def or async def is examined on its parameters with indent = its column + 1 |
| VcsProperties.IfSelected | flake8_vcs_ext.py:27-28 | a first `if` is examined on its test with indent = its column + 4 |
| VcsProperties.ClassSelected | flake8_vcs_ext.py:25-26 | a first class is examined through its first plain def, skipping async ones, with indent = that def's column + 1 |
| VcsProperties.ClassWithoutMethodSelected | flake8_vcs_ext.py:50-55 | a first class without a plain def yields no construct and leaves the indent at its old value |
| VcsProperties.NothingRecognisedSelected | flake8_vcs_ext.py:21-29 | a module without def, class or if yields no construct and leaves the indent at its old value |
| VcsProperties.NoConstructIff | flake8_vcs_ext.py:18-29 | "no construct" never moves the indent, and happens exactly when nothing is recognised or the first class has no plain def |
| VcsProperties.LaterStatementsIgnored | flake8_vcs_ext.py:21-28 | appending statements after the first recognised one changes nothing |
| VcsProperties.UnrecognisedPrefixIgnored | flake8_vcs_ext.py:21-29 | prepending statements of other kinds changes nothing |
| VcsProperties.NoParametersNoElements | flake8_vcs_ext.py:42-48 | a definition without parameters has nothing to check |
| VcsProperties.SameLineParametersNoElements | flake8_vcs_ext.py:45-46 | parameters all on one line have nothing to check |
| VcsProperties.MultiLineParametersFiltered | flake8_vcs_ext.py:45-48 | parameters on two or more lines are checked after the line filter |
| VcsProperties.ElementsAreParameters | flake8_vcs_ext.py:42-48 | every element checked on the definition path is one of its parameters |
| VcsProperties.ViolationIsFirstMismatch | flake8_vcs_ext.py:121-143 | a check records at most one problem: none exactly when all columns match, otherwise the first element off the indent |
| VcsProperties.OnlyMismatchReported | flake8_vcs_ext.py:121-143 | when exactly one element is off the indent, its position is the problem recorded |
| VcsProperties.KeptMismatchReported | flake8_vcs_ext.py:121-143 | when the only misplaced parameter survives the filter, it is the problem recorded |
| VcsProperties.RunEmitsAtMostOneVcs001 | flake8_vcs_ext.py:154-160 | a run yields at most one diagnostic, always with the VCS001 message and the rule's tag |
| VcsProperties.OnlyIfRaises | flake8_vcs_ext.py:57-83 | a run can raise only when the examined statement is an `if` |
| VcsProperties.NothingToCheckSilent | flake8_vcs_ext.py:156 | no construct, or an empty element list, yields no diagnostic |
| VcsProperties.SingleLineSignatureSilent | flake8_vcs_ext.py:45-46 | a first definition whose parameters share a line yields no diagnostic whatever their columns |
| VcsProperties.AlignedParametersSilent | flake8_vcs_ext.py:121-136 | a first definition whose parameters all sit at its column + 1 yields no diagnostic |
| VcsProperties.MisalignedKeptParameterReported | flake8_vcs_ext.py:150-160 | with exactly one misplaced parameter on a multi-line signature, kept by the filter, the run yields one diagnostic at that parameter |
| VcsProperties.MisalignedDroppedParameterSilent | flake8_vcs_ext.py:99-103 | with the only misplaced parameter dropped by the filter, the run yields no diagnostic |
| VcsProperties.DroppedMismatchSilent | flake8_vcs_ext.py:121-143 | when the filter drops the only misplaced parameter, the check records no problem |
| VcsProperties.ClassCheckedAsItsMethod | flake8_vcs_ext.py:50-55 | a class yields what its first plain def would yield on its own |
| VcsProperties.ClassWithoutMethodSilent | flake8_vcs_ext.py:52-55 | a class without a plain def yields no diagnostic, even when it has async defs |
| VcsProperties.SingleLineIfSilent | flake8_vcs_ext.py:73-74 | a first `if` whose names share a line yields no diagnostic whatever their columns |
| VcsProperties.NonBoolOpIfRaises | flake8_vcs_ext.py:63-66 | a first `if` whose test is not a BoolOp, such as a single name, raises at the unbound `operators` |
| VcsProperties.NonNameOperandRaises | flake8_vcs_ext.py:66-71 | a first `if` whose BoolOp has an operand that is not a Name raises at the unbound `operands` |
| VcsProperties.MultiLineIfRaises | flake8_vcs_ext.py:77-82 | a first `if` whose names span lines raises, because the merge routine does not exist |
| VcsProperties.AlignedTwoLineSignature | flake8_vcs_ext.py:150-160 | `def f(\n\ta,\n\tb):` yields nothing |
| VcsProperties.MisalignedSecondParameter | flake8_vcs_ext.py:150-160 | `def f(\n\ta,\n\t\tb):` yields one diagnostic at `b` (line 3, column 2) |

## Left out

- Parsing and the flake8 host are not modelled. The syntax tree is an input
  value. Registration, option handling and printing diagnostics belong to
  flake8.
- The `_types` module is not part of this model. It only supplies the type
  aliases `LinenoSupportObjects` and `LinenoStorage`.
- `type(self)` in each diagnostic is the constant `PluginType`.
- `Plugin.__iter__` is a lazy generator. `Plugin.Iter` returns the whole
  finite sequence instead. An exception, which Python raises on the first
  `next`, is returned as `Raised`.
- What a multi-line `if` would do after the same-line fast path is not
  modelled. Lines 75-76 filter the operator and operand maps, but those
  results only go to the call at line 77, which raises `AttributeError`. The
  model does no filtering there and returns `Crashed(MixRoutineMissing)`.
  `node.lineno` and `node.end_lineno` are kept in the `If` datatype but are
  never read.
- Only the node fields the rule reads are modelled: kind, line, column,
  ordinary parameters (`node.args.args`), `if` test and class body. The code
  never reads positional-only, `*args`, keyword-only or `**kwargs`
  parameters, so the model has none.
- Running the check twice on the same tree gives the same result, because
  `Run` is a function of the tree and `Plugin.Iter` ensures its result equals
  `Run(tree)`. There is no separate lemma for this.
