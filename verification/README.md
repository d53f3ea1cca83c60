# A Dafny model of mo-sql-parsing

mo-sql-parsing turns SQL text into a JSON tree and prints such trees back as SQL. The grammar engine
is an external package; what the repository itself decides is the two operator tables, the parse
actions that build the tree, the simplification that follows, and the printer. This project models
those decisions and proves how they fit together. Where a law holds only in part, the theorem says
exactly when: the condition is an if-and-only-if, stated over the tree, text or range a caller has.

`dafny verify dfyconfig.toml` checks everything.

## The parts

- **Infix expressions** (`Expressions`, `Engine`, `Uniqueness`, `Parsing`, `Chains`, `Syntax`, `Printer`, `RoundTrip`,
  `Meaning`, `TextMeaning`, `Agreement`, `Tables`, `Orders`). The printer works from a numeric table with half steps for
  operators that are not associative, the parser from an ordered list of levels. A `Grammar` holds
  both, so the theorems cover every pair of tables, and `Tables` fills in the repository's own.
  Precedences are doubled to keep them whole. The parser model reads tokens, finds the bracket
  structure, and reduces each flat run level by level, as the engine's infix notation does. Tests for
  NULL are included: printed as `a IS NULL` and never parenthesised, read on levels of their own, and
  built by the parser from comparisons with NULL too. `TextMeaning` says what a text means without the
  parser's own steps, and `Orders` what both tables say without their numbers.
- **Simplification and NULL** (`Trees`, `Nulls`, `Leaves`, `Heap`, `Scrub`, `Switch`, `SimpleCase`). Python containers are
  objects at addresses, so that sharing and writing through an alias can be stated. `Scrubber` is the
  code with its global list of locations; `Trees` and `Nulls` say on plain trees what it ought to
  give. `Leaves` follows every value to its place. `Switch` builds the calls for `CASE x WHEN` around one
  shared operand and scrubs them, and `SimpleCase` ties them to the expressions of `Cases`.
- **Set operators** (`SetOperators`, `SetText`). The in-place fold of a chain, its meaning, both
  printing routes, and the parser of chains with parentheses. `Chains`, operands with operators between
  them, serves here too.
- **Scripts** (`Delimiters`, `Directives`), **quotes** (`Quotes`, `Escapes`), **window frames**
  (`Frames`), **CASE** (`Cases`) and **INSERT rows** (`Inserts`).

## What does not hold

Each of these is behaviour of the code, kept in the model, with the exact condition or a witness.

- The two operator tables disagree: `a > (b < c)`, `a & (b | c)` and `(a RLIKE b) LIKE c` print
  without parentheses and are read as other trees (`Tables.GreaterOverLess`,
  `Tables.BinaryAndOverOr`, `Tables.LikeOverRLike`).
- A test for NULL is never put in parentheses, whatever surrounds it, and the parser's `=` binds tighter
  than `IS`. So `(a IS NULL) = b` becomes `a IS NULL = b`, where `NULL = b` is taken first, as a test
  of `b`, and `IS`, which the parser treats as `=`, compares `a` with it: `a = (b IS NULL)`
  (`Tables.TestUnderEquals`). `Tables.SqlRoundTrip` lists all clashing pairs, of tests and of other
  operators; `Agreement.TestsAgree` says which tables would do.
- `(NULL) = b` parses to a comparison, since NULL in parentheses does not count as NULL, but the tree's own
  text is a test (`Tables.ParenthesisedNull`; `Tables.SqlTextRoundTrip` has the condition for every
  text).
- The repository's README.md (lines 66-75) promises that `null=` replaces NULL. It is not replaced
  where NULL is the whole statement or the argument of a renamed operator (`Nulls.RenamedNullIsLost`,
  and `Scrub.RenamedNullRun` as a run on the heap), and an argument stored over a NULL keyword
  argument of the same name is lost (`Nulls.ArgumentIsLost`). `Nulls.YieldsFillIfClean` has the exact
  condition, `Nulls.Clean`, with the case in which these cancel out.
- Union operands are printed without parentheses, so right-nested set operations change shape
  (`SetText.PrintThenParse`, `SetText.RightNestingIsLost`).
- The fold of a chain is strictly left to right, where section 7.10 of ISO/IEC 9075:1992 lets
  INTERSECT bind tighter. The two agree whatever the operators mean if and only if no INTERSECT comes
  after another operator (`SetOperators.FoldIsStandard`, `SetOperators.TermsTellReadings`);
  `a UNION b INTERSECT c` is read otherwise (`SetOperators.UnionBeforeIntersect`).
- A literal with a backslash survives only if the backslash means nothing to Python
  (`Quotes.LiteralRoundTrip`): a backslash and an `n` come back as a line break
  (`Quotes.BackslashIsLost`).
- A frame limit may carry a sign, and then an ordered frame can be read as another one
  (`Frames.SignedLimitMoves`; `Frames.BetweenRecoversOffsets` has the condition).
- A printed frame around the current row comes back mirrored when it is inverted
  (`Frames.FrameRoundTrip`), as from 1 to 0 (`Frames.MirroredFrame`).
- The tree of a simple CASE means what SQL says, but in its text a comparison with a written NULL is read
  as a test for NULL, whether NULL is written in a branch or as the operand. The text keeps the value if
  and only if no branch is taken by such a test, or the first that is gives what ELSE does
  (`Cases.TextKeepsMeaning`, `Cases.TextKeepsValue`); `Cases.NullBranchMatches` says
  what the text gives otherwise, and `Cases.NullOperandTests` is a CASE whose operand is written NULL.
- INSERT rows come back as values only if there are two or more, no value is zero or empty, and every
  string and quoted column name survives its quotes (`Inserts.InsertRoundTrip`); a single row and a
  zero come back as a query (`Inserts.OneRowIsLost`, `Inserts.ZeroIsLost`).

## Model

| member | source | states |
|---|---|---|
| RoundTrip.PrintThenParse | mo_sql_parsing/formatting.py:64-88 | For every precedence table, level list, ordered set and flattening set, every well-formed tree, tests for NULL included, and every context: parsing the printed text gives the flattened tree if and only if each operand fits where it was printed without parentheses and no `=` or `<>` has NULL as an operand |
| RoundTrip.PrintedTextParses | mo_sql_parsing/formatting.py:64-88 | Printed text always parses, whatever the tables say |
| Tables.SqlRoundTrip | mo_sql_parsing/keywords.py:282-408 | For the repository's own two tables, 21 operators and the tests for NULL: the round trip holds if and only if no node has an operand from an explicit list of clashing pairs and no `=` or `<>` has NULL as an operand |
| Tables.SqlTextRoundTrip | mo_sql_parsing/keywords.py:282-408 | For every text that parses: the tree can be printed if and only if no CASE in it is empty and no IS NOT NULL would print as EXISTS; printing and parsing it then gives the same tree if and only if no pair clashes and no `=` or `<>` has NULL as an operand |
| Tables.AgreeingFragmentRoundTrip | mo_sql_parsing/keywords.py:282-408 | Over mul, div, mod, add, sub, lt, lte, gte, eq, neq, and, or, with calls, CASE, and tests for NULL anywhere but under an operator that binds tighter, a tree in parser form comes back unchanged from every context |
| Tables.GreaterOverLess | mo_sql_parsing/keywords.py:314-316 | gt has precedence 6 and lt 5 on one parser level: `a > (b < c)` is read back as `(a > b) < c` |
| Tables.BinaryAndOverOr | mo_sql_parsing/keywords.py:311-312 | The two bitwise operators share a precedence but not a level: bitwise or under bitwise and is read back as bitwise and under bitwise or |
| Tables.LikeOverRLike | mo_sql_parsing/keywords.py:332-337 | The LIKE family shares a precedence over several levels: `(a RLIKE b) LIKE c` is read back as `a RLIKE (b LIKE c)` |
| Tables.TestUnderEquals | mo_sql_parsing/formatting.py:346-353 | A test for NULL is never parenthesised and `IS` is read as `=` on a looser level: `(a IS NULL) = b` is read back as `a = (b IS NULL)` |
| Tables.ParenthesisedNull | mo_sql_parsing/utils.py:143-147 | `(NULL) = b` parses to a comparison with NULL, whose own text is read as a test for NULL |
| Tables.SqlTablesDisagree | mo_sql_parsing/keywords.py:282-408 | The repository's tables do not meet the condition under which every tree survives |
| Orders.ThreeOperands | mo_sql_parsing/keywords.py:366-408 | For any two operators `a op1 b op2 c` is read by the order in which SQL operators bind, from multiplication to OR: the tighter first, then the left one, and a run of one flattening operator as one node |
| Orders.ComparedNull | mo_sql_parsing/utils.py:143-152 | NULL on either side of `=` or IS is a test for NULL, of `<>` or IS NOT a test for not NULL |
| Orders.FirstOperandText | mo_sql_parsing/formatting.py:64-88 | For any two operators, when the first operand is printed in parentheses, by the order in which the formatter takes operators to bind |
| Orders.LaterOperandText | mo_sql_parsing/formatting.py:64-88 | The same for a later operand, which must bind tighter unless both operators merge |
| Orders.TestText | mo_sql_parsing/formatting.py:346-353 | A test for NULL stands bare in every context, and its operand in parentheses unless it binds tighter |
| Orders.PlacesWithoutParentheses | mo_sql_parsing/formatting.py:310-328 | A whole expression, an argument and the parts of CASE are printed without parentheses around them |
| Expressions.QueriesMentionFrom | mo_sql_parsing/formatting.py:346-350 | The names taken for queries are those with `from` anywhere in them |
| Agreement.AgreementIsSurvival | mo_sql_parsing/formatting.py:76-86 | A condition on pairs of operators in the two tables holds if and only if every tree, in every context, is read back as its flattening unless it compares NULL by `=` or `<>`. The scope says which trees: with or without tests for NULL, with ordered operators of any number of operands or binary ones only |
| Agreement.TestsAgree | mo_sql_parsing/formatting.py:346-353 | The condition with tests for NULL is the one without, and both tests on one level tighter than every operator, each of which is parenthesised inside a test |
| Agreement.DisciplineSuffices | mo_sql_parsing/formatting.py:76-86 | For trees without tests: whole-number precedences in the order of the levels, flattening unordered operators, and at most one of them per level are enough for that condition; with ordered operators of more than two operands, each unordered one needs a level of its own |
| Engine.ToJsonOperator | mo_sql_parsing/utils.py:121-200 | The parse action, with its loops over operands and layers of parentheses, gives a NULL test, a plain node, or the node with the operands of same-operator operands taken over |
| Engine.ReduceIsTree | mo_sql_parsing/sql_parser.py:390-398 | Reducing a flat run level by level, tightest first and from the left, gives the tree that splits it at its last loosest operator |
| Uniqueness.Cut | mo_sql_parsing/utils.py:178-200 | When a run is read as the node over two trees, the run is cut exactly between the operands those trees came from, even through flattening |
| Uniqueness.CutTest | mo_sql_parsing/utils.py:152-177 | When a run that ends in `IS NULL` or `IS NOT NULL` is read as a test for NULL on a tree, that tree is the whole run before it, and nothing in the run is looser than the test |
| Syntax.RunRoundTrip | mo_sql_parsing/sql_parser.py:72-86 | Bracket structure, argument lists and CASE are recovered from their tokens, whatever follows |
| Syntax.TextIsStructure | mo_sql_parsing/sql_parser.py:72-86 | A text is read as a bracket structure if and only if it is the text of that structure |
| Printer.PrintIsRender | mo_sql_parsing/formatting.py:310-328 | The printer's text is the text of an explicit bracket structure, CASE and call arguments included |
| Meaning.NormKeepsValue | mo_sql_parsing/utils.py:178-200 | For every interpretation in which the flattening operators are associative, the flattened tree has the value of the original; commutativity is not used |
| Meaning.FlatteningKeepsValue | mo_sql_parsing/utils.py:178-200 | For every text, the parser that flattens and the one that builds binary nodes give trees of the same value |
| TextMeaning.ParsedMeansText | mo_sql_parsing/utils.py:121-200 | For every text that parses and every interpretation with associative flattening operators, the tree has the value of the text: of its operands, brackets being transparent, split at the last loosest operator, a comparison with a NULL that is written out being a test |
| Meaning.ParsesToParserForm | mo_sql_parsing/utils.py:178-200 | No parsed node of a flattening operator has a direct child with its own operator, through any depth of parentheses, and no other node has other than two operands |
| Meaning.ParserFormRoundTrip | mo_sql_parsing/formatting.py:64-88 | A tree in parser form comes back itself if and only if it is safe and compares no NULL |
| Meaning.TextRoundTrip | mo_sql_parsing/formatting.py:64-88 | For every pair of tables and every text that parses to a printable tree: text, tree, text, tree ends where it began if and only if the tree is safe and compares no NULL |
| Meaning.RoundTripKeepsValue | mo_sql_parsing/formatting.py:64-88 | A safe tree keeps its value through text and back |
| Trees.SimplifyIsNormal | mo_sql_parsing/utils.py:63-107 | Simplification leaves no None inside, no empty or singleton list, no call and no parse result |
| Trees.SimplifyIsIdempotent | mo_sql_parsing/utils.py:63-107 | Simplifying again changes nothing |
| Trees.RenamedFirst | mo_sql_parsing/utils.py:74-82 | Simplifying under a renaming of operators is renaming the calls first and simplifying without one |
| Leaves.LeavesStay | mo_sql_parsing/utils.py:63-107 | Every text, number and NULL of a parse result is in the simplified tree under the keys on the way to it, calls counting under their new names, and those under the same keys are in the same order; nothing else is there |
| Leaves.FillKeepsLeaves | mo_sql_parsing/utils.py:63-107 | The same of the intended result, with the caller's value for each NULL |
| Trees.ListwrapRecovers | mo_sql_parsing/utils.py:86-97 | listwrap recovers the surviving elements of a list unless exactly one survives and is itself a list |
| Nulls.YieldsFillIfClean | mo_sql_parsing/utils.py:74-82 | Whatever recording locations and overwriting them can make of a parse result, it is the simplified tree with NULL replaced everywhere and nothing else changed, if and only if it is clean: in no call does a NULL argument sit under a renamed operator, or another argument replace a keyword argument that is NULL |
| Nulls.RenamedNullIsLost | mo_sql_parsing/__init__.py:135-140 | With `missing` renamed to `is_null` and applied to NULL, every outcome has the caller's NULL under the old name beside the new one |
| Nulls.ArgumentIsLost | mo_sql_parsing/utils.py:74-82 | With a keyword argument of the operator's own name that is NULL, every outcome has the caller's NULL where the argument should be |
| Scrub.Scrubber.Scrub | mo_sql_parsing/utils.py:63-107 | The recursive method with its global list: the result unfolds to the simplified tree, and overwriting the recorded locations at any later point yields an outcome of the two-phase relation |
| Scrub.Scrubber.ScrubCall | mo_sql_parsing/utils.py:74-82 | The same for calls, where the kwargs dict of the parse result is itself written to and returned, also when the call is met a second time |
| Scrub.Scrubber.RecordList | mo_sql_parsing/utils.py:94-97 | Exactly the positions that hold NULL are recorded |
| Scrub.Scrubber.RecordDict | mo_sql_parsing/utils.py:103-106 | Exactly the keys whose value is NULL are recorded |
| Scrub.Scrubber.Patch | mo_sql_parsing/__init__.py:108-109 | The loop over the locations overwrites exactly the recorded slots |
| Scrub.Scrubber.ScrubLine | mo_sql_parsing/__init__.py:100-109 | One line, with any sharing inside the parse result: the returned value unfolds to the intended tree if and only if the unfolding of the parse result is clean, then no NULL is reachable, and no input object changes but the empty kwargs dicts; a root NULL is returned as it is. The intended tree is that of the parse result with its calls renamed beforehand, and without NULL it is what is returned |
| Scrub.RenamedNullRun | mo_sql_parsing/__init__.py:100-109 | A run on a heap with `missing` renamed and applied to NULL, whose returned value does not unfold to the intended tree |
| Scrub.RenamedTestRun | tests/test_simple.py:1516-1520 | With both tests for NULL renamed, `a IS NOT NULL` gives `is_not_null` with `a` |
| Heap.UnfoldsToFillIfClean | mo_sql_parsing/utils.py:74-82 | A value on the heap that unfolds to any outcome of recording and overwriting unfolds to the intended one, through whatever containers, if and only if the parse result is clean |
| Switch.ToSwitchCall | mo_sql_parsing/utils.py:474-483 | The calls built around one shared operand unfold to the searched CASE with the operand repeated, for any number of branches, and nothing existing is changed |
| Switch.SwitchIsClean | mo_sql_parsing/utils.py:474-483 | Under any renaming of operators the searched CASE is clean if and only if the parts of the simple CASE are, no THEN value that is NULL is overwritten, and no renamed operator is left with NULL alone |
| Switch.SwitchLine | mo_sql_parsing/utils.py:474-483 | Under any renaming, the value returned after scrubbing and overwriting those shared calls unfolds to the intended tree, NULL replaced in every copy of the operand, if and only if the parts are clean |
| SimpleCase.SwitchIsDesugared | mo_sql_parsing/utils.py:466-488 | The calls of a simple CASE are the parse result of the searched CASE it stands for, the branches in order and ELSE last |
| SimpleCase.CallMeansDesugared | mo_sql_parsing/utils.py:474-483 | And the value built on the heap unfolds to that parse result |
| SetOperators.QueryDict.Extend | mo_sql_parsing/utils.py:673 | Appending a source to the union dict in place turns the tree it unfolds to into the one with that operand added |
| SetOperators.ToUnionCall | mo_sql_parsing/utils.py:666-676 | The loop that extends a dict in place refines the fold of the chain; only dicts it made are written to, even when the first source is a union with the same operator |
| SetOperators.FoldMeansLeftFold | mo_sql_parsing/utils.py:666-676 | For any interpretation of the operators, the tree denotes ((s0 op1 s1) op2 s2)... |
| SetOperators.FoldIsStandard | mo_sql_parsing/utils.py:666-676 | If no INTERSECT comes after another operator, the tree denotes the chain with its INTERSECT runs grouped first, for every interpretation |
| SetOperators.TermsTellReadings | mo_sql_parsing/utils.py:666-676 | With terms for values, the tree denotes the chain with its INTERSECT runs grouped first if and only if no INTERSECT comes after another operator |
| SetOperators.UnionBeforeIntersect | mo_sql_parsing/utils.py:666-676 | On sets, with a row in `a` alone, `a UNION b INTERSECT c` as parsed is empty and by the standard is not |
| SetOperators.FoldKeepsLeaves | mo_sql_parsing/utils.py:666-676 | The simple queries in the tree are those of the sources, in order |
| SetOperators.SameUnionIsFlat | mo_sql_parsing/utils.py:672-673 | A run of one union is one node with the sources as operands, in order |
| SetOperators.OthersAreBinary | mo_sql_parsing/utils.py:674-676 | Every node of another operator has two operands |
| SetText.PrintThenParse | mo_sql_parsing/formatting.py:613-637 | A tree printed through either route, in any context, is read back as itself if and only if every operand but the first stands in parentheses of its own or is simple, a bare first operand is not the same union, and nodes other than unions have two operands |
| SetText.ChainRoundTrips | mo_sql_parsing/formatting.py:159-163 | The tree of every unparenthesised chain of union, union_all, intersect, except, minus over simple queries comes back identical |
| SetText.PrintingKeepsLeaves | mo_sql_parsing/formatting.py:631-637 | Even where the shape is lost, reading back keeps every simple query in its place |
| SetText.ChainRoundTrip | mo_sql_parsing/sql_parser.py:589-596 | A chain with parenthesised sources is recovered from its tokens |
| SetText.RightNestingIsLost | mo_sql_parsing/formatting.py:635-637 | `a UNION (b EXCEPT c)` as a tree is read back as `(a UNION b) EXCEPT c` |
| SetText.ParsedMeansText | mo_sql_parsing/utils.py:666-676 | For every text that parses and every meaning of the operators, the tree has the value of the text: its sources from left to right, parentheses only grouping |
| SetText.FirstOperandText | mo_sql_parsing/formatting.py:613-637 | For any two operators, whether a first operand that is a set operation stands in parentheses |
| SetText.LaterOperandText | mo_sql_parsing/formatting.py:613-637 | The same for a later operand |
| Delimiters.ParseDelimiters | mo_sql_parsing/__init__.py:155-186 | The nested loops stop on every script and yield, in order, the statements and directives of sections that laid end to end are the script and that are legal for the delimiters in force |
| Delimiters.SectionsKeepText | mo_sql_parsing/__init__.py:163-186 | The yielded pieces, whitespace and the delimiters in force, laid end to end, are the script |
| Delimiters.SectionsAreLegal | mo_sql_parsing/__init__.py:163-186 | Each directive is the leftmost in what is left and sets the delimiter for what follows; each cut is the leftmost delimiter that ends a line; what is dropped is whitespace |
| Delimiters.LegalIsSections | mo_sql_parsing/__init__.py:163-186 | There is no other legal way to take the script apart |
| Delimiters.BlankIsLast | mo_sql_parsing/__init__.py:158-186 | A blank delimiter can only be declared when nothing but whitespace follows, which is why the inner loop always ends |
| Delimiters.DirectiveAtIsComplete | mo_sql_parsing/__init__.py:158 | The directive pattern matches wherever some split of the text allows it, giving whitespace back where it must |
| Delimiters.CutAtIsLongest | mo_sql_parsing/__init__.py:160-161 | The splitter takes as much whitespace as still ends a line |
| Delimiters.JoinThenSplit | mo_sql_parsing/__init__.py:176-182 | Statements joined by a delimiter and a line break come back, if none contains the delimiter or starts with a space |
| Directives.DirectiveThenStatements | mo_sql_parsing/__init__.py:155-186 | A script of a directive, the word in any mix of cases, blanks of any kind around its parts, and statements separated by what it declares: yielded are that line and the statements; with the delimiter at the very end an empty one follows, and if that delimiter is to be ignored they are one |
| Directives.StatementsAlone | mo_sql_parsing/__init__.py:155-186 | The same for a script without a directive, with semicolons |
| Quotes.LiteralRoundTrip | mo_sql_parsing/formatting.py:451-467 | A printed literal is one token whatever follows but a quote, and reading it gives the string back if and only if it has no NUL, no carriage return, and no backslash that Python gives a meaning to |
| Quotes.BackslashIsLost | mo_sql_parsing/formatting.py:451-467 | A backslash and an `n` are printed as they are and read as a line break |
| Quotes.IdentifierRoundTrip | mo_sql_parsing/formatting.py:54-59 | The same for an identifier part in double quotes or backticks, where line feeds are excluded too |
| Quotes.IdentifierShrinks | mo_sql_parsing/formatting.py:54-59 | An identifier that does not come back is read as an error or as something shorter, never as another of its length |
| Quotes.WithoutBackslash | mo_sql_parsing/utils.py:758-766 | Without backslashes only NUL and line break characters matter |
| Quotes.QuotedTakesPrinted | mo_sql_parsing/utils.py:843-849 | The backtracking token pattern takes printed text exactly to its closing quote, runs of quotes included |
| Quotes.ReplacePairs | mo_sql_parsing/utils.py:758-816 | Replacing pairs from the left in text with doubled quotes meets each pair exactly |
| Quotes.DecodeArmoured | mo_sql_parsing/utils.py:758-766 | Python's unescaping of the rewritten literal gives the string itself, or something shorter, or an error |
| Escapes.ControlEscapes | mo_sql_parsing/utils.py:758-766 | A backslash and the letters `abtnvfr` are read as the characters 7 to 13 |
| Escapes.HexEscapes | mo_sql_parsing/utils.py:758-766 | A number written in two, four or eight hexadecimal digits of either case after `x`, `u` or `U` is read as the character of that number, or an error if there is none |
| Escapes.OctalEscapes | mo_sql_parsing/utils.py:758-766 | The same for three octal digits |
| Escapes.NamedEscapes | mo_sql_parsing/utils.py:758-766 | A name in braces after `N` is looked up |
| Escapes.EscapedMark | mo_sql_parsing/utils.py:758-766 | Two backslashes are one, and a backslash before a line break joins the lines |
| Escapes.OtherEscapes | mo_sql_parsing/utils.py:758-766 | A backslash before any other character stays |
| Escapes.LineBreaks | mo_sql_parsing/utils.py:758-766 | A carriage return, alone or before a line feed, is read as a line feed |
| Escapes.NulIsError | mo_sql_parsing/utils.py:758-766 | A printed string with NUL in it cannot be read |
| Frames.BetweenRecoversOffsets | mo_sql_parsing/windows.py:18-58 | For all signed bounds: the two zero-anchored ranges give back both offsets if and only if an explicit condition on the two bounds holds |
| Frames.BetweenMeansRows | mo_sql_parsing/windows.py:41-58 | For every standard frame with start not after end the range holds exactly the rows between the bounds |
| Frames.SingleBoundIsBetween | mo_sql_parsing/windows.py:18-58 | A single bound means the BETWEEN form with CURRENT ROW at its other end |
| Frames.BetweenTextMeansRows | mo_sql_parsing/windows.py:41-58 | Reading the words of a standard frame with both ends gives a range that holds exactly the rows between them |
| Frames.SingleTextMeansRows | mo_sql_parsing/windows.py:18-38 | Reading a single bound gives the rows between it and the current one, on the side the bound names |
| Frames.BetweenTextOffsets | mo_sql_parsing/windows.py:18-58 | For all signed bounds, reading BETWEEN keeps both offsets if and only if that condition on the bounds holds |
| Frames.ReadIsFrame | mo_sql_parsing/windows.py:69-79 | A text is read as a frame if and only if it is ROWS and the words of a bound, or of BETWEEN two |
| Frames.PrintFrame | mo_sql_parsing/formatting.py:234-276 | The branching printer's text is read as the range itself, or mirrored when that is an inverted one around the current row; it is empty only without bounds, and `wordy` is never called on 0 |
| Frames.FrameRoundTrip | mo_sql_parsing/formatting.py:234-276 | A printed range is read back if and only if a bound is present and it is not an inverted frame around the current row; such a frame is read as its mirror image |
| Frames.OrderedFrameRoundTrip | mo_sql_parsing/formatting.py:234-276 | Every range with a bound and its ends in order is read back |
| Frames.MirroredFrame | mo_sql_parsing/formatting.py:234-276 | The range from 1 to 0 is read back as the one from 0 to 1 |
| Frames.ParsedFrameRoundTrip | mo_sql_parsing/windows.py:41-58 | The range of every standard frame not unbounded on both sides survives printing and parsing |
| Cases.DesugarKeepsMeaning | mo_sql_parsing/utils.py:474-488 | Under three-valued logic the searched CASE has the value of the simple one of section 6.9 of ISO/IEC 9075:1992, for any number of branches, NULL operands and NULL branches included |
| Cases.DesugaredText | mo_sql_parsing/formatting.py:398-410 | What the printed searched CASE is read as: a branch with NULL becomes a NULL test, every other a comparison |
| Cases.TextMeans | mo_sql_parsing/formatting.py:398-410 | The text of the searched CASE has the value of a CASE that takes a branch written NULL when the operand is NULL, any branch that is NULL when the operand is written NULL, and any other when it equals the operand, for any number of branches |
| Cases.TextKeepsMeaning | mo_sql_parsing/utils.py:152-156 | For every operand that is the value of the simple CASE if and only if no branch is taken by its test for NULL, or the first one that is gives what ELSE does |
| Cases.TextKeepsValue | mo_sql_parsing/formatting.py:398-410 | Printing the searched CASE and parsing it keeps its value in exactly those cases |
| Cases.NullBranchMatches | mo_sql_parsing/utils.py:152-156 | The first branch whose test for NULL succeeds, wherever it stands, decides the text, while the tree passes over every branch |
| Cases.NullOperandTests | mo_sql_parsing/utils.py:152-156 | `CASE NULL WHEN y` with y NULL means its ELSE, and its text takes the branch |
| Inserts.InsertRoundTrip | mo_sql_parsing/formatting.py:756-766 | For either quote style, any choice of names to quote and any order of two or more columns: rows come back the same, in order, if and only if there are at least two, all have the same columns, every quoted column and every string survives its quotes, and no value is falsy |
| Inserts.OneRowIsLost | mo_sql_parsing/utils.py:574-582 | A single row whose names and values are readable comes back as a query, not as values |
| Inserts.ZeroIsLost | mo_sql_parsing/utils.py:574-582 | Two rows with a zero come back as a query, not as values |
| Inserts.PickThenZip | mo_sql_parsing/utils.py:691-702 | Zipping a row's values with the columns they were picked by gives the row |
| Inserts.ZippedNames | mo_sql_parsing/utils.py:691-702 | The names of a zipped row are the columns that have a value |
| Inserts.ZippedAt | mo_sql_parsing/utils.py:691-702 | A name has the value at its own place, unless it is named again later |

## Left out

- Outside the model: the grammar engine, whitespace and comments, error reports, parser cache and lock; DDL, COPY, ALTER, MERGE, procedures, types, intervals and durations.
- Tokens: the text of atoms in expressions, queries in set chains and numbers is one token each; function names the formatter treats specially, and their letter case, are not modelled.
- Operators: NOT, BETWEEN, IN, `IS` between anything but an expression and NULL, COLLATE, concat, the JSON and regular-expression operators, unary operators, and infix nodes with fewer than two operands or in the {variable: value} form. NOT and BETWEEN print in fixed contexts.
- Expressions.WellFormed: leaves out `exists` on a name that contains `from`, which the formatter takes for a query and prints with EXISTS; on a number its test for `from` fails.
- Meaning.TextRoundTrip: whether a tree is printable is said of the tree, not of the tokens.
- CASE x WHEN as text: printed trees only hold the searched form, so the token parser reads only that one.
- Scrub.Scrubber.ScrubLine: models `simple_op`; `normal_op`, bytes, and objects whose `items` fails are left out, and so is the collection of several lines into one result.
- Scrub.Scrubber.Scrub: takes what the parse result unfolds to as a ghost argument, so a cyclic parse result is not modelled; the parser builds none.
- SetOperators.ToUnionCall: ORDER BY, LIMIT and OFFSET around a chain are not modelled, nor is the wrapping of a lone simple query.
- SetText.PrintThenParse: UNION DISTINCT, INTERSECT ALL and the like have no printer case and are not well-formed here; ordered queries as operands are left out.
- Delimiters.ParseDelimiters: returns what the generator yields as one sequence; a consumer that stops early sees a prefix of it.
- Delimiters.JoinThenSplit: one direction, for statements a caller can check one by one; `Delimiters.LegalIsSections` covers every script.
- Quotes.LiteralRoundTrip: encoding prefixes are left out; a lone surrogate, which this text type cannot hold, counts as an error.
- Quotes.IdentifierRoundTrip: one part without a dot, since splitting and escaping dots belongs to mo_dots, which is not part of this model; the choice whether to quote is left out.
- Frames.FrameRoundTrip: limits that are expressions, and ROWS against RANGE, which the tree does not keep, are left out; a missing frame and a doubly unbounded one are not told apart by the text.
- Cases.DesugarKeepsMeaning: evaluation order and errors are not modelled.
- Inserts.InsertRoundTrip: values are strings and numbers that are not negative; one column alone, which the parser does not hand over as a list, and NULL, booleans and expressions are left out. A column name is one part without dots, and one that is left unquoted is taken to be one token, although the formatter's pattern for such names also allows a final line break and letters the identifier pattern does not.
- Quotes.IdentifierShrinks: one direction, since an identifier that survives is `Quotes.IdentifierRoundTrip`'s case.
- FETCH, joins, pivots, and the other clauses of SELECT are not modelled.
