# fix-params, modelled in Dafny

The modelled program is a one-off refactoring tool for the manim code base.
Many manim functions document their parameters in a NumPy-style
`Parameters` section of the docstring, and some give a type there. The
tool reconciles those docstring entries with the parameters the function
actually declares, using three rules:

- an unknown documented parameter is renamed, deleted, or marked with a
  `TODO TYPEHINTS` comment;
- a type given both in the docstring and as an annotation is deleted from
  the docstring, after a check that the two cleaned-up types agree;
- a docstring type with no annotation becomes the annotation, and any
  imports that annotation needs are added to the file.

No file text changes while the rules run. Every change is registered as an
edit (a range of the original text and its replacement) in a sorted,
non-overlapping list of the file. The import block is then registered for
every file, and only after that are the edits of each file applied,
back to front.

The model follows the program's modules:

| Dafny module | models |
|---|---|
| `Wrappers` | `Option`, `Result`, and the Python exceptions the code raises |
| `PyText` | Python indexing and slicing (negative and clamped bounds); `str.replace`; `" " * n`; string order and `sorted` of a set |
| `Dicts` | insertion-ordered `dict` as a list of pairs: lookup, assignment, `pop` |
| `Utils` | `utils.py`: indentation size, `remove_suffix`, `zip_dicts`, `index_lines`, `cleanup_type` |
| `EditBuffer` | the edit list of `File`: `register_modification`'s checks and `bisect` insertion, and the reverse-order application of `apply_modifications` |
| `Syntax` | the syntax-tree shapes the code inspects: classes, imports, names and attributes |
| `Imports` | the import resolver of `file.py`: the `SimplifyImports` rewrite, `exports`/`imports`, the name-to-statement table, the import block, the insertion offset, `module_name` |
| `SourceFile` | the `File` class: a `class` with `contents`, `modifications` and `to_import` fields and methods that update them |
| `Functions` | `func.py`: `DocArg`, `FuncArg`, `docstring_position`, `doc_args`, `func_args`, and the `Func` class with `rename_doc_arg` and `delete_doc_arg` |
| `FixParams` | `fix-params.py`: the three rules and the order `main` runs them in |

The main results are these:

- **Edit list.** Registering an edit keeps the list sorted, well formed and
  pairwise disjoint. An edit is accepted exactly when it is well formed and
  overlaps no registered edit (`EditBuffer.RegisterAccepts`).
- **Order independence.** The outcome of registering a collection of edits
  does not depend on the order of registration
  (`EditBuffer.RegisterAllOrderIndependent`), and neither does the
  rewritten text (`EditBuffer.ApplyOrderIndependent`).
- **Back-to-front application.** Applying the edits back to front gives the
  same text as rebuilding it front to back. That text is the unedited gaps
  of the original, interleaved with the replacements
  (`EditBuffer.ApplyIsRebuild`). No edit shifts the offsets of an earlier
  one.
- **Import resolver.** The code's resolver can drop a name from the queue
  while the rewritten annotation still uses it (see "## Findings"). The
  corrected resolver `Imports.Resolve` rewrites the annotation exactly as
  the code does. After it, every name in the annotation is either in scope
  or queued for import, and its queue contains the code's queue. The
  statement chosen for each name, and the place where the import block
  goes, are characterised exactly (`Imports.ImportStatementFor`,
  `Imports.OffsetIsLineStart`).
- **Rules and `main`.** Each rule leaves every edit list valid. None of
  them touches a file's text before the write-back. After `main`'s writing
  phase, no file has pending edits or pending imports.

### A name defined both by `typing` and by the project

The table from names to defining modules is
`{name: 'typing' for name in dir(typing)} | name_to_defining_module`
(file.py:188). On a key present in both, the right-hand operand of `|`
wins. A class defined in the project therefore overrides a `typing` name
of the same spelling. The model follows the code
(`Imports.ImportStatementFor`).

## Model

| member | source | states |
|---|---|---|
| `PyText.Index` | func.py:47 | an index in `[0, len)` yields its element, a negative one in `[-len, 0)` the element `len` places later; `IndexError` is raised exactly for an index outside `[-len, len)` |
| `PyText.SliceBound` | func.py:51 | a slice bound is clamped into `[0, n]`: a bound in range is itself, a negative one counts from the end, one past the end gives `n` and one before `-n` gives `0` |
| `PyText.Spaces` | fix-params.py:75 | `" " * n` is exactly `n` blanks |
| `PyText.ReplaceAllAbsent` | utils.py:20 | `str.replace` leaves a string that contains no occurrence of the pattern unchanged |
| `PyText.ReplaceAllLeftmost` | utils.py:31 | `str.replace` rewrites the leftmost occurrence and continues after it, so the text before it is kept verbatim |
| `PyText.ReplaceAllAtStart` | utils.py:35 | an occurrence at the very start is rewritten, and the replacement goes on with the rest |
| `PyText.LessIrreflexive` | file.py:212 | no string sorts before itself |
| `PyText.LessTransitive` | file.py:212 | the string order `sorted` uses is transitive |
| `PyText.LessTotal` | file.py:212 | of two distinct strings one sorts before the other |
| `PyText.LessAsymmetric` | file.py:212 | two strings never sort before each other |
| `PyText.LeastExists` | file.py:212 | every non-empty set of names has a least element |
| `PyText.Least` | file.py:212 | the least name of a set belongs to it and sorts before every other member |
| `PyText.Sorted` | file.py:212 | `sorted(names)` lists every element of the set exactly once, in strictly ascending order |
| `PyText.ListingHead` | file.py:212 | an ascending listing of a set starts with its least element; the rest lists the remaining elements |
| `PyText.SortedIsUnique` | file.py:217 | any ascending listing of a set is `sorted` of it: the order of the generated imports is determined by the names alone |
| `Dicts.Get` | func.py:100 | a lookup finds a value exactly when the key is present, and it is the value stored with that key |
| `Dicts.Put` | func.py:101 | assignment keeps every key in its place and appends a new key at the end |
| `Dicts.PutGet` | func.py:101 | after assignment the key maps to the new value, every other key keeps its value, and keys stay distinct |
| `Dicts.Remove` | func.py:105 | `pop` never lengthens the dict |
| `Dicts.RemoveGet` | func.py:105 | after `pop` the key is absent, every other key keeps its value, and the length drops by one exactly when the key was present |
| `Dicts.RemoveKeepsEntries` | func.py:105 | `pop` keeps only entries that were there before |
| `Dicts.PresentGet` | fix-params.py:87 | `dict.get` on the docstring's dict gives the wrapped value of a documented name and nothing for any other name |
| `Utils.MatchStart` | utils.py:4 | `re.match` clamps its start into the string: a start inside it is kept, a negative one gives `0`, one past the end gives the length |
| `Utils.IndentSizeAt` | utils.py:4 | the indentation is the maximal run of blanks at the start: all blanks, then a non-blank or the end |
| `Utils.RemoveSuffixAsWrittenEmptySuffix` | utils.py:5 | as written, an empty suffix erases the whole text (`"int"` becomes `""`) |
| `Utils.RemoveSuffix` | utils.py:5 | the result plus the suffix is the text when the text ends with it; otherwise the text is unchanged |
| `Utils.RemoveSuffixAgrees` | utils.py:5 | for every non-empty suffix (all the ones the code uses) the code as written and the intended helper agree |
| `Utils.ZipDicts` | utils.py:6 | the join is no longer than the first dict, and each entry pairs an entry of the first dict with a value |
| `Utils.ZipDictsGet` | utils.py:6 | a key is in the join exactly when it is in the first dict and its value in the second exists and is not `None`; it maps to both values |
| `Utils.ZipPresentGet` | fix-params.py:87 | the pairs the rules visit are exactly the declared parameters that are also documented, each with its declaration and its docstring entry |
| `Utils.ZipDictsDistinct` | utils.py:6 | the join of a dict with distinct keys has distinct keys |
| `Utils.IndexLines` | utils.py:8 | the line starts are 0 and exactly the offsets right after a line feed, strictly ascending, one more than the number of line feeds |
| `Utils.IndexLinesCount` | utils.py:8 | entry `k` of the table is preceded by exactly `k` line feeds, so it is the start of line `k` |
| `Utils.ApplyCleanupsSplit` | utils.py:38 | the fold applies the clean-ups in list order: a concatenated list runs its first part, then its second |
| `Utils.CleanupTypeLastStep` | utils.py:38 | the float/int clean-up runs last, on the result of all the others |
| `Utils.CleanupStripsOptional` | utils.py:13-14 | a trailing `, optional` and then a trailing ` \| None` are dropped by the first two clean-ups |
| `Utils.OrBecomesComma` | utils.py:31 | `int or str` becomes `int, str` |
| `Utils.ReplaceWhole` | utils.py:35 | a string replaced as a whole becomes the replacement |
| `Utils.FloatOrIntBecomesFloat` | utils.py:35 | `float \| int` becomes `float` |
| `Utils.IntOrFloatBecomesFloat` | utils.py:35 | `int \| float` becomes `float` |
| `EditBuffer.EditLessIrreflexive` | file.py:51 | no edit sorts before itself under the tuple order `bisect` uses |
| `EditBuffer.EditLessTransitive` | file.py:51 | the tuple order on `(start, stop, replacement)` is transitive |
| `EditBuffer.EditLessTotal` | file.py:51 | of two distinct edits one sorts before the other |
| `EditBuffer.EditLessAsymmetric` | file.py:51 | two edits never sort before each other |
| `EditBuffer.NotLessIsLeq` | file.py:51 | "not after" is "before or equal" |
| `EditBuffer.EditLeqLessTransitive` | file.py:51 | before-or-equal followed by before is before |
| `EditBuffer.EditLeqTransitive` | file.py:51 | before-or-equal is transitive |
| `EditBuffer.ValidDisjoint` | file.py:52-53 | in a valid edit list the ranges of any two distinct entries do not overlap |
| `EditBuffer.InsertionPoint` | file.py:51 | `bisect_right`: no entry before the insertion point sorts after the new edit, and the entry at it does |
| `EditBuffer.InsertionPointSplits` | file.py:51 | in a sorted list the insertion point splits the entries into those not after the edit and those after it |
| `EditBuffer.RegisterInserts` | file.py:54 | an accepted edit is inserted at one position: the entries before and after it are unchanged |
| `EditBuffer.RegisterAdds` | file.py:54 | an accepted registration adds exactly the new edit to the list |
| `EditBuffer.RegisterValid` | file.py:48-54 | an accepted registration keeps the list sorted, well formed and pairwise disjoint |
| `EditBuffer.RegisterAccepts` | file.py:49-53 | an edit is accepted exactly when its start is not past its stop and it overlaps no registered edit (touching is allowed) |
| `EditBuffer.RegisterAcceptsDisjoint` | file.py:52-53 | a well-formed edit disjoint from every registered edit passes both neighbour checks |
| `EditBuffer.RegisteredApart` | file.py:52-53 | an accepted edit is disjoint from every edit registered before it, not only from its neighbours |
| `EditBuffer.RegisterAllAppend` | file.py:48-54 | registering two batches in turn is registering their concatenation, stopping at the first failure |
| `EditBuffer.RegisterAllCons` | file.py:48-54 | a successful batch accepts its first edit, then registers the rest |
| `EditBuffer.RegisterAllSound` | file.py:48-54 | a successful batch leaves a valid list holding exactly the old edits and the new ones |
| `EditBuffer.RegisterAllComplete` | file.py:48-54 | if the old and new edits together can form a valid list, registering the new ones in any order succeeds |
| `EditBuffer.RegisterAllOrderIndependent` | file.py:48-54 | the outcome of registering a batch (the list, or the failure) does not depend on the registration order |
| `EditBuffer.RegisterAllErr` | file.py:49-53 | the only failure of registration is `AssertionError` |
| `EditBuffer.SortedUnique` | file.py:51 | two sorted lists with the same elements are equal: the list is determined by its contents |
| `EditBuffer.ValidFits` | file.py:52-53 | a valid list whose stops lie inside the text tiles the text from front to back |
| `EditBuffer.ApplyReversedPrefix` | file.py:62-63 | edits that lie inside a prefix of the text leave the rest of the text untouched |
| `EditBuffer.ApplyIsRebuild` | file.py:62-63 | applying the edits back to front gives the unedited gaps of the original interleaved, in order, with the replacements |
| `EditBuffer.ApplyOrderIndependent` | file.py:57-63 | the rewritten text does not depend on the order in which the edits were registered |
| `EditBuffer.RegisterTouching` | file.py:52-53 | an edit that starts where another stops is accepted |
| `EditBuffer.RegisterSameOffset` | file.py:52-53 | two insertions at the same offset are accepted in either order |
| `EditBuffer.RegisterRejects` | file.py:49-53 | overlapping ranges and a start past the stop raise `AssertionError` |
| `Syntax.NamesAllAppend` | file.py:142 | the names of a concatenation of sub-expressions are the union of their names |
| `Syntax.FirstSegment` | file.py:122 | `name.split('.')[0]` is a dot-free prefix of the name, followed by a dot or the end |
| `Syntax.ClassNamesWalk` | file.py:101-103 | a name is exported exactly when some class definition at any depth of the tree has that name |
| `Syntax.NodeClassNamesWalk` | file.py:101-103 | the same for one statement and everything below it |
| `Syntax.BoundNamesIn` | file.py:122 | a name is bound by an import exactly when one of its aliases binds it |
| `Syntax.ImportedNamesWalk` | file.py:105-124 | a name is imported exactly when some plain import, or `from` import that is neither from `__future__` nor a star import, at any depth binds it by its `as` name or first segment, or when it is a `typing` name and the tree has `from typing import *`; other star imports bind nothing |
| `Syntax.NodeImportedNamesWalk` | file.py:105-124 | the same for one statement and everything below it |
| `Syntax.TopLevelImportLines` | file.py:128-132 | the candidate lines are the end lines of exactly the top-level `import` and `from` statements |
| `Imports.Visit` | file.py:145-164 | the rewrite only ever removes names from the pending set |
| `Imports.VisitAll` | file.py:154 | visiting the children keeps their number and only removes pending names |
| `Imports.VisitNames` | file.py:145-164 | the rewritten expression uses only names of the original, names in scope, or pending names |
| `Imports.VisitAllNames` | file.py:154 | the same for a list of children |
| `Imports.VisitKeeps` | file.py:150-161 | a name of the expression that stays pending is still used by the rewritten expression |
| `Imports.VisitAllKeeps` | file.py:154 | the same for a list of children |
| `Imports.ResolveAsWritten` | file.py:136-175 | as written, the names queued for import come from the expression and are not already available |
| `Imports.ResolveAsWrittenDropsUsedName` | file.py:148-152 | as written, `foo.bar \| foo.baz` with `bar` in scope becomes `bar \| foo.baz`, but `foo` is neither in scope nor queued |
| `Imports.LaterRewriteDependsOnQueue` | file.py:141-152 | the queue left by one annotation changes how the next is rewritten: after the `foo.bar \| foo.baz` case the code queues nothing and the corrected resolver queues `foo`, and `x.foo` then stays `x.foo` (queueing `x`) against the code's set but becomes `foo` against the corrected one |
| `Imports.ResolveAsWrittenKeepsUsed` | file.py:150-161 | every name the code leaves queued is still used by the rewritten expression |
| `Imports.Resolve` | file.py:136-175 | the corrected resolver rewrites the expression exactly as the code does; every name of the result is in scope or queued; queued names come from the expression and were not available; the code's queue is a subset of its queue |
| `Imports.VisitAttributeRule` | file.py:148-152 | `a.b` becomes `b` whenever `b` is in scope or still pending, and `a` leaves the pending set |
| `Imports.VisitTypingRule` | file.py:157-162 | a name not in scope that `typing` exports becomes `typing.X` whenever `typing` is in scope or still pending, and `X` leaves the pending set |
| `Imports.ResolvePendingExamples` | file.py:141-162 | the rules also fire on the expression's own new names: with nothing in scope `bar \| foo.bar` becomes `bar \| bar`, and `typing.Any \| List` becomes `typing.Any \| typing.List` queueing only `typing` |
| `Imports.ResolveAttributeInScope` | file.py:148-152 | `a.b` with `b` available and `a` not becomes plain `b` and queues nothing |
| `Imports.ResolveTypingName` | file.py:158-162 | a missing `typing` name becomes `typing.X` when `typing` is available |
| `Imports.ResolveUnknownName` | file.py:158-164 | any other missing name is kept and queued |
| `Imports.DefiningModulesStep` | file.py:182-187 | adding a file adds its classes and overrides earlier definitions of them |
| `Imports.DefiningModulesDomain` | file.py:182-187 | a name is mapped exactly when some file with a module name defines a class of that name |
| `Imports.DefiningModulesLastWins` | file.py:182-187 | a name maps to the module of the last file that defines it |
| `Imports.ImportStatementFor` | file.py:188-194 | `np` gets `import numpy as np`; a project class gets `from <module> import`, even over `typing`; any other `typing` name gets `from typing import`; any other name gets no statement |
| `Imports.ImportStatementFrom` | file.py:190-193 | the statement table has exactly the keys of the module table, each with its `from ... import` line |
| `Imports.StatementLines` | file.py:212-213 | building the import lines raises `KeyError` exactly when some name has no statement |
| `Imports.ImportBlockExample` | file.py:210-218 | the unguarded imports come first in sorted order, then `if <flag>:` and the indented guarded ones |
| `Imports.Max` | file.py:128-132 | `max` returns an element of the list that no element exceeds |
| `Imports.OffsetForAddingImports` | file.py:127-134 | `ValueError` exactly when the module has no top-level import; otherwise only `IndexError` can arise |
| `Imports.OffsetIsLineStart` | file.py:127-134 | the offset exists exactly when the text has a line after the last import, and it is the start of that line |
| `Imports.LastDot` | file.py:33 | finds the last dot of a name, or reports that it has none |
| `Imports.ModuleName` | file.py:30-33 | a file has a module name exactly when its path starts with `manim` |
| `Imports.ModuleNameOfPyFile` | file.py:30-33 | the module name of `d1/.../dn/x.py` is `d1. ... .dn.x` when `d1` is `manim`, and there is none otherwise |
| `Imports.StemOfPy` | file.py:33 | `with_suffix('')` drops the `.py` of a file name |
| `Imports.ModuleNameExample` | file.py:30-33 | `manim/camera/camera.py` is `manim.camera.camera`; `scripts/a.py` has no module name |
| `SourceFile.ImportsEdit` | file.py:209-221 | the import edit exists exactly when the block builds and the offset exists; it is an insertion at that offset |
| `SourceFile.File.constructor` | file.py:15-20 | a new file has its text, no edits and no pending imports |
| `SourceFile.File.RegisterModification` | file.py:48-54 | the new edit list is the registration's result on success; on `AssertionError` nothing changes; validity is kept |
| `SourceFile.File.ApplyModifications` | file.py:57-70 | the new text is the back-to-front application, equal to the front-to-back rebuild; the edit list is emptied; the result says whether anything was pending |
| `SourceFile.File.AddImportsForExpression` | file.py:136-175 | returns the unparsed rewrite, the same text as the code's resolver gives, and queues the corrected resolver's names (`Imports.Resolve`): names of the expression, none of them builtin, imported, exported or already queued, and including every name the code queues |
| `SourceFile.File.RegisterImportsModification` | file.py:177-223 | does nothing without pending names; otherwise the new edit list is the one `File.ImportsRegistered` computes: the import block registered at the offset, with `TYPE_CHECKING` resolved first when some name is circular; on success nothing is pending |
| `SourceFile.File.ResolveFlag` | file.py:197-198 | the flag is resolved, and its imports queued, exactly when some pending name is circular |
| `SourceFile.File.RegisterImportBlock` | file.py:209-223 | success exactly when the import edit exists and is accepted; then the list gains it and the pending names are cleared |
| `SourceFile.SplitByCircularity` | file.py:201-207 | the names split into the circular ones and the rest |
| `SourceFile.BuildStatementLines` | file.py:212-213 | the loop builds exactly the sorted statement lines, or the `KeyError` |
| `SourceFile.BuildImportBlock` | file.py:210-218 | the loop builds exactly the specified import block |
| `SourceFile.StatementLinesPrefixErr` | file.py:212-213 | a `KeyError` among the first names is the result for the whole list |
| `Functions.QuotedText` | func.py:49-53 | a missing triple quote raises only `IndexError` or `AssertionError`; success always gives a span |
| `Functions.QuotedTextQuoted` | func.py:49-53 | the span lies inside the text, preceded and followed by `"""`, and starts after the quotes, past an `r` prefix when there is one, and stops three characters before the literal's end |
| `Functions.NodeSpan` | func.py:47-48 | a node's offset is its line's start plus its column; a line outside the table is an `IndexError` |
| `Functions.DocstringPosition` | func.py:43-53 | `None` exactly when there is no docstring node; the errors are `IndexError` and `AssertionError` |
| `Functions.DocstringPositionQuoted` | func.py:43-53 | the docstring body sits between triple quotes, starts three or four columns after the node and stops three characters before the node's end offset |
| `Functions.DocArgs` | func.py:71-96 | no section gives `{}`; otherwise success exactly when no name repeats, with one entry per match, in order, built from its match |
| `Functions.DocArgsTile` | func.py:86-95 | the entry ranges tile the section: each ends where the next match starts, the last at the section's end |
| `Functions.Zip` | func.py:117 | `zip` pairs the items position by position, as long as the shorter list |
| `Functions.PositionalDefaultsAt` | func.py:117 | the defaults belong to the last positional parameters; the first ones get `None` |
| `Functions.DefaultsAlign` | func.py:116-121 | the parameter list is positional, `*args`, keyword-only, `**kwargs`, each with its own default |
| `Functions.FuncArgForPosition` | func.py:124-140 | an annotated parameter always gives an entry with its annotation, its default and the `(-1, -1)` placeholder; an unannotated one must sit on one line and gets an empty range right after its name |
| `Functions.FuncArgs` | func.py:113-141 | the loop builds exactly the specified parameter dict |
| `Functions.BuildFuncArgsErr` | func.py:133 | the first failing parameter decides the result |
| `Functions.BuildFuncArgsStep` | func.py:123-141 | adding one more distinct parameter appends its entry |
| `Functions.BuildFuncArgsEntries` | func.py:123-141 | with distinct names, success exactly when every parameter builds; then entry `i` is parameter `i` |
| `Functions.DeleteAnnotation` | func.py:152-153 | registers the deletion of the `: type` part |
| `Functions.RenameInDocstring` | func.py:155-156 | registers the replacement of the name |
| `Functions.DeleteFromDocstring` | func.py:158-159 | registers the deletion of the whole entry |
| `Functions.SetAnnotation` | func.py:169-170 | registers the insertion of `: <type>` |
| `Functions.RenameDocArgEffect` | func.py:98-101 | the rename succeeds exactly when the new name is absent, the old one present and its edit fits; the entry moves to the new key and the edit is added |
| `Functions.DeleteDocArgEffect` | func.py:103-111 | a missing name is a `KeyError`; deleting the last entry also deletes the section header and footer; the entry goes and its edit is added |
| `Functions.Func.constructor` | func.py:15-25 | a new function holds its file, name, parameters and docstring entries |
| `Functions.Func.RenameDocArg` | func.py:98-101 | the new docstring entries and edit list are those the rename specifies; a failure changes neither |
| `Functions.Func.DeleteDocArg` | func.py:103-111 | the new docstring entries and edit list are those the deletion specifies |
| `FixParams.MarkerText` | fix-params.py:75 | the marker is a new line indented four columns deeper, ending in `# TODO TYPEHINTS` |
| `FixParams.UnknownArgStepEffect` | fix-params.py:60-76 | a declared name is left alone; a table entry renames or deletes; a missing entry adds only the marker edit |
| `FixParams.UnknownArgsKeepsDeclared` | fix-params.py:59-60 | no declared parameter's docstring entry is changed |
| `FixParams.UnknownArgsKeepsItsInvariant` | fix-params.py:57-76 | the loop keeps the entries distinct and the edit list valid |
| `FixParams.FixUnknownArgsOf` | fix-params.py:59-76 | the function's new state is the one the loop over the snapshot specifies |
| `FixParams.FixUnknownArgs` | fix-params.py:54-80 | every function's edit list stays valid, and no file's text or imports change |
| `FixParams.AllComparableCons` | fix-params.py:89-97 | all pairs pass the check exactly when the first does and the rest do |
| `FixParams.RedundantTypesDeletes` | fix-params.py:87-99 | either every doubly-typed parameter passes the comparison and its docstring types are deleted in order, or `AssertionError` |
| `FixParams.FixRedundantTypesOf` | fix-params.py:87-101 | the file's new edit list is the one specified; the only error is `AssertionError` |
| `FixParams.DeleteRedundantTypes` | fix-params.py:86-101 | one function's pass keeps the file's edit list valid and its text and imports unchanged |
| `FixParams.FixRedundantTypes` | fix-params.py:84-103 | every edit list stays valid; no text or pending import changes |
| `FixParams.ConvertedTypeCases` | fix-params.py:116-124 | the annotation is the cleaned type or its special case, plus ` \| None` when the default is `None`; it is empty only when the replacement is |
| `FixParams.Annotation` | fix-params.py:114-130 | no annotation for `kwargs` or an empty type; otherwise `: <rewritten type>` at the annotation position, the same text as the code's resolver gives, with every name in scope, pending or queued, and the queued names new, from the type, and including the code's |
| `FixParams.AddAnnotationEffect` | fix-params.py:127-130 | adding the annotation adds its edit and its queued names and keeps the list valid |
| `FixParams.DeleteDocTypeEffect` | fix-params.py:133 | deleting the docstring type adds exactly that edit |
| `FixParams.NoAnnotationStepEffect` | fix-params.py:112-133 | a parameter not needing the rule is untouched; otherwise the annotation (if any) and the type deletion are added |
| `FixParams.NoAnnotationsEffect` | fix-params.py:110-135 | the pass only adds edits and queued names, and deletes the docstring type of every parameter it annotates |
| `FixParams.GrowsTransitive` | fix-params.py:110-135 | two passes that each only add edits and names compose |
| `FixParams.NoAnnotationStepGrows` | fix-params.py:112-133 | one step only adds, and a parameter that needs the rule gets its docstring type deleted |
| `FixParams.FixNoAnnotation` | fix-params.py:112-133 | the file's new edit list and pending names are the ones the step specifies |
| `FixParams.FixNoAnnotationsOf` | fix-params.py:110-135 | the file's new state is the one the pass specifies; validity is kept and pending names only grow |
| `FixParams.AnnotateAll` | fix-params.py:110-135 | the pass keeps the list valid, only adds pending names, and leaves the text alone |
| `FixParams.FixNoAnnotations` | fix-params.py:107-137 | every edit list stays valid, pending names only grow, and no text changes |
| `FixParams.RegisterImportsOf` | fix-params.py:47 | success or nothing pending leaves no pending names, with one more edit when names were pending |
| `FixParams.RegisterImportsForAll` | fix-params.py:46-47 | after the loop no file has pending names; no text changes |
| `FixParams.CountPending` | fix-params.py:48 | at most one count per file |
| `FixParams.CountPendingIsSize` | fix-params.py:48 | the count is the number of files with pending edits |
| `FixParams.ApplyPending` | fix-params.py:48 | the file's text becomes the back-to-front application of its edits, which are cleared |
| `FixParams.ApplyAll` | fix-params.py:48 | every file is rewritten from its old text and edits, and the result is the number of files that had edits |
| `FixParams.WithParameters` | fix-params.py:31 | exactly the functions with documented parameters are selected |
| `FixParams.WithParametersCount` | fix-params.py:31 | a selected function occurs as often as in the list, any other not at all |
| `FixParams.WithParametersAppend` | fix-params.py:31 | the selection keeps the order of the list: selecting from a concatenation is concatenating the selections |
| `FixParams.WithParameterTypes` | fix-params.py:34 | exactly the functions with some documented type are selected |
| `FixParams.WithParameterTypesCount` | fix-params.py:34 | a function with a documented type occurs as often as in the list, any other not at all |
| `FixParams.WithParameterTypesAppend` | fix-params.py:34 | this selection keeps the order of the list too |
| `FixParams.Run` | fix-params.py:38-48 | on success every file's edits and pending imports have been flushed |

## Left out

- Reading and writing files, the argument parser, and the `README.md` check of `main` (fix-params.py:17-28) are I/O. A file's text is given to `SourceFile.File.constructor`.
- The write-back itself, including the `\r\n` newline detection (file.py:64-67), is not modelled; `ApplyModifications` stops at the new text.
- The `""" ""` patch of `contents` (file.py:39) is text given as input.
- Dropping the cached properties after a write (file.py:71-73) is not modelled. The model never reads a derived property after the write.
- `ast.parse` and `ast.unparse` are not modelled: the parser is a parameter, and expressions are a small tree whose text is explicit.
- The regular-expression scans of docstrings are given as spans: `find_docstring_section` (func.py:55-69) as a `Section`, the parameter-line matches of `doc_args` (func.py:81-82) as `ParamMatch` values.
- The `re.sub` steps of `TYPE_CLEANUPS` are a given function, indexed by position in the list.
- `has_docstring`, `docstring` and `__str__` (func.py:27-40) only read the tree or build messages, and are not modelled.
- `File.functions` (file.py:79-98) collects `Func` objects from the tree; the model takes the list of functions as input.
- The hand-maintained tables in special_cases.py are parameters (`FixParams.Env`).
- `builtins` and `dir(typing)` are parameters (`SourceFile.Scope`).
- The counters and `print` calls only report progress, and are not modelled.
- `FixParams.FixUnknownArgs`, `FixParams.FixRedundantTypes`, `FixParams.FixNoAnnotations`: state only the invariants across all functions; each function's full effect is stated by `FixUnknownArgsOf`, `FixRedundantTypesOf` and `FixNoAnnotationsOf`.
- `FixParams.RegisterImportsOf`, `FixParams.RegisterImportsForAll`: state that pending names are cleared and that texts and valid edit lists stay so, not the edit list each file gains. That list is stated for one file by `SourceFile.File.RegisterImportsModification` through `SourceFile.File.ImportsRegistered`; carrying it through the loop over all files is beyond the resource limit of the proof.
- `FixParams.Run`: states neither the rewritten texts nor the count of rewritten files. `FixParams.ApplyAll` states both for the writing phase, and the edits each rule registers are stated by the `...Of` methods.
- `SourceFile.File.AddImportsForExpression`, `FixParams.Annotation`, `FixParams.NoAnnotationStepEffect`, `FixParams.FixNoAnnotation`, `FixParams.FixNoAnnotationsOf`, `FixParams.AnnotateAll`, `FixParams.FixNoAnnotations`, `FixParams.Run`: queue the names of the corrected resolver `Imports.Resolve`, not the code's `Imports.ResolveAsWritten`. For one call from the same queue the annotation text is the code's, and the corrected queue also holds any name the code drops while the annotation still uses it (`foo.bar \| foo.baz` with `bar` in scope queues `foo`, where the code queues nothing). Because each annotation is resolved against what is in scope plus the queue so far, once the code has dropped a still-used name the later annotations of the same file can be rewritten differently from the code: after that example, a parameter documented `x.foo` is annotated `x.foo` by the code (queueing `x`) but `foo` by the model (queueing nothing), as `Imports.LaterRewriteDependsOnQueue` shows. So the texts stated by `FixParams.NoAnnotationStepEffect`, `FixParams.FixNoAnnotation` and `FixParams.FixNoAnnotationsOf` are the code's only as long as the code has dropped no still-used name in that file. See "## Findings".
- `FixParams.DeleteRedundantTypes`, `FixParams.AnnotateAll`: wrappers that state only validity and framing; their effect is stated by the `...Of` methods they call.

## Findings

| source | as written | input that shows it | evidently intended | confidence | as-written member | corrected member |
|---|---|---|---|---|---|---|
| utils.py:5 | `text[:-len(suffix)]` with an empty suffix is `text[:0]`, the empty string | `remove_suffix("int", "")` returns `""` | the text is returned unchanged | not executed; every suffix the code passes is non-empty | `Utils.RemoveSuffixAsWrittenEmptySuffix` | `Utils.RemoveSuffix` (with `Utils.RemoveSuffixAgrees`) |
| file.py:148-152 | rewriting `foo.bar` to `bar` removes `foo` from `to_import`, even when `foo` is still used elsewhere in the expression | `foo.bar \| foo.baz` with `bar` in scope gives `bar \| foo.baz`, and `foo` is neither in scope nor queued | a name leaves the queue only when the rewritten expression no longer uses it | not executed | `Imports.ResolveAsWrittenDropsUsedName` | `Imports.Resolve` |
