/** A source file of the project being refactored: its text, the edits
    registered against that text, and the names its new annotations need
    imported. The text changes only when the edits are applied; until then
    every offset computed from it stays valid. */
module SourceFile {
  import opened Wrappers
  import opened PyText
  import opened Utils
  import opened EditBuffer
  import opened Syntax
  import opened Imports

  /** A relative path, as its non-empty list of components. */
  type Path = p: seq<string> | |p| > 0 witness ["x"]

  /** The names the interpreter provides: the builtins and `dir(typing)`. */
  datatype Scope = Scope(builtins: set<string>, typingNames: set<string>)

  /** The expression `TYPE_CHECKING`, whose import guards circular imports. */
  const TypeCheckingFlag: Expr := Name("TYPE_CHECKING")

  /** The edit register_imports_modification registers: the import block
      for the pending names, inserted at the offset after the last import. */
  function ImportsEdit(pending: set<string>, fileName: string, circular: set<(string, string)>,
                       stmts: map<string, string>, flag: string, tree: Module, lineOffsets: seq<nat>): (r: Result<Edit>)
    ensures r.Ok? <==> ImportBlock(pending - Guarded(pending, fileName, circular), Guarded(pending, fileName, circular), stmts, flag).Ok?
                       && OffsetForAddingImports(tree, lineOffsets).Ok?
    ensures r.Ok? ==> r.value.pos.start == r.value.pos.stop == OffsetForAddingImports(tree, lineOffsets).value
  {
    var guarded := Guarded(pending, fileName, circular);
    var block := ImportBlock(pending - guarded, guarded, stmts, flag);
    if block.Err? then Err(block.error)
    else
      var offset := OffsetForAddingImports(tree, lineOffsets);
      if offset.Err? then Err(offset.error)
      else Ok(Edit(Range(offset.value, offset.value), block.value))
  }

  class File {
    const relativePath: Path
    /** `ast.parse`, which is not modelled. */
    const parse: string -> Module
    var contents: string
    var modifications: seq<Edit>
    var toImport: set<string>

    constructor(relativePath: Path, parse: string -> Module, contents: string)
      ensures this.relativePath == relativePath && this.parse == parse && this.contents == contents
      ensures modifications == [] && toImport == {}
    {
      this.relativePath := relativePath;
      this.parse := parse;
      this.contents := contents;
      modifications := [];
      toImport := {};
    }

    /** The edit list keeps its invariant. */
    predicate Valid()
      reads this`modifications
    {
      EditBuffer.Valid(modifications)
    }

    /** `name`: the relative path with forward slashes. */
    function Name(): string
    {
      FileName(relativePath)
    }

    /** `module_name` */
    function ModuleName(): Option<string>
    {
      Imports.ModuleName(relativePath)
    }

    /** `ast`, the syntax tree of the current text. */
    function Tree(): Module
      reads this`contents
    {
      parse(contents)
    }

    /** `exports`: the classes defined anywhere in the file. */
    function Exports(): set<string>
      reads this`contents
    {
      ClassNames(Tree().body)
    }

    /** `imports`: the names the file's import statements bind. */
    function ImportedNames(typingNames: set<string>): set<string>
      reads this`contents
    {
      Syntax.ImportedNames(Tree().body, typingNames)
    }

    /** `line_offsets` */
    function LineOffsets(): seq<nat>
      reads this`contents
    {
      IndexLines(contents)
    }

    /** `offset_for_adding_imports` */
    function OffsetForAddingImports(): Result<nat>
      reads this`contents
    {
      Imports.OffsetForAddingImports(Tree(), LineOffsets())
    }

    function Summary(): Exporter
      reads this`contents
    {
      Exporter(ModuleName(), Exports())
    }

    /** What is in scope for an annotation added to this file. */
    function InScope(scope: Scope): set<string>
      reads this`contents, this`toImport
    {
      scope.builtins + ImportedNames(scope.typingNames) + Exports() + toImport
    }

    /** register_modification: the change `contents[start:stop] = replacement`
        is recorded for later; a reversed range and a range that overlaps a
        neighbour fail an assertion and change nothing. */
    method RegisterModification(position: Range, replacement: string) returns (r: Result<()>)
      modifies this
      ensures r.Ok? <==> Register(old(modifications), Edit(position, replacement)).Ok?
      ensures r.Ok? ==> modifications == Register(old(modifications), Edit(position, replacement)).value
      ensures r.Err? ==> r.error == AssertionError && modifications == old(modifications)
      ensures old(Valid()) ==> Valid()
      ensures contents == old(contents) && toImport == old(toImport)
    {
      var e := Edit(position, replacement);
      if !(position.start <= position.stop) {
        return Err(AssertionError);
      }
      var index := InsertionPoint(modifications, e);
      if !(index == |modifications| || position.stop <= modifications[index].pos.start) {
        return Err(AssertionError);
      }
      if !(index == 0 || modifications[index - 1].pos.stop <= position.start) {
        return Err(AssertionError);
      }
      if Valid() {
        RegisterValid(modifications, e);
      }
      modifications := modifications[..index] + [e] + modifications[index..];
      return Ok(());
    }

    /** apply_modifications: nothing happens without edits; otherwise the
        edits are spliced into the text from the last to the first and the
        list is emptied. The result says whether the file is rewritten. */
    method ApplyModifications() returns (written: bool)
      modifies this
      ensures written <==> old(modifications) != []
      ensures contents == ApplyReversed(old(contents), old(modifications))
      ensures old(Valid()) && InBounds(old(contents), old(modifications))
              ==> Fits(old(modifications), 0, |old(contents)|)
                  && contents == Rebuild(old(contents), old(modifications), 0, |old(contents)|)
      ensures modifications == [] && toImport == old(toImport)
    {
      if modifications == [] {
        return false;
      }
      var text := contents;
      var k := |modifications|;
      assert modifications[..k] == modifications;
      while k > 0
        invariant 0 <= k <= |modifications|
        invariant ApplyReversed(text, modifications[..k]) == ApplyReversed(contents, modifications)
        decreases k
      {
        assert modifications[..k][..k - 1] == modifications[..k - 1];
        k := k - 1;
        text := Splice(text, modifications[k]);
      }
      if Valid() && InBounds(contents, modifications) {
        ValidFits(modifications, 0, |contents|);
        ApplyIsRebuild(contents, modifications);
      }
      contents := text;
      modifications := [];
      return true;
    }

    /** add_imports_for_expression: the annotation rewritten to reuse names
        in scope, with its other names added to the pending imports. */
    method AddImportsForExpression(expression: Expr, scope: Scope) returns (r: string)
      modifies this
      ensures var res := Resolve(expression, old(InScope(scope)), scope.typingNames);
        r == Unparse(res.0) && toImport == old(toImport) + res.1
      ensures var w := ResolveAsWritten(expression, old(InScope(scope)), scope.typingNames);
        r == Unparse(w.0) && w.1 <= toImport - old(toImport)
      ensures old(toImport) <= toImport
      ensures toImport - old(toImport) <= Names(expression)
      ensures (toImport - old(toImport)) !! scope.builtins + ImportedNames(scope.typingNames) + Exports()
      ensures contents == old(contents) && modifications == old(modifications)
    {
      var already := InScope(scope);
      var res := Resolve(expression, already, scope.typingNames);
      if res.1 != {} {
        toImport := toImport + res.1;
      }
      r := Unparse(res.0);
    }

    /** Some pending name would be imported circularly. */
    predicate Flagged(circular: set<(string, string)>)
      reads this`toImport
    {
      exists n :: n in toImport && (Name(), n) in circular
    }

    /** The edit list register_imports_modification leaves, or nothing when
        it fails: unchanged without pending names; otherwise, with
        `TYPE_CHECKING` resolved when some pending name would be imported
        circularly, the import block of the pending names registered after
        the last import. */
    function ImportsRegistered(allFiles: seq<Exporter>, circular: set<(string, string)>, scope: Scope): Option<seq<Edit>>
      reads this`contents, this`modifications, this`toImport
    {
      if toImport == {} then Some(modifications)
      else
        var flagged := Flagged(circular);
        var res := Resolve(TypeCheckingFlag, InScope(scope), scope.typingNames);
        var pending := if flagged then toImport + res.1 else toImport;
        var flag := if flagged then Unparse(res.0) else "";
        var edit := ImportsEdit(pending, Name(), circular, ImportStatements(allFiles, scope.typingNames),
                                flag, Tree(), LineOffsets());
        if edit.Ok? && Register(modifications, edit.value).Ok? then Some(Register(modifications, edit.value).value)
        else None
    }

    /** register_imports_modification: nothing happens without pending
        names. Otherwise `TYPE_CHECKING` is resolved when some name would be
        imported circularly, the names are split into guarded and unguarded,
        the import block is built and registered as one insertion after the
        last import, and nothing is pending any more. */
    method RegisterImportsModification(allFiles: seq<Exporter>, circular: set<(string, string)>, scope: Scope)
      returns (r: Result<()>)
      modifies this
      ensures old(toImport) == {} ==> r == Ok(()) && modifications == old(modifications) && toImport == {}
      ensures var spec := old(ImportsRegistered(allFiles, circular, scope));
        (r.Ok? <==> spec.Some?) && (r.Ok? ==> modifications == spec.value && toImport == {})
      ensures r.Err? ==> modifications == old(modifications)
      ensures old(Valid()) ==> Valid()
      ensures contents == old(contents)
    {
      if toImport == {} {
        return Ok(());
      }
      ghost var flagged := Flagged(circular);
      ghost var res := Resolve(TypeCheckingFlag, InScope(scope), scope.typingNames);
      ghost var pending := if flagged then toImport + res.1 else toImport;
      var stmts := ImportStatements(allFiles, scope.typingNames);
      ghost var edit := ImportsEdit(pending, Name(), circular, stmts, if flagged then Unparse(res.0) else "", Tree(), LineOffsets());
      assert ImportsRegistered(allFiles, circular, scope)
          == if edit.Ok? && Register(modifications, edit.value).Ok? then Some(Register(modifications, edit.value).value) else None;
      var flag := ResolveFlag(circular, scope);
      assert edit == ImportsEdit(toImport, Name(), circular, stmts, flag, Tree(), LineOffsets());
      r := RegisterImportBlock(stmts, flag, circular);
    }

    /** The first step of register_imports_modification: when some pending
        name would be imported circularly, `TYPE_CHECKING` is resolved like
        an annotation, which may add it to the pending names. */
    method ResolveFlag(circular: set<(string, string)>, scope: Scope) returns (flag: string)
      modifies this
      ensures var flagged := old(Flagged(circular));
        var res := Resolve(TypeCheckingFlag, old(InScope(scope)), scope.typingNames);
        toImport == (if flagged then old(toImport) + res.1 else old(toImport))
        && flag == (if flagged then Unparse(res.0) else "")
      ensures contents == old(contents) && modifications == old(modifications)
    {
      flag := "";
      if Flagged(circular) {
        flag := AddImportsForExpression(TypeCheckingFlag, scope);
      }
    }

    /** The rest of register_imports_modification: the pending names split by
        circularity, the import block built from them and registered after
        the last import, and nothing pending any more. */
    method RegisterImportBlock(stmts: map<string, string>, flag: string, circular: set<(string, string)>)
      returns (r: Result<()>)
      modifies this
      ensures var edit := ImportsEdit(old(toImport), Name(), circular, stmts, flag, old(Tree()), old(LineOffsets()));
        (r.Ok? <==> edit.Ok? && Register(old(modifications), edit.value).Ok?)
        && (r.Ok? ==> modifications == Register(old(modifications), edit.value).value && toImport == {})
      ensures r.Err? ==> modifications == old(modifications)
      ensures old(Valid()) ==> Valid()
      ensures contents == old(contents)
    {
      var namesToImport, namesToGuard := SplitByCircularity(toImport, Name(), circular);
      var block := BuildImportBlock(namesToImport, namesToGuard, stmts, flag);
      if block.Err? {
        return Err(block.error);
      }
      var imports := block.value;

      // register the block after the last import
      var offset := OffsetForAddingImports();
      if offset.Err? {
        return Err(offset.error);
      }
      r := RegisterModification(Range(offset.value, offset.value), imports);
      if r.Err? {
        return r;
      }
      toImport := {};
    }
  }

  /** The partition loop of register_imports_modification: the names whose
      import from `fileName` would be circular, and the rest. */
  method SplitByCircularity(names: set<string>, fileName: string, circular: set<(string, string)>)
    returns (unguarded: set<string>, guarded: set<string>)
    ensures guarded == Guarded(names, fileName, circular)
    ensures unguarded == names - guarded
  {
    unguarded, guarded := {}, {};
    var rest := names;
    while rest != {}
      invariant rest <= names
      invariant guarded == Guarded(names - rest, fileName, circular)
      invariant unguarded == (names - rest) - guarded
      decreases rest
    {
      var n :| n in rest;
      if (fileName, n) in circular {
        guarded := guarded + {n};
      } else {
        unguarded := unguarded + {n};
      }
      rest := rest - {n};
    }
  }

  /** One of the loops that append import statements, in the given order,
      each after `indent`; a name without a statement raises KeyError. */
  method BuildStatementLines(names: seq<string>, stmts: map<string, string>, indent: string)
    returns (r: Result<string>)
    ensures r == StatementLines(names, stmts, indent)
  {
    var text := "";
    for k := 0 to |names|
      invariant StatementLines(names[..k], stmts, indent) == Ok(text)
    {
      assert names[..k + 1][..k] == names[..k];
      if names[k] !in stmts {
        assert names[..k + 1][k] !in stmts;
        StatementLinesPrefixErr(names, k + 1, stmts, indent);
        return Err(KeyError);
      }
      text := text + indent + stmts[names[k]];
    }
    assert names[..|names|] == names;
    return Ok(text);
  }

  /** The text register_imports_modification builds: the sorted unguarded
      statements, then the guard and the sorted guarded statements. */
  method BuildImportBlock(unguarded: set<string>, guarded: set<string>, stmts: map<string, string>, flag: string)
    returns (r: Result<string>)
    ensures r == ImportBlock(unguarded, guarded, stmts, flag)
  {
    r := BuildStatementLines(Sorted(unguarded), stmts, "");
    if r.Err? || guarded == {} {
      return;
    }
    var guardedLines := BuildStatementLines(Sorted(guarded), stmts, "    ");
    if guardedLines.Err? {
      return guardedLines;
    }
    r := Ok(r.value + "if " + flag + ":\n" + guardedLines.value);
  }

  /** A name without a statement in a prefix makes the whole list fail. */
  lemma StatementLinesPrefixErr(names: seq<string>, k: nat, stmts: map<string, string>, indent: string)
    requires k <= |names| && StatementLines(names[..k], stmts, indent).Err?
    ensures StatementLines(names, stmts, indent).Err?
  {
    var i :| 0 <= i < k && names[..k][i] !in stmts;
    assert names[i] !in stmts;
  }
}
