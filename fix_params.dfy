/** The three rules that reconcile a function's docstring parameters with
    its declared parameters, and the order in which the program applies
    them and then writes the files: the imports of every file are
    registered before any file is rewritten. */
module FixParams {
  import opened Wrappers
  import opened PyText
  import opened Dicts
  import opened Utils
  import opened EditBuffer
  import opened Syntax
  import opened Imports
  import opened SourceFile
  import opened Functions

  /** Marker put in a comment for a later search. */
  const MagicMarker: string := "TODO TYPEHINTS"

  /** The hand-maintained tables, the interpreter's names, and the parts of
      the program that are not modelled: the regular-expression clean-ups
      and the parser of annotation text. */
  datatype Env = Env(
    nameReplacements: map<(string, string, string), string>,
    comparingCases: set<(string, string, string, string, string)>,
    convertingCases: map<(string, string, string, string), string>,
    scope: Scope,
    regex: (nat, string) -> string,
    parseExpr: string -> Expr)

  /** Python's truth test on an optional string. */
  predicate NonEmpty(t: Option<string>)
  {
    t.Some? && t.value != ""
  }

  /** The comment line that marks an unknown parameter for inspection,
      indented four columns deeper than the docstring entry. */
  function MarkerText(indent: nat): (r: string)
    ensures r == "\n" + Spaces(indent + 4) + "# " + MagicMarker
    ensures |r| == indent + 21 && r[0] == '\n' && EndsWith(r, MagicMarker)
  {
    "\n" + Spaces(indent + 4) + "# " + MagicMarker
  }

  // ---------------------------------------------------------------------
  // fix_unknown_args

  /** What fix_unknown_args needs to know about the function being fixed. */
  datatype Target = Target(fileName: string, funcName: string, funcArgs: Dict<string, FuncArg>,
                           section: Option<Section>, contents: string)

  /** One entry of the snapshot: a documented name the function does not
      declare is renamed or deleted as the replacement table says, or gets
      a marker comment after its line when the table has no entry for it. */
  function UnknownArgStep(s: DocState, item: (string, DocArg), t: Target, env: Env): Result<DocState>
  {
    var name := item.0;
    if HasKey(t.funcArgs, name) then Ok(s)
    else if (t.fileName, t.funcName, name) in env.nameReplacements then
      var newName := env.nameReplacements[(t.fileName, t.funcName, name)];
      if newName != "" then RenameDocArgSpec(s, name, newName)
      else DeleteDocArgSpec(s, name, t.section)
    else
      var indent := IndentSizeAt(t.contents, item.1.position.start);
      var stop := item.1.annotationPosition.stop;
      var m := Register(s.modifications, Edit(Range(stop, stop), MarkerText(indent)));
      if m.Err? then Err(m.error) else Ok(DocState(s.docArgs, m.value))
  }

  /** The loop over the snapshot, stopping at the first exception. */
  function UnknownArgs(s: DocState, items: Dict<string, DocArg>, t: Target, env: Env): Result<DocState>
    decreases |items|
  {
    if items == [] then Ok(s)
    else
      var next := UnknownArgStep(s, items[0], t, env);
      if next.Err? then next else UnknownArgs(next.value, items[1..], t, env)
  }

  /** One step: a declared name is left alone; a name with a non-empty
      replacement moves to it; a name with an empty replacement goes; a
      name without a replacement stays and gets the marker one line down.
      Every other key keeps its entry and the edit list stays valid. */
  lemma UnknownArgStepEffect(s: DocState, item: (string, DocArg), t: Target, env: Env, k: string)
    requires DistinctKeys(s.docArgs) && EditBuffer.Valid(s.modifications)
    requires Get(s.docArgs, item.0) == Some(item.1)
    ensures HasKey(t.funcArgs, item.0) ==> UnknownArgStep(s, item, t, env) == Ok(s)
    ensures var r := UnknownArgStep(s, item, t, env);
      r.Ok? ==> DistinctKeys(r.value.docArgs) && EditBuffer.Valid(r.value.modifications)
    ensures var r := UnknownArgStep(s, item, t, env);
      var key := (t.fileName, t.funcName, item.0);
      r.Ok? && !HasKey(t.funcArgs, item.0) ==>
        if key in env.nameReplacements && env.nameReplacements[key] != "" then
          var newName := env.nameReplacements[key];
          newName != item.0
          && Get(r.value.docArgs, newName) == Some(item.1) && Get(r.value.docArgs, item.0) == None
          && (k != newName && k != item.0 ==> Get(r.value.docArgs, k) == Get(s.docArgs, k))
        else if key in env.nameReplacements then
          Get(r.value.docArgs, item.0) == None
          && (k != item.0 ==> Get(r.value.docArgs, k) == Get(s.docArgs, k))
        else
          var stop := item.1.annotationPosition.stop;
          r.value.docArgs == s.docArgs
          && multiset(r.value.modifications) == multiset(s.modifications)
             + multiset{Edit(Range(stop, stop), MarkerText(IndentSizeAt(t.contents, item.1.position.start)))}
  {
    var name := item.0;
    var key := (t.fileName, t.funcName, name);
    var r := UnknownArgStep(s, item, t, env);
    if !HasKey(t.funcArgs, name) {
      if key in env.nameReplacements {
        var newName := env.nameReplacements[key];
        if newName != "" {
          RenameDocArgEffect(s, name, newName, k);
          RenameDocArgEffect(s, name, newName, name);
          RenameDocArgEffect(s, name, newName, newName);
        } else {
          DeleteDocArgEffect(s, name, t.section, k);
          DeleteDocArgEffect(s, name, t.section, name);
        }
      } else {
        var stop := item.1.annotationPosition.stop;
        var e := Edit(Range(stop, stop), MarkerText(IndentSizeAt(t.contents, item.1.position.start)));
        if Register(s.modifications, e).Ok? {
          RegisterAdds(s.modifications, e);
          RegisterValid(s.modifications, e);
        }
      }
    }
  }

  /** Over the whole snapshot: a documented parameter that the function
      declares keeps its entry, the keys stay distinct and the edit list
      stays valid. */
  lemma {:induction false} UnknownArgsKeepsDeclared(s: DocState, items: Dict<string, DocArg>, t: Target, env: Env, k: string)
    requires DistinctKeys(s.docArgs) && EditBuffer.Valid(s.modifications)
    requires HasKey(t.funcArgs, k) && Get(s.docArgs, k).Some?
    ensures var r := UnknownArgs(s, items, t, env);
      r.Ok? ==> DistinctKeys(r.value.docArgs) && EditBuffer.Valid(r.value.modifications)
                && Get(r.value.docArgs, k) == Get(s.docArgs, k)
    decreases |items|
  {
    if items != [] {
      var item := items[0];
      var next := UnknownArgStep(s, item, t, env);
      if next.Ok? {
        var name := item.0;
        var key := (t.fileName, t.funcName, name);
        if !HasKey(t.funcArgs, name) {
          assert name != k;
          if key in env.nameReplacements {
            var newName := env.nameReplacements[key];
            if newName != "" {
              RenameDocArgEffect(s, name, newName, k);
              assert HasKey(s.docArgs, k);
            } else {
              DeleteDocArgEffect(s, name, t.section, k);
            }
          } else {
            var stop := item.1.annotationPosition.stop;
            var e := Edit(Range(stop, stop), MarkerText(IndentSizeAt(t.contents, item.1.position.start)));
            RegisterValid(s.modifications, e);
          }
        }
        UnknownArgsKeepsDeclared(next.value, items[1..], t, env, k);
      }
    }
  }

  /** fix_unknown_args for one function: the loop runs over a snapshot of
      the documented parameters taken before it starts, so the renames and
      deletions it makes do not change which names it visits. */
  method FixUnknownArgsOf(f: Func, env: Env) returns (r: Result<()>)
    modifies f, f.file
    ensures Follows(r, UnknownArgs(old(f.State()), old(f.docArgs), TargetOf(f, old(f.file.contents)), env), f.State())
    ensures f.file.contents == old(f.file.contents) && f.file.toImport == old(f.file.toImport)
  {
    var items := f.docArgs;
    var t := TargetOf(f, f.file.contents);
    ghost var s0 := f.State();
    for k := 0 to |items|
      invariant UnknownArgs(s0, items, t, env) == UnknownArgs(f.State(), items[k..], t, env)
      invariant f.file.contents == old(f.file.contents) && f.file.toImport == old(f.file.toImport)
    {
      var name := items[k].0;
      var docArg := items[k].1;
      assert items[k..][1..] == items[k + 1..];
      if !HasKey(f.funcArgs, name) {
        var key := (f.file.Name(), f.name, name);
        if key in env.nameReplacements {
          var newName := env.nameReplacements[key];
          if newName != "" {
            r := f.RenameDocArg(name, newName);
          } else {
            r := f.DeleteDocArg(name);
          }
        } else {
          var indent := IndentSizeAt(f.file.contents, docArg.position.start);
          var stop := docArg.annotationPosition.stop;
          r := f.file.RegisterModification(Range(stop, stop), MarkerText(indent));
        }
        if r.Err? {
          return;
        }
      }
    }
    r := Ok(());
  }

  function TargetOf(f: Func, contents: string): Target
  {
    Target(f.file.Name(), f.name, f.funcArgs, f.parametersSection, contents)
  }

  // ---------------------------------------------------------------------
  // fix_args_with_redundant_types

  /** The pairs both rules below visit: the declared parameters that are
      also documented, in declaration order. */
  function Pairs(f: Func): Dict<string, (FuncArg, DocArg)>
    reads f
  {
    ZipDicts(f.funcArgs, Present(f.docArgs))
  }

  /** The cleaned types of a parameter that has both an annotation and a
      documented type agree, or the comparison table lists the pair. */
  predicate Comparable(item: (string, (FuncArg, DocArg)), fileName: string, funcName: string, env: Env)
  {
    var fa := item.1.0;
    var da := item.1.1;
    NonEmpty(fa.typeText) && NonEmpty(da.typeText) ==>
      var cleanDoc := CleanupType(da.typeText.value, env.regex);
      var cleanFunc := CleanupType(fa.typeText.value, env.regex);
      cleanDoc == cleanFunc || (fileName, funcName, item.0, cleanFunc, cleanDoc) in env.comparingCases
  }

  /** One pair: with both an annotation and a documented type, the types
      must be comparable and the documented one is deleted. */
  function RedundantTypeStep(m: seq<Edit>, item: (string, (FuncArg, DocArg)), fileName: string, funcName: string, env: Env): Result<seq<Edit>>
  {
    var fa := item.1.0;
    var da := item.1.1;
    if !(NonEmpty(fa.typeText) && NonEmpty(da.typeText)) then Ok(m)
    else if !Comparable(item, fileName, funcName, env) then Err(AssertionError)
    else Register(m, Edit(da.annotationPosition, ""))
  }

  function RedundantTypes(m: seq<Edit>, items: Dict<string, (FuncArg, DocArg)>, fileName: string, funcName: string, env: Env): Result<seq<Edit>>
    decreases |items|
  {
    if items == [] then Ok(m)
    else
      var next := RedundantTypeStep(m, items[0], fileName, funcName, env);
      if next.Err? then next else RedundantTypes(next.value, items[1..], fileName, funcName, env)
  }

  /** The deletions of the documented types of the pairs that have both. */
  function RedundantDeletions(items: Dict<string, (FuncArg, DocArg)>): seq<Edit>
    decreases |items|
  {
    if items == [] then []
    else
      var rest := RedundantDeletions(items[1..]);
      if NonEmpty(items[0].1.0.typeText) && NonEmpty(items[0].1.1.typeText)
      then [Edit(items[0].1.1.annotationPosition, "")] + rest
      else rest
  }

  /** Every pair is comparable. */
  predicate AllComparable(items: Dict<string, (FuncArg, DocArg)>, fileName: string, funcName: string, env: Env)
  {
    forall i :: 0 <= i < |items| ==> Comparable(items[i], fileName, funcName, env)
  }

  lemma AllComparableCons(items: Dict<string, (FuncArg, DocArg)>, fileName: string, funcName: string, env: Env)
    requires items != []
    ensures AllComparable(items, fileName, funcName, env)
            <==> Comparable(items[0], fileName, funcName, env) && AllComparable(items[1..], fileName, funcName, env)
  {
    assert forall i :: 1 <= i < |items| ==> items[i] == items[1..][i - 1];
  }

  /** The rule deletes the documented type of every pair that has both an
      annotation and a documented type, and of no other, provided each
      such pair is comparable; otherwise it fails its assertion. */
  lemma {:induction false} RedundantTypesDeletes(m: seq<Edit>, items: Dict<string, (FuncArg, DocArg)>, fileName: string, funcName: string, env: Env)
    ensures RedundantTypes(m, items, fileName, funcName, env)
      == if AllComparable(items, fileName, funcName, env)
         then RegisterAll(m, RedundantDeletions(items))
         else Err(AssertionError)
    decreases |items|
  {
    if items != [] {
      var item := items[0];
      var rest := items[1..];
      AllComparableCons(items, fileName, funcName, env);
      var both := NonEmpty(item.1.0.typeText) && NonEmpty(item.1.1.typeText);
      var next := RedundantTypeStep(m, item, fileName, funcName, env);
      var ds := RedundantDeletions(items);
      if !both {
        assert next == Ok(m) && ds == RedundantDeletions(rest);
        RedundantTypesDeletes(m, rest, fileName, funcName, env);
      } else if !Comparable(item, fileName, funcName, env) {
        assert next == Err(AssertionError);
      } else {
        var d := Edit(item.1.1.annotationPosition, "");
        assert next == Register(m, d);
        assert ds == [d] + RedundantDeletions(rest);
        assert ds[0] == d && ds[1..] == RedundantDeletions(rest);
        if next.Ok? {
          RedundantTypesDeletes(next.value, rest, fileName, funcName, env);
          assert RegisterAll(m, ds) == RegisterAll(next.value, RedundantDeletions(rest));
          if RegisterAll(next.value, RedundantDeletions(rest)).Err? {
            RegisterAllErr(next.value, RedundantDeletions(rest));
          }
        } else {
          assert RegisterAll(m, ds).Err?;
          RegisterAllErr(m, ds);
        }
      }
    }
  }

  /** fix_args_with_redundant_types for one function: only the edit list of
      its file changes. */
  method FixRedundantTypesOf(f: Func, env: Env) returns (r: Result<()>)
    modifies f.file
    ensures var spec := RedundantTypes(old(f.file.modifications), Pairs(f), f.file.Name(), f.name, env);
      (r.Ok? <==> spec.Ok?) && (r.Err? ==> r.error == AssertionError)
      && (r.Ok? ==> f.file.modifications == spec.value)
    ensures r.Ok? && old(f.file.Valid()) ==> f.file.Valid()
    ensures f.file.contents == old(f.file.contents) && f.file.toImport == old(f.file.toImport)
  {
    var items := Pairs(f);
    ghost var m0 := f.file.modifications;
    for k := 0 to |items|
      invariant RedundantTypes(m0, items, f.file.Name(), f.name, env)
                == RedundantTypes(f.file.modifications, items[k..], f.file.Name(), f.name, env)
      invariant f.file.contents == old(f.file.contents) && f.file.toImport == old(f.file.toImport)
    {
      assert items[k..][1..] == items[k + 1..];
      var name := items[k].0;
      var funcArg := items[k].1.0;
      var docArg := items[k].1.1;
      if NonEmpty(funcArg.typeText) && NonEmpty(docArg.typeText) {
        var cleanDoc := CleanupType(docArg.typeText.value, env.regex);
        var cleanFunc := CleanupType(funcArg.typeText.value, env.regex);
        if !(cleanDoc == cleanFunc || (f.file.Name(), f.name, name, cleanFunc, cleanDoc) in env.comparingCases) {
          return Err(AssertionError);
        }
        r := DeleteAnnotation(f.file, docArg);
        if r.Err? {
          return;
        }
      }
    }
    RedundantTypesDeletes(m0, items, f.file.Name(), f.name, env);
    if RegisterAll(m0, RedundantDeletions(items)).Err? {
      RegisterAllErr(m0, RedundantDeletions(items));
    } else if EditBuffer.Valid(m0) {
      RegisterAllSound(m0, RedundantDeletions(items));
    }
    r := Ok(());
  }

  // ---------------------------------------------------------------------
  // fix_args_with_no_type_annotation

  /** The annotation a documented type converts to: the cleaned type, or
      the special case for it; empty means no annotation; a `None` default
      makes it optional. */
  function ConvertedType(docType: string, default: Option<Default>, fileName: string, funcName: string,
                         name: string, env: Env): string
  {
    var cleaned := CleanupType(docType, env.regex);
    var key := (fileName, funcName, name, cleaned);
    var replacement := if key in env.convertingCases then env.convertingCases[key] else cleaned;
    if replacement == "" then ""
    else if default == Some(NoneConstant) then replacement + " | None"
    else replacement
  }

  /** The special case table is keyed by the cleaned type; a `None` default
      appends ` | None` to a non-empty result, which removing that suffix
      undoes; an empty replacement stays empty whatever the default. */
  lemma ConvertedTypeCases(docType: string, default: Option<Default>, fileName: string, funcName: string,
                           name: string, env: Env)
    ensures var cleaned := CleanupType(docType, env.regex);
      var key := (fileName, funcName, name, cleaned);
      var replacement := if key in env.convertingCases then env.convertingCases[key] else cleaned;
      var r := ConvertedType(docType, default, fileName, funcName, name, env);
      (r == "" <==> replacement == "")
      && (replacement != "" && default == Some(NoneConstant) ==>
            EndsWith(r, " | None") && RemoveSuffix(r, " | None") == replacement)
      && (default != Some(NoneConstant) ==> r == replacement)
  {
    var cleaned := CleanupType(docType, env.regex);
    var key := (fileName, funcName, name, cleaned);
    var replacement := if key in env.convertingCases then env.convertingCases[key] else cleaned;
    var r := ConvertedType(docType, default, fileName, funcName, name, env);
    if replacement != "" && default == Some(NoneConstant) {
      assert r == replacement + " | None";
      assert r[|r| - |" | None"|..] == " | None";
      assert r[..|r| - |" | None"|] == replacement;
    }
  }

  /** What the rule changes in a file: its edit list and its pending imports. */
  datatype FileState = FileState(modifications: seq<Edit>, toImport: set<string>)

  /** What the rule needs to know about the function and its file: the
      names in scope there other than the pending ones. */
  datatype Context = Context(fileName: string, funcName: string, inScope: set<string>)

  /** The parameters that get the rule: no annotation, a documented type. */
  predicate NeedsAnnotation(item: (string, (FuncArg, DocArg)))
  {
    !NonEmpty(item.1.0.typeText) && NonEmpty(item.1.1.typeText)
  }

  /** The annotation the rule adds to a parameter that needs one: none for
      `kwargs` or an empty conversion. Otherwise `: ` and the converted type
      go where the parameter's annotation goes, with the names the type uses
      resolved against what is in scope and pending; every name the
      annotation uses is then in scope, pending or queued by it, the queued
      names come from the converted type and are neither in scope nor
      pending already, and they include those the code's own resolver
      queues. */
  function Annotation(item: (string, (FuncArg, DocArg)), c: Context, env: Env, toImport: set<string>): (a: Option<(Edit, set<string>)>)
    requires NeedsAnnotation(item)
    ensures var replacement := ConvertedType(item.1.1.typeText.value, item.1.0.default, c.fileName, c.funcName, item.0, env);
      (a.None? <==> item.0 == "kwargs" || replacement == "")
      && (a.Some? ==>
            var e := env.parseExpr(replacement);
            var w := ResolveAsWritten(e, c.inScope + toImport, env.scope.typingNames);
            a.value.0.pos == item.1.0.annotationPosition
            && a.value.0.replacement == ": " + Unparse(w.0)
            && Names(w.0) <= c.inScope + toImport + a.value.1
            && a.value.1 <= Names(e)
            && a.value.1 !! c.inScope + toImport
            && w.1 <= a.value.1)
  {
    if item.0 == "kwargs" then None
    else
      var replacement := ConvertedType(item.1.1.typeText.value, item.1.0.default, c.fileName, c.funcName, item.0, env);
      if replacement == "" then None
      else
        var res := Resolve(env.parseExpr(replacement), c.inScope + toImport, env.scope.typingNames);
        Some((Edit(item.1.0.annotationPosition, ": " + Unparse(res.0)), res.1))
  }

  /** The deletion of a documented type. */
  function DocTypeDeletion(item: (string, (FuncArg, DocArg))): Edit
  {
    Edit(item.1.1.annotationPosition, "")
  }

  /** Registers the annotation, if any, and queues its names. */
  function AddAnnotation(s: FileState, a: Option<(Edit, set<string>)>): Result<FileState>
  {
    if a.None? then Ok(s)
    else
      var m := Register(s.modifications, a.value.0);
      if m.Err? then Err(m.error) else Ok(FileState(m.value, s.toImport + a.value.1))
  }

  /** Registers the deletion of a documented type. */
  function DeleteDocType(s: FileState, d: Edit): Result<FileState>
  {
    var m := Register(s.modifications, d);
    if m.Err? then Err(m.error) else Ok(FileState(m.value, s.toImport))
  }

  /** One pair: a parameter without annotation but with a documented type
      gets its annotation, if any, and then loses its documented type. */
  function NoAnnotationStep(s: FileState, item: (string, (FuncArg, DocArg)), c: Context, env: Env): Result<FileState>
  {
    if !NeedsAnnotation(item) then Ok(s)
    else
      var annotated := AddAnnotation(s, Annotation(item, c, env, s.toImport));
      if annotated.Err? then annotated else DeleteDocType(annotated.value, DocTypeDeletion(item))
  }

  lemma AddAnnotationEffect(s: FileState, a: Option<(Edit, set<string>)>)
    requires EditBuffer.Valid(s.modifications)
    ensures var r := AddAnnotation(s, a);
      r.Ok? ==>
        EditBuffer.Valid(r.value.modifications)
        && multiset(r.value.modifications) == multiset(s.modifications) + (if a.Some? then multiset{a.value.0} else multiset{})
        && r.value.toImport == s.toImport + (if a.Some? then a.value.1 else {})
  {
    if a.Some? && Register(s.modifications, a.value.0).Ok? {
      RegisterAdds(s.modifications, a.value.0);
      RegisterValid(s.modifications, a.value.0);
    }
  }

  lemma DeleteDocTypeEffect(s: FileState, d: Edit)
    requires EditBuffer.Valid(s.modifications)
    ensures var r := DeleteDocType(s, d);
      r.Ok? ==>
        EditBuffer.Valid(r.value.modifications)
        && multiset(r.value.modifications) == multiset(s.modifications) + multiset{d}
        && r.value.toImport == s.toImport
  {
    if Register(s.modifications, d).Ok? {
      RegisterAdds(s.modifications, d);
      RegisterValid(s.modifications, d);
    }
  }

  function NoAnnotations(s: FileState, items: Dict<string, (FuncArg, DocArg)>, c: Context, env: Env): Result<FileState>
    decreases |items|
  {
    if items == [] then Ok(s)
    else
      var next := NoAnnotationStep(s, items[0], c, env);
      if next.Err? then next else NoAnnotations(next.value, items[1..], c, env)
  }

  /** A step that applies adds exactly the annotation, if any, and the
      deletion of the documented type, queues exactly the annotation's new
      names, and keeps the edit list valid; any other pair changes nothing. */
  lemma NoAnnotationStepEffect(s: FileState, item: (string, (FuncArg, DocArg)), c: Context, env: Env)
    requires EditBuffer.Valid(s.modifications)
    ensures !NeedsAnnotation(item) ==> NoAnnotationStep(s, item, c, env) == Ok(s)
    ensures var r := NoAnnotationStep(s, item, c, env);
      r.Ok? && NeedsAnnotation(item) ==>
        var a := Annotation(item, c, env, s.toImport);
        EditBuffer.Valid(r.value.modifications)
        && multiset(r.value.modifications) == multiset(s.modifications)
           + (if a.Some? then multiset{a.value.0} else multiset{}) + multiset{DocTypeDeletion(item)}
        && r.value.toImport == s.toImport + (if a.Some? then a.value.1 else {})
  {
    if NeedsAnnotation(item) {
      var a := Annotation(item, c, env, s.toImport);
      AddAnnotationEffect(s, a);
      var mid := AddAnnotation(s, a);
      if mid.Ok? {
        DeleteDocTypeEffect(mid.value, DocTypeDeletion(item));
      }
    }
  }

  /** Over all the pairs: the edit list stays valid and only grows, the
      documented type of every parameter that needs an annotation is
      deleted, and the pending imports only grow, by names not in scope. */
  lemma {:induction false} NoAnnotationsEffect(s: FileState, items: Dict<string, (FuncArg, DocArg)>, c: Context, env: Env)
    requires EditBuffer.Valid(s.modifications)
    ensures var r := NoAnnotations(s, items, c, env);
      r.Ok? ==> Grows(s, r.value, c.inScope) && DeletesDocTypes(items, r.value.modifications)
    decreases |items|
  {
    if items != [] {
      var next := NoAnnotationStep(s, items[0], c, env);
      NoAnnotationStepGrows(s, items[0], c, env);
      if next.Ok? {
        NoAnnotationsEffect(next.value, items[1..], c, env);
        var r := NoAnnotations(s, items, c, env);
        if r.Ok? {
          GrowsTransitive(s, next.value, r.value, c.inScope);
          DeletesDocTypesCons(items, next.value.modifications, r.value.modifications);
        }
      }
    }
  }

  /** The edit list of `t` is valid and holds that of `s`, and `t` only
      queues more names, none of them in scope. */
  predicate Grows(s: FileState, t: FileState, inScope: set<string>)
  {
    EditBuffer.Valid(t.modifications)
    && multiset(s.modifications) <= multiset(t.modifications)
    && s.toImport <= t.toImport
    && (t.toImport - s.toImport) !! inScope
  }

  lemma GrowsTransitive(s: FileState, t: FileState, u: FileState, inScope: set<string>)
    requires Grows(s, t, inScope) && Grows(t, u, inScope)
    ensures Grows(s, u, inScope)
  {
  }

  /** Every pair that needs an annotation has its documented type deleted. */
  predicate DeletesDocTypes(items: Dict<string, (FuncArg, DocArg)>, ms: seq<Edit>)
  {
    forall i :: 0 <= i < |items| && NeedsAnnotation(items[i]) ==> DocTypeDeletion(items[i]) in ms
  }

  lemma DeletesDocTypesCons(items: Dict<string, (FuncArg, DocArg)>, ms: seq<Edit>, ms': seq<Edit>)
    requires items != [] && (NeedsAnnotation(items[0]) ==> DocTypeDeletion(items[0]) in ms)
    requires multiset(ms) <= multiset(ms') && DeletesDocTypes(items[1..], ms')
    ensures DeletesDocTypes(items, ms')
  {
    forall i | 0 <= i < |items| && NeedsAnnotation(items[i])
      ensures DocTypeDeletion(items[i]) in ms'
    {
      if i == 0 {
        assert DocTypeDeletion(items[0]) in multiset(ms);
        assert DocTypeDeletion(items[0]) in multiset(ms');
      } else {
        assert items[i] == items[1..][i - 1];
      }
    }
  }

  /** One pair grows the state and deletes its documented type if needed. */
  lemma NoAnnotationStepGrows(s: FileState, item: (string, (FuncArg, DocArg)), c: Context, env: Env)
    requires EditBuffer.Valid(s.modifications)
    ensures var r := NoAnnotationStep(s, item, c, env);
      r.Ok? ==>
        Grows(s, r.value, c.inScope)
        && (NeedsAnnotation(item) ==> DocTypeDeletion(item) in r.value.modifications)
  {
    NoAnnotationStepEffect(s, item, c, env);
    var r := NoAnnotationStep(s, item, c, env);
    if r.Ok? && NeedsAnnotation(item) {
      assert DocTypeDeletion(item) in multiset(r.value.modifications);
    }
  }

  /** The names in scope in the function's file, other than the pending ones. */
  function ContextOf(f: Func, env: Env): Context
    reads f.file
  {
    Context(f.file.Name(), f.name, env.scope.builtins + f.file.ImportedNames(env.scope.typingNames) + f.file.Exports())
  }

  function FileStateOf(file: File): FileState
    reads file
  {
    FileState(file.modifications, file.toImport)
  }

  /** The body of the loop of fix_args_with_no_type_annotation, for one pair. */
  method FixNoAnnotation(f: Func, item: (string, (FuncArg, DocArg)), env: Env) returns (r: Result<()>)
    modifies f.file
    ensures var spec := NoAnnotationStep(old(FileStateOf(f.file)), item, old(ContextOf(f, env)), env);
      (r.Ok? <==> spec.Ok?) && (r.Err? ==> r.error == spec.error)
      && (r.Ok? ==> FileStateOf(f.file) == spec.value)
    ensures f.file.contents == old(f.file.contents)
  {
    r := Ok(());
    var name := item.0;
    var funcArg := item.1.0;
    var docArg := item.1.1;
    if !NonEmpty(funcArg.typeText) && NonEmpty(docArg.typeText) {
      assert NeedsAnnotation(item);
      if name != "kwargs" {
        var replacement := ConvertedType(docArg.typeText.value, funcArg.default, f.file.Name(), f.name, name, env);
        if replacement != "" {
          var annotation := f.file.AddImportsForExpression(env.parseExpr(replacement), env.scope);
          r := SetAnnotation(f.file, funcArg, annotation);
          if r.Err? {
            return;
          }
        }
      }
      r := DeleteAnnotation(f.file, docArg);
    }
  }

  /** fix_args_with_no_type_annotation for one function: only its file's
      edit list and pending imports change. */
  method FixNoAnnotationsOf(f: Func, env: Env) returns (r: Result<()>)
    modifies f.file
    ensures var spec := NoAnnotations(old(FileStateOf(f.file)), Pairs(f), old(ContextOf(f, env)), env);
      (r.Ok? <==> spec.Ok?) && (r.Err? ==> r.error == spec.error)
      && (r.Ok? ==> FileStateOf(f.file) == spec.value)
    ensures r.Ok? && old(f.file.Valid()) ==> f.file.Valid() && old(f.file.toImport) <= f.file.toImport
    ensures f.file.contents == old(f.file.contents)
  {
    var items := Pairs(f);
    ghost var c := ContextOf(f, env);
    ghost var s0 := FileStateOf(f.file);
    for k := 0 to |items|
      invariant NoAnnotations(s0, items, c, env) == NoAnnotations(FileStateOf(f.file), items[k..], c, env)
      invariant f.file.contents == old(f.file.contents) && ContextOf(f, env) == c
    {
      assert items[k..][1..] == items[k + 1..];
      r := FixNoAnnotation(f, items[k], env);
      if r.Err? {
        return;
      }
    }
    if EditBuffer.Valid(s0.modifications) {
      NoAnnotationsEffect(s0, items, c, env);
    }
    r := Ok(());
  }

  // ---------------------------------------------------------------------
  // The loops over all functions, and main

  /** The files of the functions, each once. */
  function FilesOf(funcs: seq<Func>): set<File>
  {
    set f | f in funcs :: f.file
  }

  /** Every function's dict has distinct keys and every file's edit list
      keeps its invariant. */
  predicate AllValid(funcs: seq<Func>)
    reads (set f | f in funcs), FilesOf(funcs)
  {
    forall f :: f in funcs ==> DistinctKeys(f.docArgs) && f.file.Valid()
  }

  /** fix_unknown_args over all the functions. */
  method FixUnknownArgs(funcs: seq<Func>, env: Env) returns (r: Result<()>)
    requires AllValid(funcs)
    modifies (set f | f in funcs), FilesOf(funcs)
    ensures r.Ok? ==> AllValid(funcs)
    ensures forall f :: f in funcs ==> f.file.contents == old(f.file.contents) && f.file.toImport == old(f.file.toImport)
  {
    for k := 0 to |funcs|
      invariant AllValid(funcs)
      invariant forall f :: f in funcs ==> f.file.contents == old(f.file.contents) && f.file.toImport == old(f.file.toImport)
    {
      var f := funcs[k];
      ghost var s := f.State();
      ghost var t := TargetOf(f, f.file.contents);
      r := FixUnknownArgsOf(f, env);
      if r.Err? {
        return;
      }
      UnknownArgsKeepsItsInvariant(s, s.docArgs, t, env);
    }
    r := Ok(());
  }

  /** The fold keeps the dict's keys distinct and the edit list valid. */
  lemma {:induction false} UnknownArgsKeepsItsInvariant(s: DocState, items: Dict<string, DocArg>, t: Target, env: Env)
    requires DistinctKeys(s.docArgs) && EditBuffer.Valid(s.modifications)
    ensures var r := UnknownArgs(s, items, t, env);
      r.Ok? ==> DistinctKeys(r.value.docArgs) && EditBuffer.Valid(r.value.modifications)
    decreases |items|
  {
    if items != [] {
      var next := UnknownArgStep(s, items[0], t, env);
      if next.Ok? {
        var name := items[0].0;
        var key := (t.fileName, t.funcName, name);
        if !HasKey(t.funcArgs, name) {
          if key in env.nameReplacements {
            var newName := env.nameReplacements[key];
            if newName != "" {
              RenameDocArgEffect(s, name, newName, name);
            } else {
              DeleteDocArgEffect(s, name, t.section, name);
            }
          } else {
            var stop := items[0].1.annotationPosition.stop;
            RegisterValid(s.modifications, Edit(Range(stop, stop), MarkerText(IndentSizeAt(t.contents, items[0].1.position.start))));
          }
        }
        UnknownArgsKeepsItsInvariant(next.value, items[1..], t, env);
      }
    }
  }

  /** fix_args_with_redundant_types over all the functions. */
  method FixRedundantTypes(funcs: seq<Func>, env: Env) returns (r: Result<()>)
    requires AllValid(funcs)
    modifies FilesOf(funcs)
    ensures r.Ok? ==> AllValid(funcs)
    ensures forall f :: f in funcs ==> f.file.contents == old(f.file.contents) && f.file.toImport == old(f.file.toImport)
  {
    for k := 0 to |funcs|
      invariant AllValid(funcs)
      invariant forall f :: f in funcs ==> f.file.contents == old(f.file.contents) && f.file.toImport == old(f.file.toImport)
    {
      r := DeleteRedundantTypes(funcs[k], env);
      if r.Err? {
        return;
      }
    }
    r := Ok(());
  }

  /** What the loop over all functions needs of fix_args_with_redundant_types
      for one function. */
  method DeleteRedundantTypes(f: Func, env: Env) returns (r: Result<()>)
    modifies f.file
    ensures r.Ok? && old(f.file.Valid()) ==> f.file.Valid()
    ensures f.file.contents == old(f.file.contents) && f.file.toImport == old(f.file.toImport)
  {
    r := FixRedundantTypesOf(f, env);
  }

  /** What the loop over all functions needs of fix_args_with_no_type_annotation
      for one function. */
  method AnnotateAll(f: Func, env: Env) returns (r: Result<()>)
    modifies f.file
    ensures r.Ok? && old(f.file.Valid()) ==> f.file.Valid() && old(f.file.toImport) <= f.file.toImport
    ensures f.file.contents == old(f.file.contents)
  {
    r := FixNoAnnotationsOf(f, env);
  }

  /** fix_args_with_no_type_annotation over all the functions. */
  method FixNoAnnotations(funcs: seq<Func>, env: Env) returns (r: Result<()>)
    requires AllValid(funcs)
    modifies FilesOf(funcs)
    ensures r.Ok? ==> AllValid(funcs)
    ensures forall f :: f in funcs ==> f.file.contents == old(f.file.contents)
    ensures r.Ok? ==> forall f :: f in funcs ==> old(f.file.toImport) <= f.file.toImport
  {
    for k := 0 to |funcs|
      invariant AllValid(funcs)
      invariant forall f :: f in funcs ==> f.file.contents == old(f.file.contents) && old(f.file.toImport) <= f.file.toImport
    {
      r := AnnotateAll(funcs[k], env);
      if r.Err? {
        return;
      }
    }
    r := Ok(());
  }

  /** No file appears twice. */
  predicate DistinctFiles(files: seq<File>)
  {
    forall i, j :: 0 <= i < j < |files| ==> files[i] != files[j]
  }

  /** What the first loop of the writing phase needs of one file's
      register_imports_modification. */
  method RegisterImportsOf(file: File, summaries: seq<Exporter>, circular: set<(string, string)>, scope: Scope)
    returns (r: Result<()>)
    modifies file
    ensures r.Ok? || old(file.toImport) == {} ==> file.toImport == {}
    ensures r.Ok? ==> old(file.toImport) == {} || |file.modifications| == |old(file.modifications)| + 1
    ensures file.contents == old(file.contents)
    ensures old(file.Valid()) ==> file.Valid()
  {
    r := file.RegisterImportsModification(summaries, circular, scope);
  }

  /** The first loop of the writing phase: every file registers its import
      block, all of them against the same summaries of the files, which the
      loop does not change because no text changes before the second loop. */
  method RegisterImportsForAll(files: seq<File>, circular: set<(string, string)>, scope: Scope) returns (r: Result<()>)
    modifies set f | f in files
    ensures r.Ok? ==> forall i :: 0 <= i < |files| ==> files[i].toImport == {}
    ensures forall i :: 0 <= i < |files| ==> files[i].contents == old(files[i].contents)
    ensures forall i :: 0 <= i < |files| && old(files[i].Valid()) ==> files[i].Valid()
  {
    var summaries: seq<Exporter> := [];
    for k := 0 to |files|
      invariant |summaries| == k
      invariant forall j :: 0 <= j < k ==> summaries[j] == files[j].Summary()
    {
      summaries := summaries + [files[k].Summary()];
    }
    for k := 0 to |files|
      invariant forall i :: 0 <= i < |files| ==> files[i].contents == old(files[i].contents)
      invariant forall i :: 0 <= i < |files| && old(files[i].Valid()) ==> files[i].Valid()
      invariant forall i :: 0 <= i < k ==> files[i].toImport == {}
    {
      r := RegisterImportsOf(files[k], summaries, circular, scope);
      if r.Err? {
        return;
      }
    }
    r := Ok(());
  }

  /** How many of the edit lists are non-empty. */
  function CountPending(ms: seq<seq<Edit>>): (n: nat)
    ensures n <= |ms|
  {
    if ms == [] then 0 else CountPending(ms[..|ms| - 1]) + (if ms[|ms| - 1] != [] then 1 else 0)
  }

  /** One list more is counted when it is not empty. */
  lemma CountPendingStep(ms: seq<seq<Edit>>, k: nat)
    requires k < |ms|
    ensures CountPending(ms[..k + 1]) == CountPending(ms[..k]) + (if ms[k] != [] then 1 else 0)
  {
    assert ms[..k + 1][..k] == ms[..k];
  }

  /** The count is the size of the set of indices of non-empty lists. */
  lemma {:induction false} CountPendingIsSize(ms: seq<seq<Edit>>)
    ensures CountPending(ms) == |set i | 0 <= i < |ms| && ms[i] != []|
  {
    if ms != [] {
      var init := ms[..|ms| - 1];
      CountPendingIsSize(init);
      var before := set i | 0 <= i < |init| && init[i] != [];
      var after := set i | 0 <= i < |ms| && ms[i] != [];
      if ms[|ms| - 1] != [] {
        assert after == before + {|ms| - 1};
      } else {
        assert after == before;
      }
    }
  }

  /** The edit lists of the files, in order. */
  function PendingOf(files: seq<File>): (r: seq<seq<Edit>>)
    reads set f | f in files
    ensures |r| == |files| && forall i :: 0 <= i < |files| ==> r[i] == files[i].modifications
  {
    seq(|files|, i requires 0 <= i < |files| reads files => files[i].modifications)
  }

  /** One file of the second loop: rewritten when it has pending edits. */
  method ApplyPending(f: File) returns (written: bool)
    modifies f
    ensures written <==> old(f.modifications) != []
    ensures f.contents == ApplyReversed(old(f.contents), old(f.modifications))
    ensures f.modifications == [] && f.toImport == old(f.toImport)
  {
    written := false;
    if f.modifications != [] {
      written := f.ApplyModifications();
    }
  }

  /** The second loop of the writing phase: every file with pending edits
      is rewritten, and the result is how many were. */
  method ApplyAll(files: seq<File>) returns (count: nat)
    requires DistinctFiles(files)
    modifies set f | f in files
    ensures forall i :: 0 <= i < |files| ==>
      files[i].contents == ApplyReversed(old(files[i].contents), old(files[i].modifications))
      && files[i].modifications == [] && files[i].toImport == old(files[i].toImport)
    ensures count == CountPending(old(PendingOf(files)))
  {
    ghost var pending := PendingOf(files);
    count := 0;
    for k := 0 to |files|
      invariant forall i :: 0 <= i < k ==>
        files[i].contents == ApplyReversed(old(files[i].contents), old(files[i].modifications))
        && files[i].modifications == [] && files[i].toImport == old(files[i].toImport)
      invariant forall i :: k <= i < |files| ==>
        files[i].contents == old(files[i].contents)
        && files[i].modifications == old(files[i].modifications) && files[i].toImport == old(files[i].toImport)
      invariant count == CountPending(pending[..k])
    {
      CountPendingStep(pending, k);
      assert forall i :: 0 <= i < |files| && i != k ==> files[i] != files[k];
      var written := ApplyPending(files[k]);
      if written {
        count := count + 1;
      }
    }
    assert pending[..|files|] == pending;
  }

  /** The functions whose docstring documents some parameter. */
  function WithParameters(funcs: seq<Func>): (r: seq<Func>)
    reads set f | f in funcs
    ensures forall i :: 0 <= i < |r| ==> r[i] in funcs && r[i].docArgs != []
    ensures forall i :: 0 <= i < |funcs| && funcs[i].docArgs != [] ==> funcs[i] in r
    decreases |funcs|
  {
    if funcs == [] then []
    else
      var rest := WithParameters(funcs[1..]);
      (if funcs[0].docArgs != [] then [funcs[0]] else []) + rest
  }

  /** A selected function occurs as often as in the list, the others not
      at all. */
  lemma {:induction false} WithParametersCount(funcs: seq<Func>, f: Func)
    ensures multiset(WithParameters(funcs))[f] == if f.docArgs != [] then multiset(funcs)[f] else 0
    decreases |funcs|
  {
    if funcs != [] {
      assert funcs == [funcs[0]] + funcs[1..];
      WithParametersCount(funcs[1..], f);
    }
  }

  /** The selection keeps the order of the functions: selecting from two
      lists one after the other is selecting from their concatenation. */
  lemma {:induction false} WithParametersAppend(a: seq<Func>, b: seq<Func>)
    ensures WithParameters(a + b) == WithParameters(a) + WithParameters(b)
    decreases |a|
  {
    if a == [] {
      assert a + b == b;
    } else {
      assert (a + b)[1..] == a[1..] + b;
      WithParametersAppend(a[1..], b);
    }
  }

  /** Some documented parameter has a non-empty type. */
  predicate Typed(docArgs: Dict<string, DocArg>)
  {
    exists i :: 0 <= i < |docArgs| && NonEmpty(docArgs[i].1.typeText)
  }

  /** The functions whose docstring gives some parameter a type. */
  function WithParameterTypes(funcs: seq<Func>): (r: seq<Func>)
    reads set f | f in funcs
    ensures forall i :: 0 <= i < |r| ==> r[i] in funcs && Typed(r[i].docArgs)
    ensures forall i :: 0 <= i < |funcs| && Typed(funcs[i].docArgs) ==> funcs[i] in r
    decreases |funcs|
  {
    if funcs == [] then []
    else
      var rest := WithParameterTypes(funcs[1..]);
      (if Typed(funcs[0].docArgs) then [funcs[0]] else []) + rest
  }

  /** A function with a documented type occurs as often as in the list,
      the others not at all. */
  lemma {:induction false} WithParameterTypesCount(funcs: seq<Func>, f: Func)
    ensures multiset(WithParameterTypes(funcs))[f] == if Typed(f.docArgs) then multiset(funcs)[f] else 0
    decreases |funcs|
  {
    if funcs != [] {
      assert funcs == [funcs[0]] + funcs[1..];
      WithParameterTypesCount(funcs[1..], f);
    }
  }

  /** This selection keeps the order of the functions too. */
  lemma {:induction false} WithParameterTypesAppend(a: seq<Func>, b: seq<Func>)
    ensures WithParameterTypes(a + b) == WithParameterTypes(a) + WithParameterTypes(b)
    decreases |a|
  {
    if a == [] {
      assert a + b == b;
    } else {
      assert (a + b)[1..] == a[1..] + b;
      WithParameterTypesAppend(a[1..], b);
    }
  }

  /** The fixing and writing phases of main. Both selections of functions
      are made before any rule runs; the rules run in order over them; then
      the imports of every file are registered before any file is rewritten,
      and the result is the number of files rewritten. */
  method Run(files: seq<File>, funcs: seq<Func>, env: Env, circular: set<(string, string)>) returns (r: Result<nat>)
    requires DistinctFiles(files)
    requires AllValid(funcs)
    requires forall f :: f in funcs ==> f.file in files
    modifies (set f | f in files), (set f | f in funcs)
    ensures r.Ok? ==> forall f :: f in files ==> f.modifications == [] && f.toImport == {}
  {
    var withParameters := WithParameters(funcs);
    var withParameterTypes := WithParameterTypes(withParameters);
    var fixed := FixUnknownArgs(withParameters, env);
    if fixed.Err? {
      return Err(fixed.error);
    }
    fixed := FixRedundantTypes(withParameterTypes, env);
    if fixed.Err? {
      return Err(fixed.error);
    }
    fixed := FixNoAnnotations(withParameterTypes, env);
    if fixed.Err? {
      return Err(fixed.error);
    }
    var registered := RegisterImportsForAll(files, circular, env.scope);
    if registered.Err? {
      return Err(registered.error);
    }
    var count := ApplyAll(files);
    return Ok(count);
  }
}
