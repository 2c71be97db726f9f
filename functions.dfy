/** A function of the project together with what its docstring says about
    its parameters. The parameters the function declares come from the
    syntax tree; the ones its docstring documents come from the
    `Parameters` section of the docstring, whose regular-expression scan
    is given as a list of match spans. */
module Functions {
  import opened Wrappers
  import opened PyText
  import opened Dicts
  import opened Utils
  import opened EditBuffer
  import opened SourceFile

  /** A parameter documented in the docstring: its type text, if any, and
      the ranges of its `: type` part, of its name, and of its whole entry. */
  datatype DocArg = DocArg(typeText: Option<string>, annotationPosition: Range, namePosition: Range, position: Range)

  /** A default value, as far as the fix rules look at it: `None` or not. */
  datatype Default = NoneConstant | OtherDefault

  /** A declared parameter: its unparsed annotation, if any, where an
      annotation would go, and its default. */
  datatype FuncArg = FuncArg(typeText: Option<string>, annotationPosition: Range, default: Option<Default>)

  /** The header, body and footer of a docstring section. */
  datatype Section = Section(header: Range, body: Range, footer: Range)

  /** One match of the parameter-line pattern: the offsets of the match and
      of its name group, the name, and the optional type group. */
  datatype ParamMatch = ParamMatch(start: nat, nameStart: nat, nameStop: nat, end: nat, name: string, typeText: Option<string>)

  /** A node's position: lines count from 1, columns from 0. */
  datatype Location = Location(lineno: int, colOffset: nat, endLineno: int, endColOffset: nat)

  /** A parameter in the syntax tree, with its annotation unparsed. */
  datatype Arg = Arg(name: string, annotation: Option<string>, loc: Location)

  /** A function's parameter lists, as in Python's `ast.arguments`. */
  datatype Arguments = Arguments(
    posonlyargs: seq<Arg>, args: seq<Arg>, vararg: Option<Arg>,
    kwonlyargs: seq<Arg>, kwDefaults: seq<Option<Default>>, kwarg: Option<Arg>,
    defaults: seq<Default>)

  const TripleQuote: string := "\"\"\""

  // ---------------------------------------------------------------------
  // docstring_position

  /** The text of a string literal that spans `[pos, endpos)`: past a
      raw-string prefix `r`, it must open and close with triple quotes,
      and the result is the text between them. */
  function QuotedText(contents: string, pos: nat, endpos: nat): (r: Result<Option<Range>>)
    ensures r.Err? ==> r.error in {IndexError, AssertionError}
    ensures r.Ok? ==> r.value.Some?
  {
    var c := Index(contents, pos);
    if c.Err? then Err(c.error)
    else
      var start := if c.value == 'r' then pos + 1 else pos;
      if Slice(contents, start, start + 3) != TripleQuote then Err(AssertionError)
      else if Slice(contents, endpos - 3, endpos) != TripleQuote then Err(AssertionError)
      else Ok(Some(Range(start + 3, endpos - 3)))
  }

  /** The offsets of a node's start and end, from the line offsets with
      Python's indexing: a line number out of range raises IndexError. */
  function NodeSpan(lineOffsets: seq<nat>, loc: Location): (r: Result<(nat, nat)>)
    ensures r.Err? ==> r.error == IndexError
    ensures r.Ok? && 0 <= loc.lineno - 1 < |lineOffsets| ==> r.value.0 == lineOffsets[loc.lineno - 1] + loc.colOffset
  {
    var first := Index(lineOffsets, loc.lineno - 1);
    var last := Index(lineOffsets, loc.endLineno - 1);
    if first.Err? then Err(first.error)
    else if last.Err? then Err(last.error)
    else Ok((first.value + loc.colOffset, last.value + loc.endColOffset))
  }

  /** docstring_position: without a docstring, nothing. Otherwise the
      offsets of the string node's ends delimit the quoted text. */
  function DocstringPosition(contents: string, lineOffsets: seq<nat>, node: Option<Location>): (r: Result<Option<Range>>)
    ensures node.None? <==> r == Ok(None)
    ensures r.Err? ==> r.error in {IndexError, AssertionError}
  {
    if node.None? then Ok(None)
    else
      var span := NodeSpan(lineOffsets, node.value);
      if span.Err? then Err(span.error)
      else QuotedText(contents, span.value.0, span.value.1)
  }

  /** A slice that is three characters long lies inside the string. */
  lemma SliceOfThree(s: string, i: int)
    requires i + 3 >= 0 && |Slice(s, i, i + 3)| == 3
    ensures 0 <= i && i + 3 <= |s| && Slice(s, i, i + 3) == s[i..i + 3]
  {
  }

  /** The quoted text is enclosed in triple quotes, the opening ones at the
      literal's start or right after a raw-string `r`. */
  lemma QuotedTextQuoted(contents: string, pos: nat, endpos: nat)
    requires QuotedText(contents, pos, endpos).Ok?
    ensures var r := QuotedText(contents, pos, endpos).value.value;
      3 <= r.start <= |contents| && contents[r.start - 3..r.start] == TripleQuote
      && 0 <= r.stop && r.stop + 3 <= |contents| && contents[r.stop..r.stop + 3] == TripleQuote
      && (r.start == pos + 3 || (r.start == pos + 4 && contents[pos] == 'r'))
      && r.stop == endpos - 3
  {
    var start := if contents[pos] == 'r' then pos + 1 else pos;
    SliceOfThree(contents, start);
    SliceOfThree(contents, endpos - 3);
  }

  /** The docstring's range is enclosed in triple quotes, the opening ones
      at the string node's start or right after a raw-string `r`. */
  lemma DocstringPositionQuoted(contents: string, lineOffsets: seq<nat>, loc: Location)
    requires DocstringPosition(contents, lineOffsets, Some(loc)).Ok?
    ensures var r := DocstringPosition(contents, lineOffsets, Some(loc)).value.value;
      3 <= r.start <= |contents| && contents[r.start - 3..r.start] == TripleQuote
      && 0 <= r.stop && r.stop + 3 <= |contents| && contents[r.stop..r.stop + 3] == TripleQuote
    ensures 0 <= loc.lineno - 1 < |lineOffsets| ==>
      var r := DocstringPosition(contents, lineOffsets, Some(loc)).value.value;
      var pos := lineOffsets[loc.lineno - 1] + loc.colOffset;
      r.start == pos + 3 || (r.start == pos + 4 && contents[pos] == 'r')
    ensures 0 <= loc.endLineno - 1 < |lineOffsets| ==>
      DocstringPosition(contents, lineOffsets, Some(loc)).value.value.stop
        == lineOffsets[loc.endLineno - 1] + loc.endColOffset - 3
  {
    var span := NodeSpan(lineOffsets, loc);
    QuotedTextQuoted(contents, span.value.0, span.value.1);
  }

  // ---------------------------------------------------------------------
  // doc_args

  /** No two matches document the same name. */
  predicate DistinctNames(matches: seq<ParamMatch>)
  {
    forall i, j :: 0 <= i < j < |matches| ==> matches[i].name != matches[j].name
  }

  /** The entry doc_args builds from match `i`. */
  predicate IsDocArgOf(entry: (string, DocArg), matches: seq<ParamMatch>, i: nat, sectionEnd: nat)
    requires i < |matches|
  {
    var m := matches[i];
    var next := if i + 1 < |matches| then matches[i + 1].start else sectionEnd;
    entry == (m.name, DocArg(m.typeText, Range(m.nameStop, m.end), Range(m.nameStart, m.nameStop), Range(m.start, next)))
  }

  /** doc_args: without a `Parameters` section, no entries. Otherwise one
      entry per match, in order, keyed by its name: its type group, the
      range from the end of the name to the end of the line, the range of
      the name, and the range from the match to the next match or, for the
      last one, to the end of the section. A name documented twice fails
      the assertion. */
  method DocArgs(section: Option<Section>, matches: seq<ParamMatch>, contentsLength: nat)
    returns (r: Result<Dict<string, DocArg>>)
    ensures section.None? ==> r == Ok([])
    ensures section.Some? ==> (r.Ok? <==> DistinctNames(matches))
    ensures r.Err? ==> r.error == AssertionError
    ensures section.Some? && r.Ok? ==>
      |r.value| == |matches| && DistinctKeys(r.value)
      && forall i :: 0 <= i < |matches| ==>
           IsDocArgOf(r.value[i], matches, i, MatchStart(section.value.body.stop, contentsLength))
  {
    if section.None? {
      return Ok([]);
    }
    var sectionEnd := MatchStart(section.value.body.stop, contentsLength);
    var d: Dict<string, DocArg> := [];
    for i := 0 to |matches|
      invariant |d| == i
      invariant forall j :: 0 <= j < i ==> IsDocArgOf(d[j], matches, j, sectionEnd)
      invariant forall j, l :: 0 <= j < l < i ==> matches[j].name != matches[l].name
    {
      var m := matches[i];
      if HasKey(d, m.name) {
        var j :| 0 <= j < |d| && d[j].0 == m.name;
        assert IsDocArgOf(d[j], matches, j, sectionEnd);
        return Err(AssertionError);
      }
      forall j | 0 <= j < i
        ensures matches[j].name != m.name
      {
        assert IsDocArgOf(d[j], matches, j, sectionEnd);
        assert d[j].0 == matches[j].name;
      }
      var next := if i + 1 < |matches| then matches[i + 1].start else sectionEnd;
      d := Put(d, m.name, DocArg(m.typeText, Range(m.nameStop, m.end), Range(m.nameStart, m.nameStop), Range(m.start, next)));
    }
    return Ok(d);
  }

  /** The entries of doc_args tile the parameter block: each one ends where
      the next begins, the last one at the end of the section, and each
      name is directly followed by its annotation. */
  lemma DocArgsTile(d: Dict<string, DocArg>, matches: seq<ParamMatch>, sectionEnd: nat)
    requires |d| == |matches|
    requires forall i :: 0 <= i < |matches| ==> IsDocArgOf(d[i], matches, i, sectionEnd)
    ensures forall i :: 0 <= i < |d| ==> d[i].1.namePosition.stop == d[i].1.annotationPosition.start
    ensures forall i :: 0 <= i < |d| - 1 ==> d[i].1.position.stop == d[i + 1].1.position.start
    ensures |d| > 0 ==> d[|d| - 1].1.position.stop == sectionEnd
  {
    forall i | 0 <= i < |d| - 1
      ensures d[i].1.position.stop == d[i + 1].1.position.start
    {
      assert IsDocArgOf(d[i], matches, i, sectionEnd) && IsDocArgOf(d[i + 1], matches, i + 1, sectionEnd);
    }
    if |d| > 0 {
      assert IsDocArgOf(d[|d| - 1], matches, |d| - 1, sectionEnd);
    }
  }

  // ---------------------------------------------------------------------
  // func_args

  /** Python's `zip`: as many pairs as the shorter list has elements. */
  function Zip<A, B>(a: seq<A>, b: seq<B>): (r: seq<(A, B)>)
    ensures |r| == if |a| <= |b| then |a| else |b|
    ensures forall i :: 0 <= i < |r| ==> r[i] == (a[i], b[i])
  {
    seq(if |a| <= |b| then |a| else |b|, i requires 0 <= i < |a| && i < |b| => (a[i], b[i]))
  }

  function Positional(a: Arguments): seq<Arg>
  {
    a.posonlyargs + a.args
  }

  /** `[None] * (len(positional) - len(defaults)) + defaults` */
  function PositionalDefaults(a: Arguments): seq<Option<Default>>
  {
    var padding := |Positional(a)| - |a.defaults|;
    seq(if padding < 0 then 0 else padding, _ => None)
      + seq(|a.defaults|, i requires 0 <= i < |a.defaults| => Some(a.defaults[i]))
  }

  /** The parameters with their defaults, in the order func_args visits
      them: positional, `*args`, keyword-only, `**kwargs`. */
  function ParamsWithDefaults(a: Arguments): seq<(Arg, Option<Default>)>
  {
    Zip(Positional(a), PositionalDefaults(a))
    + (if a.vararg.Some? then [(a.vararg.value, None)] else [])
    + Zip(a.kwonlyargs, a.kwDefaults)
    + (if a.kwarg.Some? then [(a.kwarg.value, None)] else [])
  }

  /** The padded defaults: none for the first parameters, then the
      defaults in order. */
  lemma PositionalDefaultsAt(a: Arguments, i: nat)
    requires |a.defaults| <= |Positional(a)| && i < |Positional(a)|
    ensures var padding := |Positional(a)| - |a.defaults|;
      |PositionalDefaults(a)| == |Positional(a)|
      && PositionalDefaults(a)[i] == if i < padding then None else Some(a.defaults[i - padding])
  {
  }

  /** The defaults belong to the last positional parameters and the earlier
      ones have none; `*args` and `**kwargs` have none; keyword-only
      parameters pair with their own defaults. */
  lemma DefaultsAlign(a: Arguments)
    requires |a.defaults| <= |Positional(a)| && |a.kwDefaults| == |a.kwonlyargs|
    ensures var ps := ParamsWithDefaults(a);
      var p := Positional(a);
      var v := if a.vararg.Some? then 1 else 0;
      var w := if a.kwarg.Some? then 1 else 0;
      var padding := |p| - |a.defaults|;
      |ps| == |p| + v + |a.kwonlyargs| + w
      && (forall i :: 0 <= i < padding ==> ps[i] == (p[i], None))
      && (forall i :: padding <= i < |p| ==> ps[i] == (p[i], Some(a.defaults[i - padding])))
      && (a.vararg.Some? ==> ps[|p|] == (a.vararg.value, None))
      && (forall j :: 0 <= j < |a.kwonlyargs| ==> ps[|p| + v + j] == (a.kwonlyargs[j], a.kwDefaults[j]))
      && (a.kwarg.Some? ==> ps[|ps| - 1] == (a.kwarg.value, None))
  {
    var p := Positional(a);
    var padding := |p| - |a.defaults|;
    var ds := PositionalDefaults(a);
    var z1 := Zip(p, ds);
    var vs: seq<(Arg, Option<Default>)> := if a.vararg.Some? then [(a.vararg.value, None)] else [];
    var z2 := Zip(a.kwonlyargs, a.kwDefaults);
    var ws: seq<(Arg, Option<Default>)> := if a.kwarg.Some? then [(a.kwarg.value, None)] else [];
    var ps := ParamsWithDefaults(a);
    assert ps == z1 + vs + z2 + ws;
    assert |ds| == |p| && |z1| == |p| && |z2| == |a.kwonlyargs|;
    forall i | 0 <= i < |p|
      ensures ps[i] == (p[i], if i < padding then None else Some(a.defaults[i - padding]))
    {
      PositionalDefaultsAt(a, i);
      assert ps[i] == z1[i];
    }
    forall j | 0 <= j < |a.kwonlyargs|
      ensures ps[|p| + |vs| + j] == (a.kwonlyargs[j], a.kwDefaults[j])
    {
      assert ps[|p| + |vs| + j] == z2[j];
    }
  }

  /** The entry func_args builds for one parameter: an annotated one keeps
      its annotation and a placeholder range; an unannotated one must span
      exactly its name on one line, and gets the empty range at the end of
      its name. */
  function FuncArgFor(p: (Arg, Option<Default>), lineOffsets: seq<nat>): Result<FuncArg>
  {
    var arg := p.0;
    if arg.annotation.Some? then Ok(FuncArg(arg.annotation, Range(-1, -1), p.1))
    else if !(arg.loc.lineno == arg.loc.endLineno && arg.loc.colOffset + |arg.name| == arg.loc.endColOffset) then
      Err(AssertionError)
    else
      var offset := Index(lineOffsets, arg.loc.endLineno - 1);
      if offset.Err? then Err(offset.error)
      else
        var pos := offset.value + arg.loc.endColOffset;
        Ok(FuncArg(None, Range(pos, pos), p.1))
  }

  /** An annotated parameter always gives an entry, with the `(-1, -1)`
      placeholder range. An unannotated parameter's annotation goes, as an
      insertion, right after its name. The entry keeps the parameter's
      annotation and default either way. */
  lemma FuncArgForPosition(p: (Arg, Option<Default>), lineOffsets: seq<nat>)
    ensures var r := FuncArgFor(p, lineOffsets);
      r.Ok? ==> r.value.typeText == p.0.annotation && r.value.default == p.1
    ensures var r := FuncArgFor(p, lineOffsets);
      var loc := p.0.loc;
      p.0.annotation.None? && 0 <= loc.lineno - 1 < |lineOffsets| ==>
        (r.Ok? <==> loc.lineno == loc.endLineno && loc.colOffset + |p.0.name| == loc.endColOffset)
        && (r.Ok? ==> r.value.annotationPosition.start == r.value.annotationPosition.stop
                      == lineOffsets[loc.lineno - 1] + loc.colOffset + |p.0.name|)
    ensures FuncArgFor(p, lineOffsets).Err? ==> FuncArgFor(p, lineOffsets).error in {AssertionError, IndexError}
    ensures p.0.annotation.Some? ==> FuncArgFor(p, lineOffsets) == Ok(FuncArg(p.0.annotation, Range(-1, -1), p.1))
  {
  }

  /** The dict func_args fills, one parameter after the other. */
  function BuildFuncArgs(params: seq<(Arg, Option<Default>)>, lineOffsets: seq<nat>): Result<Dict<string, FuncArg>>
    decreases |params|
  {
    if params == [] then Ok([])
    else
      var init := BuildFuncArgs(params[..|params| - 1], lineOffsets);
      var p := params[|params| - 1];
      if init.Err? then init
      else
        var entry := FuncArgFor(p, lineOffsets);
        if entry.Err? then Err(entry.error)
        else Ok(Put(init.value, p.0.name, entry.value))
  }

  /** func_args */
  method FuncArgs(a: Arguments, lineOffsets: seq<nat>) returns (r: Result<Dict<string, FuncArg>>)
    ensures r == BuildFuncArgs(ParamsWithDefaults(a), lineOffsets)
  {
    var params := ParamsWithDefaults(a);
    var d: Dict<string, FuncArg> := [];
    for k := 0 to |params|
      invariant BuildFuncArgs(params[..k], lineOffsets) == Ok(d)
    {
      assert params[..k + 1][..k] == params[..k];
      var entry := FuncArgFor(params[k], lineOffsets);
      if entry.Err? {
        BuildFuncArgsErr(params, k + 1, lineOffsets);
        return Err(entry.error);
      }
      d := Put(d, params[k].0.name, entry.value);
    }
    assert params[..|params|] == params;
    return Ok(d);
  }

  /** Once a prefix of the parameters fails, the whole list fails the
      same way. */
  lemma {:induction false} BuildFuncArgsErr(params: seq<(Arg, Option<Default>)>, k: nat, lineOffsets: seq<nat>)
    requires k <= |params| && BuildFuncArgs(params[..k], lineOffsets).Err?
    ensures BuildFuncArgs(params, lineOffsets) == BuildFuncArgs(params[..k], lineOffsets)
    decreases |params|
  {
    if k == |params| {
      assert params[..k] == params;
    } else {
      var n := |params| - 1;
      assert params[..n][..k] == params[..k];
      BuildFuncArgsErr(params[..n], k, lineOffsets);
    }
  }

  /** Every parameter gets an entry. */
  predicate AllEntriesOk(params: seq<(Arg, Option<Default>)>, lineOffsets: seq<nat>)
  {
    forall i :: 0 <= i < |params| ==> FuncArgFor(params[i], lineOffsets).Ok?
  }

  /** `d` holds one entry per parameter, in order, each the parameter's own. */
  predicate EntriesOf(d: Dict<string, FuncArg>, params: seq<(Arg, Option<Default>)>, lineOffsets: seq<nat>)
  {
    |d| == |params| && DistinctKeys(d)
    && forall i :: 0 <= i < |params| ==>
         FuncArgFor(params[i], lineOffsets).Ok? && d[i] == (params[i].0.name, FuncArgFor(params[i], lineOffsets).value)
  }

  /** The conclusion of BuildFuncArgsEntries for one list. */
  predicate BuildsEntries(params: seq<(Arg, Option<Default>)>, lineOffsets: seq<nat>)
  {
    var r := BuildFuncArgs(params, lineOffsets);
    (r.Ok? <==> AllEntriesOk(params, lineOffsets)) && (r.Ok? ==> EntriesOf(r.value, params, lineOffsets))
  }

  /** The inductive step of BuildFuncArgsEntries: the last parameter. */
  lemma BuildFuncArgsStep(params: seq<(Arg, Option<Default>)>, lineOffsets: seq<nat>)
    requires params != []
    requires forall i, j :: 0 <= i < j < |params| ==> params[i].0.name != params[j].0.name
    requires BuildsEntries(params[..|params| - 1], lineOffsets)
    ensures BuildsEntries(params, lineOffsets)
  {
    var n := |params| - 1;
    var init := params[..n];
    var p := params[n];
    assert forall i :: 0 <= i < n ==> init[i] == params[i];
    assert AllEntriesOk(params, lineOffsets) <==> AllEntriesOk(init, lineOffsets) && FuncArgFor(p, lineOffsets).Ok?;
    var r := BuildFuncArgs(init, lineOffsets);
    if r.Ok? && FuncArgFor(p, lineOffsets).Ok? {
      var d := r.value;
      assert !HasKey(d, p.0.name) by {
        forall i | 0 <= i < |d|
          ensures d[i].0 != p.0.name
        {
          assert d[i].0 == init[i].0.name == params[i].0.name;
        }
      }
      var d' := Put(d, p.0.name, FuncArgFor(p, lineOffsets).value);
      assert d' == d + [(p.0.name, FuncArgFor(p, lineOffsets).value)];
      assert BuildFuncArgs(params, lineOffsets) == Ok(d');
      assert EntriesOf(d', params, lineOffsets);
    }
  }

  /** One parameter fails exactly when one of them fails; with distinct
      names, the dict has one entry per parameter, in order, each the
      parameter's own entry. */
  lemma {:induction false} BuildFuncArgsEntries(params: seq<(Arg, Option<Default>)>, lineOffsets: seq<nat>)
    requires forall i, j :: 0 <= i < j < |params| ==> params[i].0.name != params[j].0.name
    ensures BuildFuncArgs(params, lineOffsets).Ok? <==>
      forall i :: 0 <= i < |params| ==> FuncArgFor(params[i], lineOffsets).Ok?
    ensures BuildFuncArgs(params, lineOffsets).Ok? ==>
      var d := BuildFuncArgs(params, lineOffsets).value;
      |d| == |params| && DistinctKeys(d)
      && forall i :: 0 <= i < |params| ==> d[i] == (params[i].0.name, FuncArgFor(params[i], lineOffsets).value)
    decreases |params|
  {
    if params != [] {
      var init := params[..|params| - 1];
      BuildFuncArgsEntries(init, lineOffsets);
      assert BuildsEntries(init, lineOffsets);
      BuildFuncArgsStep(params, lineOffsets);
    }
    assert BuildsEntries(params, lineOffsets);
  }

  // ---------------------------------------------------------------------
  // The edits of DocArg and FuncArg

  /** The outcome of one register_modification call on `file`. */
  predicate Registered(file: File, before: seq<Edit>, e: Edit, r: Result<()>)
    reads file
  {
    (r.Ok? <==> Register(before, e).Ok?)
    && (r.Ok? ==> file.modifications == Register(before, e).value)
    && (r.Err? ==> r.error == AssertionError && file.modifications == before)
  }

  /** DocArg.delete_annotation: the `: type` part goes. */
  method DeleteAnnotation(file: File, arg: DocArg) returns (r: Result<()>)
    modifies file
    ensures Registered(file, old(file.modifications), Edit(arg.annotationPosition, ""), r)
    ensures file.contents == old(file.contents) && file.toImport == old(file.toImport)
    ensures old(file.Valid()) ==> file.Valid()
  {
    r := file.RegisterModification(arg.annotationPosition, "");
  }

  /** DocArg.rename_in_docstring: the name is replaced. */
  method RenameInDocstring(file: File, arg: DocArg, newName: string) returns (r: Result<()>)
    modifies file
    ensures Registered(file, old(file.modifications), Edit(arg.namePosition, newName), r)
    ensures file.contents == old(file.contents) && file.toImport == old(file.toImport)
    ensures old(file.Valid()) ==> file.Valid()
  {
    r := file.RegisterModification(arg.namePosition, newName);
  }

  /** DocArg.delete_from_docstring: the whole entry goes. */
  method DeleteFromDocstring(file: File, arg: DocArg) returns (r: Result<()>)
    modifies file
    ensures Registered(file, old(file.modifications), Edit(arg.position, ""), r)
    ensures file.contents == old(file.contents) && file.toImport == old(file.toImport)
    ensures old(file.Valid()) ==> file.Valid()
  {
    r := file.RegisterModification(arg.position, "");
  }

  /** FuncArg.set_annotation: `: type` is put where the annotation goes. */
  method SetAnnotation(file: File, arg: FuncArg, typeText: string) returns (r: Result<()>)
    modifies file
    ensures Registered(file, old(file.modifications), Edit(arg.annotationPosition, ": " + typeText), r)
    ensures file.contents == old(file.contents) && file.toImport == old(file.toImport)
    ensures old(file.Valid()) ==> file.Valid()
  {
    r := file.RegisterModification(arg.annotationPosition, ": " + typeText);
  }

  // ---------------------------------------------------------------------
  // rename_doc_arg and delete_doc_arg

  /** What those operations change: the documented parameters of a
      function and the edit list of its file. */
  datatype DocState = DocState(docArgs: Dict<string, DocArg>, modifications: seq<Edit>)

  /** rename_doc_arg: the new name must not be documented, the old one
      must be; the name is replaced in the docstring and the entry moves to
      the new key. */
  function RenameDocArgSpec(s: DocState, name: string, newName: string): Result<DocState>
  {
    if HasKey(s.docArgs, newName) then Err(AssertionError)
    else
      var d := Get(s.docArgs, name);
      if d.None? then Err(KeyError)
      else
        var m := Register(s.modifications, Edit(d.value.namePosition, newName));
        if m.Err? then Err(m.error)
        else Ok(DocState(Put(Remove(s.docArgs, name), newName, d.value), m.value))
  }

  /** The edits delete_doc_arg registers once the entry is gone: the header
      and footer of the section when no entry is left. */
  function SectionDeletions(section: Section): seq<Edit>
  {
    [Edit(section.header, ""), Edit(section.footer, "")]
  }

  /** delete_doc_arg: the entry must exist; it is removed from the
      docstring and from the dict. When that was the last entry, the
      section's header and footer are removed as well; with no section to
      unpack, that fails with TypeError. */
  function DeleteDocArgSpec(s: DocState, name: string, section: Option<Section>): Result<DocState>
  {
    var d := Get(s.docArgs, name);
    if d.None? then Err(KeyError)
    else
      var m := Register(s.modifications, Edit(d.value.position, ""));
      if m.Err? then Err(m.error)
      else
        var rest := Remove(s.docArgs, name);
        if rest != [] then Ok(DocState(rest, m.value))
        else if section.None? then Err(TypeError)
        else
          var m' := RegisterAll(m.value, SectionDeletions(section.value));
          if m'.Err? then Err(m'.error)
          else Ok(DocState(rest, m'.value))
  }

  /** A rename succeeds exactly when the new name is free, the old one is
      documented and the name's range fits among the edits. It then moves
      that one entry to the new key, leaves every other key as it was, and
      adds exactly one edit, keeping the edit list valid. */
  lemma RenameDocArgEffect(s: DocState, name: string, newName: string, k: string)
    requires DistinctKeys(s.docArgs) && EditBuffer.Valid(s.modifications)
    ensures var r := RenameDocArgSpec(s, name, newName);
      r.Ok? <==> !HasKey(s.docArgs, newName) && HasKey(s.docArgs, name)
                 && WellFormed(Edit(Get(s.docArgs, name).value.namePosition, newName))
                 && forall e :: e in s.modifications ==> Disjoint(Get(s.docArgs, name).value.namePosition, e.pos)
    ensures var r := RenameDocArgSpec(s, name, newName);
      r.Ok? ==>
        DistinctKeys(r.value.docArgs) && |r.value.docArgs| == |s.docArgs|
        && Get(r.value.docArgs, k) == (if k == newName then Get(s.docArgs, name)
                                       else if k == name then None else Get(s.docArgs, k))
        && EditBuffer.Valid(r.value.modifications)
        && multiset(r.value.modifications)
           == multiset(s.modifications) + multiset{Edit(Get(s.docArgs, name).value.namePosition, newName)}
  {
    var r := RenameDocArgSpec(s, name, newName);
    if HasKey(s.docArgs, name) && !HasKey(s.docArgs, newName) {
      var d := Get(s.docArgs, name).value;
      var e := Edit(d.namePosition, newName);
      RegisterAccepts(s.modifications, e);
      if r.Ok? {
        RegisterAdds(s.modifications, e);
        RegisterValid(s.modifications, e);
        RemoveGet(s.docArgs, name, k);
        RemoveGet(s.docArgs, name, newName);
        PutGet(Remove(s.docArgs, name), newName, d, k);
        assert !HasKey(Remove(s.docArgs, name), newName);
      }
    }
  }

  /** A deletion removes exactly that key and keeps the others; it adds the
      deletion of the entry and, when the last entry goes, the deletions of
      the section's header and footer, keeping the edit list valid. */
  lemma DeleteDocArgEffect(s: DocState, name: string, section: Option<Section>, k: string)
    requires DistinctKeys(s.docArgs) && EditBuffer.Valid(s.modifications)
    ensures !HasKey(s.docArgs, name) ==> DeleteDocArgSpec(s, name, section) == Err(KeyError)
    ensures var r := DeleteDocArgSpec(s, name, section);
      r.Ok? ==>
        DistinctKeys(r.value.docArgs) && |r.value.docArgs| == |s.docArgs| - 1
        && Get(r.value.docArgs, k) == (if k == name then None else Get(s.docArgs, k))
        && EditBuffer.Valid(r.value.modifications)
        && multiset(r.value.modifications)
           == multiset(s.modifications) + multiset{Edit(Get(s.docArgs, name).value.position, "")}
              + (if |s.docArgs| == 1 then multiset(SectionDeletions(section.value)) else multiset{})
    ensures var r := DeleteDocArgSpec(s, name, section);
      HasKey(s.docArgs, name) && |s.docArgs| == 1 && section.None? ==> r.Err? && r.error in {AssertionError, TypeError}
  {
    var r := DeleteDocArgSpec(s, name, section);
    if HasKey(s.docArgs, name) {
      var d := Get(s.docArgs, name).value;
      var e := Edit(d.position, "");
      RemoveGet(s.docArgs, name, k);
      var m := Register(s.modifications, e);
      if m.Ok? {
        RegisterAdds(s.modifications, e);
        RegisterValid(s.modifications, e);
        if Remove(s.docArgs, name) == [] && section.Some? {
          var m' := RegisterAll(m.value, SectionDeletions(section.value));
          if m'.Ok? {
            RegisterAllSound(m.value, SectionDeletions(section.value));
          }
        }
      }
    }
  }

  /** A function with a docstring whose documented parameters are being
      fixed. Its declared parameters and its `Parameters` section are
      computed once from the unchanged text of its file. */
  class Func {
    const file: File
    const name: string
    const funcArgs: Dict<string, FuncArg>
    /** find_docstring_section('Parameters'), which is not modelled. */
    const parametersSection: Option<Section>
    var docArgs: Dict<string, DocArg>

    constructor(file: File, name: string, funcArgs: Dict<string, FuncArg>,
                parametersSection: Option<Section>, docArgs: Dict<string, DocArg>)
      ensures this.file == file && this.name == name && this.funcArgs == funcArgs
      ensures this.parametersSection == parametersSection && this.docArgs == docArgs
    {
      this.file := file;
      this.name := name;
      this.funcArgs := funcArgs;
      this.parametersSection := parametersSection;
      this.docArgs := docArgs;
    }

    function State(): DocState
      reads this, file
    {
      DocState(docArgs, file.modifications)
    }

    /** rename_doc_arg */
    method RenameDocArg(argName: string, newName: string) returns (r: Result<()>)
      modifies this, file
      ensures Follows(r, RenameDocArgSpec(old(State()), argName, newName), State())
      ensures r.Err? ==> State() == old(State())
      ensures file.contents == old(file.contents) && file.toImport == old(file.toImport)
    {
      if HasKey(docArgs, newName) {
        return Err(AssertionError);
      }
      var d := Get(docArgs, argName);
      if d.None? {
        return Err(KeyError);
      }
      r := RenameInDocstring(file, d.value, newName);
      if r.Err? {
        return;
      }
      docArgs := Put(Remove(docArgs, argName), newName, d.value);
    }

    /** delete_doc_arg */
    method DeleteDocArg(argName: string) returns (r: Result<()>)
      modifies this, file
      ensures Follows(r, DeleteDocArgSpec(old(State()), argName, parametersSection), State())
      ensures file.contents == old(file.contents) && file.toImport == old(file.toImport)
    {
      var d := Get(docArgs, argName);
      if d.None? {
        return Err(KeyError);
      }
      ghost var m := file.modifications;
      r := DeleteFromDocstring(file, d.value);
      if r.Err? {
        return;
      }
      docArgs := Remove(docArgs, argName);
      if docArgs == [] {
        if parametersSection.None? {
          return Err(TypeError);
        }
        var section := parametersSection.value;
        ghost var m1 := file.modifications;
        assert SectionDeletions(section)[0] == Edit(section.header, "");
        assert SectionDeletions(section)[1..] == [Edit(section.footer, "")];
        r := file.RegisterModification(section.header, "");
        if r.Err? {
          assert RegisterAll(m1, SectionDeletions(section)) == Err(AssertionError);
          return;
        }
        ghost var m2 := file.modifications;
        assert RegisterAll(m1, SectionDeletions(section)) == RegisterAll(m2, [Edit(section.footer, "")]);
        assert [Edit(section.footer, "")][1..] == [];
        r := file.RegisterModification(section.footer, "");
        assert RegisterAll(m2, [Edit(section.footer, "")])
          == if r.Err? then Err(AssertionError) else Ok(file.modifications);
      }
    }
  }

  /** A method's outcome and new state agree with its specification. */
  predicate Follows(r: Result<()>, spec: Result<DocState>, s: DocState)
  {
    (r.Ok? <==> spec.Ok?)
    && (r.Err? ==> r.error == spec.error)
    && (spec.Ok? ==> s == spec.value)
  }
}
