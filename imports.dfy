/** The import resolver of file.py: which names of a type annotation must be
    imported, how the annotation is rewritten to reuse names already in
    scope, which statement imports each name, and the block of imports added
    after the last top-level import of a file. */
module Imports {
  import opened Wrappers
  import opened PyText
  import opened Syntax
  import opened Utils

  // ---------------------------------------------------------------------
  // Rewriting an annotation (the SimplifyImports transformer)

  /** One pass of the transformer over `e`, depth first and left to right.
      `already` is what is in scope; `pending` is the set of names still to
      be imported, which the rules shrink as they go:
      - `a.b` becomes `b` when `b` is in scope or pending, and `a` stops
        being pending;
      - a name not in scope that `typing` exports becomes `typing.X` when
        `typing` is in scope or pending, and `X` stops being pending;
      - every other attribute and node has its children visited. */
  function Visit(e: Expr, already: set<string>, pending: set<string>, typingNames: set<string>): (r: (Expr, set<string>))
    ensures r.1 <= pending
    decreases e
  {
    match e
    case Attribute(v, attr) =>
      if v.Name? && attr in already + pending then (Name(attr), pending - {v.id})
      else
        var (v', p') := Visit(v, already, pending, typingNames);
        (Attribute(v', attr), p')
    case Name(id) =>
      if id !in already && "typing" in already + pending && id in typingNames then
        (Attribute(Name("typing"), id), pending - {id})
      else (e, pending)
    case Other(pieces, cs) =>
      var (cs', p') := VisitAll(cs, already, pending, typingNames);
      (Other(pieces, cs'), p')
  }

  function VisitAll(cs: seq<Expr>, already: set<string>, pending: set<string>, typingNames: set<string>): (r: (seq<Expr>, set<string>))
    ensures r.1 <= pending && |r.0| == |cs|
    decreases cs
  {
    if cs == [] then ([], pending)
    else
      var (c', p1) := Visit(cs[0], already, pending, typingNames);
      var (rest, p2) := VisitAll(cs[1..], already, p1, typingNames);
      ([c'] + rest, p2)
  }

  /** The names of the rewritten expression come from the original, from
      what is in scope, or from what was pending. */
  lemma {:induction false} VisitNames(e: Expr, already: set<string>, pending: set<string>, typingNames: set<string>)
    ensures Names(Visit(e, already, pending, typingNames).0) <= Names(e) + already + pending
    decreases e
  {
    match e
    case Attribute(v, attr) =>
      if !(v.Name? && attr in already + pending) {
        VisitNames(v, already, pending, typingNames);
      }
    case Name(id) =>
    case Other(pieces, cs) =>
      VisitAllNames(cs, already, pending, typingNames);
  }

  lemma {:induction false} VisitAllNames(cs: seq<Expr>, already: set<string>, pending: set<string>, typingNames: set<string>)
    ensures NamesAll(VisitAll(cs, already, pending, typingNames).0) <= NamesAll(cs) + already + pending
    decreases cs
  {
    if cs != [] {
      var (c', p1) := Visit(cs[0], already, pending, typingNames);
      VisitNames(cs[0], already, pending, typingNames);
      VisitAllNames(cs[1..], already, p1, typingNames);
      var rest := VisitAll(cs[1..], already, p1, typingNames).0;
      assert VisitAll(cs, already, pending, typingNames).0 == [c'] + rest;
      assert ([c'] + rest)[1..] == rest;
    }
  }

  /** A name that is still pending after the pass and occurred in the
      original still occurs in the result: the rules drop a name from the
      expression only together with dropping it from the pending set. */
  lemma {:induction false} VisitKeeps(e: Expr, already: set<string>, pending: set<string>, typingNames: set<string>, x: string)
    requires x in Visit(e, already, pending, typingNames).1 && x in Names(e)
    ensures x in Names(Visit(e, already, pending, typingNames).0)
    decreases e
  {
    match e
    case Attribute(v, attr) =>
      if !(v.Name? && attr in already + pending) {
        VisitKeeps(v, already, pending, typingNames, x);
      }
    case Name(id) =>
    case Other(pieces, cs) =>
      VisitAllKeeps(cs, already, pending, typingNames, x);
  }

  lemma {:induction false} VisitAllKeeps(cs: seq<Expr>, already: set<string>, pending: set<string>, typingNames: set<string>, x: string)
    requires x in VisitAll(cs, already, pending, typingNames).1 && x in NamesAll(cs)
    ensures x in NamesAll(VisitAll(cs, already, pending, typingNames).0)
    decreases cs
  {
    var (c', p1) := Visit(cs[0], already, pending, typingNames);
    var (rest, p2) := VisitAll(cs[1..], already, p1, typingNames);
    assert VisitAll(cs, already, pending, typingNames).0 == [c'] + rest;
    assert ([c'] + rest)[1..] == rest;
    if x in Names(cs[0]) {
      VisitKeeps(cs[0], already, pending, typingNames, x);
    } else {
      VisitAllKeeps(cs[1..], already, p1, typingNames, x);
    }
  }

  /** add_imports_for_expression as written: the pending set starts as the
      names of the expression that are not in scope, and what is left of it
      after the pass is what the file must import. */
  function ResolveAsWritten(e: Expr, already: set<string>, typingNames: set<string>): (r: (Expr, set<string>))
    ensures r.1 <= Names(e) - already
  {
    Visit(e, already, Names(e) - already, typingNames)
  }

  /** `foo.bar | foo.baz` with `bar` in scope: the first attribute becomes
      `bar` and `foo` is dropped from the pending set, although `foo.baz`
      still refers to it. The file ends up using `foo` without importing it. */
  lemma ResolveAsWrittenDropsUsedName()
    ensures var e := Other(["", " | ", ""], [Attribute(Name("foo"), "bar"), Attribute(Name("foo"), "baz")]);
      var r := ResolveAsWritten(e, {"bar"}, {});
      Unparse(r.0) == "bar | foo.baz" && "foo" in Names(r.0) && "foo" !in {"bar"} + r.1
  {
    var pieces := ["", " | ", ""];
    var e := Other(pieces, [Attribute(Name("foo"), "bar"), Attribute(Name("foo"), "baz")]);
    NamesPair(pieces, Attribute(Name("foo"), "bar"), Attribute(Name("foo"), "baz"));
    assert Names(e) - {"bar"} == {"foo"};
    DropsUsedNameVisit();
    NamesPair(pieces, Name("bar"), Attribute(Name("foo"), "baz"));
    DropsUsedNameUnparse();
  }

  /** The pass over `foo.bar | foo.baz` with `bar` in scope and `foo`
      pending. */
  lemma DropsUsedNameVisit()
    ensures Visit(Other(["", " | ", ""], [Attribute(Name("foo"), "bar"), Attribute(Name("foo"), "baz")]), {"bar"}, {"foo"}, {})
         == (Other(["", " | ", ""], [Name("bar"), Attribute(Name("foo"), "baz")]), {})
  {
    var a, b := Attribute(Name("foo"), "bar"), Attribute(Name("foo"), "baz");
    var cs := [a, b];
    assert {"foo"} - {"foo"} == {};
    assert Visit(a, {"bar"}, {"foo"}, {}) == (Name("bar"), {});
    assert Visit(Name("foo"), {"bar"}, {}, {}) == (Name("foo"), {});
    assert Visit(b, {"bar"}, {}, {}) == (b, {});
    assert cs[0] == a && cs[1..] == [b] && [b][1..] == [];
    assert VisitAll([], {"bar"}, {}, {}) == ([], {}) && [b] + [] == [b];
    assert VisitAll([b], {"bar"}, {}, {}) == ([b], {});
    assert VisitAll(cs, {"bar"}, {"foo"}, {}) == ([Name("bar")] + [b], {});
    assert [Name("bar")] + [b] == [Name("bar"), b];
  }

  lemma DropsUsedNameUnparse()
    ensures Unparse(Other(["", " | ", ""], [Name("bar"), Attribute(Name("foo"), "baz")])) == "bar | foo.baz"
  {
    var pieces := ["", " | ", ""];
    var cs := [Name("bar"), Attribute(Name("foo"), "baz")];
    assert pieces[1..][1..] == [""] && cs[1..][1..] == [];
    assert Join("", [""]) == "";
    assert Interleave([""], []) == "";
    assert Interleave(pieces[1..], cs[1..]) == " | foo.baz";
  }

  /** The queue a file carries decides how its later annotations are
      rewritten. After `foo.bar | foo.baz` with `bar` in scope, the code
      queues nothing while the corrected resolver queues `foo`; the next
      annotation `x.foo` is then left as `x.foo` (queueing `x`) against the
      code's set, but becomes `foo` against the corrected one. */
  lemma LaterRewriteDependsOnQueue()
    ensures var e := Other(["", " | ", ""], [Attribute(Name("foo"), "bar"), Attribute(Name("foo"), "baz")]);
      ResolveAsWritten(e, {"bar"}, {}).1 == {} && Resolve(e, {"bar"}, {}).1 == {"foo"}
    ensures var x := Attribute(Name("x"), "foo");
      ResolveAsWritten(x, {"bar"}, {}) == (x, {"x"}) && Unparse(x) == "x.foo"
    ensures ResolveAsWritten(Attribute(Name("x"), "foo"), {"bar", "foo"}, {}) == (Name("foo"), {})
  {
    var pieces := ["", " | ", ""];
    var e := Other(pieces, [Attribute(Name("foo"), "bar"), Attribute(Name("foo"), "baz")]);
    NamesPair(pieces, Attribute(Name("foo"), "bar"), Attribute(Name("foo"), "baz"));
    assert Names(e) - {"bar"} == {"foo"};
    DropsUsedNameVisit();
    NamesPair(pieces, Name("bar"), Attribute(Name("foo"), "baz"));
    assert Names(Other(pieces, [Name("bar"), Attribute(Name("foo"), "baz")])) - {"bar"} == {"foo"};
    var x := Attribute(Name("x"), "foo");
    assert Names(x) - {"bar"} == {"x"};
    assert Visit(Name("x"), {"bar"}, {"x"}, {}) == (Name("x"), {"x"});
    assert Names(x) - {"bar", "foo"} == {"x"};
    assert {"x"} - {"x"} == {};
  }

  /** The names of a node with two children. */
  lemma NamesPair(pieces: seq<string>, a: Expr, b: Expr)
    ensures Names(Other(pieces, [a, b])) == Names(a) + Names(b)
  {
    assert [a, b][0] == a && [a, b][1..] == [b] && [b][0] == b && [b][1..] == [];
    assert NamesAll([b]) == Names(b) + NamesAll([]);
    assert NamesAll([a, b]) == Names(a) + NamesAll([b]);
  }

  /** The queue the code leaves holds only names that the rewritten
      expression still uses. */
  lemma ResolveAsWrittenKeepsUsed(e: Expr, already: set<string>, typingNames: set<string>)
    ensures var w := ResolveAsWritten(e, already, typingNames);
      w.1 <= Names(w.0)
  {
    var pending := Names(e) - already;
    var w := ResolveAsWritten(e, already, typingNames);
    forall x | x in w.1
      ensures x in Names(w.0)
    {
      VisitKeeps(e, already, pending, typingNames, x);
    }
  }

  /** add_imports_for_expression with the evidently intended result: the
      same rewritten expression as the code, with every name it uses either
      in scope or to be imported. Only names of the annotation are to be
      imported, none of them is in scope, and the set only adds to the one
      the code computes. */
  function Resolve(e: Expr, already: set<string>, typingNames: set<string>): (r: (Expr, set<string>))
    ensures r.0 == ResolveAsWritten(e, already, typingNames).0
    ensures Names(r.0) <= already + r.1
    ensures r.1 <= Names(e) - already
    ensures ResolveAsWritten(e, already, typingNames).1 <= r.1
  {
    var pending := Names(e) - already;
    VisitNames(e, already, pending, typingNames);
    ResolveAsWrittenKeepsUsed(e, already, typingNames);
    var e' := Visit(e, already, pending, typingNames).0;
    (e', Names(e') - already)
  }

  /** `a.b` with `b` in scope becomes `b`, leaving nothing to import. */
  lemma ResolveAttributeInScope(a: string, b: string, already: set<string>, typingNames: set<string>)
    requires b in already && a !in already
    ensures Resolve(Attribute(Name(a), b), already, typingNames) == (Name(b), {})
  {
    var e := Attribute(Name(a), b);
    assert Names(e) - already == {a};
    assert Visit(e, already, {a}, typingNames).0 == Name(b);
    assert Names(Name(b)) - already == {};
  }

  /** A name of `typing` that is not in scope becomes `typing.X` when
      `typing` is. */
  lemma ResolveTypingName(x: string, already: set<string>, typingNames: set<string>)
    requires x !in already && "typing" in already && x in typingNames
    ensures Resolve(Name(x), already, typingNames) == (Attribute(Name("typing"), x), {})
  {
    assert Names(Name(x)) - already == {x};
    assert Names(Attribute(Name("typing"), x)) - already == {};
  }

  /** The attribute rule of the pass: `a.b` becomes `b` when `b` is in
      scope or still pending, and `a` stops being pending. */
  lemma VisitAttributeRule(a: string, b: string, already: set<string>, pending: set<string>, typingNames: set<string>)
    requires b in already + pending
    ensures Visit(Attribute(Name(a), b), already, pending, typingNames) == (Name(b), pending - {a})
  {
  }

  /** The `typing` rule of the pass: a name not in scope that `typing`
      exports becomes `typing.X` when `typing` is in scope or still pending,
      and `X` stops being pending. */
  lemma VisitTypingRule(x: string, already: set<string>, pending: set<string>, typingNames: set<string>)
    requires x !in already && "typing" in already + pending && x in typingNames
    ensures Visit(Name(x), already, pending, typingNames) == (Attribute(Name("typing"), x), pending - {x})
  {
  }

  /** Both rules fire on names the expression itself brings in. With
      nothing in scope, `bar | foo.bar` becomes `bar | bar`, since `bar` is
      pending; and `typing.Any | List` becomes `typing.Any | typing.List`,
      since `typing` is pending, queueing only `typing`. */
  lemma ResolvePendingExamples()
    ensures var e := Other(["", " | ", ""], [Name("bar"), Attribute(Name("foo"), "bar")]);
      ResolveAsWritten(e, {}, {}) == (Other(["", " | ", ""], [Name("bar"), Name("bar")]), {"bar"})
    ensures var e := Other(["", " | ", ""], [Attribute(Name("typing"), "Any"), Name("List")]);
      ResolveAsWritten(e, {}, {"Any", "List"})
        == (Other(["", " | ", ""], [Attribute(Name("typing"), "Any"), Attribute(Name("typing"), "List")]), {"typing"})
  {
    var pieces := ["", " | ", ""];
    var a, b := Name("bar"), Attribute(Name("foo"), "bar");
    NamesPair(pieces, a, b);
    assert Names(Other(pieces, [a, b])) - {} == {"bar", "foo"};
    assert Visit(a, {}, {"bar", "foo"}, {}) == (a, {"bar", "foo"});
    VisitAttributeRule("foo", "bar", {}, {"bar", "foo"}, {});
    assert {"bar", "foo"} - {"foo"} == {"bar"};
    assert [a, b][1..] == [b] && [b][1..] == [];
    assert VisitAll([], {}, {"bar"}, {}) == ([], {"bar"}) && [Name("bar")] + [] == [Name("bar")];
    assert VisitAll([b], {}, {"bar", "foo"}, {}) == ([Name("bar")], {"bar"});
    assert [a] + [Name("bar")] == [Name("bar"), Name("bar")];
    var c, d := Attribute(Name("typing"), "Any"), Name("List");
    var tn := {"Any", "List"};
    NamesPair(pieces, c, d);
    assert Names(Other(pieces, [c, d])) - {} == {"typing", "List"};
    assert Visit(Name("typing"), {}, {"typing", "List"}, tn) == (Name("typing"), {"typing", "List"});
    assert Visit(c, {}, {"typing", "List"}, tn) == (c, {"typing", "List"});
    VisitTypingRule("List", {}, {"typing", "List"}, tn);
    assert {"typing", "List"} - {"List"} == {"typing"};
    assert [c, d][1..] == [d] && [d][1..] == [];
    assert VisitAll([], {}, {"typing"}, tn) == ([], {"typing"});
    assert [Attribute(Name("typing"), "List")] + [] == [Attribute(Name("typing"), "List")];
    assert VisitAll([d], {}, {"typing", "List"}, tn) == ([Attribute(Name("typing"), "List")], {"typing"});
    assert [c] + [Attribute(Name("typing"), "List")] == [c, Attribute(Name("typing"), "List")];
  }

  /** A name neither in scope nor handled by a rule is to be imported. */
  lemma ResolveUnknownName(x: string, already: set<string>, typingNames: set<string>)
    requires x !in already && !("typing" in already + {x} && x in typingNames)
    ensures Resolve(Name(x), already, typingNames) == (Name(x), {x})
  {
    assert Names(Name(x)) - already == {x};
  }

  // ---------------------------------------------------------------------
  // The statement that imports each name

  /** What register_imports_modification needs to know about a file of the
      project: its module name and the classes it defines. */
  datatype Exporter = Exporter(moduleName: Option<string>, exports: set<string>)

  /** `file.module_name` is truthy and the file defines `n`. */
  predicate Defines(f: Exporter, n: string)
  {
    f.moduleName.Some? && f.moduleName.value != "" && n in f.exports
  }

  /** The name-to-module comprehension over the project: a later file
      overwrites the entry of an earlier one. */
  function DefiningModules(files: seq<Exporter>): map<string, string>
    decreases |files|
  {
    if files == [] then map[]
    else
      var m := DefiningModules(files[..|files| - 1]);
      var f := files[|files| - 1];
      if f.moduleName.Some? && f.moduleName.value != "" then
        m + map x | x in f.exports :: f.moduleName.value
      else m
  }

  /** One file more: the names it defines are mapped to its module, and
      the other entries stay. */
  lemma DefiningModulesStep(files: seq<Exporter>, n: string)
    requires files != []
    ensures var m, m0, f := DefiningModules(files), DefiningModules(files[..|files| - 1]), files[|files| - 1];
      (n in m <==> n in m0 || Defines(f, n))
      && (Defines(f, n) ==> m[n] == f.moduleName.value)
      && (!Defines(f, n) && n in m0 ==> m[n] == m0[n])
  {
  }

  /** A name is mapped exactly when some file defines it. */
  lemma {:induction false} DefiningModulesDomain(files: seq<Exporter>, n: string)
    ensures n in DefiningModules(files) <==> exists i :: 0 <= i < |files| && Defines(files[i], n)
    decreases |files|
  {
    if files != [] {
      var k := |files| - 1;
      var init := files[..k];
      DefiningModulesDomain(init, n);
      DefiningModulesStep(files, n);
      if n in DefiningModules(files) && !Defines(files[k], n) {
        var i :| 0 <= i < k && Defines(init[i], n);
        assert init[i] == files[i];
      }
      if exists i :: 0 <= i < |files| && Defines(files[i], n) {
        var i :| 0 <= i < |files| && Defines(files[i], n);
        if i < k {
          assert init[i] == files[i];
        }
      }
    }
  }

  /** A defined name is mapped to the module of the last file that defines
      it. */
  lemma {:induction false} DefiningModulesLastWins(files: seq<Exporter>, n: string, i: nat)
    requires i < |files| && Defines(files[i], n)
    requires forall j :: i < j < |files| ==> !Defines(files[j], n)
    ensures n in DefiningModules(files) && DefiningModules(files)[n] == files[i].moduleName.value
    decreases |files|
  {
    var k := |files| - 1;
    var init := files[..k];
    DefiningModulesStep(files, n);
    if i < k {
      assert init[i] == files[i];
      assert forall j :: i < j < k ==> init[j] == files[j];
      DefiningModulesLastWins(init, n, i);
    }
  }

  /** name_to_import_stmt: `from M import N` for the module `M` that
      defines `N` (names of `typing` first, then the project's classes,
      which win), and `import numpy as np` for `np`. */
  function ImportStatements(files: seq<Exporter>, typingNames: set<string>): map<string, string>
  {
    var modules := (map n | n in typingNames :: "typing") + DefiningModules(files);
    (map n | n in modules :: "from " + modules[n] + " import " + n + "\n")["np" := "import numpy as np\n"]
  }

  /** The statement for a name: `np` is numpy, a project class comes from
      its module even when `typing` has a name like it, a name of `typing`
      comes from `typing`, and any other name has no statement. */
  lemma ImportStatementFor(files: seq<Exporter>, typingNames: set<string>, n: string)
    ensures var stmts := ImportStatements(files, typingNames);
      var dm := DefiningModules(files);
      (n == "np" ==> n in stmts && stmts[n] == "import numpy as np\n")
      && (n != "np" && n in dm ==> n in stmts && stmts[n] == "from " + dm[n] + " import " + n + "\n")
      && (n != "np" && n !in dm && n in typingNames ==> n in stmts && stmts[n] == "from typing import " + n + "\n")
      && (n != "np" && n !in dm && n !in typingNames ==> n !in stmts)
  {
    var dm := DefiningModules(files);
    var modules := (map n | n in typingNames :: "typing") + dm;
    if n != "np" {
      ImportStatementFrom(modules, n);
      if n !in dm && n in typingNames {
        FromTyping(n);
      }
    }
  }

  /** Any name other than `np` gets the statement of its module, if any. */
  lemma ImportStatementFrom(modules: map<string, string>, n: string)
    requires n != "np"
    ensures var stmts := (map n | n in modules :: "from " + modules[n] + " import " + n + "\n")["np" := "import numpy as np\n"];
      (n in stmts <==> n in modules)
      && (n in modules ==> stmts[n] == "from " + modules[n] + " import " + n + "\n")
  {
  }

  lemma FromTyping(n: string)
    ensures "from " + "typing" + " import " + n + "\n" == "from typing import " + n + "\n"
  {
  }

  // ---------------------------------------------------------------------
  // The block of imports

  /** The guarded and unguarded names: a name is guarded when importing it
      into this file would be circular. */
  function Guarded(toImport: set<string>, fileName: string, circular: set<(string, string)>): set<string>
  {
    set n | n in toImport && (fileName, n) in circular
  }

  /** The statements for the names, in order, each after `indent`; a name
      without a statement raises KeyError. */
  function StatementLines(names: seq<string>, stmts: map<string, string>, indent: string): (r: Result<string>)
    ensures r.Err? <==> exists i :: 0 <= i < |names| && names[i] !in stmts
    ensures r.Err? ==> r.error == KeyError
    decreases |names|
  {
    if names == [] then Ok("")
    else
      var init := StatementLines(names[..|names| - 1], stmts, indent);
      var n := names[|names| - 1];
      assert forall i :: 0 <= i < |names| - 1 ==> names[..|names| - 1][i] == names[i];
      if init.Err? then init
      else if n !in stmts then Err(KeyError)
      else Ok(init.value + indent + stmts[n])
  }

  /** The text register_imports_modification inserts: the statements of the
      unguarded names in sorted order, then, when some name is guarded, the
      line `if <flag>:` and the statements of the guarded names in sorted
      order, each indented by four spaces. */
  function ImportBlock(unguarded: set<string>, guarded: set<string>, stmts: map<string, string>, flag: string): Result<string>
  {
    var a := StatementLines(Sorted(unguarded), stmts, "");
    if a.Err? then a
    else if guarded == {} then a
    else
      var b := StatementLines(Sorted(guarded), stmts, "    ");
      if b.Err? then b else Ok(a.value + "if " + flag + ":\n" + b.value)
  }

  /** Three names, the second of which would be circular: the other two
      come first in sorted order, then the guard and the indented third. */
  lemma ImportBlockExample(stmts: map<string, string>, flag: string)
    requires "A" in stmts && "B" in stmts && "C" in stmts
    ensures ImportBlock({"A", "C"}, {"B"}, stmts, flag)
      == Ok(stmts["A"] + stmts["C"] + "if " + flag + ":\n" + "    " + stmts["B"])
  {
    assert Less("A", "C");
    SortedIsUnique({"A", "C"}, ["A", "C"]);
    SortedIsUnique({"B"}, ["B"]);
    assert ["A", "C"][..1] == ["A"];
    assert ["A"][..0] == [];
    assert ["B"][..0] == [];
    assert StatementLines([], stmts, "") == Ok("");
    assert "" + "" + stmts["A"] == stmts["A"];
    assert StatementLines(["A"], stmts, "") == Ok(stmts["A"]);
    assert StatementLines(["A", "C"], stmts, "") == Ok(stmts["A"] + "" + stmts["C"]);
    assert stmts["A"] + "" + stmts["C"] == stmts["A"] + stmts["C"];
    assert StatementLines(["B"], stmts, "    ") == Ok("" + "    " + stmts["B"]);
    assert "" + "    " + stmts["B"] == "    " + stmts["B"];
    assert Sorted({"A", "C"}) == ["A", "C"] && Sorted({"B"}) == ["B"];
    var x := stmts["A"] + stmts["C"];
    assert ImportBlock({"A", "C"}, {"B"}, stmts, flag) == Ok(x + "if " + flag + ":\n" + ("    " + stmts["B"]));
    assert x + "if " + flag + ":\n" + ("    " + stmts["B"]) == x + "if " + flag + ":\n" + "    " + stmts["B"];
  }

  // ---------------------------------------------------------------------
  // Where the block goes

  function Max(s: seq<nat>): (m: nat)
    requires s != []
    ensures m in s && forall x :: x in s ==> x <= m
  {
    if |s| == 1 then s[0]
    else
      var m := Max(s[1..]);
      assert forall x :: x in s ==> x == s[0] || x in s[1..];
      if s[0] > m then s[0] else m
  }

  /** offset_for_adding_imports: the offset of the line after the last line
      of the top-level import statement that ends last. With no top-level
      import `max` raises ValueError; a line past the end of the text raises
      IndexError. */
  function OffsetForAddingImports(tree: Module, lineOffsets: seq<nat>): (r: Result<nat>)
    ensures r.Err? ==> r.error == ValueError || r.error == IndexError
    ensures r.Err? && r.error == ValueError <==> TopLevelImportLines(tree.body) == []
  {
    var lines := TopLevelImportLines(tree.body);
    if lines == [] then Err(ValueError)
    else
      var last := Max(lines);
      if last < |lineOffsets| then Ok(lineOffsets[last]) else Err(IndexError)
  }

  /** With the line offsets of the file's text, the offset is the start of
      the line that follows the last import: exactly as many line feeds come
      before it as the number of that import's last line. It fails with
      IndexError only when the text has fewer line feeds. */
  lemma OffsetIsLineStart(tree: Module, contents: string)
    requires TopLevelImportLines(tree.body) != []
    ensures var last := Max(TopLevelImportLines(tree.body));
      var r := OffsetForAddingImports(tree, IndexLines(contents));
      (r.Ok? <==> last <= multiset(contents)['\n'])
      && (r.Ok? ==>
            r.value <= |contents|
            && multiset(contents[..r.value])['\n'] == last
            && (r.value == 0 || contents[r.value - 1] == '\n'))
  {
    var last := Max(TopLevelImportLines(tree.body));
    if last < |IndexLines(contents)| {
      IndexLinesCount(contents, last);
    }
  }

  // ---------------------------------------------------------------------
  // Module names

  /** The index of the last dot of a name, if any. */
  function LastDot(name: string): (r: Option<nat>)
    ensures r.Some? ==> r.value < |name| && name[r.value] == '.' && '.' !in name[r.value + 1..]
    ensures r.None? ==> '.' !in name
  {
    if name == [] then None
    else if name[|name| - 1] == '.' then Some(|name| - 1)
    else
      var r := LastDot(name[..|name| - 1]);
      assert name == name[..|name| - 1] + [name[|name| - 1]];
      r
  }

  /** `PurePath.with_suffix('')` on the last component: the suffix starts at
      the last dot, unless that dot begins or ends the name. */
  function Stem(name: string): string
  {
    var d := LastDot(name);
    if d.Some? && 0 < d.value < |name| - 1 then name[..d.value] else name
  }

  /** module_name: the dotted module path of a file under `manim`, None for
      any other file. */
  function ModuleName(parts: seq<string>): (r: Option<string>)
    requires |parts| > 0
    ensures r.Some? <==> parts[0] == "manim"
  {
    if parts[0] != "manim" then None
    else Some(Join(".", parts[..|parts| - 1] + [Stem(parts[|parts| - 1])]))
  }

  /** The stem of `x.py` is `x` for a name without dots. */
  lemma StemOfPy(x: string)
    requires x != [] && '.' !in x
    ensures Stem(x + ".py") == x
  {
    var name := x + ".py";
    assert name[|x|] == '.' && name[|x| + 1..] == "py";
    assert LastDot(name) == Some(|x|) by {
      assert name[..|name| - 1] == x + ".p";
      assert (x + ".p")[..|x| + 1] == x + ".";
      assert LastDot(x + ".") == Some(|x|);
    }
    assert name[..|x|] == x;
  }

  /** The module name of `d1/.../dn/x.py`: the directories and the stem
      joined with dots, when the path starts with `manim`. */
  lemma ModuleNameOfPyFile(dirs: seq<string>, x: string)
    requires x != [] && '.' !in x
    ensures ModuleName(dirs + [x + ".py"])
         == if dirs != [] && dirs[0] == "manim" then Some(Join(".", dirs + [x])) else None
  {
    var parts := dirs + [x + ".py"];
    StemOfPy(x);
    assert parts[..|parts| - 1] == dirs && parts[|parts| - 1] == x + ".py";
    if dirs == [] {
      assert (x + ".py")[|x|] == '.';
      assert '.' !in "manim";
    } else {
      assert parts[0] == dirs[0];
    }
  }

  /** A file two levels below the root gets a three-part module name. */
  lemma ModuleNameExample()
    ensures ModuleName(["manim", "camera", "camera.py"]) == Some("manim.camera.camera")
    ensures ModuleName(["scripts", "a.py"]) == None
  {
    StemOfPy("camera");
    assert "camera" + ".py" == "camera.py";
    var parts := ["manim", "camera", "camera.py"];
    assert Stem(parts[2]) == "camera";
    assert parts[..2] + [Stem(parts[2])] == ["manim", "camera", "camera"];
    assert Join(".", ["camera"]) == "camera";
    var p2 := ["camera", "camera"];
    assert p2[1..] == ["camera"];
    assert Join(".", p2) == "camera" + "." + "camera";
    var p3 := ["manim", "camera", "camera"];
    assert p3[1..] == p2;
    assert Join(".", p3) == "manim" + "." + ("camera" + "." + "camera");
    assert "manim" + "." + ("camera" + "." + "camera") == "manim.camera.camera";
  }

  /** `relative_path.as_posix()` */
  function FileName(parts: seq<string>): string
  {
    Join("/", parts)
  }
}
