/** The parts of Python's syntax trees that the modelled code inspects. A
    module is a list of statements; a statement is a class definition, an
    import, or any other node with child statements. A type expression is a
    name, an attribute access, or any other node with child expressions. The
    parser itself is not modelled. */
module Syntax {
  import opened Wrappers
  import opened PyText

  /** `name` or `name as asname` in an import statement. */
  datatype Alias = Alias(name: string, asname: Option<string>)

  datatype Node =
    | ClassDef(name: string, body: seq<Node>)
    | Import(names: seq<Alias>, endLine: nat)
    | ImportFrom(from: Option<string>, names: seq<Alias>, endLine: nat)
    | OtherNode(children: seq<Node>)

  datatype Module = Module(body: seq<Node>)

  /** An expression. `Other` stands for every other node: its source text
      is its `pieces` with the unparsed `children` placed between them. */
  datatype Expr =
    | Name(id: string)
    | Attribute(value: Expr, attr: string)
    | Other(pieces: seq<string>, children: seq<Expr>)

  // ---------------------------------------------------------------------
  // Expressions

  /** The identifiers of all `Name` nodes in the expression. */
  function Names(e: Expr): set<string>
    decreases e
  {
    match e
    case Name(id) => {id}
    case Attribute(v, _) => Names(v)
    case Other(_, cs) => NamesAll(cs)
  }

  function NamesAll(cs: seq<Expr>): set<string>
    decreases cs
  {
    if cs == [] then {} else Names(cs[0]) + NamesAll(cs[1..])
  }

  /** The names of a concatenation are those of both parts. */
  lemma {:induction false} NamesAllAppend(a: seq<Expr>, b: seq<Expr>)
    ensures NamesAll(a + b) == NamesAll(a) + NamesAll(b)
  {
    if a != [] {
      assert (a + b)[1..] == a[1..] + b;
      NamesAllAppend(a[1..], b);
    } else {
      assert a + b == b;
    }
  }

  /** `ast.unparse` for the expressions above: operator precedence is taken
      to be recorded in the pieces of `Other` nodes. */
  function Unparse(e: Expr): string
    decreases e
  {
    match e
    case Name(id) => id
    case Attribute(v, a) => Unparse(v) + "." + a
    case Other(pieces, cs) => Interleave(pieces, cs)
  }

  function Interleave(pieces: seq<string>, cs: seq<Expr>): string
    decreases cs
  {
    var head := if pieces == [] then "" else pieces[0];
    var tail := if pieces == [] then [] else pieces[1..];
    if cs == [] then Join("", pieces)
    else head + Unparse(cs[0]) + Interleave(tail, cs[1..])
  }

  // ---------------------------------------------------------------------
  // Statements

  /** The names of all classes defined anywhere in the statements. */
  function ClassNames(ns: seq<Node>): set<string>
    decreases ns
  {
    if ns == [] then {} else NodeClassNames(ns[0]) + ClassNames(ns[1..])
  }

  function NodeClassNames(n: Node): set<string>
    decreases n
  {
    match n
    case ClassDef(name, body) => {name} + ClassNames(body)
    case OtherNode(children) => ClassNames(children)
    case _ => {}
  }

  /** The part of a dotted name before the first dot. */
  function FirstSegment(name: string): (r: string)
    ensures StartsWith(name, r) && '.' !in r
    ensures |r| < |name| ==> name[|r|] == '.'
  {
    if name == [] || name[0] == '.' then ""
    else [name[0]] + FirstSegment(name[1..])
  }

  /** The name an alias binds in the importing scope. */
  function BoundName(a: Alias): string
  {
    if a.asname.Some? && a.asname.value != "" then a.asname.value else FirstSegment(a.name)
  }

  function BoundNames(names: seq<Alias>): set<string>
    decreases names
  {
    if names == [] then {} else {BoundName(names[0])} + BoundNames(names[1..])
  }

  /** An import statement ending in `*`. */
  predicate IsStarImport(n: Node)
  {
    n.ImportFrom? && |n.names| > 0 && n.names[0].name == "*"
  }

  /** The global names one import statement adds: nothing for
      `from __future__ import ...`, all of `typing` for
      `from typing import *`, nothing for any other star import, otherwise
      the bound name of every alias. */
  function NodeImportedNames(n: Node, typingNames: set<string>): set<string>
    decreases n
  {
    match n
    case ClassDef(_, body) => ImportedNames(body, typingNames)
    case OtherNode(children) => ImportedNames(children, typingNames)
    case Import(names, _) => BoundNames(names)
    case ImportFrom(m, names, _) =>
      if m == Some("__future__") then {}
      else if IsStarImport(n) then (if m == Some("typing") then typingNames else {})
      else BoundNames(names)
  }

  /** The names imported anywhere in the statements. */
  function ImportedNames(ns: seq<Node>, typingNames: set<string>): set<string>
    decreases ns
  {
    if ns == [] then {} else NodeImportedNames(ns[0], typingNames) + ImportedNames(ns[1..], typingNames)
  }

  /** Every node of the statements and of their bodies, at any depth, in
      preorder. `ast.walk` visits the same nodes breadth-first; only which
      nodes are visited matters below. */
  function Walk(ns: seq<Node>): seq<Node>
    decreases ns
  {
    if ns == [] then [] else WalkNode(ns[0]) + Walk(ns[1..])
  }

  function WalkNode(n: Node): seq<Node>
    decreases n
  {
    [n] + match n
      case ClassDef(_, body) => Walk(body)
      case OtherNode(children) => Walk(children)
      case _ => []
  }

  /** The exports are the names of the class definitions the walk meets. */
  lemma {:induction false} ClassNamesWalk(ns: seq<Node>, x: string)
    ensures x in ClassNames(ns) <==> exists m :: m in Walk(ns) && m.ClassDef? && m.name == x
    decreases ns
  {
    if ns != [] {
      NodeClassNamesWalk(ns[0], x);
      ClassNamesWalk(ns[1..], x);
    }
  }

  lemma {:induction false} NodeClassNamesWalk(n: Node, x: string)
    ensures x in NodeClassNames(n) <==> exists m :: m in WalkNode(n) && m.ClassDef? && m.name == x
    decreases n
  {
    match n
    case ClassDef(_, body) => ClassNamesWalk(body, x);
    case OtherNode(children) => ClassNamesWalk(children, x);
    case _ =>
  }

  /** A name is bound by some alias of the statement. */
  lemma {:induction false} BoundNamesIn(names: seq<Alias>, x: string)
    ensures x in BoundNames(names) <==> exists a :: a in names && BoundName(a) == x
    decreases names
  {
    if names != [] {
      BoundNamesIn(names[1..], x);
      if x !in BoundNames(names) {
        forall a | a in names
          ensures BoundName(a) != x
        {
          if a != names[0] {
            assert a in names[1..];
          }
        }
      }
    }
  }

  /** An import statement that binds `x` through one of its aliases, by
      its `as` name or by the first segment of the imported name: a plain
      import, or a `from` import that is neither from `__future__` nor a
      star import. */
  predicate AliasBinds(m: Node, x: string)
  {
    (m.Import? || (m.ImportFrom? && m.from != Some("__future__") && !IsStarImport(m)))
    && exists a :: a in m.names && BoundName(a) == x
  }

  /** `from typing import *`. */
  predicate StarFromTyping(m: Node)
  {
    m.ImportFrom? && m.from == Some("typing") && IsStarImport(m)
  }

  /** The imports are the names some import statement the walk meets binds
      through an alias, and the names of `typing` when the walk meets
      `from typing import *`; `__future__` imports and other star imports
      bind nothing. */
  lemma {:induction false} ImportedNamesWalk(ns: seq<Node>, typingNames: set<string>, x: string)
    ensures x in ImportedNames(ns, typingNames)
        <==> ((exists m :: m in Walk(ns) && AliasBinds(m, x))
              || (x in typingNames && exists m :: m in Walk(ns) && StarFromTyping(m)))
    decreases ns
  {
    if ns != [] {
      NodeImportedNamesWalk(ns[0], typingNames, x);
      ImportedNamesWalk(ns[1..], typingNames, x);
    }
  }

  lemma {:induction false} NodeImportedNamesWalk(n: Node, typingNames: set<string>, x: string)
    ensures x in NodeImportedNames(n, typingNames)
        <==> ((exists m :: m in WalkNode(n) && AliasBinds(m, x))
              || (x in typingNames && exists m :: m in WalkNode(n) && StarFromTyping(m)))
    decreases n
  {
    match n
    case ClassDef(_, body) => ImportedNamesWalk(body, typingNames, x);
    case OtherNode(children) => ImportedNamesWalk(children, typingNames, x);
    case Import(names, _) =>
      BoundNamesIn(names, x);
      assert WalkNode(n) == [n];
      if x in BoundNames(names) {
        assert n in WalkNode(n) && AliasBinds(n, x);
      }
    case ImportFrom(_, names, _) =>
      BoundNamesIn(names, x);
      assert WalkNode(n) == [n];
      if x in NodeImportedNames(n, typingNames) {
        assert n in WalkNode(n);
        assert AliasBinds(n, x) || (x in typingNames && StarFromTyping(n));
      }
  }

  /** The last lines of the import statements directly in the module body. */
  function TopLevelImportLines(body: seq<Node>): (r: seq<nat>)
    ensures |r| <= |body|
    ensures forall l :: l in r <==> exists i :: 0 <= i < |body| && (body[i].Import? || body[i].ImportFrom?) && body[i].endLine == l
  {
    if body == [] then []
    else
      var rest := TopLevelImportLines(body[1..]);
      assert forall i :: 1 <= i < |body| ==> body[i] == body[1..][i - 1];
      if body[0].Import? || body[0].ImportFrom? then [body[0].endLine] + rest else rest
  }
}
