/** The deferred edits of a source file. An edit stands for the change
    `contents[start:stop] = replacement`; edits are collected in a list kept
    sorted the way Python orders `(slice, str)` tuples, and are spliced into
    the text only when the file is flushed. */
module EditBuffer {
  import opened Wrappers
  import opened PyText

  datatype Range = Range(start: int, stop: int)

  datatype Edit = Edit(pos: Range, replacement: string)

  // ---------------------------------------------------------------------
  // Ordering of edits

  /** Python's `<` on `(slice(start, stop), replacement)` tuples: slices
      compare as `(start, stop)` tuples, then the replacements as strings. */
  predicate EditLess(a: Edit, b: Edit)
  {
    a.pos.start < b.pos.start
    || (a.pos.start == b.pos.start && a.pos.stop < b.pos.stop)
    || (a.pos == b.pos && Less(a.replacement, b.replacement))
  }

  predicate EditLeq(a: Edit, b: Edit)
  {
    a == b || EditLess(a, b)
  }

  lemma EditLessIrreflexive(a: Edit)
    ensures !EditLess(a, a)
  {
    LessIrreflexive(a.replacement);
  }

  lemma EditLessTransitive(a: Edit, b: Edit, c: Edit)
    requires EditLess(a, b) && EditLess(b, c)
    ensures EditLess(a, c)
  {
    if a.pos == b.pos && b.pos == c.pos {
      LessTransitive(a.replacement, b.replacement, c.replacement);
    }
  }

  lemma EditLessTotal(a: Edit, b: Edit)
    ensures a == b || EditLess(a, b) || EditLess(b, a)
  {
    LessTotal(a.replacement, b.replacement);
  }

  lemma EditLessAsymmetric(a: Edit, b: Edit)
    requires EditLess(a, b)
    ensures !EditLess(b, a)
  {
    if a.pos == b.pos {
      LessAsymmetric(a.replacement, b.replacement);
    }
  }

  /** Not after `b` in the order is the same as at most `b`. */
  lemma NotLessIsLeq(a: Edit, b: Edit)
    ensures !EditLess(b, a) <==> EditLeq(a, b)
  {
    EditLessTotal(a, b);
    if EditLess(a, b) {
      EditLessAsymmetric(a, b);
    }
    if a == b {
      EditLessIrreflexive(a);
    }
  }

  lemma EditLeqLessTransitive(a: Edit, b: Edit, c: Edit)
    requires EditLeq(a, b) && EditLess(b, c)
    ensures EditLess(a, c)
  {
    if a != b {
      EditLessTransitive(a, b, c);
    }
  }

  lemma EditLeqTransitive(a: Edit, b: Edit, c: Edit)
    requires EditLeq(a, b) && EditLeq(b, c)
    ensures EditLeq(a, c)
  {
    if a != b && b != c {
      EditLessTransitive(a, b, c);
    }
  }

  // ---------------------------------------------------------------------
  // The invariant of the edit list

  /** The ranges do not overlap; touching ranges and empty ranges at the
      boundary of another are fine. */
  predicate Disjoint(a: Range, b: Range)
  {
    a.stop <= b.start || b.stop <= a.start
  }

  predicate WellFormed(e: Edit)
  {
    e.pos.start <= e.pos.stop
  }

  predicate SortedEdits(es: seq<Edit>)
  {
    forall i, j :: 0 <= i < j < |es| ==> EditLeq(es[i], es[j])
  }

  /** The invariant `File.modifications` keeps: every range is well formed,
      the list is in ascending order, and each range ends before the next
      one starts. */
  predicate Valid(es: seq<Edit>)
  {
    (forall i :: 0 <= i < |es| ==> WellFormed(es[i]))
    && SortedEdits(es)
    && (forall i, j :: 0 <= i < j < |es| ==> es[i].pos.stop <= es[j].pos.start)
  }

  /** In a valid list any two entries at different positions are disjoint. */
  lemma ValidDisjoint(es: seq<Edit>, i: nat, j: nat)
    requires Valid(es) && i < |es| && j < |es| && i != j
    ensures Disjoint(es[i].pos, es[j].pos)
  {
  }

  // ---------------------------------------------------------------------
  // Registration

  /** `bisect.bisect(modifications, x)` on a sorted list: the index of the
      first entry greater than `x`, that is after all entries equal to it. */
  function InsertionPoint(es: seq<Edit>, x: Edit): (i: nat)
    ensures i <= |es|
    ensures forall j :: 0 <= j < i ==> !EditLess(x, es[j])
    ensures i < |es| ==> EditLess(x, es[i])
  {
    if es == [] || EditLess(x, es[0]) then 0 else 1 + InsertionPoint(es[1..], x)
  }

  /** On a sorted list every entry from the insertion point on is greater. */
  lemma InsertionPointSplits(es: seq<Edit>, x: Edit)
    requires SortedEdits(es)
    ensures forall j :: 0 <= j < InsertionPoint(es, x) ==> EditLeq(es[j], x)
    ensures forall j :: InsertionPoint(es, x) <= j < |es| ==> EditLess(x, es[j])
  {
    var i := InsertionPoint(es, x);
    forall j | 0 <= j < i
      ensures EditLeq(es[j], x)
    {
      NotLessIsLeq(es[j], x);
    }
    forall j | i <= j < |es|
      ensures EditLess(x, es[j])
    {
      assert EditLess(x, es[i]);
      if j > i && es[i] != es[j] {
        assert EditLeq(es[i], es[j]);
        EditLessTransitive(x, es[i], es[j]);
      }
    }
  }

  /** `register_modification(position, replacement)`: the assertion that
      the range is well formed, the bisection, the two assertions that the
      new range does not overlap its neighbours, and the insertion. */
  function Register(es: seq<Edit>, x: Edit): Result<seq<Edit>>
  {
    if !WellFormed(x) then Err(AssertionError)
    else
      var i := InsertionPoint(es, x);
      if !(i == |es| || x.pos.stop <= es[i].pos.start) then Err(AssertionError)
      else if !(i == 0 || es[i - 1].pos.stop <= x.pos.start) then Err(AssertionError)
      else Ok(es[..i] + [x] + es[i..])
  }

  /** A successful registration inserts exactly `x`: the old entries stay,
      unchanged and in their order, around it. */
  lemma RegisterInserts(es: seq<Edit>, x: Edit)
    requires Register(es, x).Ok?
    ensures var r := Register(es, x).value;
      |r| == |es| + 1
      && multiset(r) == multiset(es) + multiset{x}
      && exists i :: 0 <= i <= |es| && r[..i] == es[..i] && r[i] == x && r[i + 1..] == es[i..]
  {
    var i := InsertionPoint(es, x);
    var r := es[..i] + [x] + es[i..];
    assert es == es[..i] + es[i..];
    assert r[..i] == es[..i] && r[i] == x && r[i + 1..] == es[i..];
  }

  /** A successful registration adds one entry, `x`. */
  lemma RegisterAdds(es: seq<Edit>, x: Edit)
    requires Register(es, x).Ok?
    ensures |Register(es, x).value| == |es| + 1
    ensures multiset(Register(es, x).value) == multiset(es) + multiset{x}
  {
    RegisterInserts(es, x);
  }

  /** Registration keeps the list sorted and its ranges disjoint. */
  lemma RegisterValid(es: seq<Edit>, x: Edit)
    requires Valid(es) && Register(es, x).Ok?
    ensures Valid(Register(es, x).value)
  {
    var i := InsertionPoint(es, x);
    InsertionPointSplits(es, x);
    var r := es[..i] + [x] + es[i..];
    InsertedAt(es, i, x);
    assert forall k :: 0 <= k < |r| ==> WellFormed(r[k]) by {
      forall k | 0 <= k < |r|
        ensures WellFormed(r[k])
      {
        assert r[k] == Inserted(es, i, x, k);
      }
    }
    forall j, k | 0 <= j < k < |r|
      ensures EditLeq(r[j], r[k]) && r[j].pos.stop <= r[k].pos.start
    {
      InsertedPair(es, i, x, j, k);
    }
  }

  /** The entries of `es` with `x` inserted at `i`. */
  lemma InsertedAt(es: seq<Edit>, i: nat, x: Edit)
    requires i <= |es|
    ensures |es[..i] + [x] + es[i..]| == |es| + 1
    ensures forall k :: 0 <= k <= |es| ==> (es[..i] + [x] + es[i..])[k] == Inserted(es, i, x, k)
  {
  }

  /** Entry `k` of `es` with `x` inserted at `i`. */
  function Inserted(es: seq<Edit>, i: nat, x: Edit, k: nat): Edit
    requires i <= |es| && k <= |es|
  {
    if k < i then es[k] else if k == i then x else es[k - 1]
  }

  /** Two entries of a valid list with a fitting entry inserted are in order
      and apart. */
  lemma InsertedPair(es: seq<Edit>, i: nat, x: Edit, j: nat, k: nat)
    requires Valid(es) && i <= |es| && WellFormed(x)
    requires forall m :: 0 <= m < i ==> EditLeq(es[m], x)
    requires forall m :: i <= m < |es| ==> EditLess(x, es[m])
    requires i == |es| || x.pos.stop <= es[i].pos.start
    requires i == 0 || es[i - 1].pos.stop <= x.pos.start
    requires j < k <= |es|
    ensures EditLeq(Inserted(es, i, x, j), Inserted(es, i, x, k))
    ensures Inserted(es, i, x, j).pos.stop <= Inserted(es, i, x, k).pos.start
  {
    if k == i && j < i - 1 {
      assert es[j].pos.stop <= es[i - 1].pos.start;
    } else if j == i && k - 1 > i {
      assert es[i].pos.stop <= es[k - 1].pos.start;
    }
  }

  /** On a valid list, registration succeeds exactly when the range is well
      formed and overlaps no registered range. The assertions only look at
      the two neighbours; the invariant makes that enough. */
  lemma RegisterAccepts(es: seq<Edit>, x: Edit)
    requires Valid(es)
    ensures Register(es, x).Ok? <==>
      WellFormed(x) && forall e :: e in es ==> Disjoint(x.pos, e.pos)
  {
    if WellFormed(x) && forall e :: e in es ==> Disjoint(x.pos, e.pos) {
      RegisterAcceptsDisjoint(es, x);
    }
    if Register(es, x).Ok? {
      forall e | e in es
        ensures Disjoint(x.pos, e.pos)
      {
        var j :| 0 <= j < |es| && es[j] == e;
        RegisteredApart(es, x, j);
      }
    }
  }

  /** A well formed range that overlaps nothing passes both neighbour
      assertions. */
  lemma RegisterAcceptsDisjoint(es: seq<Edit>, x: Edit)
    requires Valid(es) && WellFormed(x) && forall e :: e in es ==> Disjoint(x.pos, e.pos)
    ensures Register(es, x).Ok?
  {
    var i := InsertionPoint(es, x);
    InsertionPointSplits(es, x);
    if i < |es| {
      assert Disjoint(x.pos, es[i].pos);
      // es[i] is greater than x; if it ended before x started it would
      // be an empty range at x's start, and x would be empty there too
      if es[i].pos.stop <= x.pos.start {
        assert es[i].pos.start == x.pos.start;
      }
    }
    if i > 0 {
      assert Disjoint(x.pos, es[i - 1].pos);
      if x.pos.stop <= es[i - 1].pos.start {
        assert es[i - 1].pos.start == x.pos.start;
      }
    }
  }

  /** A range that passes both neighbour assertions is apart from every
      registered range. */
  lemma RegisteredApart(es: seq<Edit>, x: Edit, j: nat)
    requires Valid(es) && Register(es, x).Ok? && j < |es|
    ensures Disjoint(x.pos, es[j].pos)
  {
    var i := InsertionPoint(es, x);
    if j + 1 < i {
      assert es[j].pos.stop <= es[i - 1].pos.start;
    } else if j > i {
      assert es[i].pos.stop <= es[j].pos.start;
    }
  }

  /** Registering several edits one after the other, stopping at the first
      failed assertion. */
  function RegisterAll(es: seq<Edit>, xs: seq<Edit>): Result<seq<Edit>>
    decreases |xs|
  {
    if xs == [] then Ok(es)
    else
      match Register(es, xs[0])
      case Err(e) => Err(e)
      case Ok(next) => RegisterAll(next, xs[1..])
  }

  /** Registering two batches one after the other is registering both. */
  lemma {:induction false} RegisterAllAppend(es: seq<Edit>, xs: seq<Edit>, ys: seq<Edit>)
    ensures RegisterAll(es, xs + ys) ==
      match RegisterAll(es, xs)
      case Err(e) => Err(e)
      case Ok(next) => RegisterAll(next, ys)
    decreases |xs|
  {
    if xs == [] {
      assert xs + ys == ys;
    } else {
      assert (xs + ys)[0] == xs[0] && (xs + ys)[1..] == xs[1..] + ys;
      if Register(es, xs[0]).Ok? {
        RegisterAllAppend(Register(es, xs[0]).value, xs[1..], ys);
      }
    }
  }

  /** One step of a run of registrations. */
  lemma RegisterAllCons(es: seq<Edit>, xs: seq<Edit>)
    requires xs != [] && RegisterAll(es, xs).Ok?
    ensures Register(es, xs[0]).Ok?
    ensures RegisterAll(es, xs) == RegisterAll(Register(es, xs[0]).value, xs[1..])
  {
  }

  /** The multiset of a list is its head's plus its tail's. */
  lemma MultisetCons<T>(xs: seq<T>)
    requires xs != []
    ensures multiset(xs) == multiset{xs[0]} + multiset(xs[1..])
  {
    assert xs == [xs[0]] + xs[1..];
  }

  /** What a successful run of registrations leaves: a valid list holding
      the old entries and the new ones. */
  lemma {:induction false} RegisterAllSound(es: seq<Edit>, xs: seq<Edit>)
    requires Valid(es) && RegisterAll(es, xs).Ok?
    ensures Valid(RegisterAll(es, xs).value)
    ensures multiset(RegisterAll(es, xs).value) == multiset(es) + multiset(xs)
    decreases |xs|
  {
    if xs != [] {
      RegisterAllCons(es, xs);
      var next := Register(es, xs[0]).value;
      RegisterValid(es, xs[0]);
      RegisterAdds(es, xs[0]);
      RegisterAllSound(next, xs[1..]);
      MultisetCons(xs);
    }
  }

  /** A value stored twice in a sequence sits at two positions. */
  lemma {:induction false} TwoCopies<T>(v: seq<T>, x: T)
    requires multiset(v)[x] >= 2
    ensures exists i, j :: 0 <= i < j < |v| && v[i] == x && v[j] == x
  {
    assert v == [v[0]] + v[1..];
    if v[0] == x {
      assert x in multiset(v[1..]);
      var j :| 0 <= j < |v[1..]| && v[1..][j] == x;
      assert v[j + 1] == x;
    } else {
      TwoCopies(v[1..], x);
      var i, j :| 0 <= i < j < |v[1..]| && v[1..][i] == x && v[1..][j] == x;
      assert v[i + 1] == x && v[j + 1] == x;
    }
  }

  /** Two entries of a valid list that are distinct as elements of its
      multiset do not overlap. */
  lemma SubDisjoint(v: seq<Edit>, x: Edit, e: Edit)
    requires Valid(v) && x in v && e in v
    requires x == e ==> multiset(v)[x] >= 2
    ensures Disjoint(x.pos, e.pos)
  {
    if x == e {
      TwoCopies(v, x);
      var i, j :| 0 <= i < j < |v| && v[i] == x && v[j] == x;
      ValidDisjoint(v, i, j);
    } else {
      var i :| 0 <= i < |v| && v[i] == x;
      var j :| 0 <= j < |v| && v[j] == e;
      ValidDisjoint(v, i, j);
    }
  }

  /** Registrations all succeed whenever the edits, together with the
      registered ones, can be arranged as a valid list at all. */
  lemma {:induction false} RegisterAllComplete(es: seq<Edit>, xs: seq<Edit>, v: seq<Edit>)
    requires Valid(es) && Valid(v) && multiset(v) == multiset(es) + multiset(xs)
    ensures RegisterAll(es, xs).Ok?
    decreases |xs|
  {
    if xs != [] {
      var x := xs[0];
      assert xs == [x] + xs[1..];
      assert x in multiset(v);
      forall e | e in es
        ensures Disjoint(x.pos, e.pos)
      {
        assert e in multiset(v);
        if x == e {
          assert multiset(v)[x] >= multiset(es)[x] + 1;
        }
        SubDisjoint(v, x, e);
      }
      var j :| 0 <= j < |v| && v[j] == x;
      RegisterAccepts(es, x);
      RegisterValid(es, x);
      RegisterInserts(es, x);
      RegisterAllComplete(Register(es, x).value, xs[1..], v);
    }
  }

  /** The order of registration is irrelevant: registering the same edits
      in any order either fails in every order or builds the same list. */
  lemma RegisterAllOrderIndependent(es: seq<Edit>, xs: seq<Edit>, ys: seq<Edit>)
    requires Valid(es) && multiset(xs) == multiset(ys)
    ensures RegisterAll(es, xs) == RegisterAll(es, ys)
  {
    if RegisterAll(es, xs).Ok? {
      RegisterAllSound(es, xs);
      RegisterAllComplete(es, ys, RegisterAll(es, xs).value);
      RegisterAllSound(es, ys);
      SortedUnique(RegisterAll(es, xs).value, RegisterAll(es, ys).value);
    } else if RegisterAll(es, ys).Ok? {
      RegisterAllSound(es, ys);
      RegisterAllComplete(es, xs, RegisterAll(es, ys).value);
    } else {
      RegisterAllErr(es, xs);
      RegisterAllErr(es, ys);
    }
  }

  /** Every failure is a failed assertion. */
  lemma {:induction false} RegisterAllErr(es: seq<Edit>, xs: seq<Edit>)
    requires RegisterAll(es, xs).Err?
    ensures RegisterAll(es, xs) == Err(AssertionError)
    decreases |xs|
  {
    if Register(es, xs[0]).Ok? {
      RegisterAllErr(Register(es, xs[0]).value, xs[1..]);
    }
  }

  /** Two sorted lists with the same elements start with the same entry. */
  lemma SortedHead(a: seq<Edit>, b: seq<Edit>)
    requires SortedEdits(a) && SortedEdits(b) && multiset(a) == multiset(b) && a != []
    ensures b != [] && a[0] == b[0]
  {
    assert a[0] in multiset(b);
    var k :| 0 <= k < |b| && b[k] == a[0];
    assert b[0] in multiset(a);
    var m :| 0 <= m < |a| && a[m] == b[0];
    assert EditLeq(b[0], b[k]) && EditLeq(a[0], a[m]);
    if a[0] != b[0] {
      EditLessAsymmetric(a[0], b[0]);
    }
  }

  lemma SortedTail(a: seq<Edit>)
    requires SortedEdits(a) && a != []
    ensures SortedEdits(a[1..])
  {
    assert forall i :: 0 <= i < |a[1..]| ==> a[1..][i] == a[i + 1];
  }

  lemma MultisetCancel<T>(x: T, p: multiset<T>, q: multiset<T>)
    requires multiset{x} + p == multiset{x} + q
    ensures p == q
  {
    assert p == multiset{x} + p - multiset{x};
  }

  /** A sorted list is determined by its elements. */
  lemma {:induction false} SortedUnique(a: seq<Edit>, b: seq<Edit>)
    requires SortedEdits(a) && SortedEdits(b) && multiset(a) == multiset(b)
    ensures a == b
    decreases |a|
  {
    if a == [] {
      assert |b| == |multiset(b)| == 0;
    } else {
      SortedHead(a, b);
      SortedTail(a);
      SortedTail(b);
      MultisetCons(a);
      MultisetCons(b);
      MultisetCancel(a[0], multiset(a[1..]), multiset(b[1..]));
      SortedUnique(a[1..], b[1..]);
      assert a == [a[0]] + a[1..] && b == [b[0]] + b[1..];
    }
  }

  // ---------------------------------------------------------------------
  // Applying the edits

  /** `contents[:start] + replacement + contents[stop:]`, with Python's
      slicing. */
  function Splice(contents: string, e: Edit): string
  {
    Prefix(contents, e.pos.start) + e.replacement + Suffix(contents, e.pos.stop)
  }

  /** The loop of apply_modifications: the edits spliced in from the last
      to the first, so that the offsets of the earlier ones still hold. */
  function ApplyReversed(contents: string, es: seq<Edit>): string
    decreases |es|
  {
    if es == [] then contents
    else ApplyReversed(Splice(contents, es[|es| - 1]), es[..|es| - 1])
  }

  /** The ranges lie inside the text. */
  predicate InBounds(contents: string, es: seq<Edit>)
  {
    forall i :: 0 <= i < |es| ==> 0 <= es[i].pos.start && es[i].pos.stop <= |contents|
  }

  /** From offset `cur` on, each range is well formed and starts at or
      after the end of the one before, and all of them end by `n`. */
  predicate Fits(es: seq<Edit>, cur: int, n: int)
    decreases |es|
  {
    if es == [] then cur <= n
    else
      var e := es[|es| - 1];
      Fits(es[..|es| - 1], cur, e.pos.start) && e.pos.start <= e.pos.stop <= n
  }

  /** The edited text of `contents[cur:n]` assembled from the original
      offsets: the text before the last edit with the other edits made,
      then the last replacement, then the text after its range. */
  function Rebuild(contents: string, es: seq<Edit>, cur: nat, n: nat): string
    requires cur <= n <= |contents| && Fits(es, cur, n)
    decreases |es|
  {
    if es == [] then contents[cur..n]
    else
      var e := es[|es| - 1];
      FitsStart(es[..|es| - 1], cur, e.pos.start);
      Rebuild(contents, es[..|es| - 1], cur, e.pos.start) + e.replacement + contents[e.pos.stop..n]
  }

  /** A fitting list starts no earlier than `cur` and ends by `n`. */
  lemma {:induction false} FitsStart(es: seq<Edit>, cur: int, n: int)
    requires Fits(es, cur, n)
    ensures cur <= n
    decreases |es|
  {
    if es != [] {
      FitsStart(es[..|es| - 1], cur, es[|es| - 1].pos.start);
    }
  }

  /** A valid list whose ranges end by `n` fits from any offset up to its
      first range. */
  lemma {:induction false} ValidFits(es: seq<Edit>, cur: int, n: int)
    requires Valid(es) && forall i :: 0 <= i < |es| ==> es[i].pos.stop <= n
    requires if es == [] then cur <= n else cur <= es[0].pos.start
    ensures Fits(es, cur, n)
    decreases |es|
  {
    if es != [] {
      var k := |es| - 1;
      var init := es[..k];
      assert forall i :: 0 <= i < |init| ==> init[i] == es[i];
      assert Valid(init);
      assert WellFormed(es[k]);
      ValidFits(init, cur, es[k].pos.start);
    }
  }

  /** A list that fits by `n` fits by any larger bound. */
  lemma FitsWeaken(es: seq<Edit>, cur: int, n: int, m: int)
    requires Fits(es, cur, n) && n <= m
    ensures Fits(es, cur, m)
  {
  }

  /** A slice of a prefix is the same slice of the whole. */
  lemma SliceOfPrefix(contents: string, y: nat, lo: nat, hi: nat)
    requires lo <= hi <= y <= |contents|
    ensures contents[..y][lo..hi] == contents[lo..hi]
  {
    assert forall i :: 0 <= i < hi - lo ==> contents[..y][lo..hi][i] == contents[lo + i];
  }

  /** The rebuilt text up to `n` only reads the text up to `n`. */
  lemma {:induction false} RebuildPrefix(contents: string, y: nat, es: seq<Edit>, cur: nat, n: nat)
    requires cur <= n <= y <= |contents| && Fits(es, cur, n)
    ensures Rebuild(contents[..y], es, cur, n) == Rebuild(contents, es, cur, n)
    decreases |es|
  {
    if es == [] {
      SliceOfPrefix(contents, y, cur, n);
    } else {
      var e := es[|es| - 1];
      FitsStart(es[..|es| - 1], cur, e.pos.start);
      SliceOfPrefix(contents, y, e.pos.stop, n);
      RebuildPrefix(contents, y, es[..|es| - 1], cur, e.pos.start);
    }
  }

  /** Text after all the edits does not depend on what follows them. */
  lemma {:induction false} ApplyReversedPrefix(p: string, q: string, es: seq<Edit>)
    requires Fits(es, 0, |p|)
    ensures ApplyReversed(p + q, es) == ApplyReversed(p, es) + q
    decreases |es|
  {
    if es != [] {
      var k := |es| - 1;
      var e := es[k];
      FitsStart(es[..k], 0, e.pos.start);
      SplicePrefix(p, q, e);
      FitsWeaken(es[..k], 0, e.pos.start, |Splice(p, e)|);
      ApplyReversedPrefix(Splice(p, e), q, es[..k]);
    }
  }

  /** A splice inside `p` leaves text appended to `p` alone. */
  lemma SplicePrefix(p: string, q: string, e: Edit)
    requires 0 <= e.pos.start <= e.pos.stop <= |p|
    ensures Splice(p + q, e) == Splice(p, e) + q
    ensures |Splice(p, e)| >= e.pos.start
  {
    assert (p + q)[..e.pos.start] == p[..e.pos.start];
    assert (p + q)[e.pos.stop..] == p[e.pos.stop..] + q;
  }

  /** A splice inside the text keeps the text before and after the range. */
  lemma SpliceInBounds(contents: string, e: Edit)
    requires 0 <= e.pos.start <= e.pos.stop <= |contents|
    ensures Splice(contents, e) == contents[..e.pos.start] + (e.replacement + contents[e.pos.stop..])
  {
  }

  /** The reverse-order splice of apply_modifications puts every replacement
      exactly where its range lay in the original text. */
  lemma {:induction false} ApplyIsRebuild(contents: string, es: seq<Edit>)
    requires Fits(es, 0, |contents|)
    ensures ApplyReversed(contents, es) == Rebuild(contents, es, 0, |contents|)
    decreases |es|
  {
    if es != [] {
      var k := |es| - 1;
      var e := es[k];
      FitsStart(es[..k], 0, e.pos.start);
      var p := contents[..e.pos.start];
      var q := e.replacement + contents[e.pos.stop..];
      SpliceInBounds(contents, e);
      ApplyReversedPrefix(p, q, es[..k]);
      ApplyIsRebuild(p, es[..k]);
      RebuildPrefix(contents, e.pos.start, es[..k], 0, e.pos.start);
    }
  }

  /** The edited text depends only on which edits were registered, not on
      the order of registration. */
  lemma ApplyOrderIndependent(contents: string, xs: seq<Edit>, ys: seq<Edit>)
    requires multiset(xs) == multiset(ys) && RegisterAll([], xs).Ok?
    ensures RegisterAll([], ys).Ok?
    ensures ApplyReversed(contents, RegisterAll([], xs).value) == ApplyReversed(contents, RegisterAll([], ys).value)
  {
    RegisterAllOrderIndependent([], xs, ys);
  }

  /** Registration accepts an edit that starts where another ends. */
  lemma RegisterTouching()
    ensures Register([Edit(Range(1, 3), "")], Edit(Range(3, 5), "x")).Ok?
  {
    RegisterAccepts([Edit(Range(1, 3), "")], Edit(Range(3, 5), "x"));
  }

  /** Several insertions at one offset are accepted in either order. */
  lemma RegisterSameOffset()
    ensures Register([Edit(Range(3, 3), "a")], Edit(Range(3, 3), "b")).Ok?
    ensures Register([Edit(Range(3, 3), "b")], Edit(Range(3, 3), "a")).Ok?
  {
    RegisterAccepts([Edit(Range(3, 3), "a")], Edit(Range(3, 3), "b"));
    RegisterAccepts([Edit(Range(3, 3), "b")], Edit(Range(3, 3), "a"));
  }

  /** An overlap and a reversed range are rejected. */
  lemma RegisterRejects()
    ensures Register([Edit(Range(1, 4), "")], Edit(Range(3, 5), "x")).Err?
    ensures Register([], Edit(Range(2, 1), "x")) == Err(AssertionError)
  {
    RegisterAccepts([Edit(Range(1, 4), "")], Edit(Range(3, 5), "x"));
  }
}
