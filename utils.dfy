/** The small helpers of utils.py: the indentation at an offset, suffix
    removal, the join of two dicts on their common keys, the table of line
    start offsets, and the type clean-up pipeline. */
module Utils {
  import opened Wrappers
  import opened PyText
  import opened Dicts

  // ---------------------------------------------------------------------
  // get_indent_size_at

  /** Where `re.match` starts scanning when asked to start at `start` in a
      string of length `n`: Python clamps the position to `[0, n]`. */
  function MatchStart(start: int, n: nat): (i: nat)
    ensures i <= n
    ensures 0 <= start <= n ==> i == start
    ensures start < 0 ==> i == 0
    ensures start > n ==> i == n
  {
    if start < 0 then 0 else if start > n then n else start
  }

  /** get_indent_size_at(s, start): the length of the run of blanks that
      starts at `start`. */
  function IndentSizeAt(s: string, start: int): (n: nat)
    ensures MatchStart(start, |s|) + n <= |s|
    ensures forall k :: MatchStart(start, |s|) <= k < MatchStart(start, |s|) + n ==> s[k] == ' '
    ensures MatchStart(start, |s|) + n < |s| ==> s[MatchStart(start, |s|) + n] != ' '
    decreases |s| - MatchStart(start, |s|)
  {
    var i := MatchStart(start, |s|);
    if i < |s| && s[i] == ' ' then 1 + IndentSizeAt(s, i + 1) else 0
  }

  // ---------------------------------------------------------------------
  // remove_suffix

  /** remove_suffix as written: `text[:-len(suffix)]` when `text` ends with
      `suffix`. With an empty suffix the slice is `text[:0]`. */
  function RemoveSuffixAsWritten(text: string, suffix: string): string
  {
    if EndsWith(text, suffix) then Prefix(text, -|suffix|) else text
  }

  /** Every string ends with the empty suffix, and the slice `text[:-0]` is
      empty: the helper as written erases any text given an empty suffix. */
  lemma RemoveSuffixAsWrittenEmptySuffix()
    ensures RemoveSuffixAsWritten("int", "") == ""
  {
    assert EndsWith("int", "");
  }

  /** remove_suffix with the evidently intended meaning: the text without the
      suffix when it ends with it, otherwise the text unchanged. */
  function RemoveSuffix(text: string, suffix: string): (r: string)
    ensures EndsWith(text, suffix) ==> r + suffix == text
    ensures !EndsWith(text, suffix) ==> r == text
  {
    if EndsWith(text, suffix) then text[..|text| - |suffix|] else text
  }

  /** For every suffix the code uses (all are non-empty) the two agree. */
  lemma RemoveSuffixAgrees(text: string, suffix: string)
    requires suffix != []
    ensures RemoveSuffixAsWritten(text, suffix) == RemoveSuffix(text, suffix)
  {
    if EndsWith(text, suffix) {
      assert SliceBound(-|suffix|, |text|) == |text| - |suffix|;
    }
  }

  // ---------------------------------------------------------------------
  // zip_dicts

  /** The entry of zip_dicts for a key, given its lookups in both dicts: a
      value of `d2` that is missing or `None` drops the key. */
  function Pair<V1, V2>(a: Option<V1>, b: Option<Option<V2>>): Option<(V1, V2)>
  {
    if a.Some? && b.Some? && b.value.Some? then Some((a.value, b.value.value)) else None
  }

  /** zip_dicts(d1, d2): the keys of `d1`, in `d1`'s order, whose value in
      `d2` exists and is not `None`, each mapped to the pair of values. */
  function ZipDicts<K(==), V1, V2>(d1: Dict<K, V1>, d2: Dict<K, Option<V2>>): (r: Dict<K, (V1, V2)>)
    ensures |r| <= |d1|
    ensures forall e :: e in r ==> (e.0, e.1.0) in d1
  {
    if d1 == [] then []
    else
      var rest := ZipDicts(d1[1..], d2);
      var k := d1[0].0;
      var g := Get(d2, k);
      if g.Some? && g.value.Some? then
        [(k, (d1[0].1, g.value.value))] + rest
      else rest
  }

  /** Looking a key up in the zip is looking it up in both dicts. */
  lemma {:induction false} ZipDictsGet<K, V1, V2>(d1: Dict<K, V1>, d2: Dict<K, Option<V2>>, k: K)
    ensures Get(ZipDicts(d1, d2), k) == Pair(Get(d1, k), Get(d2, k))
  {
    if d1 != [] {
      ZipDictsGet(d1[1..], d2, k);
    }
  }

  /** Zipping with a dict whose values are all present keeps exactly the
      keys of the first dict that the second has, each with both values. */
  lemma ZipPresentGet<K, V1, V2>(d1: Dict<K, V1>, d2: Dict<K, V2>, k: K)
    ensures Get(ZipDicts(d1, Present(d2)), k)
         == if HasKey(d1, k) && HasKey(d2, k) then Some((Get(d1, k).value, Get(d2, k).value)) else None
  {
    ZipDictsGet(d1, Present(d2), k);
    PresentGet(d2, k);
  }

  /** A zip of a dict with distinct keys has distinct keys. */
  lemma {:induction false} ZipDictsDistinct<K, V1, V2>(d1: Dict<K, V1>, d2: Dict<K, Option<V2>>)
    requires DistinctKeys(d1)
    ensures DistinctKeys(ZipDicts(d1, d2))
  {
    if d1 != [] {
      ZipDictsDistinct(d1[1..], d2);
      var rest := ZipDicts(d1[1..], d2);
      forall e | e in rest
        ensures e.0 != d1[0].0
      {
        var m :| 0 <= m < |d1[1..]| && d1[1..][m] == (e.0, e.1.0);
        assert d1[m + 1].0 == e.0;
      }
    }
  }

  // ---------------------------------------------------------------------
  // index_lines

  /** index_lines(text): the offsets `^` matches in multi-line mode, that is
      0 and every offset right after a line feed. */
  function IndexLines(text: string): (r: seq<nat>)
    ensures |r| == multiset(text)['\n'] + 1
    ensures r[0] == 0
    ensures forall i :: 0 <= i < |r| ==> r[i] <= |text|
    ensures forall i, j :: 0 <= i < j < |r| ==> r[i] < r[j]
    ensures forall i :: 0 < i < |r| ==> text[r[i] - 1] == '\n'
    ensures forall p :: 0 < p <= |text| && text[p - 1] == '\n' ==> p in r
  {
    if text == [] then [0]
    else
      var n := |text| - 1;
      var init := IndexLines(text[..n]);
      assert text == text[..n] + [text[n]];
      assert multiset(text) == multiset(text[..n]) + multiset{text[n]};
      if text[n] == '\n' then init + [|text|] else init
  }

  /** Entry `k` of index_lines is the start of the line that follows the
      `k`-th line feed: exactly `k` line feeds come before it. */
  lemma {:induction false} IndexLinesCount(text: string, k: nat)
    requires k < |IndexLines(text)|
    ensures multiset(text[..IndexLines(text)[k]])['\n'] == k
  {
    if text != [] {
      var n := |text| - 1;
      var init := IndexLines(text[..n]);
      if k < |init| {
        IndexLinesCount(text[..n], k);
        assert text[..n][..init[k]] == text[..init[k]];
      } else {
        assert text[n] == '\n' && IndexLines(text)[k] == |text|;
        assert text[..|text|] == text;
        assert text == text[..n] + [text[n]];
        assert multiset(text) == multiset(text[..n]) + multiset{text[n]};
      }
    }
  }

  // ---------------------------------------------------------------------
  // cleanup_type

  /** One entry of TYPE_CLEANUPS. The `re.sub` steps are not modelled; they
      are taken as given functions, identified by their position in the list. */
  datatype Cleanup =
    | StripSuffix(suffix: string)                  // remove_suffix(s, suffix)
    | ReplaceEach(pairs: seq<(string, string)>)    // chained s.replace(a, b) calls
    | RegexRewrite(index: nat)                     // a re.sub step

  /** TYPE_CLEANUPS, in list order. */
  const TypeCleanups: seq<Cleanup> := [
    StripSuffix(", optional"),
    StripSuffix(" | None"),
    RegexRewrite(2),    // Optional[X] -> X
    RegexRewrite(3),    // (X) -> X
    RegexRewrite(4),    // 'X' -> X
    RegexRewrite(5),    // :class:`X` -> X
    ReplaceEach([("numpy", "np"), ("np.array", "np.ndarray")]),
    RegexRewrite(7),    // drop `typing.`
    RegexRewrite(8),    // List/Dict/Tuple/Type -> lower case
    RegexRewrite(9),    // string -> str
    RegexRewrite(10),   // Boolean -> bool
    ReplaceEach([("Callable[[...]", "Callable[...")]),
    RegexRewrite(12),   // Callable[X, -> Callable[[X],
    RegexRewrite(13),   // list[X, ...] -> list[X]
    ReplaceEach([(" or ", ", ")]),
    RegexRewrite(15),   // normalise the spacing around |
    RegexRewrite(16),   // a, b -> a | b
    RegexRewrite(17),   // Union[a, b] -> a | b
    ReplaceEach([("float | int", "float"), ("int | float", "float")])
  ]

  function ReplaceChain(s: string, pairs: seq<(string, string)>): string
    decreases |pairs|
  {
    if pairs == [] then s else ReplaceChain(ReplaceAll(s, pairs[0].0, pairs[0].1), pairs[1..])
  }

  function ApplyCleanup(c: Cleanup, s: string, regex: (nat, string) -> string): string
  {
    match c
    case StripSuffix(suffix) => RemoveSuffix(s, suffix)
    case ReplaceEach(pairs) => ReplaceChain(s, pairs)
    case RegexRewrite(i) => regex(i, s)
  }

  /** `functools.reduce(lambda t, c: c(t), cs, s)` */
  function ApplyCleanups(cs: seq<Cleanup>, s: string, regex: (nat, string) -> string): string
  {
    if cs == [] then s else ApplyCleanups(cs[1..], ApplyCleanup(cs[0], s, regex), regex)
  }

  /** cleanup_type */
  function CleanupType(s: string, regex: (nat, string) -> string): string
  {
    ApplyCleanups(TypeCleanups, s, regex)
  }

  /** The fold applies the clean-ups in list order: running a list that is
      the concatenation of two runs the first part, then the second. */
  lemma {:induction false} ApplyCleanupsSplit(a: seq<Cleanup>, b: seq<Cleanup>, s: string, regex: (nat, string) -> string)
    ensures ApplyCleanups(a + b, s, regex) == ApplyCleanups(b, ApplyCleanups(a, s, regex), regex)
  {
    if a != [] {
      assert (a + b)[1..] == a[1..] + b;
      ApplyCleanupsSplit(a[1..], b, ApplyCleanup(a[0], s, regex), regex);
    } else {
      assert a + b == b;
    }
  }

  /** cleanup_type is the last clean-up applied to the result of all the
      others, whatever the regular expressions do. */
  lemma CleanupTypeLastStep(s: string, regex: (nat, string) -> string)
    ensures CleanupType(s, regex) == ApplyCleanup(TypeCleanups[18], ApplyCleanups(TypeCleanups[..18], s, regex), regex)
  {
    assert TypeCleanups == TypeCleanups[..18] + [TypeCleanups[18]];
    ApplyCleanupsSplit(TypeCleanups[..18], [TypeCleanups[18]], s, regex);
  }

  /** The first two clean-ups drop a trailing ", optional" and then a
      trailing " | None" (the annotation gets its " | None" back later when
      the default is None). */
  lemma CleanupStripsOptional(t: string, regex: (nat, string) -> string)
    ensures ApplyCleanups(TypeCleanups[..2], t + ", optional", regex) == RemoveSuffix(t, " | None")
  {
    var cs := TypeCleanups[..2];
    assert cs == [StripSuffix(", optional"), StripSuffix(" | None")];
    assert cs[1..] == [StripSuffix(" | None")];
    var u := t + ", optional";
    assert EndsWith(u, ", optional") by {
      assert u[|u| - |", optional"|..] == ", optional";
    }
    assert u[..|u| - |", optional"|] == t;
    assert ApplyCleanup(cs[0], u, regex) == t;
    calc {
      ApplyCleanups(cs, u, regex);
      ApplyCleanups(cs[1..], t, regex);
      ApplyCleanups(cs[1..][1..], RemoveSuffix(t, " | None"), regex);
      { assert cs[1..][1..] == []; }
      RemoveSuffix(t, " | None");
    }
  }

  /** " or " becomes ", ". */
  lemma OrBecomesComma(regex: (nat, string) -> string)
    ensures ApplyCleanup(TypeCleanups[14], "int or str", regex) == "int, str"
  {
    assert TypeCleanups[14] == ReplaceEach([(" or ", ", ")]);
    OrReplaced();
    assert [(" or ", ", ")][1..] == [];
  }

  lemma OrReplaced()
    ensures ReplaceAll("int or str", " or ", ", ") == "int, str"
  {
    assert "int or str" == "int" + " or " + "str";
    IntHasNoOr();
    ReplaceAllLeftmost("int", " or ", ", ", "str");
    StrHasNoOr();
    assert "int" + ", " + "str" == "int, str";
  }

  lemma IntHasNoOr()
    ensures forall i: nat :: i < 3 ==> !OccursAt("int" + " or " + "str", " or ", i)
  {
    var s := "int" + " or " + "str";
    forall i: nat | i < 3
      ensures !OccursAt(s, " or ", i)
    {
      assert s[i..i + 4][0] == s[i] != ' ';
    }
  }

  lemma StrHasNoOr()
    ensures ReplaceAll("str", " or ", ", ") == "str"
  {
    ReplaceAllAbsent("str", " or ", ", ");
  }

  /** A pattern replaced by itself entirely. */
  lemma ReplaceWhole(s: string, replacement: string)
    requires s != []
    ensures ReplaceAll(s, s, replacement) == replacement
  {
    assert [] + s + [] == s;
    ReplaceAllLeftmost([], s, replacement, []);
  }

  /** "float | int" becomes "float". */
  lemma FloatOrIntBecomesFloat(regex: (nat, string) -> string)
    ensures ApplyCleanup(TypeCleanups[18], "float | int", regex) == "float"
  {
    var pairs := [("float | int", "float"), ("int | float", "float")];
    assert TypeCleanups[18] == ReplaceEach(pairs);
    ReplaceWhole("float | int", "float");
    assert ReplaceChain("float | int", pairs) == ReplaceChain("float", pairs[1..]);
    FloatHasNoIntOrFloat();
    assert pairs[1..][1..] == [];
    assert ReplaceChain("float", pairs[1..]) == ReplaceChain("float", []);
  }

  lemma FloatHasNoIntOrFloat()
    ensures ReplaceAll("float", "int | float", "float") == "float"
  {
    ReplaceAllAbsent("float", "int | float", "float");
  }

  /** "int | float" becomes "float" too. */
  lemma IntOrFloatBecomesFloat(regex: (nat, string) -> string)
    ensures ApplyCleanup(TypeCleanups[18], "int | float", regex) == "float"
  {
    var pairs := [("float | int", "float"), ("int | float", "float")];
    assert TypeCleanups[18] == ReplaceEach(pairs);
    IntOrFloatHasNoFloatOrInt();
    ReplaceWhole("int | float", "float");
    assert pairs[1..][1..] == [];
  }

  lemma IntOrFloatHasNoFloatOrInt()
    ensures ReplaceAll("int | float", "float | int", "float") == "int | float"
  {
    var s := "int | float";
    forall i: nat | i < |s|
      ensures !OccursAt(s, "float | int", i)
    {
      if i == 0 {
        assert s[0..11][0] == 'i';
      }
    }
    ReplaceAllAbsent(s, "float | int", "float");
  }
}
