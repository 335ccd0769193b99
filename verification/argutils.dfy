/** The ordering of command-line arguments for printing: `_priority` ranks a
    value by its type, and `args2dict` lists the arguments sorted by rank and,
    within a rank, by name. */
module ArgUtils {
  import opened Wrappers

  /** The classes `_priority` knows by name, and every other class. */
  datatype Class = Path | Str | Int | Float | Bool | Other(name: string)

  /** A value, seen through its type: `cls` is `type(o)` and `mro` the classes
      `isinstance(o, t)` accepts. */
  datatype Value = Value(cls: Class, mro: seq<Class>)

  /** `_type_priorities`, in decreasing order of priority. */
  const TypePriorities: seq<Class> := [Path, Str, Int, Float, Bool]

  /** The first index at or after `i` whose class is exactly `c`. */
  function FirstExact(c: Class, i: nat): (r: Option<nat>)
    requires i <= |TypePriorities|
    ensures r.Some? ==> i <= r.value < |TypePriorities| && TypePriorities[r.value] == c
    ensures r.Some? ==> forall k :: i <= k < r.value ==> TypePriorities[k] != c
    ensures r.None? ==> forall k :: i <= k < |TypePriorities| ==> TypePriorities[k] != c
    decreases |TypePriorities| - i
  {
    if i == |TypePriorities| then None
    else if TypePriorities[i] == c then Some(i)
    else FirstExact(c, i + 1)
  }

  /** The first index at or after `i` whose class the value is an instance of. */
  function FirstInstance(v: Value, i: nat): (r: Option<nat>)
    requires i <= |TypePriorities|
    ensures r.Some? ==> i <= r.value < |TypePriorities| && TypePriorities[r.value] in v.mro
    ensures r.Some? ==> forall k :: i <= k < r.value ==> TypePriorities[k] !in v.mro
    ensures r.None? ==> forall k :: i <= k < |TypePriorities| ==> TypePriorities[k] !in v.mro
    decreases |TypePriorities| - i
  {
    if i == |TypePriorities| then None
    else if TypePriorities[i] in v.mro then Some(i)
    else FirstInstance(v, i + 1)
  }

  /** `_priority(o)`: the index of the exact type if listed, else the index of
      the first listed class the value is an instance of, else the length of
      the list. */
  function Priority(v: Value): (p: nat)
    ensures p <= |TypePriorities|
    ensures v.cls in TypePriorities ==> p < |TypePriorities| && TypePriorities[p] == v.cls
    ensures v.cls !in TypePriorities ==>
              (p < |TypePriorities| <==> exists k :: 0 <= k < |TypePriorities| && TypePriorities[k] in v.mro)
    ensures v.cls !in TypePriorities && p < |TypePriorities| ==>
              TypePriorities[p] in v.mro && forall k :: 0 <= k < p ==> TypePriorities[k] !in v.mro
  {
    match FirstExact(v.cls, 0)
    case Some(p) => p
    case None =>
      match FirstInstance(v, 0)
      case Some(p) => p
      case None => |TypePriorities|
  }

  /** An exact type match wins over an inherited one: `True` is an `int`, yet
      ranks as a `bool`. */
  lemma BoolRanksAsBool(v: Value)
    requires v.cls == Bool && v.mro == [Bool, Int]
    ensures Priority(v) == 4
  {
  }

  /** A subclass of `Path` that is not listed itself ranks as a `Path`. */
  lemma PathSubclassRanksAsPath(name: string, rest: seq<Class>)
    ensures Priority(Value(Other(name), [Other(name), Path] + rest)) == 0
  {
    var v := Value(Other(name), [Other(name), Path] + rest);
    assert Other(name) !in TypePriorities;
    assert TypePriorities[0] in v.mro;
  }

  /** A value of a listed class ranks at that class's place, whatever it
      inherits from. */
  lemma ListedRanksAtItsPlace(v: Value, k: nat)
    requires k < |TypePriorities| && v.cls == TypePriorities[k]
    ensures Priority(v) == k
  {
    assert forall i, j :: 0 <= i < j < |TypePriorities| ==> TypePriorities[i] != TypePriorities[j];
  }

  // ---------------------------------------------------------------------------
  // Comparing names

  /** Python's `<` on strings: code-point order, a proper prefix first. */
  predicate StrLess(a: string, b: string)
    decreases |a|
  {
    if |a| == 0 then |b| > 0
    else if |b| == 0 then false
    else if a[0] != b[0] then a[0] < b[0]
    else StrLess(a[1..], b[1..])
  }

  lemma {:induction false} StrLessIrreflexive(a: string)
    ensures !StrLess(a, a)
    decreases |a|
  {
    if |a| > 0 {
      StrLessIrreflexive(a[1..]);
    }
  }

  lemma {:induction false} StrLessTotal(a: string, b: string)
    requires a != b
    ensures StrLess(a, b) || StrLess(b, a)
    decreases |a|
  {
    if |a| > 0 && |b| > 0 && a[0] == b[0] {
      assert a == [a[0]] + a[1..] && b == [b[0]] + b[1..];
      StrLessTotal(a[1..], b[1..]);
    }
  }

  lemma {:induction false} StrLessAsymmetric(a: string, b: string)
    requires StrLess(a, b)
    ensures !StrLess(b, a)
    decreases |a|
  {
    if |a| > 0 && a[0] == b[0] {
      StrLessAsymmetric(a[1..], b[1..]);
    }
  }

  lemma {:induction false} StrLessTransitive(a: string, b: string, c: string)
    requires StrLess(a, b) && StrLess(b, c)
    ensures StrLess(a, c)
    decreases |a|
  {
    if |a| > 0 && a[0] == b[0] && b[0] == c[0] {
      StrLessTransitive(a[1..], b[1..], c[1..]);
    }
  }

  // ---------------------------------------------------------------------------
  // args2dict

  /** One argument with its rank. */
  datatype Entry = Entry(rank: nat, key: string, value: Value)

  /** `lexsort((keys, priorities))` orders by rank first and name second. */
  predicate Before(a: Entry, b: Entry) {
    a.rank < b.rank || (a.rank == b.rank && (a.key == b.key || StrLess(a.key, b.key)))
  }

  predicate Sorted(s: seq<Entry>) {
    forall i :: 0 <= i < |s| - 1 ==> Before(s[i], s[i + 1])
  }

  lemma BeforeTotal(a: Entry, b: Entry)
    ensures Before(a, b) || Before(b, a)
  {
    if a.rank == b.rank && a.key != b.key {
      StrLessTotal(a.key, b.key);
    }
  }

  lemma BeforeTransitive(a: Entry, b: Entry, c: Entry)
    requires Before(a, b) && Before(b, c)
    ensures Before(a, c)
  {
    if a.rank == b.rank == c.rank && a.key != b.key && b.key != c.key {
      StrLessTransitive(a.key, b.key, c.key);
    }
  }

  /** Insert `e` in front of the first entry it goes before. */
  function Insert(e: Entry, s: seq<Entry>): (r: seq<Entry>)
    ensures |r| == |s| + 1
  {
    if |s| == 0 then [e]
    else if Before(e, s[0]) then [e] + s
    else [s[0]] + Insert(e, s[1..])
  }

  lemma {:induction false} InsertPermutes(e: Entry, s: seq<Entry>)
    ensures multiset(Insert(e, s)) == multiset(s) + multiset{e}
  {
    if |s| > 0 && !Before(e, s[0]) {
      InsertPermutes(e, s[1..]);
      assert s == [s[0]] + s[1..];
      assert Insert(e, s) == [s[0]] + Insert(e, s[1..]);
    }
  }

  /** The head of an insertion is the inserted entry or the old head. */
  lemma InsertHead(e: Entry, s: seq<Entry>)
    ensures Insert(e, s)[0] == e || (|s| > 0 && Insert(e, s)[0] == s[0])
  {
  }

  lemma {:induction false} InsertSorted(e: Entry, s: seq<Entry>)
    requires Sorted(s)
    ensures Sorted(Insert(e, s))
  {
    if |s| > 0 && !Before(e, s[0]) {
      var tail := s[1..];
      assert Sorted(tail);
      InsertSorted(e, tail);
      BeforeTotal(e, s[0]);
      InsertHead(e, tail);
      var r := Insert(e, s);
      assert r == [s[0]] + Insert(e, tail);
      assert Before(r[0], r[1]);
    }
  }

  /** Insertion sort by (rank, name). */
  function Sort(s: seq<Entry>): (r: seq<Entry>)
    ensures |r| == |s|
  {
    if |s| == 0 then [] else Insert(s[0], Sort(s[1..]))
  }

  lemma {:induction false} SortPermutes(s: seq<Entry>)
    ensures multiset(Sort(s)) == multiset(s)
  {
    if |s| > 0 {
      SortPermutes(s[1..]);
      InsertPermutes(s[0], Sort(s[1..]));
      assert s == [s[0]] + s[1..];
    }
  }

  lemma {:induction false} SortSorted(s: seq<Entry>)
    ensures Sorted(Sort(s))
  {
    if |s| > 0 {
      SortSorted(s[1..]);
      InsertSorted(s[0], Sort(s[1..]));
    }
  }

  /** `all_params.index(p) if p in all_params else len(all_params)` */
  function IndexOr(params: seq<string>, key: string): (i: nat)
    ensures i <= |params|
    ensures i < |params| <==> key in params
    ensures i < |params| ==> params[i] == key && key !in params[..i]
  {
    if |params| == 0 then 0
    else if params[0] == key then 0
    else 1 + IndexOr(params[1..], key)
  }

  /** The rank of an argument: by the type of its value, or by the place of
      its name among the parser's destinations. */
  function Rank(key: string, value: Value, parser: Option<seq<string>>): nat {
    match parser
    case None => Priority(value)
    case Some(params) => IndexOr(params, key)
  }

  function Entries(args: seq<(string, Value)>, parser: Option<seq<string>>): (es: seq<Entry>)
    ensures |es| == |args|
    ensures forall k :: 0 <= k < |args| ==>
              es[k] == Entry(Rank(args[k].0, args[k].1, parser), args[k].0, args[k].1)
  {
    if |args| == 0 then []
    else [Entry(Rank(args[0].0, args[0].1, parser), args[0].0, args[0].1)] + Entries(args[1..], parser)
  }

  function Pairs(es: seq<Entry>): (ps: seq<(string, Value)>)
    ensures |ps| == |es|
    ensures forall k :: 0 <= k < |es| ==> ps[k] == (es[k].key, es[k].value)
  {
    if |es| == 0 then [] else [(es[0].key, es[0].value)] + Pairs(es[1..])
  }

  /** `args2dict(args, parser)`: `args` are the items of `vars(args)` in
      order; the result lists the items of the returned dictionary in its
      iteration order, with the rank each was sorted by. */
  function Args2Dict(args: seq<(string, Value)>, parser: Option<seq<string>>): (out: seq<Entry>)
    ensures |out| == |args|
  {
    Sort(Entries(args, parser))
  }

  /** The dictionary holds exactly the arguments' name/value pairs: nothing
      is dropped, added or altered. */
  lemma Args2DictPermutes(args: seq<(string, Value)>, parser: Option<seq<string>>)
    ensures multiset(Pairs(Args2Dict(args, parser))) == multiset(args)
  {
    var es := Entries(args, parser);
    PairsSort(es);
    PairsOfEntries(args, parser);
  }

  lemma PairsOfEntries(args: seq<(string, Value)>, parser: Option<seq<string>>)
    ensures Pairs(Entries(args, parser)) == args
  {
    var ps := Pairs(Entries(args, parser));
    assert forall k :: 0 <= k < |args| ==> ps[k] == args[k];
  }

  /** Every entry is listed before each later one in (rank, name) order. */
  lemma Args2DictSorted(args: seq<(string, Value)>, parser: Option<seq<string>>)
    ensures Sorted(Args2Dict(args, parser))
    ensures forall i, j :: 0 <= i < j < |args| ==>
              Before(Args2Dict(args, parser)[i], Args2Dict(args, parser)[j])
  {
    var out := Args2Dict(args, parser);
    SortSorted(Entries(args, parser));
    SortedPairwise(out);
  }

  lemma {:induction false} SortedPairwise(s: seq<Entry>)
    requires Sorted(s)
    ensures forall i, j :: 0 <= i < j < |s| ==> Before(s[i], s[j])
  {
    if |s| > 1 {
      assert Sorted(s[1..]);
      SortedPairwise(s[1..]);
      forall j | 1 < j < |s|
        ensures Before(s[0], s[j])
      {
        assert Before(s[1], s[j]) by {
          assert s[1..][0] == s[1] && s[1..][j - 1] == s[j];
        }
        BeforeTransitive(s[0], s[1], s[j]);
      }
      forall i, j | 0 < i < j < |s|
        ensures Before(s[i], s[j])
      {
        assert s[1..][i - 1] == s[i] && s[1..][j - 1] == s[j];
      }
    }
  }

  /** Each entry carries the rank `_priority` or the parser gives it. */
  predicate Ranked(es: seq<Entry>, parser: Option<seq<string>>) {
    forall k :: 0 <= k < |es| ==> es[k].rank == Rank(es[k].key, es[k].value, parser)
  }

  lemma Args2DictRanked(args: seq<(string, Value)>, parser: Option<seq<string>>)
    ensures Ranked(Args2Dict(args, parser), parser)
  {
    var es := Entries(args, parser);
    SortPermutes(es);
    RankedPermutation(Sort(es), es, parser);
  }

  lemma RankedPermutation(a: seq<Entry>, b: seq<Entry>, parser: Option<seq<string>>)
    requires multiset(a) == multiset(b) && Ranked(b, parser)
    ensures Ranked(a, parser)
  {
    forall k | 0 <= k < |a|
      ensures a[k].rank == Rank(a[k].key, a[k].value, parser)
    {
      assert a[k] in multiset(b);
      var j :| 0 <= j < |b| && b[j] == a[k];
    }
  }

  /** With a parser, the names it does not know come after all the names it
      knows. */
  lemma UnknownKeysLast(args: seq<(string, Value)>, params: seq<string>, i: nat, j: nat)
    requires i < j < |args|
    requires Args2Dict(args, Some(params))[i].key !in params
    ensures Args2Dict(args, Some(params))[j].key !in params
  {
    var out := Args2Dict(args, Some(params));
    Args2DictSorted(args, Some(params));
    Args2DictRanked(args, Some(params));
    assert Before(out[i], out[j]);
  }

  lemma {:induction false} PairsInsert(e: Entry, s: seq<Entry>)
    ensures multiset(Pairs(Insert(e, s))) == multiset(Pairs(s)) + multiset{(e.key, e.value)}
  {
    if |s| > 0 && !Before(e, s[0]) {
      PairsInsert(e, s[1..]);
      assert Pairs(Insert(e, s)) == [(s[0].key, s[0].value)] + Pairs(Insert(e, s[1..]));
      assert Pairs(s) == [(s[0].key, s[0].value)] + Pairs(s[1..]);
    } else if |s| > 0 {
      assert Pairs(Insert(e, s)) == [(e.key, e.value)] + Pairs(s);
    }
  }

  lemma {:induction false} PairsSort(s: seq<Entry>)
    ensures multiset(Pairs(Sort(s))) == multiset(Pairs(s))
  {
    if |s| > 0 {
      PairsSort(s[1..]);
      PairsInsert(s[0], Sort(s[1..]));
      assert Pairs(s) == [(s[0].key, s[0].value)] + Pairs(s[1..]);
    }
  }
}
