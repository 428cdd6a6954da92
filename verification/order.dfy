/** The order in which the advanced merge processes the keys of one layer:
    `_sort_order` turns each separated key into the tuple
    `(true_key, lock, action_index, mod_indexes)`, and `sorted` arranges the
    keys by that tuple, compared the way Python compares tuples, strings and
    lists. */
module Order {
  import opened Values
  import opened Grammar

  /** Python's `<` on lists of integers: lexicographic, a proper prefix
      coming first. */
  predicate LexLess(a: seq<int>, b: seq<int>)
  {
    |b| > 0 && (|a| == 0 || a[0] < b[0] || (a[0] == b[0] && LexLess(a[1..], b[1..])))
  }

  lemma {:induction false} LexLessIrreflexive(a: seq<int>)
    ensures !LexLess(a, a)
  {
    if |a| > 0 {
      LexLessIrreflexive(a[1..]);
    }
  }

  lemma {:induction false} LexLessTransitive(a: seq<int>, b: seq<int>, c: seq<int>)
    requires LexLess(a, b) && LexLess(b, c)
    ensures LexLess(a, c)
  {
    if |a| > 0 && a[0] == b[0] && b[0] == c[0] {
      LexLessTransitive(a[1..], b[1..], c[1..]);
    }
  }

  lemma {:induction false} LexLessTotal(a: seq<int>, b: seq<int>)
    ensures a == b || LexLess(a, b) || LexLess(b, a)
  {
    if |a| > 0 && |b| > 0 && a[0] == b[0] {
      LexLessTotal(a[1..], b[1..]);
      if a[1..] == b[1..] {
        assert a == [a[0]] + a[1..] && b == [b[0]] + b[1..];
      }
    }
  }

  /** The code points of a string; Python compares strings by them. */
  function Codes(s: string): (r: seq<int>)
    ensures |r| == |s| && forall i :: 0 <= i < |s| ==> r[i] == s[i] as int
  {
    seq(|s|, i requires 0 <= i < |s| => s[i] as int)
  }

  lemma CodesInjective(a: string, b: string)
    requires Codes(a) == Codes(b)
    ensures a == b
  {
    assert |a| == |b|;
    forall i | 0 <= i < |a|
      ensures a[i] == b[i]
    {
      assert Codes(a)[i] == Codes(b)[i];
    }
  }

  /** The sort key of one separated key. The lock group is `'#'` or absent,
      so it is kept as a flag, absent coming first. */
  datatype Rank = Rank(trueKey: string, lock: bool, action: int, modifiers: seq<int>)

  /** Python's `<` on the tuples `_sort_order` returns. */
  predicate RankLess(a: Rank, b: Rank)
    ensures RankLess(a, b) ==> a != b
  {
    LexLessIrreflexive(Codes(a.trueKey));
    LexLessIrreflexive(a.modifiers);
    LexLess(Codes(a.trueKey), Codes(b.trueKey)) ||
    (a.trueKey == b.trueKey &&
     ((!a.lock && b.lock) ||
      (a.lock == b.lock &&
       (a.action < b.action || (a.action == b.action && LexLess(a.modifiers, b.modifiers))))))
  }

  /** A separated key with its sort key. */
  datatype Entry = Entry(sk: SepKey, rank: Rank)

  /** The processing order: by sort key, and among keys with equal sort keys
      by the raw key. */
  predicate Before(x: Entry, y: Entry)
    ensures Before(x, y) ==> x != y
  {
    LexLessIrreflexive(Codes(x.sk.key));
    RankLess(x.rank, y.rank) || (x.rank == y.rank && LexLess(Codes(x.sk.key), Codes(y.sk.key)))
  }

  lemma BeforeIrreflexive(x: Entry)
    ensures !Before(x, x)
  {
    LexLessIrreflexive(Codes(x.rank.trueKey));
    LexLessIrreflexive(x.rank.modifiers);
    LexLessIrreflexive(Codes(x.sk.key));
  }

  lemma BeforeTransitive(x: Entry, y: Entry, z: Entry)
    requires Before(x, y) && Before(y, z)
    ensures Before(x, z)
  {
    var a, b, c := x.rank, y.rank, z.rank;
    if LexLess(Codes(a.trueKey), Codes(b.trueKey)) && LexLess(Codes(b.trueKey), Codes(c.trueKey)) {
      LexLessTransitive(Codes(a.trueKey), Codes(b.trueKey), Codes(c.trueKey));
    }
    if LexLess(a.modifiers, b.modifiers) && LexLess(b.modifiers, c.modifiers) {
      LexLessTransitive(a.modifiers, b.modifiers, c.modifiers);
    }
    if LexLess(Codes(x.sk.key), Codes(y.sk.key)) && LexLess(Codes(y.sk.key), Codes(z.sk.key)) {
      LexLessTransitive(Codes(x.sk.key), Codes(y.sk.key), Codes(z.sk.key));
    }
  }

  lemma RankLessTotal(a: Rank, b: Rank)
    ensures a == b || RankLess(a, b) || RankLess(b, a)
  {
    LexLessTotal(Codes(a.trueKey), Codes(b.trueKey));
    if Codes(a.trueKey) == Codes(b.trueKey) {
      CodesInjective(a.trueKey, b.trueKey);
    }
    LexLessTotal(a.modifiers, b.modifiers);
  }

  /** Entries with different raw keys are always ordered one way or the
      other. */
  lemma BeforeTotal(x: Entry, y: Entry)
    requires x.sk.key != y.sk.key
    ensures Before(x, y) || Before(y, x)
  {
    RankLessTotal(x.rank, y.rank);
    LexLessTotal(Codes(x.sk.key), Codes(y.sk.key));
  }

  predicate Sorted(s: seq<Entry>)
  {
    forall i, j :: 0 <= i < j < |s| ==> Before(s[i], s[j])
  }

  predicate DistinctKeys(s: seq<Entry>)
  {
    forall i, j :: 0 <= i < j < |s| ==> s[i].sk.key != s[j].sk.key
  }

  /** Inserts `x` before the first element it precedes. */
  function Insert(x: Entry, s: seq<Entry>): (r: seq<Entry>)
    ensures multiset(r) == multiset(s) + multiset{x}
  {
    if |s| == 0 then [x]
    else if Before(x, s[0]) then [x] + s
    else
      assert s == [s[0]] + s[1..];
      [s[0]] + Insert(x, s[1..])
  }

  lemma {:induction false} InsertSorted(x: Entry, s: seq<Entry>)
    requires Sorted(s) && forall i :: 0 <= i < |s| ==> s[i].sk.key != x.sk.key
    ensures Sorted(Insert(x, s))
    decreases |s|
  {
    if |s| > 0 {
      if Before(x, s[0]) {
        forall e | e in s
          ensures Before(x, e)
        {
          var j :| 0 <= j < |s| && s[j] == e;
          if j > 0 {
            BeforeTransitive(x, s[0], e);
          }
        }
        ConsSorted(x, s);
      } else {
        BeforeTotal(x, s[0]);
        InsertSorted(x, s[1..]);
        var t := Insert(x, s[1..]);
        forall e | e in t
          ensures Before(s[0], e)
        {
          assert e in multiset(t);
          if e != x {
            assert e in multiset(s[1..]);
            var k :| 0 <= k < |s[1..]| && s[1..][k] == e;
            assert s[k + 1] == e;
          }
        }
        ConsSorted(s[0], t);
      }
    }
  }

  lemma ConsSorted(h: Entry, t: seq<Entry>)
    requires Sorted(t) && forall e :: e in t ==> Before(h, e)
    ensures Sorted([h] + t)
  {
    var r := [h] + t;
    forall i, j | 0 <= i < j < |r|
      ensures Before(r[i], r[j])
    {
      assert r[j] == t[j - 1];
      if i > 0 {
        assert r[i] == t[i - 1];
      }
    }
  }

  /** Insertion sort; with distinct raw keys the result is strictly sorted
      and a permutation of the input. */
  function Sort(s: seq<Entry>): (r: seq<Entry>)
    requires DistinctKeys(s)
    ensures Sorted(r) && multiset(r) == multiset(s)
  {
    if |s| == 0 then []
    else
      var t := Sort(s[1..]);
      assert s == [s[0]] + s[1..];
      forall i | 0 <= i < |t|
        ensures t[i].sk.key != s[0].sk.key
      {
        assert t[i] in multiset(s[1..]);
        var k :| 0 <= k < |s[1..]| && s[1..][k] == t[i];
        assert s[k + 1] == t[i];
      }
      InsertSorted(s[0], t);
      Insert(s[0], t)
  }

  /** Two strictly sorted sequences holding the same entries are equal: the
      order is fully determined by the set of keys. */
  lemma {:induction false} SortedUnique(a: seq<Entry>, b: seq<Entry>)
    requires Sorted(a) && Sorted(b)
    requires forall e :: e in a <==> e in b
    ensures a == b
    decreases |a|
  {
    if |a| > 0 && |b| > 0 {
      if a[0] != b[0] {
        assert b[0] in a;
        assert a[0] in b;
        var i :| 0 <= i < |a| && a[i] == b[0];
        var j :| 0 <= j < |b| && b[j] == a[0];
        BeforeIrreflexive(a[0]);
        BeforeIrreflexive(b[0]);
        assert Before(a[0], b[0]);
        assert Before(b[0], a[0]);
        BeforeTransitive(a[0], b[0], a[0]);
        assert false;
      }
      forall e
        ensures e in a[1..] <==> e in b[1..]
      {
        if e in a[1..] {
          ElementAfterHead(a, e);
          ElementBeyondHead(b, e);
        }
        if e in b[1..] {
          ElementAfterHead(b, e);
          ElementBeyondHead(a, e);
        }
      }
      SortedUnique(a[1..], b[1..]);
      assert a == [a[0]] + a[1..] && b == [b[0]] + b[1..];
    } else {
      SameEmptiness(a, b);
    }
  }

  lemma SameEmptiness(a: seq<Entry>, b: seq<Entry>)
    requires forall e :: e in a <==> e in b
    ensures |a| == 0 <==> |b| == 0
  {
    if |a| > 0 {
      assert a[0] in b;
    }
    if |b| > 0 {
      assert b[0] in a;
    }
  }

  lemma ElementAfterHead(a: seq<Entry>, e: Entry)
    requires Sorted(a) && |a| > 0 && e in a[1..]
    ensures e in a && e != a[0]
  {
    var i :| 1 <= i < |a| && a[i] == e;
    BeforeIrreflexive(e);
  }

  lemma ElementBeyondHead(a: seq<Entry>, e: Entry)
    requires e in a && |a| > 0 && e != a[0]
    ensures e in a[1..]
  {
    var i :| 0 <= i < |a| && a[i] == e;
    assert a[1..][i - 1] == e;
  }

  /** The elements of a finite set, in some order. */
  ghost function SetToSeq(s: set<Entry>): (r: seq<Entry>)
    ensures |r| == |s| && forall e :: e in r <==> e in s
    ensures forall i, j :: 0 <= i < j < |r| ==> r[i] != r[j]
  {
    if s == {} then []
    else
      var x :| x in s;
      var t := SetToSeq(s - {x});
      assert forall i, j :: 0 <= i < j < |[x] + t| ==> ([x] + t)[i] != ([x] + t)[j] by {
        forall i, j | 0 <= i < j < |[x] + t|
          ensures ([x] + t)[i] != ([x] + t)[j]
        {
          if i == 0 {
            assert ([x] + t)[j] == t[j - 1];
          }
        }
      }
      [x] + t
  }

  /** The entries of one layer have pairwise different raw keys. */
  predicate KeysDistinct(s: set<Entry>)
  {
    forall x, y :: x in s && y in s && x.sk.key == y.sk.key ==> x == y
  }

  /** The processing order of a layer's entries: the one strictly sorted
      arrangement of them. */
  ghost function Arrange(s: set<Entry>): (r: seq<Entry>)
    requires KeysDistinct(s)
    ensures Sorted(r) && |r| == |s| && forall e :: e in r <==> e in s
  {
    var t := SetToSeq(s);
    var r := Sort(t);
    assert forall e :: e in r <==> e in t by {
      forall e
        ensures e in r <==> e in t
      {
        assert e in r <==> e in multiset(r);
        assert e in t <==> e in multiset(t);
      }
    }
    assert |r| == |multiset(r)| == |multiset(t)| == |t|;
    r
  }

  /** `list.index`: the first position of `c`, or nothing (Python raises
      ValueError). */
  function CharIndex(s: seq<char>, c: char): (r: Option<nat>)
    ensures r.Some? ==> r.value < |s| && s[r.value] == c && forall k :: 0 <= k < r.value ==> s[k] != c
    ensures r.None? <==> c !in s
  {
    if |s| == 0 then None
    else if s[0] == c then Some(0)
    else match CharIndex(s[1..], c)
      case Some(i) => Some(i + 1)
      case None => None
  }

  /** `mod_indexes`: the position in `ordering` of each modifier in turn. */
  function ModIndexes(mods: string, ordering: seq<char>): (r: Result<seq<int>>)
    ensures r.Ok? <==> forall k :: 0 <= k < |mods| ==> mods[k] in ordering
    ensures r.Ok? ==> |r.value| == |mods| &&
                      forall k :: 0 <= k < |mods| ==> r.value[k] == CharIndex(ordering, mods[k]).value
    ensures r.Err? ==> r.error == ValueError
  {
    if |mods| == 0 then Ok([])
    else match ModIndexes(mods[..|mods| - 1], ordering)
      case Err(e) => Err(e)
      case Ok(xs) =>
        match CharIndex(ordering, mods[|mods| - 1])
        case None => Err(ValueError)
        case Some(i) => Ok(xs + [i])
  }

  /** `_sort_order`: the sort key of a separated key. A modifier or action
      missing from `ordering` makes `list.index` raise ValueError; a key
      without an action gets index 0. */
  function RankOf(sk: SepKey, ordering: seq<char>): (r: Result<Rank>)
    ensures r.Ok? <==> (forall k :: 0 <= k < |sk.modifiers| ==> sk.modifiers[k] in ordering) &&
                       (sk.action.Some? ==> sk.action.value in ordering)
    ensures r.Err? ==> r.error == ValueError
    ensures r.Ok? ==> r.value.trueKey == sk.trueKey && r.value.lock == sk.lock &&
                      r.value.action == (if sk.action.Some? then CharIndex(ordering, sk.action.value).value else 0) &&
                      r.value.modifiers == ModIndexes(sk.modifiers, ordering).value
  {
    match ModIndexes(sk.modifiers, ordering)
    case Err(e) => Err(e)
    case Ok(mods) =>
      if sk.action.None? then Ok(Rank(sk.trueKey, sk.lock, 0, mods))
      else match CharIndex(ordering, sk.action.value)
        case None => Err(ValueError)
        case Some(i) => Ok(Rank(sk.trueKey, sk.lock, i, mods))
  }

  /** With the default ordering `+-!?` an added key and a plain key get the
      same action index, 0, so only the raw key tells them apart. */
  lemma AddRanksLikePlain(w: string)
    requires IsWord(w)
    ensures RankOf(SepKey("+" + w, "", Some('+'), false, w), "+-!?") == RankOf(SepKey(w, "", None, false, w), "+-!?")
  {
  }
}
