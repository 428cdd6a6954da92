/** A layer whose keys are plain words at every depth carries no modifier,
    action or lock, so the advanced merge (advanced_configuration.py) does
    to the tree exactly what the base override does, and appends the
    merge's identifier once to the provenance list of every leaf it writes. */
module AdvancedPlain {
  import opened Values
  import opened Paths
  import opened Tree
  import opened Grammar
  import opened Order
  import opened AdvancedMerge
  import opened Advanced

  // ---------------------------------------------------------------------
  // Plain layers
  // ---------------------------------------------------------------------

  /** No symbol of the pattern and not the separator is a word character:
      a word key then separates into itself, and no segment of a key path
      holds the separator. */
  predicate PlainEnv(env: Env)
  {
    Compiled(env) &&
    (forall c :: c in env.grammar.modifiers + env.grammar.actions ==> !IsWordChar(c)) &&
    !IsWordChar(env.grammar.lock) && !IsWordChar(env.sep)
  }

  /** Every key of the layer, at every depth, is a word. */
  predicate PlainLayer(l: map<string, Value>)
    decreases VMap(l)
  {
    forall k :: k in l ==> IsWord(k) && (l[k].VMap? ==> PlainLayer(l[k].entries))
  }

  /** No key path of the layer below `path`, at any depth, is locked. */
  predicate Unlocked(locked: set<string>, l: map<string, Value>, path: string, sep: char)
    decreases VMap(l)
  {
    forall k :: k in l ==>
      JoinPath(path, k, sep) !in locked &&
      (l[k].VMap? ==> Unlocked(locked, l[k].entries, JoinPath(path, k, sep), sep))
  }

  /** The layer nests no more than `fuel` dictionaries deep. */
  predicate Shallow(l: map<string, Value>, fuel: nat)
    decreases VMap(l)
  {
    forall k :: k in l && l[k].VMap? ==> fuel > 0 && Shallow(l[k].entries, fuel - 1)
  }

  /** The separation of a plain word key. */
  function PlainKey(k: string): SepKey
  {
    SepKey(k, "", None, false, k)
  }

  /** The raw keys a processing order lists. */
  function KeysOf(order: seq<Entry>): set<string>
  {
    set i | 0 <= i < |order| :: order[i].sk.key
  }

  lemma KeysOfTail(order: seq<Entry>)
    requires |order| > 0
    ensures KeysOf(order) == {order[0].sk.key} + KeysOf(order[1..])
  {
    forall x | x in KeysOf(order)
      ensures x in {order[0].sk.key} + KeysOf(order[1..])
    {
      var i :| 0 <= i < |order| && order[i].sk.key == x;
      if i > 0 {
        assert order[1..][i - 1] == order[i];
      }
    }
    forall x | x in KeysOf(order[1..])
      ensures x in KeysOf(order)
    {
      var i :| 0 <= i < |order[1..]| && order[1..][i].sk.key == x;
      assert order[1..][i] == order[i + 1];
    }
  }

  // ---------------------------------------------------------------------
  // Provenance
  // ---------------------------------------------------------------------

  /** The provenance after the identifier `id` is appended once to the list
      of every path in `ps`; lists of other paths are unchanged. */
  function Recorded(s: map<string, seq<Value>>, ps: set<string>, id: Value): (r: map<string, seq<Value>>)
    ensures r.Keys == s.Keys + ps
    ensures forall p :: p in ps ==> r[p] == (if p in s then s[p] else []) + [id]
    ensures forall p :: p in s && p !in ps ==> r[p] == s[p]
  {
    map p | p in s.Keys + ps :: if p in ps then (if p in s then s[p] else []) + [id] else s[p]
  }

  lemma RecordedNothing(s: map<string, seq<Value>>, id: Value)
    ensures Recorded(s, {}, id) == s
  {
  }

  lemma RecordedUnion(s: map<string, seq<Value>>, a: set<string>, b: set<string>, id: Value)
    requires a !! b
    ensures Recorded(Recorded(s, a, id), b, id) == Recorded(s, a + b, id)
  {
    var x := Recorded(Recorded(s, a, id), b, id);
    var y := Recorded(s, a + b, id);
    assert x.Keys == y.Keys;
    forall p | p in x
      ensures x[p] == y[p]
    {
    }
  }

  lemma RecordedOne(s: map<string, seq<Value>>, a: set<string>, kp: string, id: Value)
    requires kp !in a
    ensures Record(Recorded(s, a, id), kp, id) == Recorded(s, a + {kp}, id)
  {
    var x := Record(Recorded(s, a, id), kp, id);
    var y := Recorded(s, a + {kp}, id);
    assert x.Keys == y.Keys;
    forall p | p in x
      ensures x[p] == y[p]
    {
    }
  }

  // ---------------------------------------------------------------------
  // Leaves of different keys are different paths
  // ---------------------------------------------------------------------

  /** `p` is the key path `q` or a key path below it. */
  predicate Under(p: string, q: string, sep: char)
  {
    p == q || StartsWith(p, q + [sep])
  }

  lemma UnderPrefix(p: string, q: string, sep: char)
    ensures Under(p, q, sep) ==> |q| <= |p| && p[..|q|] == q && (|p| > |q| ==> p[|q|] == sep)
  {
    if Under(p, q, sep) && p != q {
      assert p[..|q|] == (p[..|q| + 1])[..|q|];
    }
  }

  lemma UnderTransitive(p: string, q: string, q': string, sep: char)
    requires q != ""
    requires Under(p, q', sep) && StartsWith(q', q + [sep])
    ensures Under(p, q, sep)
  {
    UnderPrefix(p, q', sep);
    assert p[..|q| + 1] == (p[..|q'|])[..|q| + 1];
  }

  /** Every leaf of key `k` lies below the key path of `k`. */
  lemma {:induction false} LeavesUnder(l: map<string, Value>, k: string, path: string, sep: char)
    requires PlainLayer(l) && k in l
    ensures forall p :: p in KeyLeaves(l, k, path, sep) ==> Under(p, JoinPath(path, k, sep), sep)
    decreases VMap(l)
  {
    var q := JoinPath(path, k, sep);
    if l[k].VMap? {
      var sub := l[k].entries;
      forall p | p in KeyLeaves(l, k, path, sep)
        ensures Under(p, q, sep)
      {
        assert p in LeafPaths(sub, q, sep);
        var k2 :| k2 in sub && p in KeyLeaves(sub, k2, q, sep);
        LeavesUnder(sub, k2, q, sep);
        assert q != "" && JoinPath(q, k2, sep) == q + [sep] + k2;
        assert (q + [sep] + k2)[..|q| + 1] == q + [sep];
        UnderTransitive(p, q, JoinPath(q, k2, sep), sep);
      }
    }
  }

  /** No path lies below the key paths of two different word keys of one
      node, since a word holds no separator. */
  lemma UnderDistinct(p: string, path: string, k1: string, k2: string, sep: char)
    requires IsWord(k1) && IsWord(k2) && k1 != k2 && !IsWordChar(sep)
    ensures !(Under(p, JoinPath(path, k1, sep), sep) && Under(p, JoinPath(path, k2, sep), sep))
  {
    if |k1| <= |k2| {
      UnderDistinctOrdered(p, path, k1, k2, sep);
    } else {
      UnderDistinctOrdered(p, path, k2, k1, sep);
    }
  }

  lemma UnderDistinctOrdered(p: string, path: string, k1: string, k2: string, sep: char)
    requires IsWord(k1) && IsWord(k2) && k1 != k2 && !IsWordChar(sep) && |k1| <= |k2|
    ensures !(Under(p, JoinPath(path, k1, sep), sep) && Under(p, JoinPath(path, k2, sep), sep))
  {
    var pre := if path == "" then "" else path + [sep];
    var q1 := JoinPath(path, k1, sep);
    var q2 := JoinPath(path, k2, sep);
    assert q1 == pre + k1 && q2 == pre + k2;
    UnderPrefix(p, q1, sep);
    UnderPrefix(p, q2, sep);
    if |k1| == |k2| {
      assert q1[|pre|..] == k1 && q2[|pre|..] == k2;
    } else {
      assert q2[|q1|] == k2[|k1|];
      assert IsWordChar(k2[|k1|]);
    }
  }

  /** The leaves of a key not yet processed are new paths. */
  lemma LeavesDisjoint(l: map<string, Value>, done: set<string>, k: string, path: string, sep: char)
    requires PlainLayer(l) && !IsWordChar(sep) && k in l && k !in done
    ensures LeafPaths(Restrict(l, done), path, sep) !! KeyLeaves(l, k, path, sep)
  {
    var r := Restrict(l, done);
    forall p | p in LeafPaths(r, path, sep)
      ensures p !in KeyLeaves(l, k, path, sep)
    {
      var j :| j in r && p in KeyLeaves(r, j, path, sep);
      assert KeyLeaves(r, j, path, sep) == KeyLeaves(l, j, path, sep);
      LeavesUnder(l, j, path, sep);
      LeavesUnder(l, k, path, sep);
      UnderDistinct(p, path, j, k, sep);
    }
  }

  // ---------------------------------------------------------------------
  // The merge of a plain layer
  // ---------------------------------------------------------------------

  /** A plain layer separates without error, every key into itself, and
      is processed once per key. */
  lemma PlainEntries(env: Env, l: map<string, Value>)
    requires PlainEnv(env) && PlainLayer(l)
    ensures Ranked(env.grammar, env.ordering, l.Keys)
    ensures forall e :: e in Entries(env.grammar, env.ordering, l.Keys) ==> e.sk == PlainKey(e.sk.key)
    ensures !MixedLocks(Entries(env.grammar, env.ordering, l.Keys))
  {
    var g := env.grammar;
    forall k | k in l
      ensures Separate(g, k) == Ok(PlainKey(k)) && RankOf(PlainKey(k), env.ordering).Ok?
    {
      SeparatePlainWord(g, k);
    }
    var s := Entries(g, env.ordering, l.Keys);
    forall e | e in s
      ensures e.sk == PlainKey(e.sk.key)
    {
      var k :| k in l.Keys && e == EntryOf(g, env.ordering, k);
    }
  }

  lemma PlainPrepared(env: Env, l: map<string, Value>)
    requires PlainEnv(env) && PlainLayer(l)
    ensures Prepare(env.grammar, env.ordering, l).Ok?
    ensures var order := Prepare(env.grammar, env.ordering, l).value;
      KeysOf(order) == l.Keys && DistinctKeys(order) &&
      forall i :: 0 <= i < |order| ==> order[i].sk == PlainKey(order[i].sk.key)
  {
    PlainEntries(env, l);
    var s := Entries(env.grammar, env.ordering, l.Keys);
    assert Prepare(env.grammar, env.ordering, l) == Ok(Arrange(s));
    ArrangedPlain(env, l, s);
  }

  lemma ArrangedPlain(env: Env, l: map<string, Value>, s: set<Entry>)
    requires Ranked(env.grammar, env.ordering, l.Keys) && s == Entries(env.grammar, env.ordering, l.Keys)
    requires forall e :: e in s ==> e.sk == PlainKey(e.sk.key)
    ensures var order := Arrange(s);
      KeysOf(order) == l.Keys && DistinctKeys(order) &&
      forall i :: 0 <= i < |order| ==> order[i].sk == PlainKey(order[i].sk.key)
  {
    ArrangedShape(s);
    ArrangedCovers(env, l, s);
    ArrangedWithin(env, l, s);
  }

  lemma ArrangedCovers(env: Env, l: map<string, Value>, s: set<Entry>)
    requires Ranked(env.grammar, env.ordering, l.Keys) && s == Entries(env.grammar, env.ordering, l.Keys)
    ensures l.Keys <= KeysOf(Arrange(s))
  {
    var order := Arrange(s);
    forall k | k in l
      ensures k in KeysOf(order)
    {
      var e := EntryOf(env.grammar, env.ordering, k);
      assert e in s;
      ElementIndex(order, e);
    }
  }

  lemma ArrangedWithin(env: Env, l: map<string, Value>, s: set<Entry>)
    requires Ranked(env.grammar, env.ordering, l.Keys) && s == Entries(env.grammar, env.ordering, l.Keys)
    ensures KeysOf(Arrange(s)) <= l.Keys
  {
    var order := Arrange(s);
    forall x | x in KeysOf(order)
      ensures x in l
    {
      var i :| 0 <= i < |order| && order[i].sk.key == x;
      assert order[i] in order;
    }
  }

  lemma ElementIndex(order: seq<Entry>, e: Entry)
    requires e in order
    ensures e.sk.key in KeysOf(order)
  {
    var i :| 0 <= i < |order| && order[i] == e;
  }

  lemma ArrangedShape(s: set<Entry>)
    requires KeysDistinct(s) && forall e :: e in s ==> e.sk == PlainKey(e.sk.key)
    ensures var order := Arrange(s);
      DistinctKeys(order) &&
      forall i :: 0 <= i < |order| ==> order[i] in s && order[i].sk == PlainKey(order[i].sk.key)
  {
    var order := Arrange(s);
    forall i | 0 <= i < |order|
      ensures order[i] in s
    {
      assert order[i] in order;
    }
    forall i, j | 0 <= i < j < |order|
      ensures order[i].sk.key != order[j].sk.key
    {
      assert Before(order[i], order[j]);
    }
  }

  /** An empty layer changes nothing. */
  lemma EmptyMerge(env: Env, fuel: nat, node: Value, path: string, sources: map<string, seq<Value>>,
                   pending: set<string>)
    requires Compiled(env)
    ensures MergeOutcome(env, fuel, map[], node, path, sources, pending) == Outcome(node, sources, pending, None)
  {
    var g := env.grammar;
    assert Ranked(g, env.ordering, {});
    var s := Entries(g, env.ordering, {});
    assert s == {};
    assert Prepare(g, env.ordering, map[]) == Ok(Arrange(s));
  }

  /** `_merge` of a plain layer over a compatible tree, touching no locked
      path and within the recursion limit, completes, leaves the tree
      `MergeTree(d, l)` and appends the identifier once to the list of
      every leaf the layer writes. */
  lemma {:induction false} PlainMerge(env: Env, fuel: nat, l: map<string, Value>, d: map<string, Value>,
                                      path: string, sources: map<string, seq<Value>>, pending: set<string>)
    requires PlainEnv(env) && PlainLayer(l) && Compatible(d, l)
    requires Unlocked(env.locked, l, path, env.sep) && Shallow(l, fuel)
    ensures MergeOutcome(env, fuel, l, VMap(d), path, sources, pending) ==
            Outcome(VMap(MergeTree(d, l)), Recorded(sources, LeafPaths(l, path, env.sep), env.id), pending, None)
    decreases fuel, 2, 0
  {
    PlainPrepared(env, l);
    var order := Prepare(env.grammar, env.ordering, l).value;
    MergeOutcomeOfOrder(env, fuel, l, VMap(d), path, sources, pending);
    PlainOrder(env, fuel, order, l, d, path, sources, pending);
  }

  /** The whole loop of `_merge` over a plain layer's order. */
  lemma {:induction false} PlainOrder(env: Env, fuel: nat, order: seq<Entry>, l: map<string, Value>,
                                      d: map<string, Value>, path: string, sources: map<string, seq<Value>>,
                                      pending: set<string>)
    requires PlainEnv(env) && PlainLayer(l) && Compatible(d, l)
    requires Unlocked(env.locked, l, path, env.sep) && Shallow(l, fuel)
    requires Fits(env, l, order) && DistinctKeys(order) && KeysOf(order) == l.Keys
    requires forall i :: 0 <= i < |order| ==> order[i].sk == PlainKey(order[i].sk.key)
    ensures SeqOutcome(env, fuel, order, l, VMap(d), path, sources, pending) ==
            Outcome(VMap(MergeTree(d, l)), Recorded(sources, LeafPaths(l, path, env.sep), env.id), pending, None)
    decreases fuel, 1, |order| + 1
  {
    StartRecorded(l, path, env.sep, sources, env.id);
    assert MergedUpTo(d, l, {}, d);
    PlainSeq(env, fuel, order, l, d, {}, d, path, sources, pending);
  }

  /** Before the loop nothing is recorded. */
  lemma StartRecorded(l: map<string, Value>, path: string, sep: char, s: map<string, seq<Value>>, id: Value)
    ensures Recorded(s, LeafPaths(Restrict(l, {}), path, sep), id) == s
  {
    assert Restrict(l, {}) == map[];
    EmptyWritesNothing(map[], l, path, sep);
    RecordedNothing(s, id);
  }

  /** The loop of `_merge` over the rest of a plain layer. */
  lemma {:induction false} PlainSeq(env: Env, fuel: nat, order: seq<Entry>, l: map<string, Value>,
                                    d: map<string, Value>, done: set<string>, r: map<string, Value>, path: string,
                                    s0: map<string, seq<Value>>, pending: set<string>)
    requires PlainEnv(env) && PlainLayer(l) && Compatible(d, l)
    requires Unlocked(env.locked, l, path, env.sep) && Shallow(l, fuel)
    requires Fits(env, l, order) && DistinctKeys(order)
    requires forall i :: 0 <= i < |order| ==> order[i].sk == PlainKey(order[i].sk.key)
    requires done <= l.Keys && done !! KeysOf(order) && done + KeysOf(order) == l.Keys
    requires MergedUpTo(d, l, done, r)
    ensures SeqOutcome(env, fuel, order, l, VMap(r), path,
                       Recorded(s0, LeafPaths(Restrict(l, done), path, env.sep), env.id), pending) ==
            Outcome(VMap(MergeTree(d, l)), Recorded(s0, LeafPaths(l, path, env.sep), env.id), pending, None)
    decreases fuel, 1, |order|
  {
    if |order| == 0 {
      assert done == l.Keys;
      assert Restrict(l, done) == l;
      MergedAll(d, l, r);
    } else {
      var k := order[0].sk.key;
      PlainTail(env, order, l, done);
      PlainKeyStep(env, fuel, order[0], l, d, done, r, path, s0, pending);
      MergedStep(d, l, done, r, k);
      PlainSeq(env, fuel, order[1..], l, d, done + {k}, r[k := MergeEntry(d, l, k)], path, s0, pending);
    }
  }

  /** What the loop needs of the rest of the order after one key. */
  lemma PlainTail(env: Env, order: seq<Entry>, l: map<string, Value>, done: set<string>)
    requires |order| > 0 && Fits(env, l, order) && DistinctKeys(order)
    requires forall i :: 0 <= i < |order| ==> order[i].sk == PlainKey(order[i].sk.key)
    requires done !! KeysOf(order) && done + KeysOf(order) == l.Keys
    ensures order[0].sk.key in l && order[0].sk.key !in done
    ensures Fits(env, l, order[1..]) && DistinctKeys(order[1..])
    ensures forall i :: 0 <= i < |order[1..]| ==> order[1..][i].sk == PlainKey(order[1..][i].sk.key)
    ensures done + {order[0].sk.key} <= l.Keys
    ensures (done + {order[0].sk.key}) !! KeysOf(order[1..])
    ensures (done + {order[0].sk.key}) + KeysOf(order[1..]) == l.Keys
  {
    var k := order[0].sk.key;
    KeysOfTail(order);
    forall i | 0 <= i < |order[1..]|
      ensures order[1..][i] == order[i + 1] && order[1..][i].sk.key != k
    {
    }
  }

  /** One iteration on a plain key: the slot gets its merged value and the
      key's leaves get the identifier. */
  lemma {:induction false} PlainKeyStep(env: Env, fuel: nat, e: Entry, l: map<string, Value>,
                                        d: map<string, Value>, done: set<string>, r: map<string, Value>,
                                        path: string, s0: map<string, seq<Value>>, pending: set<string>)
    requires PlainEnv(env) && PlainLayer(l) && Compatible(d, l)
    requires Unlocked(env.locked, l, path, env.sep) && Shallow(l, fuel)
    requires e.sk == PlainKey(e.sk.key) && e.sk.key in l && e.sk.key !in done && done <= l.Keys
    requires MergedUpTo(d, l, done, r)
    ensures Runnable(env, e.sk)
    ensures KeyOutcome(env, fuel, e, l, VMap(r), path,
                       Recorded(s0, LeafPaths(Restrict(l, done), path, env.sep), env.id), pending) ==
            Outcome(VMap(r[e.sk.key := MergeEntry(d, l, e.sk.key)]),
                    Recorded(s0, LeafPaths(Restrict(l, done + {e.sk.key}), path, env.sep), env.id), pending, None)
    decreases fuel, 0, 1
  {
    var k := e.sk.key;
    var kp := JoinPath(path, k, env.sep);
    var a := LeafPaths(Restrict(l, done), path, env.sep);
    var sources := Recorded(s0, a, env.id);
    MergedStep(d, l, done, r, k);
    LeafPathsRestrictAdd(l, done, k, path, env.sep);
    LeavesDisjoint(l, done, k, path, env.sep);
    assert kp !in env.locked;
    assert ModifiersPass(env, e.sk, GetOrNone(r, k), l[k]);
    assert KeyOutcome(env, fuel, e, l, VMap(r), path, sources, pending) ==
           Place(env, fuel, e.sk, kp, r, l[k], sources, pending);
    PlainPlace(env, fuel, k, l, d, r, path, a, s0, pending);
  }

  /** Writing or merging the value of a plain key whose slot is still the
      tree's own. */
  lemma {:induction false} PlainPlace(env: Env, fuel: nat, k: string, l: map<string, Value>,
                                      d: map<string, Value>, r: map<string, Value>, path: string,
                                      a: set<string>, s0: map<string, seq<Value>>, pending: set<string>)
    requires PlainEnv(env) && PlainLayer(l) && Compatible(d, l) && k in l
    requires Unlocked(env.locked, l, path, env.sep) && Shallow(l, fuel)
    requires (k in r <==> k in d) && (k in r ==> r[k] == d[k])
    requires a !! KeyLeaves(l, k, path, env.sep)
    ensures Place(env, fuel, PlainKey(k), JoinPath(path, k, env.sep), r, l[k], Recorded(s0, a, env.id), pending) ==
            Outcome(VMap(r[k := MergeEntry(d, l, k)]), Recorded(s0, a + KeyLeaves(l, k, path, env.sep), env.id),
                    pending, None)
    decreases fuel, 0, 0
  {
    var kp := JoinPath(path, k, env.sep);
    var sources := Recorded(s0, a, env.id);
    if l[k].VMap? {
      var sub := l[k].entries;
      var node := if k in r then r[k] else VMap(map[]);
      assert fuel > 0 && Shallow(sub, fuel - 1);
      if k in d && !d[k].VMap? {
        PlainPlaceOverScalar(env, fuel, k, l, d, r, path, a, s0, pending);
      } else {
        var dk := if k in d then d[k].entries else map[];
        assert node == VMap(dk);
        assert Compatible(dk, sub) by {
          if k in d {
            assert KeyCompatible(d, l, k);
          }
        }
        PlainMerge(env, Deeper(fuel), sub, dk, kp, sources, pending);
        RecordedUnion(s0, a, LeafPaths(sub, kp, env.sep), env.id);
      }
    } else {
      RecordedOne(s0, a, kp, env.id);
    }
  }

  /** An empty dictionary over an existing scalar leaves the scalar and
      records nothing. */
  lemma PlainPlaceOverScalar(env: Env, fuel: nat, k: string, l: map<string, Value>,
                             d: map<string, Value>, r: map<string, Value>, path: string,
                             a: set<string>, s0: map<string, seq<Value>>, pending: set<string>)
    requires PlainEnv(env) && Compatible(d, l) && k in l && l[k].VMap? && fuel > 0
    requires k in d && !d[k].VMap? && k in r && r[k] == d[k]
    ensures Place(env, fuel, PlainKey(k), JoinPath(path, k, env.sep), r, l[k], Recorded(s0, a, env.id), pending) ==
            Outcome(VMap(r[k := MergeEntry(d, l, k)]), Recorded(s0, a + KeyLeaves(l, k, path, env.sep), env.id),
                    pending, None)
  {
    var kp := JoinPath(path, k, env.sep);
    assert KeyCompatible(d, l, k);
    EmptyMerge(env, Deeper(fuel), r[k], kp, Recorded(s0, a, env.id), pending);
    EmptyWritesNothing(d, l, kp, env.sep);
    assert a + KeyLeaves(l, k, path, env.sep) == a;
  }

  /** `merge` of a plain layer under tables whose symbols are no word
      characters: it completes, the tree becomes the base override of the
      layer, the merge is counted, pending locks become locks, and the
      identifier `name or _count` is appended once to the list of every
      leaf path the layer writes, and to no other list. */
  lemma PlainMergeStep(t: Tables, s: Snapshot, layer: map<string, Value>, name: Value)
    requires (forall c :: c in t.modifiers.Keys + t.actions.Keys ==> !IsWordChar(c)) && !IsWordChar(t.lock)
    requires !IsWordChar(t.sep)
    requires PlainLayer(layer) && Compatible(s.data, layer)
    requires Unlocked(s.locked, layer, "", t.sep) && Shallow(layer, RecursionLimit)
    ensures MergeStep(t, s, layer, name) ==
            (Snapshot(MergeTree(s.data, layer), s.count + 1,
                      Recorded(s.sources, LeafPaths(layer, "", t.sep), Identifier(name, s.count)),
                      s.locked + s.pending, {}), None)
  {
    var env := Env(GrammarOf(t), t.actions, t.modifiers, t.ordering, s.locked, t.sep, Identifier(name, s.count));
    PlainMerge(env, RecursionLimit, layer, s.data, "", s.sources, s.pending);
  }

  /** The tables `__init__` installs qualify whenever the separator is not
      a word character. */
  lemma DefaultTablesPlain(sep: char)
    requires !IsWordChar(sep)
    ensures var t := DefaultTables(sep);
      (forall c :: c in t.modifiers.Keys + t.actions.Keys ==> !IsWordChar(c)) && !IsWordChar(t.lock)
  {
  }
}
