/** What one advanced merge does (`AdvancedConfiguration._merge` and the
    helpers it calls), as functions of the layer, the destination node, the
    provenance lists and the pending locks. The class in module `Advanced`
    runs it imperatively and is proved to compute the same outcome. */
module AdvancedMerge {
  import opened Values
  import opened Paths
  import opened Grammar
  import opened Order
  import opened Actions

  /** Stands in for Python's recursion limit: the depth at which nested
      merging gives up with RecursionError. */
  const RecursionLimit: nat := 1000

  /** The depth left to a merge nested one level down. */
  function Deeper(fuel: nat): (d: nat)
    requires fuel > 0
    ensures d + 1 == fuel
  {
    fuel - 1
  }

  /** Everything one merge reads but does not change: the compiled pattern,
      the registered actions and modifiers, the ordering, the locked paths,
      the separator and the identifier recorded for this merge. */
  datatype Env = Env(grammar: Grammar, actions: map<char, ActionFn>, modifiers: map<char, ModifierFn>,
                     ordering: seq<char>, locked: set<string>, sep: char, id: Value)

  /** The pattern was compiled from the tables in use. */
  predicate Compiled(env: Env)
  {
    env.grammar.actions == env.actions.Keys && env.grammar.modifiers == env.modifiers.Keys
  }

  /** Every symbol of a separated key has a registered callable. */
  predicate Runnable(env: Env, sk: SepKey)
  {
    (sk.action.Some? ==> sk.action.value in env.actions) &&
    forall k :: 0 <= k < |sk.modifiers| ==> sk.modifiers[k] in env.modifiers
  }

  /** The state a merge leaves behind, and the exception that stopped it,
      if any. A failed merge keeps the changes made before the failure. */
  datatype Outcome = Outcome(dest: Value, sources: map<string, seq<Value>>, pending: set<string>, err: Option<Error>)

  // ---------------------------------------------------------------------
  // Separating and ordering the keys of one layer
  // ---------------------------------------------------------------------

  /** Every key of the layer separates and gets a sort key. */
  predicate Ranked(g: Grammar, ordering: seq<char>, keys: set<string>)
  {
    forall k :: k in keys ==> Separate(g, k).Ok? && RankOf(Separate(g, k).value, ordering).Ok?
  }

  function EntryOf(g: Grammar, ordering: seq<char>, k: string): (e: Entry)
    requires Separate(g, k).Ok? && RankOf(Separate(g, k).value, ordering).Ok?
    ensures e.sk.key == k && WellFormed(g, e.sk)
  {
    Entry(Separate(g, k).value, RankOf(Separate(g, k).value, ordering).value)
  }

  function Entries(g: Grammar, ordering: seq<char>, keys: set<string>): (s: set<Entry>)
    requires Ranked(g, ordering, keys)
    ensures KeysDistinct(s)
    ensures forall e :: e in s ==> e.sk.key in keys && WellFormed(g, e.sk)
  {
    set k | k in keys :: EntryOf(g, ordering, k)
  }

  /** Two keys share a true key but only one is locked: the sort compares
      `None` with `'#'`, which Python refuses with TypeError. */
  predicate MixedLocks(s: set<Entry>)
  {
    exists x, y :: x in s && y in s && x.sk.trueKey == y.sk.trueKey && x.sk.lock != y.sk.lock
  }

  /** The first two steps of `_merge`: separate every key (ValueError for a
      key the pattern rejects), compute every sort key (ValueError for a
      symbol missing from the ordering), then sort (TypeError for mixed
      locks). On success every key of the layer appears once, in order. */
  ghost function Prepare(g: Grammar, ordering: seq<char>, source: map<string, Value>): (r: Result<seq<Entry>>)
    ensures r.Err? ==> r.error == ValueError || r.error == TypeError
    ensures r.Ok? ==> Sorted(r.value) && forall e :: e in r.value ==> e.sk.key in source && WellFormed(g, e.sk)
    ensures r.Ok? ==> forall e :: e in r.value ==> Separate(g, e.sk.key) == Ok(e.sk)
  {
    if !Ranked(g, ordering, source.Keys) then Err(ValueError)
    else
      var s := Entries(g, ordering, source.Keys);
      if MixedLocks(s) then Err(TypeError)
      else
        Ok(Arrange(s))
  }

  /** What the preparation promises: it fails exactly on a key that does not
      separate or rank (ValueError) or on mixed locks (TypeError), and
      otherwise lists every key of the layer once, well formed and in
      order. */
  lemma PrepareSpec(g: Grammar, ordering: seq<char>, source: map<string, Value>)
    ensures var r := Prepare(g, ordering, source);
      (r.Err? <==> !Ranked(g, ordering, source.Keys) || MixedLocks(Entries(g, ordering, source.Keys))) &&
      (r.Err? ==> (r.error == ValueError <==> !Ranked(g, ordering, source.Keys))) &&
      (r.Err? ==> r.error == ValueError || r.error == TypeError) &&
      (r.Ok? ==> Sorted(r.value)) &&
      (r.Ok? ==> forall e :: e in r.value ==> e.sk.key in source && WellFormed(g, e.sk)) &&
      (r.Ok? ==> forall k :: k in source ==> EntryOf(g, ordering, k) in r.value)
  {
  }

  // ---------------------------------------------------------------------
  // Merging
  // ---------------------------------------------------------------------

  /** Each entry names a key of the layer and symbols the tables can run. */
  predicate Fits(env: Env, source: map<string, Value>, order: seq<Entry>)
  {
    forall i :: 0 <= i < |order| ==> order[i].sk.key in source && Runnable(env, order[i].sk)
  }

  lemma PrepareFits(env: Env, source: map<string, Value>)
    requires Compiled(env) && Prepare(env.grammar, env.ordering, source).Ok?
    ensures Fits(env, source, Prepare(env.grammar, env.ordering, source).value)
  {
    PrepareSpec(env.grammar, env.ordering, source);
    var order := Prepare(env.grammar, env.ordering, source).value;
    forall i | 0 <= i < |order|
      ensures order[i].sk.key in source && Runnable(env, order[i].sk)
    {
      assert order[i] in order;
    }
  }

  /** `_apply_modifiers`: every modifier of the key accepts. */
  predicate ModifiersPass(env: Env, sk: SepKey, existing: Value, arg: Value)
    requires Runnable(env, sk)
  {
    forall k :: 0 <= k < |sk.modifiers| ==>
      CallModifier(env.modifiers[sk.modifiers[k]], sk.action, sk.trueKey, existing, arg)
  }

  /** `_sources.setdefault(key_path, []).append(name)`. */
  function Record(sources: map<string, seq<Value>>, kp: string, id: Value): (r: map<string, seq<Value>>)
    ensures r.Keys == sources.Keys + {kp}
    ensures r[kp] == (if kp in sources then sources[kp] else []) + [id]
    ensures forall p :: p in sources && p != kp ==> r[p] == sources[p]
  {
    sources[kp := (if kp in sources then sources[kp] else []) + [id]]
  }

  /** `_merge` on one layer below `path`: separate and order the keys, then
      merge them one after the other, stopping at the first exception. */
  ghost function MergeOutcome(env: Env, fuel: nat, source: map<string, Value>, dest: Value, path: string,
                              sources: map<string, seq<Value>>, pending: set<string>): (o: Outcome)
    requires Compiled(env)
    ensures !dest.VMap? ==> o.dest == dest
    ensures dest.VMap? ==> o.dest.VMap? && dest.entries.Keys <= o.dest.entries.Keys
    decreases fuel, 2, 0
  {
    match Prepare(env.grammar, env.ordering, source)
    case Err(e) => Outcome(dest, sources, pending, Some(e))
    case Ok(order) =>
      PrepareFits(env, source);
      SeqOutcome(env, fuel, order, source, dest, path, sources, pending)
  }

  /** The loop of `_merge` over the ordered keys. */
  ghost function SeqOutcome(env: Env, fuel: nat, order: seq<Entry>, source: map<string, Value>, dest: Value,
                            path: string, sources: map<string, seq<Value>>, pending: set<string>): (o: Outcome)
    requires Compiled(env) && Fits(env, source, order)
    ensures !dest.VMap? ==> o.dest == dest
    ensures dest.VMap? ==> o.dest.VMap? && dest.entries.Keys <= o.dest.entries.Keys
    decreases fuel, 1, |order|
  {
    if |order| == 0 then Outcome(dest, sources, pending, None)
    else
      var o := KeyOutcome(env, fuel, order[0], source, dest, path, sources, pending);
      if o.err.Some? then o
      else SeqOutcome(env, fuel, order[1..], source, o.dest, path, o.sources, o.pending)
  }

  /** One iteration of the loop of `_merge`: refuse a locked key path, read
      the existing value with `dest.get` (AttributeError when the node is
      not a dictionary), skip the key when a modifier says no, and apply the
      action before placing the value. */
  ghost function KeyOutcome(env: Env, fuel: nat, e: Entry, source: map<string, Value>, dest: Value, path: string,
                            sources: map<string, seq<Value>>, pending: set<string>): (o: Outcome)
    requires Compiled(env) && e.sk.key in source && Runnable(env, e.sk)
    ensures o.dest == dest || (dest.VMap? && o.dest.VMap? && e.sk.trueKey in o.dest.entries &&
                               o.dest.entries == dest.entries[e.sk.trueKey := o.dest.entries[e.sk.trueKey]])
    decreases fuel, 0, 1
  {
    var sk := e.sk;
    var kp := JoinPath(path, sk.trueKey, env.sep);
    if kp in env.locked then Outcome(dest, sources, pending, Some(ValueError))
    else if !dest.VMap? then Outcome(dest, sources, pending, Some(AttributeError))
    else
      var existing := GetOrNone(dest.entries, sk.trueKey);
      var arg := source[sk.key];
      if !ModifiersPass(env, sk, existing, arg) then Outcome(dest, sources, pending, None)
      else if sk.action.None? then Place(env, fuel, sk, kp, dest.entries, arg, sources, pending)
      else match CallAction(env.actions[sk.action.value], existing, arg)
        case Err(err) => Outcome(dest, sources, pending, Some(err))
        case Ok(v) => Place(env, fuel, sk, kp, dest.entries, v, sources, pending)
  }

  /** The rest of the iteration: a dictionary value is merged into the node
      at the key (created when missing; RecursionError when the depth runs
      out), any other value is written; then the key is finished. */
  ghost function Place(env: Env, fuel: nat, sk: SepKey, kp: string, entries: map<string, Value>, v: Value,
                       sources: map<string, seq<Value>>, pending: set<string>): (o: Outcome)
    requires Compiled(env)
    ensures o.dest.VMap? && sk.trueKey in o.dest.entries
    ensures o.dest.entries == entries[sk.trueKey := o.dest.entries[sk.trueKey]]
    decreases fuel, 0, 0
  {
    if v.VMap? then
      var node := if sk.trueKey in entries then entries[sk.trueKey] else VMap(map[]);
      if fuel == 0 then Outcome(VMap(entries[sk.trueKey := node]), sources, pending, Some(RecursionError))
      else
        var sub := MergeOutcome(env, Deeper(fuel), v.entries, node, kp, sources, pending);
        var merged := VMap(entries[sk.trueKey := sub.dest]);
        if sub.err.Some? then Outcome(merged, sub.sources, sub.pending, sub.err)
        else Finish(env, sk, kp, merged, sub.sources, sub.pending, sk.action.Some?)
    else Finish(env, sk, kp, VMap(entries[sk.trueKey := v]), sources, pending, true)
  }

  /** The tail of one iteration: a locked key joins the pending locks, and
      a key that was modified or locked gets the merge's identifier
      appended to its provenance. */
  function Finish(env: Env, sk: SepKey, kp: string, dest: Value, sources: map<string, seq<Value>>,
                  pending: set<string>, modified: bool): (o: Outcome)
    ensures o.err == None && o.dest == dest
    ensures o.pending == (if sk.lock then pending + {kp} else pending)
    ensures modified || sk.lock ==> o.sources == Record(sources, kp, env.id)
    ensures !modified && !sk.lock ==> o.sources == sources
  {
    var pending' := if sk.lock then pending + {kp} else pending;
    var sources' := if modified || sk.lock then Record(sources, kp, env.id) else sources;
    Outcome(dest, sources', pending', None)
  }

  // ---------------------------------------------------------------------
  // What a merge leaves alone in the tree
  // ---------------------------------------------------------------------

  /** Some key of the layer separates into the true key `k`. */
  predicate Named(g: Grammar, source: map<string, Value>, k: string)
  {
    exists key :: key in source && Separate(g, key).Ok? && Separate(g, key).value.trueKey == k
  }

  /** The loop never touches a slot whose key no entry names. */
  lemma {:induction false} SeqOutcomeKeepsUnnamed(env: Env, fuel: nat, order: seq<Entry>, source: map<string, Value>,
                                                  dest: Value, path: string, sources: map<string, seq<Value>>,
                                                  pending: set<string>, k: string)
    requires Compiled(env) && Fits(env, source, order)
    requires dest.VMap? && k in dest.entries
    requires forall i :: 0 <= i < |order| ==> order[i].sk.trueKey != k
    ensures var o := SeqOutcome(env, fuel, order, source, dest, path, sources, pending);
      o.dest.VMap? && k in o.dest.entries && o.dest.entries[k] == dest.entries[k]
    decreases |order|
  {
    if |order| > 0 {
      var o := KeyOutcome(env, fuel, order[0], source, dest, path, sources, pending);
      if o.err.None? {
        assert Fits(env, source, order[1..]) by {
          forall i | 0 <= i < |order[1..]|
            ensures order[1..][i].sk.key in source && Runnable(env, order[1..][i].sk)
          {
            assert order[1..][i] == order[i + 1];
          }
        }
        assert forall i :: 0 <= i < |order[1..]| ==> order[1..][i].sk.trueKey != k by {
          forall i | 0 <= i < |order[1..]|
            ensures order[1..][i].sk.trueKey != k
          {
            assert order[1..][i] == order[i + 1];
          }
        }
        SeqOutcomeKeepsUnnamed(env, fuel, order[1..], source, o.dest, path, o.sources, o.pending, k);
      }
    }
  }

  /** `_merge` leaves every slot of the node whose key no key of the layer
      separates into exactly as it was. */
  lemma MergeOutcomeKeepsUnnamed(env: Env, fuel: nat, source: map<string, Value>, dest: Value, path: string,
                                 sources: map<string, seq<Value>>, pending: set<string>, k: string)
    requires Compiled(env) && dest.VMap? && k in dest.entries && !Named(env.grammar, source, k)
    ensures var o := MergeOutcome(env, fuel, source, dest, path, sources, pending);
      o.dest.VMap? && k in o.dest.entries && o.dest.entries[k] == dest.entries[k]
  {
    match Prepare(env.grammar, env.ordering, source)
    case Err(_) =>
    case Ok(order) =>
      PrepareFits(env, source);
      forall i | 0 <= i < |order|
        ensures order[i].sk.trueKey != k
      {
        assert order[i] in order;
      }
      SeqOutcomeKeepsUnnamed(env, fuel, order, source, dest, path, sources, pending, k);
  }

  // ---------------------------------------------------------------------
  // What a merge may change
  // ---------------------------------------------------------------------

  function Known(sources: map<string, seq<Value>>, p: string): nat
  {
    if p in sources then |sources[p]| else 0
  }

  /** Provenance only grows: each list keeps its old entries as a prefix,
      every entry added names this merge, and new paths get a non-empty
      list. */
  predicate Grows(before: map<string, seq<Value>>, after: map<string, seq<Value>>, id: Value)
  {
    (forall p :: p in before ==> p in after && |before[p]| <= |after[p]| && after[p][..|before[p]|] == before[p]) &&
    (forall p, i :: p in after && Known(before, p) <= i < |after[p]| ==> after[p][i] == id) &&
    (forall p :: p in after && p !in before ==> |after[p]| > 0)
  }

  /** The effect of a merge, successful or not: provenance grows, the
      provenance of locked paths is untouched, pending locks only grow and
      never name a path that is already locked, every newly pending path has
      a provenance entry, and a node that is not a dictionary is left as it
      is. */
  predicate Effect(env: Env, dest: Value, sources: map<string, seq<Value>>, pending: set<string>, o: Outcome)
  {
    Grows(sources, o.sources, env.id) &&
    (forall p :: p in env.locked ==> (p in o.sources <==> p in sources) && (p in sources ==> o.sources[p] == sources[p])) &&
    pending <= o.pending &&
    (forall p :: p in o.pending && p !in pending ==> p !in env.locked && p in o.sources) &&
    (dest.VMap? ==> o.dest.VMap?) && (!dest.VMap? ==> o.dest == dest)
  }

  lemma GrowsTransitive(a: map<string, seq<Value>>, b: map<string, seq<Value>>, c: map<string, seq<Value>>, id: Value)
    requires Grows(a, b, id) && Grows(b, c, id)
    ensures Grows(a, c, id)
  {
    forall p | p in a
      ensures p in c && |a[p]| <= |c[p]| && c[p][..|a[p]|] == a[p]
    {
      assert c[p][..|b[p]|][..|a[p]|] == c[p][..|a[p]|];
    }
    forall p, i | p in c && Known(a, p) <= i < |c[p]|
      ensures c[p][i] == id
    {
      if p in b && i < |b[p]| {
        assert c[p][..|b[p]|][i] == c[p][i];
      }
    }
  }

  lemma EffectTransitive(env: Env, dest: Value, sources: map<string, seq<Value>>, pending: set<string>, o1: Outcome, o2: Outcome)
    requires Effect(env, dest, sources, pending, o1) && Effect(env, o1.dest, o1.sources, o1.pending, o2)
    ensures Effect(env, dest, sources, pending, o2)
  {
    GrowsTransitive(sources, o1.sources, o2.sources, env.id);
  }

  lemma RecordEffect(env: Env, dest: Value, dest': Value, sources: map<string, seq<Value>>, pending: set<string>, kp: string)
    requires kp !in env.locked
    requires (dest.VMap? ==> dest'.VMap?) && (!dest.VMap? ==> dest' == dest)
    ensures Effect(env, dest, sources, pending, Outcome(dest', Record(sources, kp, env.id), pending, None))
  {
    var r := Record(sources, kp, env.id);
    if kp in sources {
      assert r[kp][..|sources[kp]|] == sources[kp];
    }
  }

  lemma {:induction false} MergeOutcomeEffect(env: Env, fuel: nat, source: map<string, Value>, dest: Value, path: string,
                                              sources: map<string, seq<Value>>, pending: set<string>)
    requires Compiled(env)
    ensures Effect(env, dest, sources, pending, MergeOutcome(env, fuel, source, dest, path, sources, pending))
    decreases fuel, 2, 0
  {
    match Prepare(env.grammar, env.ordering, source)
    case Err(e) =>
    case Ok(order) =>
      PrepareFits(env, source);
      SeqOutcomeEffect(env, fuel, order, source, dest, path, sources, pending);
  }

  lemma {:induction false} SeqOutcomeEffect(env: Env, fuel: nat, order: seq<Entry>, source: map<string, Value>, dest: Value,
                                            path: string, sources: map<string, seq<Value>>, pending: set<string>)
    requires Compiled(env) && Fits(env, source, order)
    ensures Effect(env, dest, sources, pending, SeqOutcome(env, fuel, order, source, dest, path, sources, pending))
    decreases fuel, 1, |order|
  {
    GrowsReflexive(sources, env.id);
    if |order| > 0 {
      var o := KeyOutcome(env, fuel, order[0], source, dest, path, sources, pending);
      KeyOutcomeEffect(env, fuel, order[0], source, dest, path, sources, pending);
      if o.err.None? {
        assert Fits(env, source, order[1..]) by {
          forall i | 0 <= i < |order[1..]|
            ensures order[1..][i].sk.key in source && Runnable(env, order[1..][i].sk)
          {
            assert order[1..][i] == order[i + 1];
          }
        }
        SeqOutcomeEffect(env, fuel, order[1..], source, o.dest, path, o.sources, o.pending);
        EffectTransitive(env, dest, sources, pending, o,
                         SeqOutcome(env, fuel, order[1..], source, o.dest, path, o.sources, o.pending));
      }
    }
  }

  lemma {:induction false} KeyOutcomeEffect(env: Env, fuel: nat, e: Entry, source: map<string, Value>, dest: Value,
                                            path: string, sources: map<string, seq<Value>>, pending: set<string>)
    requires Compiled(env) && e.sk.key in source && Runnable(env, e.sk)
    ensures Effect(env, dest, sources, pending, KeyOutcome(env, fuel, e, source, dest, path, sources, pending))
    decreases fuel, 0, 1
  {
    var sk := e.sk;
    var kp := JoinPath(path, sk.trueKey, env.sep);
    GrowsReflexive(sources, env.id);
    if kp !in env.locked && dest.VMap? {
      var existing := GetOrNone(dest.entries, sk.trueKey);
      var arg := source[sk.key];
      if ModifiersPass(env, sk, existing, arg) {
        if sk.action.None? {
          PlaceEffect(env, fuel, sk, kp, dest.entries, arg, sources, pending);
        } else if CallAction(env.actions[sk.action.value], existing, arg).Ok? {
          PlaceEffect(env, fuel, sk, kp, dest.entries, CallAction(env.actions[sk.action.value], existing, arg).value,
                      sources, pending);
        }
      }
    }
  }

  lemma {:induction false} PlaceEffect(env: Env, fuel: nat, sk: SepKey, kp: string, entries: map<string, Value>, v: Value,
                                       sources: map<string, seq<Value>>, pending: set<string>)
    requires Compiled(env) && kp !in env.locked
    ensures Effect(env, VMap(entries), sources, pending, Place(env, fuel, sk, kp, entries, v, sources, pending))
    decreases fuel, 0, 0
  {
    GrowsReflexive(sources, env.id);
    if v.VMap? {
      var node := if sk.trueKey in entries then entries[sk.trueKey] else VMap(map[]);
      if fuel > 0 {
        var sub := MergeOutcome(env, Deeper(fuel), v.entries, node, kp, sources, pending);
        MergeOutcomeEffect(env, Deeper(fuel), v.entries, node, kp, sources, pending);
        var merged := VMap(entries[sk.trueKey := sub.dest]);
        var mid := Outcome(merged, sub.sources, sub.pending, None);
        assert Effect(env, VMap(entries), sources, pending, mid);
        if sub.err.None? {
          FinishEffect(env, sk, kp, merged, sub.sources, sub.pending, sk.action.Some?);
          EffectTransitive(env, VMap(entries), sources, pending, mid,
                           Finish(env, sk, kp, merged, sub.sources, sub.pending, sk.action.Some?));
        }
      }
    } else {
      var written := VMap(entries[sk.trueKey := v]);
      FinishEffect(env, sk, kp, written, sources, pending, true);
      EffectTransitive(env, VMap(entries), sources, pending, Outcome(written, sources, pending, None),
                       Finish(env, sk, kp, written, sources, pending, true));
    }
  }

  lemma GrowsReflexive(s: map<string, seq<Value>>, id: Value)
    ensures Grows(s, s, id)
  {
    assert forall p :: p in s ==> s[p][..|s[p]|] == s[p];
  }

  lemma FinishEffect(env: Env, sk: SepKey, kp: string, dest: Value, sources: map<string, seq<Value>>,
                     pending: set<string>, modified: bool)
    requires kp !in env.locked && dest.VMap?
    ensures Effect(env, dest, sources, pending, Finish(env, sk, kp, dest, sources, pending, modified))
  {
    if modified || sk.lock {
      RecordEffect(env, dest, dest, sources, pending, kp);
    } else {
      GrowsReflexive(sources, env.id);
    }
  }

  /** A merge that completes has refused no key: none of the ordered keys
      sits at a locked path. */
  lemma {:induction false} CompletedSeqAvoidsLocked(env: Env, fuel: nat, order: seq<Entry>, source: map<string, Value>,
                                                    dest: Value, path: string, sources: map<string, seq<Value>>,
                                                    pending: set<string>)
    requires Compiled(env) && Fits(env, source, order)
    requires SeqOutcome(env, fuel, order, source, dest, path, sources, pending).err.None?
    ensures forall i :: 0 <= i < |order| ==> JoinPath(path, order[i].sk.trueKey, env.sep) !in env.locked
    decreases |order|
  {
    if |order| > 0 {
      var o := KeyOutcome(env, fuel, order[0], source, dest, path, sources, pending);
      assert Fits(env, source, order[1..]) by {
        forall i | 0 <= i < |order[1..]|
          ensures order[1..][i].sk.key in source && Runnable(env, order[1..][i].sk)
        {
          assert order[1..][i] == order[i + 1];
        }
      }
      CompletedSeqAvoidsLocked(env, fuel, order[1..], source, o.dest, path, o.sources, o.pending);
      forall i | 1 <= i < |order|
        ensures JoinPath(path, order[i].sk.trueKey, env.sep) !in env.locked
      {
        assert order[1..][i - 1] == order[i];
      }
    }
  }

  /** A key placed with a lock joins the pending locks. */
  lemma PlaceStagesLock(env: Env, fuel: nat, sk: SepKey, kp: string, entries: map<string, Value>, v: Value,
                        sources: map<string, seq<Value>>, pending: set<string>)
    requires Compiled(env) && sk.lock
    requires Place(env, fuel, sk, kp, entries, v, sources, pending).err.None?
    ensures kp in Place(env, fuel, sk, kp, entries, v, sources, pending).pending
  {
  }

  /** A locked key without modifiers that the merge gets past (the
      `if lock:` branch of `_merge`) has its path among the pending locks. */
  lemma KeyStagesLock(env: Env, fuel: nat, e: Entry, source: map<string, Value>, dest: Value, path: string,
                      sources: map<string, seq<Value>>, pending: set<string>)
    requires Compiled(env) && e.sk.key in source && Runnable(env, e.sk)
    requires e.sk.lock && |e.sk.modifiers| == 0
    requires KeyOutcome(env, fuel, e, source, dest, path, sources, pending).err.None?
    ensures JoinPath(path, e.sk.trueKey, env.sep) in KeyOutcome(env, fuel, e, source, dest, path, sources, pending).pending
  {
    var sk := e.sk;
    var kp := JoinPath(path, sk.trueKey, env.sep);
    var existing := GetOrNone(dest.entries, sk.trueKey);
    var arg := source[sk.key];
    assert ModifiersPass(env, sk, existing, arg);
    if sk.action.None? {
      PlaceStagesLock(env, fuel, sk, kp, dest.entries, arg, sources, pending);
    } else {
      var v := CallAction(env.actions[sk.action.value], existing, arg).value;
      PlaceStagesLock(env, fuel, sk, kp, dest.entries, v, sources, pending);
    }
  }

  /** A merge that completes leaves every locked key without modifiers of
      the layer among the pending locks, which `merge` then commits. */
  lemma {:induction false} CompletedSeqStagesLocks(env: Env, fuel: nat, order: seq<Entry>, source: map<string, Value>,
                                                   dest: Value, path: string, sources: map<string, seq<Value>>,
                                                   pending: set<string>, i: nat)
    requires Compiled(env) && Fits(env, source, order)
    requires SeqOutcome(env, fuel, order, source, dest, path, sources, pending).err.None?
    requires i < |order| && order[i].sk.lock && |order[i].sk.modifiers| == 0
    ensures JoinPath(path, order[i].sk.trueKey, env.sep) in SeqOutcome(env, fuel, order, source, dest, path, sources, pending).pending
    decreases |order|
  {
    var o := KeyOutcome(env, fuel, order[0], source, dest, path, sources, pending);
    assert Fits(env, source, order[1..]) by {
      forall j | 0 <= j < |order[1..]|
        ensures order[1..][j].sk.key in source && Runnable(env, order[1..][j].sk)
      {
        assert order[1..][j] == order[j + 1];
      }
    }
    if i == 0 {
      KeyStagesLock(env, fuel, order[0], source, dest, path, sources, pending);
      SeqOutcomeEffect(env, fuel, order[1..], source, o.dest, path, o.sources, o.pending);
    } else {
      assert order[1..][i - 1] == order[i];
      CompletedSeqStagesLocks(env, fuel, order[1..], source, o.dest, path, o.sources, o.pending, i - 1);
    }
  }

  /** A merge whose layer has a key at a locked path does not complete. */
  lemma LockedKeyStopsMerge(env: Env, fuel: nat, source: map<string, Value>, dest: Value, path: string,
                            sources: map<string, seq<Value>>, pending: set<string>, k: string)
    requires Compiled(env) && k in source
    requires Ranked(env.grammar, env.ordering, source.Keys)
    requires JoinPath(path, EntryOf(env.grammar, env.ordering, k).sk.trueKey, env.sep) in env.locked
    ensures MergeOutcome(env, fuel, source, dest, path, sources, pending).err.Some?
  {
    match Prepare(env.grammar, env.ordering, source)
    case Err(_) =>
    case Ok(order) =>
      PrepareFits(env, source);
      PrepareSpec(env.grammar, env.ordering, source);
      var e := EntryOf(env.grammar, env.ordering, k);
      assert e in order;
      if SeqOutcome(env, fuel, order, source, dest, path, sources, pending).err.None? {
        CompletedSeqAvoidsLocked(env, fuel, order, source, dest, path, sources, pending);
        assert false;
      }
  }

  // ---------------------------------------------------------------------
  // Locks
  // ---------------------------------------------------------------------

  /** How many leading segments of the key form the longest locked prefix
      (`_get_locked_key` joins and pops the parts from the longest down);
      0 when none is locked. */
  function LockedDepth(locked: set<string>, parts: seq<string>, sep: char): (n: nat)
    ensures n <= |parts|
    ensures n > 0 ==> Join(parts[..n], sep) in locked
    ensures forall m :: n < m <= |parts| ==> Join(parts[..m], sep) !in locked
    decreases |parts|
  {
    if |parts| == 0 then 0
    else if Join(parts, sep) in locked then
      assert parts[..|parts|] == parts;
      |parts|
    else
      var n := LockedDepth(locked, parts[..|parts| - 1], sep);
      assert forall m :: 0 <= m <= |parts| - 1 ==> parts[..|parts| - 1][..m] == parts[..m];
      assert parts[..|parts|] == parts;
      n
  }

  /** `_get_locked_key`: the longest locked prefix of the key, by whole
      segments, or nothing. */
  function LockedPrefix(locked: set<string>, key: string, sep: char): (r: Option<string>)
    ensures r.Some? ==> r.value in locked && StartsWith(key, r.value)
  {
    var parts := Split(key, sep);
    var n := LockedDepth(locked, parts, sep);
    if n == 0 then None
    else
      JoinPrefixIsPrefix(key, sep, n);
      Some(Join(parts[..n], sep))
  }

  /** A locked path also covers every key below it, and the prefix found
      is non-empty when the locked path is. */
  lemma LockCoversExtensions(locked: set<string>, k: string, rest: string, sep: char)
    requires k in locked
    ensures LockedPrefix(locked, k, sep).Some?
    ensures LockedPrefix(locked, k + [sep] + rest, sep).Some?
    ensures k != "" ==> LockedPrefix(locked, k, sep).value != "" &&
                        LockedPrefix(locked, k + [sep] + rest, sep).value != ""
  {
    var ks := Split(k, sep);
    assert ks[..|ks|] == ks;
    var n0 := LockedDepth(locked, ks, sep);
    assert n0 == |ks|;
    var key := k + [sep] + rest;
    SplitAppend(k, rest, sep);
    var parts := Split(key, sep);
    assert parts[..|ks|] == ks;
    var n := LockedDepth(locked, parts, sep);
    assert n >= |ks|;
    JoinTake(parts[..n], sep, |ks|);
    assert parts[..n][..|ks|] == ks;
  }

  /** A key shorter than every locked path is not locked: locking
      `dict.str` does not lock `dict`. */
  lemma ShorterKeysUnlocked(locked: set<string>, key: string, sep: char)
    requires forall l :: l in locked ==> |l| > |key|
    ensures LockedPrefix(locked, key, sep).None?
  {
  }
}
