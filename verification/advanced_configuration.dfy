/** `AdvancedConfiguration` (python/configuration/advanced_configuration.py):
    the base configuration whose merge reads symbols in front of each key
    (modifiers, an action, a lock), keeps every merge that modified a path
    in a provenance list, and refuses to touch locked paths. */
module Advanced {
  import opened Values
  import opened Paths
  import opened Tree
  import opened Grammar
  import opened Order
  import opened Actions
  import opened AdvancedMerge

  /** The state a merge changes. */
  datatype Snapshot = Snapshot(data: map<string, Value>, count: nat, sources: map<string, seq<Value>>,
                               locked: set<string>, pending: set<string>)

  /** The registries a merge reads. */
  datatype Tables = Tables(actions: map<char, ActionFn>, modifiers: map<char, ModifierFn>, ordering: seq<char>,
                           lock: char, sep: char)

  /** The tables `__init__` installs. */
  function DefaultTables(sep: char): (t: Tables)
    ensures t.ordering == "+-!?" && t.lock == '#' && t.sep == sep
    ensures t.actions.Keys == {'+', '-'} && t.modifiers.Keys == {'!', '?'}
  {
    Tables(map['+' := AddAction, '-' := SubtractAction], map['!' := NotExistsModifier, '?' := ExistsModifier],
           "+-!?", '#', sep)
  }

  /** `_compile`: the pattern built from the modifier and action symbols and
      the lock symbol. Reading an attribute that `__init__` has not assigned
      yet raises AttributeError. */
  function Compile(modifiers: Option<set<char>>, actions: Option<set<char>>, lock: Option<char>): (r: Result<Grammar>)
    ensures r.Ok? <==> modifiers.Some? && actions.Some? && lock.Some?
    ensures r.Ok? ==> r.value == Grammar(modifiers.value, actions.value, lock.value)
    ensures r.Err? ==> r.error == AttributeError
  {
    if modifiers.None? || actions.None? || lock.None? then Err(AttributeError)
    else Ok(Grammar(modifiers.value, actions.value, lock.value))
  }

  function GrammarOf(t: Tables): Grammar
  {
    Grammar(t.modifiers.Keys, t.actions.Keys, t.lock)
  }

  /** `merge`: compile the pattern, run `_merge` on the whole tree with
      identifier `name or _count`; on success count the merge and turn the
      pending locks into locks. An exception leaves the changes made so far,
      does not count the merge, and keeps the pending locks. */
  ghost function MergeStep(t: Tables, s: Snapshot, layer: map<string, Value>, name: Value): (r: (Snapshot, Option<Error>))
    ensures r.1.None? ==> r.0.count == s.count + 1 && r.0.locked >= s.locked && r.0.pending == {}
    ensures r.1.Some? ==> r.0.count == s.count && r.0.locked == s.locked
  {
    var env := Env(GrammarOf(t), t.actions, t.modifiers, t.ordering, s.locked, t.sep, Identifier(name, s.count));
    var o := MergeOutcome(env, RecursionLimit, layer, VMap(s.data), "", s.sources, s.pending);
    var data := if o.dest.VMap? then o.dest.entries else s.data;
    if o.err.Some? then (Snapshot(data, s.count, o.sources, s.locked, o.pending), o.err)
    else (Snapshot(data, s.count + 1, o.sources, s.locked + o.pending, {}), None)
  }

  /** Every provenance list names at least one merge (`sources` reads the
      last one). */
  predicate ValidSources(sources: map<string, seq<Value>>)
  {
    forall p :: p in sources ==> |sources[p]| > 0
  }

  /** A merge keeps every provenance list non-empty, leaves the lists of
      locked paths alone, only appends its own identifier, and locks only
      paths it recorded. */
  lemma MergeStepKeeps(t: Tables, s: Snapshot, layer: map<string, Value>, name: Value)
    ensures var r := MergeStep(t, s, layer, name);
      (ValidSources(s.sources) ==> ValidSources(r.0.sources)) &&
      Grows(s.sources, r.0.sources, Identifier(name, s.count)) &&
      (forall p :: p in s.locked ==> (p in r.0.sources <==> p in s.sources) &&
                                     (p in s.sources ==> r.0.sources[p] == s.sources[p])) &&
      (forall p :: p in r.0.locked && p !in s.locked ==> p in s.pending || p in r.0.sources) &&
      (r.1.Some? ==> s.pending <= r.0.pending)
  {
    var env := Env(GrammarOf(t), t.actions, t.modifiers, t.ordering, s.locked, t.sep, Identifier(name, s.count));
    MergeOutcomeEffect(env, RecursionLimit, layer, VMap(s.data), "", s.sources, s.pending);
  }

  /** `from_dicts`: the layers merged in order, stopping at the first
      exception. */
  ghost function Replay(t: Tables, s: Snapshot, layers: seq<map<string, Value>>, names: seq<Value>)
    : (r: (Snapshot, Option<Error>))
    requires |layers| == |names|
    ensures r.1.None? ==> r.0.count == s.count + |layers|
    decreases |layers|
  {
    if |layers| == 0 then (s, None)
    else
      var before := Replay(t, s, layers[..|layers| - 1], names[..|names| - 1]);
      if before.1.Some? then before
      else MergeStep(t, before.0, layers[|layers| - 1], names[|names| - 1])
  }

  function EmptySnapshot(): Snapshot
  {
    Snapshot(map[], 0, map[], {}, {})
  }

  /** `__init__` as written: the base initialiser runs first and merges a
      non-empty seed, and that merge compiles the pattern before
      `_modifiers`, `_actions` and `_lock_symbol` are assigned. */
  function InitAsWritten(seed: map<string, Value>): (err: Option<Error>)
    ensures seed == map[] ==> err == None
    ensures err.Some? ==> err.value == AttributeError
  {
    if !Truthy(VMap(seed)) then None
    else match Compile(None, None, None)
      case Err(e) => Some(e)
      case Ok(_) => None
  }

  /** As written, every non-empty seed makes the constructor raise. */
  lemma InitAsWrittenRejectsSeeds(seed: map<string, Value>)
    ensures InitAsWritten(seed) == Some(AttributeError) <==> seed != map[]
  {
  }

  function SeedEntry(): Entry
  {
    Entry(SepKey("a", "", None, false, "a"), Rank("a", false, 0, []))
  }

  function SeedEnv(sep: char): Env
  {
    var t := DefaultTables(sep);
    Env(GrammarOf(t), t.actions, t.modifiers, t.ordering, {}, sep, VInt(0))
  }

  lemma SeedPrepared(sep: char)
    ensures Prepare(GrammarOf(DefaultTables(sep)), "+-!?", map["a" := VInt(1)]) == Ok([SeedEntry()])
  {
    var g := GrammarOf(DefaultTables(sep));
    var layer := map["a" := VInt(1)];
    assert IsWordChar('a');
    assert IsWord("a");
    SeparatePlainWord(g, "a");
    var e := SeedEntry();
    assert RankOf(e.sk, "+-!?") == Ok(e.rank);
    assert Ranked(g, "+-!?", layer.Keys);
    assert EntryOf(g, "+-!?", "a") == e;
    assert Entries(g, "+-!?", layer.Keys) == {e};
    assert !MixedLocks({e});
    var order := Arrange({e});
    assert |order| == 1 && order[0] in {e};
    assert order == [e];
  }

  lemma SeedKeyMerged(sep: char)
    ensures KeyOutcome(SeedEnv(sep), RecursionLimit, SeedEntry(), map["a" := VInt(1)], VMap(map[]), "", map[], {}) ==
            Outcome(VMap(map["a" := VInt(1)]), map["a" := [VInt(0)]], {}, None)
  {
    var env := SeedEnv(sep);
    var sk := SeedEntry().sk;
    assert JoinPath("", "a", sep) == "a";
    assert ModifiersPass(env, sk, VNone, VInt(1));
    var rec := Record(map[], "a", VInt(0));
    assert rec.Keys == {"a"} && rec["a"] == [VInt(0)];
    assert rec == map["a" := [VInt(0)]];
    assert Place(env, RecursionLimit, sk, "a", map[], VInt(1), map[], {}) ==
           Outcome(VMap(map["a" := VInt(1)]), map["a" := [VInt(0)]], {}, None);
  }

  lemma SeedOutcome(sep: char)
    ensures MergeOutcome(SeedEnv(sep), RecursionLimit, map["a" := VInt(1)], VMap(map[]), "", map[], {}) ==
            Outcome(VMap(map["a" := VInt(1)]), map["a" := [VInt(0)]], {}, None)
  {
    var env := SeedEnv(sep);
    var layer := map["a" := VInt(1)];
    SeedPrepared(sep);
    SeedKeyMerged(sep);
    PrepareFits(env, layer);
    MergeOutcomeOfOrder(env, RecursionLimit, layer, VMap(map[]), "", map[], {});
    assert [SeedEntry()][1..] == [];
  }

  /** A layer that prepares cleanly is merged key by key in its order. */
  lemma MergeOutcomeOfOrder(env: Env, fuel: nat, source: map<string, Value>, dest: Value, path: string,
                            sources: map<string, seq<Value>>, pending: set<string>)
    requires Compiled(env) && Prepare(env.grammar, env.ordering, source).Ok?
    ensures Fits(env, source, Prepare(env.grammar, env.ordering, source).value)
    ensures MergeOutcome(env, fuel, source, dest, path, sources, pending) ==
            SeqOutcome(env, fuel, Prepare(env.grammar, env.ordering, source).value, source, dest, path, sources, pending)
  {
    PrepareFits(env, source);
  }

  /** With the tables installed before the seed is merged, a plain seed
      merges: `{"a": 1}` gives `a = 1`, recorded for ordinal 0, no lock. */
  lemma SeedMergesWhenTablesComeFirst(sep: char)
    ensures MergeStep(DefaultTables(sep), EmptySnapshot(), map["a" := VInt(1)], VNone) ==
            (Snapshot(map["a" := VInt(1)], 1, map["a" := [VInt(0)]], {}, {}), None)
  {
    SeedOutcome(sep);
    assert Identifier(VNone, 0) == VInt(0);
  }

  class Configuration {
    /** `_data`. */
    var data: map<string, Value>
    /** `_count`: how many merges have completed. */
    var count: nat
    /** `_separator`. */
    const separator: char
    /** `_sources`: key path to the identifiers of every merge that modified
        it, oldest first. */
    var sources: map<string, seq<Value>>
    /** `_locked`. */
    var locked: set<string>
    /** `_lock_symbol`. */
    const lockSymbol: char
    /** `_actions`: action symbol to callable. */
    var actions: map<char, ActionFn>
    /** `_modifiers`: modifier symbol to callable. */
    var modifiers: map<char, ModifierFn>
    /** `_ordering`: symbol priority for the sort key. */
    var ordering: seq<char>
    /** `pattern`: the last compiled key pattern. */
    var pattern: Option<Grammar>
    /** `__pending_lock`: paths locked by the merge in progress. */
    var pending: set<string>

    function Snap(): Snapshot
      reads this
    {
      Snapshot(data, count, sources, locked, pending)
    }

    function Tabs(): Tables
      reads this
    {
      Tables(actions, modifiers, ordering, lockSymbol, separator)
    }

    predicate Valid()
      reads this
    {
      ValidSources(sources)
    }

    /** The pattern agrees with the current tables. */
    predicate Ready()
      reads this
    {
      pattern == Some(GrammarOf(Tabs()))
    }

    function EnvOf(id: Value): Env
      reads this`actions, this`modifiers, this`ordering, this`locked, this`pattern
      requires pattern.Some?
    {
      Env(pattern.value, actions, modifiers, ordering, locked, separator, id)
    }

    /** `__init__` without seed data (or with an empty one). */
    constructor (separator: char)
      ensures Snap() == EmptySnapshot() && Tabs() == DefaultTables(separator) && pattern == None
      ensures Valid()
    {
      data := map[];
      count := 0;
      this.separator := separator;
      sources := map[];
      locked := {};
      lockSymbol := '#';
      actions := map['+' := AddAction, '-' := SubtractAction];
      modifiers := map['!' := NotExistsModifier, '?' := ExistsModifier];
      ordering := "+-!?";
      pattern := None;
      pending := {};
    }

    /** The constructor with the seed merged once the tables exist. */
    static method FromSeed(seed: map<string, Value>, name: Value, separator: char) returns (c: Configuration, err: Option<Error>)
      ensures fresh(c) && c.Tabs() == DefaultTables(separator) && c.Valid()
      ensures seed == map[] ==> c.Snap() == EmptySnapshot() && err == None
      ensures seed != map[] ==> (c.Snap(), err) == MergeStep(DefaultTables(separator), EmptySnapshot(), seed, name)
    {
      c := new Configuration(separator);
      err := None;
      if seed != map[] {
        err := c.Merge(seed, name);
      }
    }

    /** `is_locked`: the key has a non-empty locked prefix. */
    method IsLocked(key: string) returns (b: bool)
      ensures var l := LockedPrefix(locked, key, separator); b <==> l.Some? && l.value != ""
    {
      var l := LockedKey(key);
      b := l.Some? && l.value != "";
    }

    /** `locked`: a copy of the locked paths. */
    method Locked() returns (r: set<string>)
      ensures r == locked
    {
      r := locked;
    }

    /** `lock_key`. */
    method LockKey(key: string)
      modifies this`locked
      ensures locked == old(locked) + {key}
    {
      locked := locked + {key};
    }

    /** `register_action`: ValueError without any change when the symbol is
        already registered and `force` is not set; otherwise the callable is
        stored and the symbol inserted into the ordering. */
    method RegisterAction(symbol: char, f: ActionFn, force: bool, indexOrder: Option<int>) returns (err: Option<Error>)
      modifies this`actions, this`ordering
      ensures !force && (symbol in modifiers || symbol in old(actions)) ==>
                err == Some(ValueError) && actions == old(actions) && ordering == old(ordering)
      ensures force || (symbol !in modifiers && symbol !in old(actions)) ==>
                err == None && actions == old(actions)[symbol := f] &&
                ordering == ListInsert(old(ordering), InsertIndex(indexOrder, |old(ordering)|), symbol)
    {
      if !force && (symbol in modifiers || symbol in actions) {
        return Some(ValueError);
      }
      actions := actions[symbol := f];
      ordering := ListInsert(ordering, InsertIndex(indexOrder, |ordering|), symbol);
      err := None;
    }

    /** `register_modifier`: as `register_action`, for the modifier table. */
    method RegisterModifier(symbol: char, f: ModifierFn, force: bool, indexOrder: Option<int>) returns (err: Option<Error>)
      modifies this`modifiers, this`ordering
      ensures !force && (symbol in old(modifiers) || symbol in actions) ==>
                err == Some(ValueError) && modifiers == old(modifiers) && ordering == old(ordering)
      ensures force || (symbol !in old(modifiers) && symbol !in actions) ==>
                err == None && modifiers == old(modifiers)[symbol := f] &&
                ordering == ListInsert(old(ordering), InsertIndex(indexOrder, |old(ordering)|), symbol)
    {
      if !force && (symbol in modifiers || symbol in actions) {
        return Some(ValueError);
      }
      modifiers := modifiers[symbol := f];
      ordering := ListInsert(ordering, InsertIndex(indexOrder, |ordering|), symbol);
      err := None;
    }

    /** `set_ordering`. */
    method SetOrdering(order: seq<char>)
      modifies this`ordering
      ensures ordering == order
    {
      ordering := order;
    }

    /** `merge`. */
    method Merge(layer: map<string, Value>, name: Value) returns (err: Option<Error>)
      modifies this
      ensures Tabs() == old(Tabs()) && Ready()
      ensures (Snap(), err) == MergeStep(old(Tabs()), old(Snap()), layer, name)
      ensures old(Valid()) ==> Valid()
    {
      ghost var t, s := Tabs(), Snap();
      pattern := Some(Compile(Some(modifiers.Keys), Some(actions.Keys), Some(lockSymbol)).value);
      var id := Identifier(name, count);
      ghost var env := Env(GrammarOf(t), t.actions, t.modifiers, t.ordering, s.locked, t.sep, id);
      var r;
      r, err := MergeInto(layer, VMap(data), id, "", RecursionLimit, env);
      MergeCommit(t, s, layer, name, r, sources, pending, err);
      if err.None? {
        data, count, locked, pending := r.entries, count + 1, locked + pending, {};
      } else {
        data := r.entries;
      }
    }

    /** `set`: ValueError when the key has a non-empty locked prefix,
        otherwise the base `set`. */
    method Set(key: string, value: Value) returns (err: Option<Error>)
      modifies this`data
      ensures var l := LockedPrefix(locked, key, separator);
        if l.Some? && l.value != "" then err == Some(ValueError) && data == old(data)
        else match SetAt(VMap(old(data)), Split(key, separator), value)
          case Ok(t) => err == None && data == t.entries
          case Err(e) => err == Some(e) && data == old(data)
    {
      var l := LockedKey(key);
      if l.Some? && l.value != "" {
        return Some(ValueError);
      }
      var parts := Split(key, separator);
      var container := Walk(data, parts);
      SetAtFailsLikeWalk(VMap(data), parts, value);
      if container.Err? {
        return Some(container.error);
      }
      if !container.value.VMap? {
        return Some(TypeError);
      }
      data := SetAt(VMap(data), parts, value).value.entries;
      err := None;
    }

    /** `get`, inherited. */
    method Get(key: string) returns (r: Result<Value>)
      ensures r == Descend(VMap(data), Split(key, separator))
    {
      r := Tree.Get(data, Split(key, separator));
    }

    /** `source`, inherited: the whole provenance list of exactly this path. */
    method Source(key: string) returns (r: Result<seq<Value>>)
      ensures key in sources ==> r == Ok(sources[key])
      ensures key !in sources ==> r == Err(KeyError)
    {
      if key in sources {
        r := Ok(sources[key]);
      } else {
        r := Err(KeyError);
      }
    }

    /** `sources`: groups the paths by the last merge that modified them. */
    method Sources() returns (r: map<Value, seq<string>>)
      requires Valid()
      ensures forall id :: id in r <==> exists p :: p in sources && Last(sources[p]) == id
      ensures forall id, p :: id in r ==> (p in r[id] <==> p in sources && Last(sources[p]) == id)
      ensures forall id :: id in r ==> NoDuplicates(r[id])
    {
      r := map[];
      var todo := sources.Keys;
      ghost var done: set<string> := {};
      while todo != {}
        invariant todo + done == sources.Keys && todo !! done
        invariant forall q :: q in done ==> Last(sources[q]) in r
        invariant forall id :: id in r ==> |r[id]| > 0
        invariant forall id, p :: id in r ==> (p in r[id] <==> p in done && Last(sources[p]) == id)
        invariant forall id :: id in r ==> NoDuplicates(r[id])
        decreases todo
      {
        var p :| p in todo;
        var id := Last(sources[p]);
        ghost var prev := r;
        r := r[id := (if id in r then r[id] else []) + [p]];
        forall i, q | i in r
          ensures q in r[i] <==> q in done + {p} && Last(sources[q]) == i
        {
          if i != id {
            assert r[i] == prev[i];
          }
        }
        todo := todo - {p};
        done := done + {p};
      }
      forall id | id in r
        ensures exists p :: p in sources && Last(sources[p]) == id
      {
        var q := r[id][0];
        assert q in r[id];
        assert q in sources && Last(sources[q]) == id;
      }
    }

    /** `_get_locked_key`: pops segments off the key until the joined rest
        is locked. */
    method LockedKey(key: string) returns (r: Option<string>)
      ensures r == LockedPrefix(locked, key, separator)
    {
      var all := Split(key, separator);
      var parts := all;
      while |parts| > 0
        invariant |parts| <= |all| && parts == all[..|parts|]
        invariant forall m :: |parts| < m <= |all| ==> Join(all[..m], separator) !in locked
        decreases |parts|
      {
        var partial := Join(parts, separator);
        if partial in locked {
          assert LockedDepth(locked, all, separator) == |parts|;
          return Some(partial);
        }
        parts := parts[..|parts| - 1];
        assert parts == all[..|parts|];
      }
      r := None;
    }

    /** `_apply_modifiers`: runs the key's modifiers in order and stops at
        the first that refuses. */
    method ApplyModifiers(sk: SepKey, existing: Value, arg: Value) returns (ok: bool)
      requires pattern.Some? && Runnable(EnvOf(VNone), sk)
      ensures ok == ModifiersPass(EnvOf(VNone), sk, existing, arg)
    {
      for i := 0 to |sk.modifiers|
        invariant forall k :: 0 <= k < i ==> CallModifier(modifiers[sk.modifiers[k]], sk.action, sk.trueKey, existing, arg)
      {
        if !CallModifier(modifiers[sk.modifiers[i]], sk.action, sk.trueKey, existing, arg) {
          return false;
        }
      }
      ok := true;
    }

    /** `_sort_order`: the index in the ordering of each modifier, then of
        the action (0 without one). */
    method SortOrder(sk: SepKey) returns (r: Result<Rank>)
      ensures r == RankOf(sk, ordering)
    {
      var modIndexes: seq<int> := [];
      var i := 0;
      while i < |sk.modifiers|
        invariant 0 <= i <= |sk.modifiers|
        invariant ModIndexes(sk.modifiers[..i], ordering) == Ok(modIndexes)
      {
        var idx := CharIndex(ordering, sk.modifiers[i]);
        if idx.None? {
          return Err(ValueError);
        }
        assert sk.modifiers[..i + 1][..i] == sk.modifiers[..i];
        modIndexes := modIndexes + [idx.value];
        i := i + 1;
      }
      assert sk.modifiers[..i] == sk.modifiers;
      var actionIndex := 0;
      if sk.action.Some? {
        var idx := CharIndex(ordering, sk.action.value);
        if idx.None? {
          return Err(ValueError);
        }
        actionIndex := idx.value;
      }
      r := Ok(Rank(sk.trueKey, sk.lock, actionIndex, modIndexes));
    }

    /** The first two steps of `_merge`: separate each key, compute its sort
        key, and insert it into the sorted list; then the sort's comparison
        of a locked with an unlocked form of one key. */
    method SeparateAndSort(source: map<string, Value>) returns (r: Result<seq<Entry>>)
      requires pattern.Some?
      ensures r == Prepare(pattern.value, ordering, source)
    {
      var g := pattern.value;
      var keyed := SortKeys(g, source);
      if keyed.Err? {
        return keyed;
      }
      var sorted := keyed.value;
      var mixed := exists i, j :: 0 <= i < |sorted| && 0 <= j < |sorted| &&
                                  sorted[i].sk.trueKey == sorted[j].sk.trueKey && sorted[i].sk.lock != sorted[j].sk.lock;
      MixedLocksOfElements(sorted, Entries(g, ordering, source.Keys));
      if mixed {
        return Err(TypeError);
      }
      SortedUnique(sorted, Arrange(Entries(g, ordering, source.Keys)));
      r := Ok(sorted);
    }

    /** The loop of `_separate` and `_sort_order` over the layer's keys,
        inserting each entry in order. */
    method SortKeys(g: Grammar, source: map<string, Value>) returns (r: Result<seq<Entry>>)
      requires pattern == Some(g)
      ensures r.Err? ==> r.error == ValueError && !Ranked(g, ordering, source.Keys)
      ensures r.Ok? ==> Ranked(g, ordering, source.Keys) && Sorted(r.value) &&
                        forall e :: e in r.value <==> e in Entries(g, ordering, source.Keys)
    {
      var todo := source.Keys;
      ghost var done: set<string> := {};
      var sorted: seq<Entry> := [];
      while todo != {}
        invariant todo + done == source.Keys && todo !! done
        invariant Ranked(g, ordering, done)
        invariant Sorted(sorted)
        invariant forall e :: e in sorted <==> e in Entries(g, ordering, done)
        decreases todo
      {
        var k :| k in todo;
        var next := SortNext(g, source, done, k, sorted);
        if next.Err? {
          return next;
        }
        sorted := next.value;
        todo := todo - {k};
        done := done + {k};
      }
      assert done == source.Keys;
      r := Ok(sorted);
    }

    /** One turn of that loop: the key `k` is separated, ranked and
        inserted. */
    method SortNext(g: Grammar, source: map<string, Value>, ghost done: set<string>, k: string, sorted: seq<Entry>)
      returns (r: Result<seq<Entry>>)
      requires pattern == Some(g) && k in source && k !in done
      requires Ranked(g, ordering, done) && Sorted(sorted)
      requires forall e :: e in sorted <==> e in Entries(g, ordering, done)
      ensures r.Err? ==> r.error == ValueError && !Ranked(g, ordering, source.Keys)
      ensures r.Ok? ==> Ranked(g, ordering, done + {k}) && Sorted(r.value) &&
                        forall e :: e in r.value <==> e in Entries(g, ordering, done + {k})
    {
      var sk := Separate(g, k);
      if sk.Err? {
        return Err(ValueError);
      }
      var rank := SortOrder(sk.value);
      if rank.Err? {
        return Err(ValueError);
      }
      EntriesAdd(g, ordering, done, k);
      InsertEntry(g, ordering, done, k, sorted);
      r := Ok(Insert(Entry(sk.value, rank.value), sorted));
    }

    /** `_merge`: separates and orders the layer's keys, then merges them one
        after the other; an exception stops the loop and leaves the changes
        already made. */
    method MergeInto(source: map<string, Value>, dest: Value, id: Value, path: string, fuel: nat, ghost env: Env)
      returns (r: Value, err: Option<Error>)
      requires Ready() && env == EnvOf(id)
      modifies this`sources, this`pending
      ensures Outcome(r, sources, pending, err) == MergeOutcome(env, fuel, source, dest, path, old(sources), old(pending))
      decreases fuel, 4
    {
      var prepared := SeparateAndSort(source);
      if prepared.Err? {
        MergeOutcomeRefused(env, fuel, source, dest, path, sources, pending);
        return dest, Some(prepared.error);
      }
      MergeOutcomeOfOrder(env, fuel, source, dest, path, sources, pending);
      r, err := MergeSeq(prepared.value, source, dest, id, path, fuel, env);
    }

    /** The loop of `_merge` over the ordered keys. */
    method MergeSeq(order: seq<Entry>, source: map<string, Value>, dest: Value, id: Value, path: string, fuel: nat,
                    ghost env: Env)
      returns (r: Value, err: Option<Error>)
      requires Ready() && env == EnvOf(id) && Fits(env, source, order)
      modifies this`sources, this`pending
      ensures Outcome(r, sources, pending, err) == SeqOutcome(env, fuel, order, source, dest, path, old(sources), old(pending))
      decreases fuel, 3
    {
      ghost var goal := SeqOutcome(env, fuel, order, source, dest, path, sources, pending);
      r := dest;
      err := None;
      var i := 0;
      while i < |order|
        invariant 0 <= i <= |order|
        invariant Fits(env, source, order[i..]) && err == None
        invariant SeqOutcome(env, fuel, order[i..], source, r, path, sources, pending) == goal
      {
        SeqOutcomeStep(env, fuel, order[i..], source, r, path, sources, pending);
        assert order[i..][0] == order[i] && order[i..][1..] == order[i + 1..];
        var next;
        next, err := MergeKey(order[i], source, r, id, path, fuel, env);
        if err.Some? {
          return next, err;
        }
        r := next;
        i := i + 1;
      }
      assert order[i..] == [];
    }

    /** One iteration of `_merge`'s loop, up to the value to place. */
    method MergeKey(e: Entry, source: map<string, Value>, dest: Value, id: Value, path: string, fuel: nat,
                    ghost env: Env)
      returns (r: Value, err: Option<Error>)
      requires Ready() && env == EnvOf(id) && e.sk.key in source && Runnable(env, e.sk)
      modifies this`sources, this`pending
      ensures Outcome(r, sources, pending, err) == KeyOutcome(env, fuel, e, source, dest, path, old(sources), old(pending))
      decreases fuel, 2
    {
      var sk := e.sk;
      var keyPath := JoinPath(path, sk.trueKey, separator);
      if keyPath in locked {
        return dest, Some(ValueError);
      }
      if !dest.VMap? {
        return dest, Some(AttributeError);
      }
      var existing := GetOrNone(dest.entries, sk.trueKey);
      var value := source[sk.key];
      if |sk.modifiers| > 0 {
        var pass := ApplyModifiers(sk, existing, value);
        if !pass {
          return dest, None;
        }
      }
      if sk.action.Some? {
        var applied := CallAction(actions[sk.action.value], existing, value);
        if applied.Err? {
          return dest, Some(applied.error);
        }
        value := applied.value;
      }
      r, err := PlaceValue(sk, keyPath, dest.entries, value, id, fuel, env);
    }

    /** The rest of the iteration: a dictionary value merges into the node
        at the key, any other value is written. */
    method PlaceValue(sk: SepKey, keyPath: string, entries: map<string, Value>, value: Value, id: Value, fuel: nat,
                      ghost env: Env)
      returns (r: Value, err: Option<Error>)
      requires Ready() && env == EnvOf(id)
      modifies this`sources, this`pending
      ensures Outcome(r, sources, pending, err) == Place(env, fuel, sk, keyPath, entries, value, old(sources), old(pending))
      decreases fuel, 1
    {
      if !value.VMap? {
        PlaceLeaf(env, fuel, sk, keyPath, entries, value, sources, pending);
        r := VMap(entries[sk.trueKey := value]);
        FinishKey(sk, keyPath, true, id);
        err := None;
      } else if fuel == 0 {
        PlaceTooDeep(env, sk, keyPath, entries, value, sources, pending);
        var node := if sk.trueKey in entries then entries[sk.trueKey] else VMap(map[]);
        r, err := VMap(entries[sk.trueKey := node]), Some(RecursionError);
      } else {
        r, err := PlaceNode(sk, keyPath, entries, value.entries, id, fuel, env);
      }
    }

    /** A dictionary value: merged into the node at the key, created when
        missing. */
    method PlaceNode(sk: SepKey, keyPath: string, entries: map<string, Value>, layer: map<string, Value>, id: Value,
                     fuel: nat, ghost env: Env)
      returns (r: Value, err: Option<Error>)
      requires Ready() && env == EnvOf(id) && fuel > 0
      modifies this`sources, this`pending
      ensures Outcome(r, sources, pending, err) == Place(env, fuel, sk, keyPath, entries, VMap(layer), old(sources), old(pending))
      decreases fuel, 0
    {
      var node := if sk.trueKey in entries then entries[sk.trueKey] else VMap(map[]);
      var depth := Deeper(fuel);
      ghost var sources0, pending0 := sources, pending;
      var sub;
      sub, err := MergeInto(layer, node, id, keyPath, depth, env);
      ghost var sources1, pending1 := sources, pending;
      r := VMap(entries[sk.trueKey := sub]);
      if err.None? {
        FinishKey(sk, keyPath, sk.action.Some?, id);
      }
      PlaceNested(env, fuel, depth, sk, keyPath, entries, VMap(layer), sources0, pending0, sub, sources1, pending1, err,
                  sources, pending);
    }

    /** The tail of the iteration: a lock becomes pending, and a modified or
        locked key records the merge's identifier. */
    method FinishKey(sk: SepKey, keyPath: string, modified: bool, id: Value)
      modifies this`sources, this`pending
      ensures pending == if sk.lock then old(pending) + {keyPath} else old(pending)
      ensures sources == if modified || sk.lock then Record(old(sources), keyPath, id) else old(sources)
    {
      if sk.lock {
        pending := pending + {keyPath};
      }
      if modified || sk.lock {
        sources := Record(sources, keyPath, id);
      }
    }

    /** `from_dicts`, inherited: a fresh configuration with the dictionaries
        merged in order, paired with `names` by `zip`. */
    static method FromDicts(dicts: seq<map<string, Value>>, names: seq<Value>) returns (c: Configuration, err: Option<Error>)
      ensures fresh(c) && c.Tabs() == DefaultTables('.') && c.Valid()
      ensures var n := Min(|dicts|, |names|);
        (c.Snap(), err) == Replay(DefaultTables('.'), EmptySnapshot(), dicts[..n], names[..n])
    {
      c := new Configuration('.');
      var n := Min(|dicts|, |names|);
      var layers, ids := dicts[..n], names[..n];
      err := None;
      var i := 0;
      while i < n
        invariant 0 <= i <= n
        invariant c.Tabs() == DefaultTables('.') && c.Valid() && err == None
        invariant (c.Snap(), None) == Replay(DefaultTables('.'), EmptySnapshot(), layers[..i], ids[..i])
      {
        err := c.ReplayNext(layers, ids, i);
        if err.Some? {
          ReplayStops(DefaultTables('.'), EmptySnapshot(), layers, ids, i + 1);
          return;
        }
        i := i + 1;
      }
      assert layers[..n] == layers && ids[..n] == ids;
    }

    /** One turn of `from_dicts`' loop: merge the next dictionary. */
    method ReplayNext(layers: seq<map<string, Value>>, ids: seq<Value>, i: nat) returns (err: Option<Error>)
      requires |layers| == |ids| && i < |layers| && Valid()
      requires (Snap(), None) == Replay(Tabs(), EmptySnapshot(), layers[..i], ids[..i])
      modifies this
      ensures Tabs() == old(Tabs()) && Valid()
      ensures (Snap(), err) == Replay(Tabs(), EmptySnapshot(), layers[..i + 1], ids[..i + 1])
    {
      ReplayStep(Tabs(), EmptySnapshot(), layers, ids, i);
      err := Merge(layers[i], ids[i]);
    }
  }

  function Last(s: seq<Value>): Value
    requires |s| > 0
  {
    s[|s| - 1]
  }

  /** `list.insert(i, x)`: a negative index counts from the end, and the
      index is clamped to the list. */
  function ListInsert(s: seq<char>, i: int, x: char): (r: seq<char>)
    ensures |r| == |s| + 1
    ensures var p := Clamp(i, |s|); r[p] == x && r[..p] + r[p + 1..] == s
  {
    var p := Clamp(i, |s|);
    s[..p] + [x] + s[p..]
  }

  function Clamp(i: int, len: nat): (p: nat)
    ensures p <= len
  {
    if i < 0 then (if i + len < 0 then 0 else i + len) else if i > len then len else i
  }

  /** `index_order or len(self._ordering)`: no index, or index 0, appends. */
  function InsertIndex(indexOrder: Option<int>, len: nat): (i: int)
    ensures indexOrder.None? || indexOrder == Some(0) ==> i == len
    ensures indexOrder.Some? && indexOrder.value != 0 ==> i == indexOrder.value
  {
    if indexOrder.None? || indexOrder.value == 0 then len else indexOrder.value
  }

  /** Registering at the default position leaves the sort key of every
      symbol already in the ordering as it was, and gives the new symbol an
      index. */
  lemma AppendKeepsRanks(ordering: seq<char>, x: char, c: char)
    ensures ListInsert(ordering, InsertIndex(None, |ordering|), x) == ordering + [x]
    ensures c in ordering ==> CharIndex(ordering + [x], c) == CharIndex(ordering, c)
    ensures CharIndex(ordering + [x], x).Some?
  {
    assert (ordering + [x])[|ordering|] == x;
    if c in ordering {
      var i := CharIndex(ordering, c).value;
      var j := CharIndex(ordering + [x], c);
      assert (ordering + [x])[i] == c;
      assert j.Some?;
      assert forall k :: 0 <= k <= i ==> (ordering + [x])[k] == ordering[k];
    }
  }

  lemma InsertElements(x: Entry, s: seq<Entry>)
    ensures forall e :: e in Insert(x, s) <==> e == x || e in s
  {
    forall e
      ensures e in Insert(x, s) <==> e == x || e in s
    {
      assert e in Insert(x, s) <==> e in multiset(Insert(x, s));
      assert e in s <==> e in multiset(s);
    }
  }

  lemma MixedLocksOfElements(s: seq<Entry>, t: set<Entry>)
    requires forall e :: e in s <==> e in t
    ensures MixedLocks(t) <==> exists i, j :: 0 <= i < |s| && 0 <= j < |s| &&
                                              s[i].sk.trueKey == s[j].sk.trueKey && s[i].sk.lock != s[j].sk.lock
  {
    if MixedLocks(t) {
      var x, y :| x in t && y in t && x.sk.trueKey == y.sk.trueKey && x.sk.lock != y.sk.lock;
      var i :| 0 <= i < |s| && s[i] == x;
      var j :| 0 <= j < |s| && s[j] == y;
    }
    if exists i, j :: 0 <= i < |s| && 0 <= j < |s| && s[i].sk.trueKey == s[j].sk.trueKey && s[i].sk.lock != s[j].sk.lock {
      var i, j :| 0 <= i < |s| && 0 <= j < |s| && s[i].sk.trueKey == s[j].sk.trueKey && s[i].sk.lock != s[j].sk.lock;
      assert s[i] in t && s[j] in t;
    }
  }

  lemma {:induction false} ReplayStops(t: Tables, s: Snapshot, layers: seq<map<string, Value>>, names: seq<Value>, i: nat)
    requires |layers| == |names| && i <= |layers|
    requires Replay(t, s, layers[..i], names[..i]).1.Some?
    ensures Replay(t, s, layers, names) == Replay(t, s, layers[..i], names[..i])
    decreases |layers|
  {
    if i < |layers| {
      var shorter := layers[..|layers| - 1];
      var shorterNames := names[..|names| - 1];
      assert shorter[..i] == layers[..i] && shorterNames[..i] == names[..i];
      ReplayStops(t, s, shorter, shorterNames, i);
      assert Replay(t, s, shorter, shorterNames).1.Some?;
    } else {
      assert layers[..i] == layers && names[..i] == names;
    }
  }

  lemma {:induction false} ReplayStep(t: Tables, s: Snapshot, layers: seq<map<string, Value>>, names: seq<Value>, i: nat)
    requires |layers| == |names| && i < |layers|
    ensures var before := Replay(t, s, layers[..i], names[..i]);
      Replay(t, s, layers[..i + 1], names[..i + 1]) ==
      if before.1.Some? then before else MergeStep(t, before.0, layers[i], names[i])
  {
    assert layers[..i + 1][..i] == layers[..i] && names[..i + 1][..i] == names[..i];
  }

  /** What `merge` leaves once `_merge` has produced outcome `o`. */
  lemma MergeCommit(t: Tables, s: Snapshot, layer: map<string, Value>, name: Value,
                    r: Value, sources: map<string, seq<Value>>, pending: set<string>, err: Option<Error>)
    requires Outcome(r, sources, pending, err) ==
             MergeOutcome(Env(GrammarOf(t), t.actions, t.modifiers, t.ordering, s.locked, t.sep, Identifier(name, s.count)),
                          RecursionLimit, layer, VMap(s.data), "", s.sources, s.pending)
    ensures r.VMap?
    ensures err.Some? ==> MergeStep(t, s, layer, name) == (Snapshot(r.entries, s.count, sources, s.locked, pending), err)
    ensures err.None? ==> MergeStep(t, s, layer, name) == (Snapshot(r.entries, s.count + 1, sources, s.locked + pending, {}), None)
    ensures ValidSources(s.sources) ==> ValidSources(sources)
  {
    var env := Env(GrammarOf(t), t.actions, t.modifiers, t.ordering, s.locked, t.sep, Identifier(name, s.count));
    MergeOutcomeEffect(env, RecursionLimit, layer, VMap(s.data), "", s.sources, s.pending);
    GrowsValid(s.sources, sources, env.id);
  }

  /** A merge that completes locks every top-level key of the layer that
      carries the lock symbol and no modifier: its true key is among the
      locks afterwards. */
  lemma MergeStepLocksKeys(t: Tables, s: Snapshot, layer: map<string, Value>, name: Value, key: string)
    requires MergeStep(t, s, layer, name).1.None? && key in layer
    requires Separate(GrammarOf(t), key).Ok? && Separate(GrammarOf(t), key).value.lock
    requires Separate(GrammarOf(t), key).value.modifiers == ""
    ensures Separate(GrammarOf(t), key).value.trueKey in MergeStep(t, s, layer, name).0.locked
  {
    var env := Env(GrammarOf(t), t.actions, t.modifiers, t.ordering, s.locked, t.sep, Identifier(name, s.count));
    var o := MergeOutcome(env, RecursionLimit, layer, VMap(s.data), "", s.sources, s.pending);
    MergeCommit(t, s, layer, name, o.dest, o.sources, o.pending, o.err);
    var prep := Prepare(env.grammar, env.ordering, layer);
    assert prep.Ok?;
    MergeOutcomeOfOrder(env, RecursionLimit, layer, VMap(s.data), "", s.sources, s.pending);
    PrepareSpec(env.grammar, env.ordering, layer);
    var e := EntryOf(env.grammar, env.ordering, key);
    assert e in prep.value;
    var i :| 0 <= i < |prep.value| && prep.value[i] == e;
    CompletedSeqStagesLocks(env, RecursionLimit, prep.value, layer, VMap(s.data), "", s.sources, s.pending, i);
  }

  lemma GrowsValid(before: map<string, seq<Value>>, after: map<string, seq<Value>>, id: Value)
    requires Grows(before, after, id)
    ensures ValidSources(before) ==> ValidSources(after)
  {
  }

  /** One step of the insertion loop: the new key's entry joins the sorted
      list and the set of entries of the keys seen. */
  lemma InsertEntry(g: Grammar, ordering: seq<char>, done: set<string>, k: string, sorted: seq<Entry>)
    requires Ranked(g, ordering, done) && k !in done
    requires Separate(g, k).Ok? && RankOf(Separate(g, k).value, ordering).Ok?
    requires Sorted(sorted) && forall e :: e in sorted <==> e in Entries(g, ordering, done)
    ensures Sorted(Insert(EntryOf(g, ordering, k), sorted))
    ensures forall e :: e in Insert(EntryOf(g, ordering, k), sorted) <==> e in Entries(g, ordering, done + {k})
  {
    var x := EntryOf(g, ordering, k);
    forall i | 0 <= i < |sorted|
      ensures sorted[i].sk.key != x.sk.key
    {
      assert sorted[i] in Entries(g, ordering, done);
    }
    InsertSorted(x, sorted);
    InsertElements(x, sorted);
    EntriesAdd(g, ordering, done, k);
  }

  lemma EntriesAdd(g: Grammar, ordering: seq<char>, done: set<string>, k: string)
    requires Ranked(g, ordering, done)
    requires Separate(g, k).Ok? && RankOf(Separate(g, k).value, ordering).Ok?
    ensures Ranked(g, ordering, done + {k})
    ensures Entries(g, ordering, done + {k}) == Entries(g, ordering, done) + {EntryOf(g, ordering, k)}
  {
  }

  /** One turn of `_merge`'s loop. */
  lemma SeqOutcomeStep(env: Env, fuel: nat, order: seq<Entry>, source: map<string, Value>, dest: Value,
                       path: string, sources: map<string, seq<Value>>, pending: set<string>)
    requires Compiled(env) && Fits(env, source, order) && |order| > 0
    ensures order[0].sk.key in source && Runnable(env, order[0].sk)
    ensures Fits(env, source, order[1..])
    ensures var o := KeyOutcome(env, fuel, order[0], source, dest, path, sources, pending);
      SeqOutcome(env, fuel, order, source, dest, path, sources, pending) ==
      if o.err.Some? then o else SeqOutcome(env, fuel, order[1..], source, o.dest, path, o.sources, o.pending)
  {
    forall i | 0 <= i < |order[1..]|
      ensures order[1..][i].sk.key in source && Runnable(env, order[1..][i].sk)
    {
      assert order[1..][i] == order[i + 1];
    }
  }

  lemma MergeOutcomeRefused(env: Env, fuel: nat, source: map<string, Value>, dest: Value, path: string,
                            sources: map<string, seq<Value>>, pending: set<string>)
    requires Compiled(env) && Prepare(env.grammar, env.ordering, source).Err?
    ensures MergeOutcome(env, fuel, source, dest, path, sources, pending) ==
            Outcome(dest, sources, pending, Some(Prepare(env.grammar, env.ordering, source).error))
  {
  }

  lemma PlaceLeaf(env: Env, fuel: nat, sk: SepKey, kp: string, entries: map<string, Value>, v: Value,
                  sources: map<string, seq<Value>>, pending: set<string>)
    requires Compiled(env) && !v.VMap?
    ensures Place(env, fuel, sk, kp, entries, v, sources, pending) ==
            Finish(env, sk, kp, VMap(entries[sk.trueKey := v]), sources, pending, true)
  {
  }

  lemma PlaceTooDeep(env: Env, sk: SepKey, kp: string, entries: map<string, Value>, v: Value,
                     sources: map<string, seq<Value>>, pending: set<string>)
    requires Compiled(env) && v.VMap?
    ensures var node := if sk.trueKey in entries then entries[sk.trueKey] else VMap(map[]);
      Place(env, 0, sk, kp, entries, v, sources, pending) ==
      Outcome(VMap(entries[sk.trueKey := node]), sources, pending, Some(RecursionError))
  {
  }

  /** `Place` for a dictionary value below the depth limit, from the
      outcome of the nested merge and the finishing step. */
  lemma PlaceNested(env: Env, fuel: nat, depth: nat, sk: SepKey, kp: string, entries: map<string, Value>, v: Value,
                    sources0: map<string, seq<Value>>, pending0: set<string>,
                    sub: Value, sources1: map<string, seq<Value>>, pending1: set<string>, err: Option<Error>,
                    sources2: map<string, seq<Value>>, pending2: set<string>)
    requires Compiled(env) && v.VMap? && fuel > 0 && depth == Deeper(fuel)
    requires Outcome(sub, sources1, pending1, err) ==
             MergeOutcome(env, depth, v.entries, if sk.trueKey in entries then entries[sk.trueKey] else VMap(map[]),
                          kp, sources0, pending0)
    requires err.Some? ==> sources2 == sources1 && pending2 == pending1
    requires err.None? ==> pending2 == (if sk.lock then pending1 + {kp} else pending1)
    requires err.None? ==> sources2 == (if sk.action.Some? || sk.lock then Record(sources1, kp, env.id) else sources1)
    ensures Outcome(VMap(entries[sk.trueKey := sub]), sources2, pending2, err) ==
            Place(env, fuel, sk, kp, entries, v, sources0, pending0)
  {
  }
}
