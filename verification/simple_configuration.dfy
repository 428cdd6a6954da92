/** The simple `Configuration` (python/configuration/simple_configuration.py):
    the base tree and override merge, with the merge order kept as a list,
    provenance purged below a dictionary that a leaf replaces, and a
    `source` query that falls back to every path below a non-leaf key. */
module Simple {
  import opened Values
  import opened Paths
  import opened Tree

  /** `p` lies (as a string) below one of the paths in `rs`. */
  predicate Purged(p: string, rs: set<string>)
  {
    exists r :: r in rs && StartsWith(p, r)
  }

  /** `p` lies below one of the paths in `rs` other than itself. */
  predicate PurgedBelow(p: string, rs: set<string>)
  {
    exists r :: r in rs && r != p && StartsWith(p, r)
  }

  /** How one merge changes the provenance map, whatever order the layer's
      keys are visited in. `written` are the leaf paths the merge writes,
      `replaced` those where a leaf replaces a dictionary, whose purge removes
      every recorded path starting with that string.
      - every entry afterwards is either written by this merge, or an older
        entry that no purge reached, with its old identifier;
      - every older entry that is neither rewritten nor purged survives;
      - every written path survives unless it extends, as a string, a
        replaced path other than itself (then a later purge may take it). */
  predicate SourcesUpdate(before: map<string, Value>, after: map<string, Value>,
                          written: set<string>, replaced: set<string>, id: Value)
  {
    (forall p :: p in after ==>
       if p in written then after[p] == id
       else p in before && !Purged(p, replaced) && after[p] == before[p]) &&
    (forall p :: p in before && p !in written && !Purged(p, replaced) ==> p in after) &&
    (forall p :: p in written && !PurgedBelow(p, replaced) ==> p in after)
  }

  /** The provenance after a merge when no written path extends another
      replaced path: fully determined by the old map and the layer. */
  function Expected(before: map<string, Value>, written: set<string>, replaced: set<string>, id: Value)
    : (r: map<string, Value>)
    ensures r.Keys == (set p | p in before && p !in written && !Purged(p, replaced)) + written
  {
    (map p | p in before && p !in written && !Purged(p, replaced) :: before[p]) + (map p | p in written :: id)
  }

  /** When no written path is at the mercy of another key's purge, the
      update is the old map minus everything purged or rewritten, plus
      `id` on every written path: the iteration order does not matter. */
  lemma SourcesUpdateDetermined(before: map<string, Value>, after: map<string, Value>,
                                written: set<string>, replaced: set<string>, id: Value)
    requires SourcesUpdate(before, after, written, replaced, id)
    requires forall p :: p in written ==> !PurgedBelow(p, replaced)
    ensures after == Expected(before, written, replaced, id)
  {
    var e := Expected(before, written, replaced, id);
    forall p | p in e
      ensures p in after
    {
      if p !in written {
        assert p in before && !Purged(p, replaced);
      }
    }
  }

  /** Visiting nothing changes nothing. */
  lemma SourcesUpdateNothing(s: map<string, Value>, id: Value)
    ensures SourcesUpdate(s, s, {}, {}, id)
  {
  }

  /** Two updates by the same merge compose: this is what lets the loop
      over a layer's keys be specified key by key. The second step's
      replaced paths must be among its written ones (`ReplacedAreLeaves`). */
  lemma SourcesUpdateCompose(s0: map<string, Value>, s1: map<string, Value>, s2: map<string, Value>,
                             w1: set<string>, r1: set<string>, w2: set<string>, r2: set<string>, id: Value)
    requires SourcesUpdate(s0, s1, w1, r1, id)
    requires SourcesUpdate(s1, s2, w2, r2, id)
    requires r2 <= w2
    ensures SourcesUpdate(s0, s2, w1 + w2, r1 + r2, id)
  {
    forall p
      ensures Purged(p, r1 + r2) <==> Purged(p, r1) || Purged(p, r2)
      ensures PurgedBelow(p, r1 + r2) <==> PurgedBelow(p, r1) || PurgedBelow(p, r2)
      ensures Purged(p, r2) && !PurgedBelow(p, r2) ==> p in r2
    {
      PurgedUnion(p, r1, r2);
    }
  }

  /** Purging by a union of paths is purging by either part. */
  lemma PurgedUnion(p: string, a: set<string>, b: set<string>)
    ensures Purged(p, a + b) <==> Purged(p, a) || Purged(p, b)
    ensures PurgedBelow(p, a + b) <==> PurgedBelow(p, a) || PurgedBelow(p, b)
    ensures Purged(p, b) && !PurgedBelow(p, b) ==> p in b
  {
    if Purged(p, a + b) {
      var r :| r in a + b && StartsWith(p, r);
      assert r in a ==> Purged(p, a);
      assert r in b ==> Purged(p, b);
    }
    if PurgedBelow(p, a + b) {
      var r :| r in a + b && r != p && StartsWith(p, r);
      assert r in a ==> PurgedBelow(p, a);
      assert r in b ==> PurgedBelow(p, b);
    }
    if Purged(p, a) {
      var r :| r in a && StartsWith(p, r);
      assert r in a + b;
    }
    if Purged(p, b) {
      var r :| r in b && StartsWith(p, r);
      assert r in a + b;
      assert r != p ==> PurgedBelow(p, b);
    }
    if PurgedBelow(p, a) {
      var r :| r in a && r != p && StartsWith(p, r);
      assert r in a + b;
    }
    if PurgedBelow(p, b) {
      var r :| r in b && r != p && StartsWith(p, r);
      assert r in a + b;
    }
  }

  /** `_merge`'s loop before its first turn: nothing merged, nothing
      recorded. */
  lemma MergeStart(dest: map<string, Value>, source: map<string, Value>, path: string, sep: char,
                   s: map<string, Value>, id: Value)
    requires Compatible(dest, source)
    ensures MergedUpTo(dest, source, {}, dest)
    ensures SourcesUpdate(s, s, LeafPaths(Restrict(source, {}), path, sep), Replaced(dest, Restrict(source, {}), path, sep), id)
  {
    assert Restrict(source, {}) == map[];
    EmptyWritesNothing(dest, source, path, sep);
    SourcesUpdateNothing(s, id);
  }

  /** `_merge`'s loop after its last turn: every key merged. */
  lemma MergeEnd(dest: map<string, Value>, source: map<string, Value>, path: string, sep: char,
                 s0: map<string, Value>, s1: map<string, Value>, id: Value, r: map<string, Value>, done: set<string>)
    requires Compatible(dest, source) && done == source.Keys && MergedUpTo(dest, source, done, r)
    requires SourcesUpdate(s0, s1, LeafPaths(Restrict(source, done), path, sep),
                           Replaced(dest, Restrict(source, done), path, sep), id)
    ensures r == MergeTree(dest, source)
    ensures SourcesUpdate(s0, s1, LeafPaths(source, path, sep), Replaced(dest, source, path, sep), id)
  {
    assert Restrict(source, done) == source;
    MergedAll(dest, source, r);
  }

  /** The provenance of `_merge`'s loop after one more key: the update
      made so far composed with the update of that key. */
  lemma SourcesUpdateAdd(s0: map<string, Value>, s1: map<string, Value>, s2: map<string, Value>,
                         dest: map<string, Value>, source: map<string, Value>, done: set<string>, key: string,
                         path: string, sep: char, id: Value)
    requires key in source
    requires SourcesUpdate(s0, s1, LeafPaths(Restrict(source, done), path, sep),
                           Replaced(dest, Restrict(source, done), path, sep), id)
    requires SourcesUpdate(s1, s2, KeyLeaves(source, key, path, sep), KeyReplaced(dest, source, key, path, sep), id)
    ensures SourcesUpdate(s0, s2, LeafPaths(Restrict(source, done + {key}), path, sep),
                          Replaced(dest, Restrict(source, done + {key}), path, sep), id)
  {
    LeafPathsRestrictAdd(source, done, key, path, sep);
    ReplacedRestrictAdd(dest, source, done, key, path, sep);
    KeyReplacedAreLeaves(dest, source, key, path, sep);
    SourcesUpdateCompose(s0, s1, s2,
                         LeafPaths(Restrict(source, done), path, sep),
                         Replaced(dest, Restrict(source, done), path, sep),
                         KeyLeaves(source, key, path, sep),
                         KeyReplaced(dest, source, key, path, sep), id);
  }

  /** What `source` answers: the identifier of a leaf path, or the list of
      identifiers of every recorded path starting with the key. */
  datatype Answer = One(id: Value) | Many(ids: seq<Value>)

  class Configuration {
    /** `_data`: the configuration tree. */
    var data: map<string, Value>
    /** `_merge_order`: identifiers in the order they were merged. */
    var mergeOrder: seq<Value>
    /** `_separator`. */
    const separator: char
    /** `_sources`: leaf key path to the identifier of the merge that wrote it. */
    var sources: map<string, Value>

    /** Every recorded identifier belongs to a merge that happened, so the
        grouping in `sources()` has a list ready for it. */
    predicate Valid()
      reads this
    {
      forall p :: p in sources ==> sources[p] in mergeOrder
    }

    /** `merge_count`. */
    function MergeCount(): (n: nat)
      reads this
      ensures n == |MergeOrder()|
    {
      |mergeOrder|
    }

    /** `merge_order`, a copy of the list (a value here). */
    function MergeOrder(): (r: seq<Value>)
      reads this
      ensures r == mergeOrder
    {
      mergeOrder
    }

    /** `__init__`: empty, then the seed data (when truthy) merged in. */
    constructor (seed: map<string, Value>, name: Value, separator: char)
      ensures this.separator == separator && Valid()
      ensures seed == map[] ==> data == map[] && sources == map[] && mergeOrder == []
      ensures seed != map[] ==> data == MergeTree(map[], seed) && mergeOrder == [Identifier(name, 0)] &&
                                sources == LeafSources(seed, "", separator, Identifier(name, 0))
    {
      data := map[];
      mergeOrder := [];
      this.separator := separator;
      sources := map[];
      new;
      if seed != map[] {
        Merge(seed, name);
        EmptyWritesNothing(map[], seed, "", separator);
        SourcesUpdateDetermined(map[], sources, LeafPaths(seed, "", separator), {}, Identifier(name, 0));
      }
    }

    /** `get`: the value at the nested key; KeyError or TypeError when the
        path does not resolve. */
    method Get(key: string) returns (r: Result<Value>)
      ensures r == Descend(VMap(data), Split(key, separator))
    {
      r := Tree.Get(data, Split(key, separator));
    }

    /** `set`: writes one slot in the dictionary reached by walking the key's
        leading segments; provenance and merge order are left alone. */
    method Set(key: string, value: Value) returns (err: Option<Error>)
      modifies this`data
      ensures var parts := Split(key, separator);
        match SetAt(VMap(old(data)), parts, value)
        case Ok(t) => err == None && data == t.entries
        case Err(e) => err == Some(e) && data == old(data)
    {
      var parts := Split(key, separator);
      var container := Walk(data, parts);
      SetAtFailsLikeWalk(VMap(data), parts, value);
      if container.Err? {
        return Some(container.error);
      }
      if !container.value.VMap? {
        return Some(TypeError);
      }
      data := SetAt(VMap(data), parts, value).value.entries;
      err := None;
    }

    /** `merge`: identifier `name or len(_merge_order)`, the recursive
        override, then the identifier appended to the merge order. */
    method Merge(layer: map<string, Value>, name: Value)
      requires Compatible(data, layer)
      modifies this
      ensures data == MergeTree(old(data), layer)
      ensures mergeOrder == old(mergeOrder) + [Identifier(name, |old(mergeOrder)|)]
      ensures MergeCount() == old(MergeCount()) + 1
      ensures SourcesUpdate(old(sources), sources, LeafPaths(layer, "", separator),
                            Replaced(old(data), layer, "", separator), Identifier(name, |old(mergeOrder)|))
      ensures old(Valid()) ==> Valid()
    {
      var id := Identifier(name, |mergeOrder|);
      data := MergeInto(layer, data, id, "");
      mergeOrder := mergeOrder + [id];
    }

    /** `_merge`: the override of `Tree.MergeTree`, writing `dest[key]`, with
        provenance changed as `SourcesUpdate` says. */
    method MergeInto(source: map<string, Value>, dest: map<string, Value>, id: Value, path: string)
      returns (r: map<string, Value>)
      requires Compatible(dest, source)
      modifies this`sources
      ensures r == MergeTree(dest, source)
      ensures SourcesUpdate(old(sources), sources, LeafPaths(source, path, separator),
                            Replaced(dest, source, path, separator), id)
      decreases VMap(source), 2
    {
      r := dest;
      var todo := source.Keys;
      ghost var done: set<string> := {};
      MergeStart(dest, source, path, separator, sources, id);
      while todo != {}
        invariant todo + done == source.Keys && todo !! done
        invariant MergedUpTo(dest, source, done, r)
        invariant SourcesUpdate(old(sources), sources, LeafPaths(Restrict(source, done), path, separator),
                                Replaced(dest, Restrict(source, done), path, separator), id)
        decreases todo
      {
        var key :| key in todo;
        r := MergeNext(source, dest, id, path, done, key, r, old(sources));
        todo := todo - {key};
        done := done + {key};
      }
      MergeEnd(dest, source, path, separator, old(sources), sources, id, r, done);
    }

    /** The body of `_merge`'s loop: the keys in `done` are merged, `key` is
        next. */
    method MergeNext(source: map<string, Value>, dest: map<string, Value>, id: Value, path: string,
                     ghost done: set<string>, key: string, r: map<string, Value>, ghost start: map<string, Value>)
      returns (r': map<string, Value>)
      requires key in source && key !in done && done <= source.Keys && Compatible(dest, source)
      requires MergedUpTo(dest, source, done, r)
      requires SourcesUpdate(start, sources, LeafPaths(Restrict(source, done), path, separator),
                             Replaced(dest, Restrict(source, done), path, separator), id)
      modifies this`sources
      ensures MergedUpTo(dest, source, done + {key}, r')
      ensures SourcesUpdate(start, sources, LeafPaths(Restrict(source, done + {key}), path, separator),
                            Replaced(dest, Restrict(source, done + {key}), path, separator), id)
      decreases VMap(source), 1
    {
      MergedStep(dest, source, done, r, key);
      ghost var before := sources;
      r' := MergeKey(source, dest, key, id, path, r);
      SourcesUpdateAdd(start, before, sources, dest, source, done, key, path, separator, id);
    }

    /** One iteration of `_merge`'s loop. A leaf that replaces a dictionary
        first purges every recorded path starting with its own path. */
    method MergeKey(source: map<string, Value>, dest: map<string, Value>, key: string, id: Value, path: string,
                    r: map<string, Value>) returns (r': map<string, Value>)
      requires key in source && Compatible(dest, source)
      requires key in r <==> key in dest
      requires key in r ==> r[key] == dest[key]
      modifies this`sources
      ensures r' == r[key := MergeEntry(dest, source, key)]
      ensures SourcesUpdate(old(sources), sources, KeyLeaves(source, key, path, separator),
                            KeyReplaced(dest, source, key, path, separator), id)
      decreases VMap(source), 0
    {
      var keyPath := JoinPath(path, key, separator);
      match source[key] {
        case VMap(sub) =>
          var node := if key in r then r[key] else VMap(map[]);
          if node.VMap? {
            assert key in dest ==> KeyCompatible(dest, source, key);
            EmptyWritesNothing(map[], sub, keyPath, separator);
            var merged := MergeInto(sub, node.entries, id, keyPath);
            r' := r[key := VMap(merged)];
          } else {
            assert KeyCompatible(dest, source, key);
            EmptyWritesNothing(map[], sub, keyPath, separator);
            SourcesUpdateNothing(sources, id);
            r' := r;
          }
        case _ =>
          r' := WriteLeaf(source, dest, key, id, path, r);
      }
    }

    /** The leaf branch of that iteration: the value is written and its
        path recorded, after purging the paths of a dictionary it replaces. */
    method WriteLeaf(source: map<string, Value>, dest: map<string, Value>, key: string, id: Value, path: string,
                     r: map<string, Value>) returns (r': map<string, Value>)
      requires key in source && !source[key].VMap? && Compatible(dest, source)
      requires key in r <==> key in dest
      requires key in r ==> r[key] == dest[key]
      modifies this`sources
      ensures r' == r[key := MergeEntry(dest, source, key)]
      ensures SourcesUpdate(old(sources), sources, KeyLeaves(source, key, path, separator),
                            KeyReplaced(dest, source, key, path, separator), id)
    {
      var keyPath := JoinPath(path, key, separator);
      if key in r && r[key].VMap? {
        Purge(keyPath);
      }
      r' := r[key := source[key]];
      sources := sources[keyPath := id];
      forall p | p in old(sources) && p != keyPath && Purged(p, KeyReplaced(dest, source, key, path, separator))
        ensures p !in sources
      {
      }
    }

    /** The purge of `_merge`: every recorded path that starts with `prefix`
        is popped, one at a time. */
    method Purge(prefix: string)
      modifies this`sources
      ensures sources == map p | p in old(sources) && !StartsWith(p, prefix) :: old(sources)[p]
    {
      var removed := set p | p in sources && StartsWith(p, prefix);
      ghost var before := sources;
      var todo := removed;
      while todo != {}
        invariant todo <= removed
        invariant sources == map p | p in before && (p !in removed || p in todo) :: before[p]
        decreases todo
      {
        var p :| p in todo;
        sources := sources - {p};
        todo := todo - {p};
      }
    }

    /** `source`: the identifier of a recorded leaf path; for any other key,
        the identifiers of the recorded paths that start with it, one per
        path (listed along `paths`, which holds each such path once). */
    method Source(key: string) returns (r: Answer, ghost paths: seq<string>)
      ensures key in sources ==> r == One(sources[key])
      ensures key !in sources ==>
                r.Many? && |r.ids| == |paths| &&
                (forall i :: 0 <= i < |paths| ==> paths[i] in sources && r.ids[i] == sources[paths[i]])
      ensures key !in sources ==>
                NoDuplicates(paths) && (forall p :: p in paths <==> p in sources && StartsWith(p, key))
    {
      paths := [];
      if key in sources {
        return One(sources[key]), paths;
      }
      var ids: seq<Value> := [];
      var todo := sources.Keys;
      while todo != {}
        invariant todo <= sources.Keys
        invariant |ids| == |paths|
        invariant forall i :: 0 <= i < |paths| ==> paths[i] in sources && ids[i] == sources[paths[i]]
        invariant NoDuplicates(paths)
        invariant forall p :: p in paths <==> p in sources && p !in todo && StartsWith(p, key)
        decreases todo
      {
        var p :| p in todo;
        if StartsWith(p, key) {
          ids := ids + [sources[p]];
          paths := paths + [p];
        }
        todo := todo - {p};
      }
      r := Many(ids);
    }

    /** `sources`: a list for every identifier in the merge order (even one
        that no longer owns a path), each holding exactly the paths recorded
        for it, once each. */
    method Sources() returns (r: map<Value, seq<string>>)
      requires Valid()
      ensures r.Keys == set id | id in mergeOrder
      ensures forall id, p :: id in r ==> (p in r[id] <==> p in sources && sources[p] == id)
      ensures forall id :: id in r ==> NoDuplicates(r[id])
    {
      r := map id | id in mergeOrder :: [];
      var todo := sources.Keys;
      ghost var done: set<string> := {};
      while todo != {}
        invariant todo + done == sources.Keys && todo !! done
        invariant r.Keys == set id | id in mergeOrder
        invariant forall id, p :: id in r ==> (p in r[id] <==> p in done && sources[p] == id)
        invariant forall id :: id in r ==> NoDuplicates(r[id])
        decreases todo
      {
        var p :| p in todo;
        var id := sources[p];
        ghost var prev := r;
        r := r[id := r[id] + [p]];
        forall i, q | i in r
          ensures q in r[i] <==> q in done + {p} && sources[q] == i
        {
          if i != id {
            assert r[i] == prev[i];
          }
        }
        todo := todo - {p};
        done := done + {p};
      }
    }

    /** `from_dicts`: a fresh configuration with the dictionaries merged in
        order, paired with `names` by `zip_longest`: a dictionary without a
        name gets its ordinal, and a name without a dictionary makes the
        next merge fail with AttributeError (`None.items()`), after every
        dictionary has been merged. */
    static method FromDicts(dicts: seq<map<string, Value>>, names: seq<Value>)
      returns (c: Configuration, err: Option<Error>, ghost steps: seq<map<string, Value>>)
      requires ChainCompatible(map[], dicts)
      ensures fresh(c) && c.separator == '.' && c.Valid()
      ensures err == (if |names| > |dicts| then Some(AttributeError) else None)
      ensures c.data == MergeAll(map[], dicts)
      ensures c.MergeCount() == |dicts|
      ensures forall i :: 0 <= i < |dicts| ==>
        c.mergeOrder[i] == Identifier(if i < |names| then names[i] else VNone, i)
      ensures ProvenanceChain(dicts, steps, c.mergeOrder)
      ensures |steps| == |dicts| + 1 && steps[0] == map[] && steps[|dicts|] == c.sources
    {
      c := new Configuration(map[], VNone, '.');
      steps := [c.sources];
      var i := 0;
      while i < |dicts|
        invariant 0 <= i <= |dicts|
        invariant c.separator == '.' && c.Valid() && |c.mergeOrder| == i
        invariant ChainCompatible(map[], dicts[..i])
        invariant c.data == MergeAll(map[], dicts[..i])
        invariant forall j :: 0 <= j < i ==>
          c.mergeOrder[j] == Identifier(if j < |names| then names[j] else VNone, j)
        invariant ProvenanceChain(dicts, steps, c.mergeOrder)
        invariant steps[0] == map[] && steps[i] == c.sources
        modifies c
      {
        MergeAllSnoc(map[], dicts, i);
        ghost var ids := c.mergeOrder;
        c.Merge(dicts[i], if i < |names| then names[i] else VNone);
        ProvenanceChainSnoc(dicts, steps, ids, c.sources, c.mergeOrder[i]);
        steps := steps + [c.sources];
        i := i + 1;
      }
      assert dicts[..i] == dicts;
      err := if |names| > |dicts| then Some(AttributeError) else None;
    }
  }


  /** The provenance after each of the first `|ids|` merges of `from_dicts`:
      `steps[j + 1]` is `steps[j]` updated by the leaves and purges of
      dictionary `j` over the tree the earlier dictionaries built. */
  ghost predicate ProvenanceChain(dicts: seq<map<string, Value>>, steps: seq<map<string, Value>>, ids: seq<Value>)
  {
    |steps| == |ids| + 1 && |ids| <= |dicts| &&
    forall j :: 0 <= j < |ids| ==>
      ChainCompatible(map[], dicts[..j]) &&
      SourcesUpdate(steps[j], steps[j + 1], LeafPaths(dicts[j], "", '.'),
                    Replaced(MergeAll(map[], dicts[..j]), dicts[j], "", '.'), ids[j])
  }

  /** One more merge extends the chain by one step. */
  lemma ProvenanceChainSnoc(dicts: seq<map<string, Value>>, steps: seq<map<string, Value>>, ids: seq<Value>,
                            next: map<string, Value>, id: Value)
    requires ProvenanceChain(dicts, steps, ids) && |ids| < |dicts|
    requires ChainCompatible(map[], dicts[..|ids|])
    requires SourcesUpdate(steps[|ids|], next, LeafPaths(dicts[|ids|], "", '.'),
                           Replaced(MergeAll(map[], dicts[..|ids|]), dicts[|ids|], "", '.'), id)
    ensures ProvenanceChain(dicts, steps + [next], ids + [id])
  {
    var steps', ids' := steps + [next], ids + [id];
    forall j | 0 <= j < |ids'|
      ensures ChainCompatible(map[], dicts[..j]) &&
              SourcesUpdate(steps'[j], steps'[j + 1], LeafPaths(dicts[j], "", '.'),
                            Replaced(MergeAll(map[], dicts[..j]), dicts[j], "", '.'), ids'[j])
    {
      assert steps'[j] == steps[j] && ids'[j] == (if j < |ids| then ids[j] else id);
    }
  }

  /** The leaf write of `_merge` as written: the purge loop rebinds `key`, so
      when something was purged the value is stored under the last purged
      path (the end of `purgeOrder`, the order the loop visited `removed`
      in) instead of under `key`. */
  function LeafWriteAsWritten(dest: map<string, Value>, key: string, value: Value, purgeOrder: seq<string>)
    : (r: map<string, Value>)
    ensures var slot := if key in dest && dest[key].VMap? && purgeOrder != [] then purgeOrder[|purgeOrder| - 1] else key;
      r.Keys == dest.Keys + {slot} && r[slot] == value && forall p :: p in dest && p != slot ==> r[p] == dest[p]
  {
    if key in dest && dest[key].VMap? && purgeOrder != [] then dest[purgeOrder[|purgeOrder| - 1] := value]
    else dest[key := value]
  }

  /** As written, a leaf that replaces a dictionary with recorded leaves
      never reaches `dest[key]`: the dictionary stays in place. */
  lemma AsWrittenKeepsReplacedDict(dest: map<string, Value>, key: string, value: Value, purgeOrder: seq<string>)
    requires key in dest && dest[key].VMap? && !value.VMap? && purgeOrder != []
    requires purgeOrder[|purgeOrder| - 1] != key
    ensures key in LeafWriteAsWritten(dest, key, value, purgeOrder)
    ensures LeafWriteAsWritten(dest, key, value, purgeOrder)[key] == dest[key] != value
  {
  }

  /** The concrete case: `{"a": {"x": 1}}` merged with `{"a": 2}`. The only
      purged path is "a.x", so as written `get("a")` still returns the old
      dictionary and a key named "a.x" holds 2, while the corrected merge
      gives `{"a": 2}`. */
  lemma ShadowedKeyCounterexample()
    ensures var dest := map["a" := VMap(map["x" := VInt(1)])];
      var layer := map["a" := VInt(2)];
      var asWritten := LeafWriteAsWritten(dest, "a", VInt(2), ["a.x"]);
      asWritten["a"] == VMap(map["x" := VInt(1)]) && asWritten["a.x"] == VInt(2) &&
      Compatible(dest, layer) && MergeTree(dest, layer) == map["a" := VInt(2)]
  {
    var dest := map["a" := VMap(map["x" := VInt(1)])];
    var layer := map["a" := VInt(2)];
    assert MergeTree(dest, layer).Keys == {"a"};
  }
}
