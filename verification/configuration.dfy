/** The base `Configuration` (python/configuration/configuration.py, and its
    identical copy python/configuration.py): a tree of nested dictionaries,
    merged layer by layer, with the identifier of the merge that last wrote
    each leaf path. */
module Base {
  import opened Values
  import opened Paths
  import opened Tree

  /** Provenance after merging `layers` (paired with `names`) one after the
      other, the first one receiving ordinal `count`. */
  function SourcesAfter(sources: map<string, Value>, layers: seq<map<string, Value>>, names: seq<Value>,
                        count: nat, sep: char): map<string, Value>
    requires |layers| == |names|
    decreases |layers|
  {
    if |layers| == 0 then sources
    else SourcesAfter(sources + LeafSources(layers[0], "", sep, Identifier(names[0], count)),
                      layers[1..], names[1..], count + 1, sep)
  }

  lemma {:induction false} SourcesAfterSnoc(sources: map<string, Value>, layers: seq<map<string, Value>>,
                                            names: seq<Value>, count: nat, sep: char, i: nat, id: Value)
    requires |layers| == |names| && i < |layers| && id == Identifier(names[i], count + i)
    ensures SourcesAfter(sources, layers[..i + 1], names[..i + 1], count, sep) ==
            SourcesAfter(sources, layers[..i], names[..i], count, sep) + LeafSources(layers[i], "", sep, id)
    decreases i
  {
    if i > 0 {
      assert layers[..i + 1][1..] == layers[1..][..i];
      assert names[..i + 1][1..] == names[1..][..i];
      assert layers[..i][1..] == layers[1..][..i - 1];
      assert names[..i][1..] == names[1..][..i - 1];
      SourcesAfterSnoc(sources + LeafSources(layers[0], "", sep, Identifier(names[0], count)),
                       layers[1..], names[1..], count + 1, sep, i - 1, id);
    } else {
      assert layers[..1][1..] == [] && names[..1][1..] == [];
    }
  }

  class Configuration {
    /** `_data`: the configuration tree. */
    var data: map<string, Value>
    /** `_count`: how many merges have been made; the default identifier. */
    var count: nat
    /** `_separator`. */
    const separator: char
    /** `_sources`: leaf key path to the identifier of the merge that wrote it. */
    var sources: map<string, Value>

    /** `__init__`: empty, then the seed data (when there is any) merged in. */
    constructor (seed: map<string, Value>, name: Value, separator: char)
      ensures this.separator == separator
      ensures seed == map[] ==> data == map[] && sources == map[] && count == 0
      ensures seed != map[] ==> data == MergeTree(map[], seed) && count == 1 &&
                                sources == LeafSources(seed, "", separator, Identifier(name, 0))
    {
      data := map[];
      count := 0;
      this.separator := separator;
      sources := map[];
      new;
      if seed != map[] {
        Merge(seed, name);
      }
    }

    /** `get`: the value at the nested key; KeyError or TypeError when the
        path does not resolve. */
    method Get(key: string) returns (r: Result<Value>)
      ensures r == Descend(VMap(data), Split(key, separator))
    {
      r := Tree.Get(data, Split(key, separator));
    }

    /** `set`: writes one slot in the dictionary reached by walking the key's
        leading segments; the provenance is left alone. */
    method Set(key: string, value: Value) returns (err: Option<Error>)
      modifies this`data
      ensures var parts := Split(key, separator);
        match SetAt(VMap(old(data)), parts, value)
        case Ok(t) => err == None && data == t.entries
        case Err(e) => err == Some(e) && data == old(data)
    {
      var parts := Split(key, separator);
      var container := Walk(data, parts);
      SetAtFailsLikeWalk(VMap(data), parts, value);
      if container.Err? {
        return Some(container.error);
      }
      if !container.value.VMap? {
        return Some(TypeError);
      }
      data := SetAt(VMap(data), parts, value).value.entries;
      err := None;
    }

    /** `merge`: identifier `name or _count`, recursive override, and
        `_count` incremented by one. */
    method Merge(layer: map<string, Value>, name: Value)
      requires Compatible(data, layer)
      modifies this
      ensures data == MergeTree(old(data), layer)
      ensures sources == old(sources) + LeafSources(layer, "", separator, Identifier(name, old(count)))
      ensures count == old(count) + 1
    {
      var id := Identifier(name, count);
      data := MergeInto(layer, data, id, "");
      count := count + 1;
    }

    /** `_merge`: overwrites the layer's leaves, recurses into its
        dictionaries (creating them where missing) and records `id` for
        exactly the leaf paths it writes; every other provenance entry is
        untouched. */
    method MergeInto(source: map<string, Value>, dest: map<string, Value>, id: Value, path: string)
      returns (r: map<string, Value>)
      requires Compatible(dest, source)
      modifies this`sources
      ensures r == MergeTree(dest, source)
      ensures sources == old(sources) + LeafSources(source, path, separator, id)
      decreases VMap(source), 2
    {
      r := dest;
      var todo := source.Keys;
      ghost var done: set<string> := {};
      while todo != {}
        invariant todo + done == source.Keys && todo !! done
        invariant MergedUpTo(dest, source, done, r)
        invariant sources == old(sources) + LeafSources(Restrict(source, done), path, separator, id)
        decreases todo
      {
        var key :| key in todo;
        r := MergeNext(source, dest, id, path, done, key, r, old(sources));
        todo := todo - {key};
        done := done + {key};
      }
      MergeEnd(dest, source, path, separator, id, r, done);
    }

    /** The body of `_merge`'s loop: the keys in `done` are merged, `key` is
        next. */
    method MergeNext(source: map<string, Value>, dest: map<string, Value>, id: Value, path: string,
                     ghost done: set<string>, key: string, r: map<string, Value>, ghost start: map<string, Value>)
      returns (r': map<string, Value>)
      requires key in source && key !in done && done <= source.Keys && Compatible(dest, source)
      requires MergedUpTo(dest, source, done, r)
      requires sources == start + LeafSources(Restrict(source, done), path, separator, id)
      modifies this`sources
      ensures MergedUpTo(dest, source, done + {key}, r')
      ensures sources == start + LeafSources(Restrict(source, done + {key}), path, separator, id)
      decreases VMap(source), 1
    {
      MergedStep(dest, source, done, r, key);
      LeafSourcesRestrictAdd(source, done, key, path, separator, id);
      r' := MergeKey(source, dest, key, id, path, r);
      MapUnionAssoc(start, LeafSources(Restrict(source, done), path, separator, id),
                    KeyLeafSources(source, key, path, separator, id));
    }

    /** One iteration of `_merge`'s loop: the slot of `key` takes its merged
        value and the key's leaves are attributed to `id`. */
    method MergeKey(source: map<string, Value>, dest: map<string, Value>, key: string, id: Value, path: string,
                    r: map<string, Value>) returns (r': map<string, Value>)
      requires key in source && Compatible(dest, source)
      requires key in r <==> key in dest
      requires key in r ==> r[key] == dest[key]
      modifies this`sources
      ensures r' == r[key := MergeEntry(dest, source, key)]
      ensures sources == old(sources) + KeyLeafSources(source, key, path, separator, id)
      decreases VMap(source), 0
    {
      var keyPath := JoinPath(path, key, separator);
      match source[key] {
        case VMap(sub) =>
          var node := if key in r then r[key] else VMap(map[]);
          if node.VMap? {
            assert key in dest ==> KeyCompatible(dest, source, key);
            var merged := MergeInto(sub, node.entries, id, keyPath);
            r' := r[key := VMap(merged)];
          } else {
            assert KeyCompatible(dest, source, key);
            LeafPathsEmpty(keyPath, separator);
            r' := r;
          }
        case _ =>
          r' := r[key := source[key]];
          sources := sources[keyPath := id];
      }
    }

    /** `source`: the identifier recorded for exactly this leaf path; any
        other path (a dictionary, an unknown key) raises KeyError. */
    method Source(key: string) returns (r: Result<Value>)
      ensures key in sources ==> r == Ok(sources[key])
      ensures key !in sources ==> r == Err(KeyError)
    {
      if key in sources {
        r := Ok(sources[key]);
      } else {
        r := Err(KeyError);
      }
    }

    /** `sources`: groups the recorded leaf paths by identifier. The keys are
        the identifiers that currently own a path, and each list holds
        exactly the paths recorded for it, once each. */
    method Sources() returns (r: map<Value, seq<string>>)
      ensures r.Keys == sources.Values
      ensures forall id, p :: id in r ==> (p in r[id] <==> p in sources && sources[p] == id)
      ensures forall id :: id in r ==> NoDuplicates(r[id])
    {
      r := map[];
      var todo := sources.Keys;
      ghost var done: set<string> := {};
      while todo != {}
        invariant todo + done == sources.Keys && todo !! done
        invariant forall q :: q in done ==> sources[q] in r
        invariant forall id :: id in r ==> |r[id]| > 0
        invariant forall id, p :: id in r ==> (p in r[id] <==> p in done && sources[p] == id)
        invariant forall id :: id in r ==> NoDuplicates(r[id])
        decreases todo
      {
        var p :| p in todo;
        var id := sources[p];
        ghost var prev := r;
        r := r[id := (if id in r then r[id] else []) + [p]];
        forall i, q | i in r
          ensures q in r[i] <==> q in done + {p} && sources[q] == i
        {
          if i != id {
            assert r[i] == prev[i];
          }
        }
        todo := todo - {p};
        done := done + {p};
      }
      forall id | id in r
        ensures id in sources.Values
      {
        var q := r[id][0];
        assert q in r[id];
        assert q in sources && sources[q] == id;
      }
    }

    /** `from_dicts`: a fresh configuration with the dictionaries merged in
        the order given, paired with `names` by `zip`, so only as many
        dictionaries as there are names are merged and none without names. */
    static method FromDicts(dicts: seq<map<string, Value>>, names: seq<Value>) returns (c: Configuration)
      requires ChainCompatible(map[], dicts[..Min(|dicts|, |names|)])
      ensures fresh(c) && c.separator == '.'
      ensures c.count == Min(|dicts|, |names|)
      ensures c.data == MergeAll(map[], dicts[..Min(|dicts|, |names|)])
      ensures c.sources == SourcesAfter(map[], dicts[..c.count], names[..c.count], 0, '.')
      ensures names == [] ==> c.data == map[] && c.sources == map[] && c.count == 0
    {
      c := new Configuration(map[], VNone, '.');
      var n := Min(|dicts|, |names|);
      var layers, ids := dicts[..n], names[..n];
      var i := 0;
      while i < n
        invariant 0 <= i <= n
        invariant c.separator == '.' && c.count == i
        invariant ChainCompatible(map[], layers[..i])
        invariant c.data == MergeAll(map[], layers[..i])
        invariant c.sources == SourcesAfter(map[], layers[..i], ids[..i], 0, '.')
        modifies c
      {
        MergeAllSnoc(map[], layers, i);
        SourcesAfterSnoc(map[], layers, ids, 0, '.', i, Identifier(ids[i], c.count));
        c.Merge(layers[i], ids[i]);
        i := i + 1;
      }
      assert layers[..n] == layers && ids[..n] == ids;
    }
  }

  /** `_merge`'s loop after its last turn: every key merged. */
  lemma MergeEnd(dest: map<string, Value>, source: map<string, Value>, path: string, sep: char, id: Value,
                 r: map<string, Value>, done: set<string>)
    requires Compatible(dest, source) && done == source.Keys && MergedUpTo(dest, source, done, r)
    ensures r == MergeTree(dest, source)
    ensures LeafSources(Restrict(source, done), path, sep, id) == LeafSources(source, path, sep, id)
  {
    assert Restrict(source, done) == source;
    MergedAll(dest, source, r);
  }

  /** The provenance one key of a layer contributes. */
  function KeyLeafSources(l: map<string, Value>, k: string, path: string, sep: char, id: Value): map<string, Value>
    requires k in l
  {
    map p | p in KeyLeaves(l, k, path, sep) :: id
  }

  lemma LeafSourcesRestrictAdd(l: map<string, Value>, done: set<string>, k: string, path: string, sep: char, id: Value)
    requires k in l
    ensures LeafSources(Restrict(l, done + {k}), path, sep, id) ==
            LeafSources(Restrict(l, done), path, sep, id) + KeyLeafSources(l, k, path, sep, id)
  {
    LeafPathsRestrictAdd(l, done, k, path, sep);
  }

  lemma LeafPathsEmpty(path: string, sep: char)
    ensures LeafPaths(map[], path, sep) == {}
  {
  }

  lemma MapUnionAssoc(a: map<string, Value>, b: map<string, Value>, c: map<string, Value>)
    ensures a + b + c == a + (b + c)
  {
  }

}
