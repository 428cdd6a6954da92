/** The configuration tree: walking a split path through nested dictionaries
    (`_walk`, `get`), writing one slot (`set`), and the plain recursive
    override that the base `_merge` performs. */
module Tree {
  import opened Values
  import opened Paths

  // ---------------------------------------------------------------------
  // Walking and reading
  // ---------------------------------------------------------------------

  /** Follows `parts` from `node` with Python's `data[part]`: a dictionary
      without the key raises KeyError, anything that is not a dictionary
      raises TypeError. */
  function Descend(node: Value, parts: seq<string>): (r: Result<Value>)
    ensures parts == [] ==> r == Ok(node)
    ensures r.Err? ==> r.error == KeyError || r.error == TypeError
  {
    if parts == [] then Ok(node)
    else match node
      case VMap(m) => if parts[0] in m then Descend(m[parts[0]], parts[1..]) else Err(KeyError)
      case _ => Err(TypeError)
  }

  /** `_walk`: returns the container that holds the last segment of the
      path, by reassigning `data` once per leading segment. */
  method Walk(data: map<string, Value>, parts: seq<string>) returns (r: Result<Value>)
    requires |parts| >= 1
    ensures r == Descend(VMap(data), parts[..|parts| - 1])
  {
    var node := VMap(data);
    var i := 0;
    while i < |parts| - 1
      invariant 0 <= i <= |parts| - 1
      invariant Descend(VMap(data), parts[..|parts| - 1]) == Descend(node, parts[i..|parts| - 1])
    {
      assert parts[i..|parts| - 1][1..] == parts[i + 1..|parts| - 1];
      match node {
        case VMap(m) =>
          if parts[i] !in m {
            return Err(KeyError);
          }
          node := m[parts[i]];
        case _ =>
          return Err(TypeError);
      }
      i := i + 1;
    }
    assert parts[i..|parts| - 1] == [];
    r := Ok(node);
  }

  /** `get`: the walked container indexed by the last segment. */
  method Get(data: map<string, Value>, parts: seq<string>) returns (r: Result<Value>)
    requires |parts| >= 1
    ensures r == Descend(VMap(data), parts)
  {
    var container := Walk(data, parts);
    DescendSplit(VMap(data), parts);
    if container.Err? {
      return container;
    }
    var last := parts[|parts| - 1];
    match container.value {
      case VMap(m) =>
        if last in m {
          r := Ok(m[last]);
        } else {
          r := Err(KeyError);
        }
      case _ =>
        r := Err(TypeError);
    }
  }

  /** Descending a whole path is descending all but its last segment, then
      indexing the container reached with the last segment. */
  lemma {:induction false} DescendSplit(node: Value, parts: seq<string>)
    requires |parts| >= 1
    ensures Descend(node, parts) ==
      match Descend(node, parts[..|parts| - 1])
      case Err(e) => Err(e)
      case Ok(c) => Descend(c, [parts[|parts| - 1]])
  {
    if |parts| > 1 {
      assert parts[1..][..|parts[1..]| - 1] == parts[..|parts| - 1][1..];
      assert parts[1..][|parts[1..]| - 1] == parts[|parts| - 1];
      match node {
        case VMap(m) =>
          if parts[0] in m {
            DescendSplit(m[parts[0]], parts[1..]);
          }
        case _ =>
      }
    }
  }

  /** Reading a path raises KeyError exactly when some dictionary met on the
      way (or at the end) lacks the next segment. */
  lemma {:induction false} KeyErrorIffMissingSegment(node: Value, parts: seq<string>)
    ensures Descend(node, parts) == Err(KeyError) <==>
      exists i :: 0 <= i < |parts| && MissingAt(node, parts, i)
  {
    if parts != [] {
      match node {
        case VMap(m) =>
          if parts[0] in m {
            KeyErrorIffMissingSegment(m[parts[0]], parts[1..]);
            if Descend(node, parts) == Err(KeyError) {
              var j :| 0 <= j < |parts[1..]| && MissingAt(m[parts[0]], parts[1..], j);
              MissingAtShift(node, parts, j + 1);
            }
            if exists i :: 0 <= i < |parts| && MissingAt(node, parts, i) {
              var i :| 0 <= i < |parts| && MissingAt(node, parts, i);
              assert i != 0 by { assert parts[..0] == []; }
              MissingAtShift(node, parts, i);
            }
          } else {
            assert parts[..0] == [];
            assert MissingAt(node, parts, 0);
          }
        case _ =>
          forall i | 0 <= i < |parts|
            ensures !MissingAt(node, parts, i)
          {
            if i > 0 {
              assert parts[..i][0] == parts[0];
            } else {
              assert parts[..i] == [];
            }
          }
      }
    }
  }

  /** The walk reaches a dictionary after `i` segments that lacks segment `i`. */
  predicate MissingAt(node: Value, parts: seq<string>, i: nat)
    requires i < |parts|
  {
    match Descend(node, parts[..i])
    case Ok(VMap(m)) => parts[i] !in m
    case _ => false
  }

  lemma MissingAtShift(node: Value, parts: seq<string>, i: nat)
    requires 1 <= i < |parts| && node.VMap? && parts[0] in node.entries
    ensures MissingAt(node, parts, i) == MissingAt(node.entries[parts[0]], parts[1..], i - 1)
  {
    assert parts[..i][1..] == parts[1..][..i - 1];
    assert parts[..i][0] == parts[0];
  }

  // ---------------------------------------------------------------------
  // Writing one slot
  // ---------------------------------------------------------------------

  /** `set`: walk all but the last segment, then `data[last] = value` in
      the dictionary reached. The tree is a value, so the dictionaries on the
      way are rebuilt around the written slot. */
  function SetAt(node: Value, parts: seq<string>, v: Value): (r: Result<Value>)
    requires |parts| >= 1
    ensures r.Ok? ==> node.VMap? && r.value.VMap? && r.value.entries.Keys == node.entries.Keys + {parts[0]}
  {
    match node
    case VMap(m) =>
      if |parts| == 1 then Ok(VMap(m[parts[0] := v]))
      else if parts[0] !in m then Err(KeyError)
      else (match SetAt(m[parts[0]], parts[1..], v)
        case Ok(child) => Ok(VMap(m[parts[0] := child]))
        case Err(e) => Err(e))
    case _ => Err(TypeError)
  }

  /** `set` fails exactly when `_walk` fails or reaches something that is not
      a dictionary, and then with the same error as reading the container. */
  lemma {:induction false} SetAtFailsLikeWalk(node: Value, parts: seq<string>, v: Value)
    requires |parts| >= 1
    ensures SetAt(node, parts, v).Ok? <==> Descend(node, parts[..|parts| - 1]).Ok? && Descend(node, parts[..|parts| - 1]).value.VMap?
    ensures SetAt(node, parts, v).Err? && Descend(node, parts[..|parts| - 1]).Err? ==>
      SetAt(node, parts, v).error == Descend(node, parts[..|parts| - 1]).error
    ensures Descend(node, parts[..|parts| - 1]).Ok? && !Descend(node, parts[..|parts| - 1]).value.VMap? ==>
      SetAt(node, parts, v) == Err(TypeError)
  {
    if |parts| > 1 {
      assert parts[..|parts| - 1][1..] == parts[1..][..|parts[1..]| - 1];
      match node {
        case VMap(m) =>
          if parts[0] in m {
            SetAtFailsLikeWalk(m[parts[0]], parts[1..], v);
          }
        case _ =>
      }
    } else {
      assert parts[..0] == [];
    }
  }

  /** After a successful `set(k, v)`, `get(k)` returns `v`. */
  lemma {:induction false} GetAfterSet(node: Value, parts: seq<string>, v: Value)
    requires |parts| >= 1 && SetAt(node, parts, v).Ok?
    ensures Descend(SetAt(node, parts, v).value, parts) == Ok(v)
  {
    if |parts| > 1 {
      assert node.VMap?;
      GetAfterSet(node.entries[parts[0]], parts[1..], v);
    }
  }

  /** `set(k, v)` writes only the slot named by `k`: every path that neither
      leads to nor lies below `k` reads as before, and a path below `k`
      reads inside `v`. */
  lemma {:induction false} SetOnlyWritesItsSlot(node: Value, parts: seq<string>, v: Value, q: seq<string>)
    requires |parts| >= 1 && SetAt(node, parts, v).Ok?
    ensures !(parts <= q) && !(q <= parts) ==> Descend(SetAt(node, parts, v).value, q) == Descend(node, q)
    ensures parts <= q ==> Descend(SetAt(node, parts, v).value, q) == Descend(v, q[|parts|..])
  {
    assert node.VMap?;
    var m := node.entries;
    var n' := SetAt(node, parts, v).value;
    if q != [] {
      if q[0] != parts[0] {
        assert !(parts <= q);
      } else if |parts| == 1 {
        assert n'.entries[q[0]] == v;
        assert q[1..] == q[|parts|..];
      } else {
        SetOnlyWritesItsSlot(m[parts[0]], parts[1..], v, q[1..]);
        assert parts <= q ==> parts[1..] <= q[1..];
        assert q[1..] <= parts[1..] ==> q <= parts;
        assert parts[1..] <= q[1..] ==> parts <= q;
        if parts <= q {
          assert q[1..][|parts[1..]|..] == q[|parts|..];
        }
      }
    } else {
      assert q <= parts;
    }
  }

  // ---------------------------------------------------------------------
  // Plain recursive override (the base `_merge`)
  // ---------------------------------------------------------------------

  /** What `_merge` needs in order not to raise AttributeError: a non-empty
      dictionary in the layer is only merged over an absent key or over a
      dictionary. (`dest.setdefault` returns an existing scalar, and the
      recursive call then fails on it.) */
  predicate Compatible(d: map<string, Value>, l: map<string, Value>)
    decreases VMap(l)
  {
    forall k :: k in l && l[k].VMap? && k in d ==> KeyCompatible(d, l, k)
  }

  predicate KeyCompatible(d: map<string, Value>, l: map<string, Value>, k: string)
    requires k in l && l[k].VMap? && k in d
    decreases VMap(l), 0
  {
    if d[k].VMap? then Compatible(d[k].entries, l[k].entries) else l[k].entries == map[]
  }

  /** The value slot `k` holds after the override. */
  function MergeEntry(d: map<string, Value>, l: map<string, Value>, k: string): (v: Value)
    requires k in d || k in l
    requires Compatible(d, l)
    decreases VMap(l), 0
    ensures k in l && l[k].VMap? ==> v.VMap? || (k in d && v == d[k] && l[k].entries == map[])
  {
    if k !in l then d[k]
    else match l[k]
      case VMap(sub) =>
        if k !in d then VMap(MergeTree(map[], sub))
        else (assert KeyCompatible(d, l, k);
              if d[k].VMap? then VMap(MergeTree(d[k].entries, sub)) else d[k])
      case _ => l[k]
  }

  /** The tree after merging layer `l` over `d`: leaves named by the layer
      are overwritten, nested dictionaries are merged recursively, and every
      key the layer does not mention is kept. */
  function MergeTree(d: map<string, Value>, l: map<string, Value>): (r: map<string, Value>)
    requires Compatible(d, l)
    decreases VMap(l), 1
    ensures r.Keys == d.Keys + l.Keys
    ensures forall k {:trigger r[k]} :: k in d && k !in l ==> r[k] == d[k]
    ensures forall k {:trigger r[k]} :: k in l && !l[k].VMap? ==> r[k] == l[k]
    ensures forall k {:trigger r[k]} :: k in l && l[k].VMap? ==> r[k].VMap? || (k in d && r[k] == d[k] && l[k].entries == map[])
  {
    map k | k in d.Keys + l.Keys :: MergeEntry(d, l, k)
  }

  /** Merging the same layer a second time changes nothing. */
  lemma {:induction false} MergeTreeIdempotent(d: map<string, Value>, l: map<string, Value>)
    requires Compatible(d, l)
    ensures Compatible(MergeTree(d, l), l)
    ensures MergeTree(MergeTree(d, l), l) == MergeTree(d, l)
    decreases VMap(l)
  {
    var r := MergeTree(d, l);
    forall k | k in l && l[k].VMap? && k in r
      ensures KeyCompatible(r, l, k)
    {
      MergeEntryIdempotent(d, l, k);
    }
    var r2 := MergeTree(r, l);
    forall k | k in r2.Keys
      ensures r2[k] == r[k]
    {
      if k in l && l[k].VMap? {
        MergeEntryIdempotent(d, l, k);
      }
    }
  }

  lemma {:induction false} MergeEntryIdempotent(d: map<string, Value>, l: map<string, Value>, k: string)
    requires Compatible(d, l) && k in l && l[k].VMap?
    ensures KeyCompatible(MergeTree(d, l), l, k)
    ensures Compatible(MergeTree(d, l), l) ==> MergeEntry(MergeTree(d, l), l, k) == MergeTree(d, l)[k]
    decreases VMap(l), 0
  {
    var sub := l[k].entries;
    var base := if k in d && d[k].VMap? then d[k].entries else map[];
    if k in d && !d[k].VMap? {
    } else {
      MergeTreeIdempotent(base, sub);
    }
  }

  /** Key paths of the leaves a layer writes (`_sources[key_path] = name`). */
  function LeafPaths(l: map<string, Value>, path: string, sep: char): set<string>
    decreases VMap(l), 1
  {
    set k, p | k in l && p in KeyLeaves(l, k, path, sep) :: p
  }

  function KeyLeaves(l: map<string, Value>, k: string, path: string, sep: char): set<string>
    requires k in l
    decreases VMap(l), 0
  {
    if l[k].VMap? then LeafPaths(l[k].entries, JoinPath(path, k, sep), sep)
    else {JoinPath(path, k, sep)}
  }

  /** Key paths where a leaf of the layer replaces a dictionary of the tree. */
  function Replaced(d: map<string, Value>, l: map<string, Value>, path: string, sep: char): set<string>
    decreases VMap(l), 1
  {
    set k, p | k in l && p in KeyReplaced(d, l, k, path, sep) :: p
  }

  function KeyReplaced(d: map<string, Value>, l: map<string, Value>, k: string, path: string, sep: char): set<string>
    requires k in l
    decreases VMap(l), 0
  {
    if l[k].VMap? then
      (if k in d && d[k].VMap? then Replaced(d[k].entries, l[k].entries, JoinPath(path, k, sep), sep) else {})
    else if k in d && d[k].VMap? then {JoinPath(path, k, sep)}
    else {}
  }

  /** Every replaced path is itself a leaf the layer writes. */
  lemma {:induction false} ReplacedAreLeaves(d: map<string, Value>, l: map<string, Value>, path: string, sep: char)
    ensures Replaced(d, l, path, sep) <= LeafPaths(l, path, sep)
    decreases VMap(l)
  {
    forall p | p in Replaced(d, l, path, sep)
      ensures p in LeafPaths(l, path, sep)
    {
      var k :| k in l && p in KeyReplaced(d, l, k, path, sep);
      if l[k].VMap? {
        ReplacedAreLeaves(d[k].entries, l[k].entries, JoinPath(path, k, sep), sep);
      }
      assert p in KeyLeaves(l, k, path, sep);
    }
  }

  /** The layer restricted to the keys already processed by a loop. */
  function Restrict(l: map<string, Value>, ks: set<string>): (r: map<string, Value>)
    ensures r.Keys == l.Keys * ks
    ensures forall k :: k in r ==> r[k] == l[k]
  {
    map k | k in l && k in ks :: l[k]
  }

  /** The layer's leaves, each attributed to the merge identifier `id`. */
  function LeafSources(l: map<string, Value>, path: string, sep: char, id: Value): (r: map<string, Value>)
    ensures r.Keys == LeafPaths(l, path, sep)
    ensures forall p :: p in r ==> r[p] == id
  {
    map p | p in LeafPaths(l, path, sep) :: id
  }

  /** Adding one more processed key adds that key's leaves. */
  lemma LeafPathsRestrictAdd(l: map<string, Value>, done: set<string>, k: string, path: string, sep: char)
    requires k in l
    ensures LeafPaths(Restrict(l, done + {k}), path, sep) ==
            LeafPaths(Restrict(l, done), path, sep) + KeyLeaves(l, k, path, sep)
  {
    var a := Restrict(l, done + {k});
    var b := Restrict(l, done);
    forall p | p in LeafPaths(a, path, sep)
      ensures p in LeafPaths(b, path, sep) + KeyLeaves(l, k, path, sep)
    {
      var j :| j in a && p in KeyLeaves(a, j, path, sep);
      if j != k {
        assert p in KeyLeaves(b, j, path, sep);
      }
    }
    forall p | p in LeafPaths(b, path, sep) + KeyLeaves(l, k, path, sep)
      ensures p in LeafPaths(a, path, sep)
    {
      if p in KeyLeaves(l, k, path, sep) {
        assert p in KeyLeaves(a, k, path, sep);
      } else {
        var j :| j in b && p in KeyLeaves(b, j, path, sep);
        assert p in KeyLeaves(a, j, path, sep);
      }
    }
  }

  /** Adding one more processed key adds that key's replaced paths. */
  lemma ReplacedRestrictAdd(d: map<string, Value>, l: map<string, Value>, done: set<string>, k: string,
                            path: string, sep: char)
    requires k in l
    ensures Replaced(d, Restrict(l, done + {k}), path, sep) ==
            Replaced(d, Restrict(l, done), path, sep) + KeyReplaced(d, l, k, path, sep)
  {
    var a := Restrict(l, done + {k});
    var b := Restrict(l, done);
    forall p | p in Replaced(d, a, path, sep)
      ensures p in Replaced(d, b, path, sep) + KeyReplaced(d, l, k, path, sep)
    {
      var j :| j in a && p in KeyReplaced(d, a, j, path, sep);
      if j != k {
        assert p in KeyReplaced(d, b, j, path, sep);
      }
    }
    forall p | p in Replaced(d, b, path, sep) + KeyReplaced(d, l, k, path, sep)
      ensures p in Replaced(d, a, path, sep)
    {
      if p in KeyReplaced(d, l, k, path, sep) {
        assert p in KeyReplaced(d, a, k, path, sep);
      } else {
        var j :| j in b && p in KeyReplaced(d, b, j, path, sep);
        assert p in KeyReplaced(d, a, j, path, sep);
      }
    }
  }

  /** The paths one key replaces are among the leaves it writes. */
  lemma KeyReplacedAreLeaves(d: map<string, Value>, l: map<string, Value>, k: string, path: string, sep: char)
    requires k in l
    ensures KeyReplaced(d, l, k, path, sep) <= KeyLeaves(l, k, path, sep)
  {
    if l[k].VMap? && k in d && d[k].VMap? {
      ReplacedAreLeaves(d[k].entries, l[k].entries, JoinPath(path, k, sep), sep);
    }
  }

  /** Nothing is replaced in an empty tree, and an empty layer writes nothing. */
  lemma EmptyWritesNothing(d: map<string, Value>, l: map<string, Value>, path: string, sep: char)
    ensures Replaced(map[], l, path, sep) == {}
    ensures LeafPaths(map[], path, sep) == {} && Replaced(d, map[], path, sep) == {}
  {
    forall p | p in Replaced(map[], l, path, sep)
      ensures false
    {
      var k :| k in l && p in KeyReplaced(map[], l, k, path, sep);
    }
  }

  /** The loop of `_merge` part-way: the keys in `done` hold their merged
      values, every other slot of the tree is as it was. */
  predicate MergedUpTo(d: map<string, Value>, l: map<string, Value>, done: set<string>, r: map<string, Value>)
    requires Compatible(d, l) && done <= l.Keys
  {
    r.Keys == d.Keys + done &&
    forall j :: j in r ==> r[j] == if j in done then MergeEntry(d, l, j) else d[j]
  }

  /** One more key merged. */
  lemma MergedStep(d: map<string, Value>, l: map<string, Value>, done: set<string>, r: map<string, Value>, k: string)
    requires Compatible(d, l) && done <= l.Keys && k in l && k !in done
    requires MergedUpTo(d, l, done, r)
    ensures k in r <==> k in d
    ensures k in r ==> r[k] == d[k]
    ensures MergedUpTo(d, l, done + {k}, r[k := MergeEntry(d, l, k)])
  {
  }

  /** Every key merged: the tree is the override. */
  lemma MergedAll(d: map<string, Value>, l: map<string, Value>, r: map<string, Value>)
    requires Compatible(d, l) && MergedUpTo(d, l, l.Keys, r)
    ensures r == MergeTree(d, l)
  {
    var m := MergeTree(d, l);
    assert r.Keys == m.Keys;
    forall j | j in r
      ensures r[j] == m[j]
    {
      MergeTreeAt(d, l, j);
    }
  }

  lemma MergeTreeAt(d: map<string, Value>, l: map<string, Value>, j: string)
    requires Compatible(d, l) && (j in d || j in l)
    ensures j in MergeTree(d, l) && MergeTree(d, l)[j] == MergeEntry(d, l, j)
  {
  }

  /** A leaf of the layer reads the same after the override: layer leaves
      win at any depth. */
  lemma {:induction false} MergeTreeReadsLayerLeaf(d: map<string, Value>, l: map<string, Value>, qs: seq<string>, v: Value)
    requires Compatible(d, l) && |qs| > 0
    requires Descend(VMap(l), qs) == Ok(v) && !v.VMap?
    ensures Descend(VMap(MergeTree(d, l)), qs) == Ok(v)
    decreases |qs|
  {
    var k := qs[0];
    MergeTreeAt(d, l, k);
    if |qs| > 1 {
      var sub := l[k].entries;
      assert qs[1] in sub;
      if k in d {
        assert KeyCompatible(d, l, k);
        MergeTreeReadsLayerLeaf(d[k].entries, sub, qs[1..], v);
      } else {
        MergeTreeReadsLayerLeaf(map[], sub, qs[1..], v);
      }
    }
  }

  /** A path the layer does not reach reads after the override what it read
      before: the old tree is kept wherever the layer has no key. */
  lemma {:induction false} MergeTreeKeepsUnreached(d: map<string, Value>, l: map<string, Value>, qs: seq<string>)
    requires Compatible(d, l) && Descend(VMap(l), qs) == Err(KeyError)
    ensures Descend(VMap(MergeTree(d, l)), qs) == Descend(VMap(d), qs)
    decreases |qs|
  {
    var k := qs[0];
    if k in l {
      MergeTreeAt(d, l, k);
      var sub := l[k].entries;
      if k !in d {
        MergeTreeKeepsUnreached(map[], sub, qs[1..]);
      } else {
        assert KeyCompatible(d, l, k);
        if d[k].VMap? {
          MergeTreeKeepsUnreached(d[k].entries, sub, qs[1..]);
        }
      }
    }
  }

  /** The class docstring's example: `{'group': {'two': 3}}` over
      `{'group': {'one': 1, 'two': 2}}` overrides `group.two` and keeps
      `group.one`. */
  lemma MergeTreeGroupExample()
    ensures var d := map["group" := VMap(map["one" := VInt(1), "two" := VInt(2)])];
            var l := map["group" := VMap(map["two" := VInt(3)])];
            Compatible(d, l) &&
            Descend(VMap(MergeTree(d, l)), ["group", "two"]) == Ok(VInt(3)) &&
            Descend(VMap(MergeTree(d, l)), ["group", "one"]) == Ok(VInt(1))
  {
    var d := map["group" := VMap(map["one" := VInt(1), "two" := VInt(2)])];
    var l := map["group" := VMap(map["two" := VInt(3)])];
    assert KeyCompatible(d, l, "group");
    MergeTreeReadsLayerLeaf(d, l, ["group", "two"], VInt(3));
    MergeTreeKeepsUnreached(d, l, ["group", "one"]);
  }

  /** A sequence of layers that can be merged one after the other. */
  predicate ChainCompatible(d: map<string, Value>, layers: seq<map<string, Value>>)
    decreases |layers|
  {
    |layers| == 0 || (Compatible(d, layers[0]) && ChainCompatible(MergeTree(d, layers[0]), layers[1..]))
  }

  /** The tree after merging `layers` in order over `d`. */
  function MergeAll(d: map<string, Value>, layers: seq<map<string, Value>>): (r: map<string, Value>)
    requires ChainCompatible(d, layers)
    decreases |layers|
    ensures layers == [] ==> r == d
  {
    if |layers| == 0 then d else MergeAll(MergeTree(d, layers[0]), layers[1..])
  }

  /** Folding one more layer onto a merged prefix. */
  lemma {:induction false} MergeAllSnoc(d: map<string, Value>, layers: seq<map<string, Value>>, i: nat)
    requires i < |layers| && ChainCompatible(d, layers)
    ensures ChainCompatible(d, layers[..i]) && Compatible(MergeAll(d, layers[..i]), layers[i])
    ensures ChainCompatible(d, layers[..i + 1])
    ensures MergeAll(d, layers[..i + 1]) == MergeTree(MergeAll(d, layers[..i]), layers[i])
    decreases i
  {
    if i > 0 {
      assert layers[..i][1..] == layers[1..][..i - 1];
      assert layers[..i + 1][1..] == layers[1..][..i];
      MergeAllSnoc(MergeTree(d, layers[0]), layers[1..], i - 1);
    } else {
      assert layers[..1][1..] == [];
    }
  }
}
