/** The built-in actions (`+`, `-`) and modifiers (`!`, `?`) of the advanced
    configuration, the Python operators they rely on, and the registry
    entries that stand for them or for a caller-supplied callable. */
module Actions {
  import opened Values

  /** Values Python treats as integers: `bool` is a subclass of `int`. */
  predicate IsNumber(v: Value)
  {
    v.VInt? || v.VBool?
  }

  function Num(v: Value): int
    requires IsNumber(v)
  {
    match v
    case VInt(i) => i
    case VBool(b) => if b then 1 else 0
  }

  /** Python `==`: numbers (ints and bools) by value, strings and `None` by
      identity of contents, lists element by element, dicts key by key. */
  predicate PyEq(a: Value, b: Value)
    ensures PyEq(a, b) ==> (IsNumber(a) <==> IsNumber(b)) && (a.VStr? <==> b.VStr?) && (a.VNone? <==> b.VNone?) &&
                           (a.VList? <==> b.VList?) && (a.VMap? <==> b.VMap?)
    decreases a
  {
    match a
    case VNone => b.VNone?
    case VBool(_) => IsNumber(b) && Num(a) == Num(b)
    case VInt(_) => IsNumber(b) && Num(a) == Num(b)
    case VStr(s) => b.VStr? && b.s == s
    case VList(xs) =>
      b.VList? && |xs| == |b.items| && forall i :: 0 <= i < |xs| ==> PyEq(xs[i], b.items[i])
    case VMap(m) =>
      b.VMap? && m.Keys == b.entries.Keys && forall k :: k in m ==> PyEq(m[k], b.entries[k])
  }

  /** Every value equals itself. */
  lemma {:induction false} PyEqReflexive(a: Value)
    ensures PyEq(a, a)
    decreases a
  {
    match a
    case VList(xs) =>
      forall i | 0 <= i < |xs|
        ensures PyEq(xs[i], xs[i])
      {
        PyEqReflexive(xs[i]);
      }
    case VMap(m) =>
      forall k | k in m
        ensures PyEq(m[k], m[k])
      {
        PyEqReflexive(m[k]);
      }
    case _ =>
  }

  /** `orig + arg` (`_add`): numbers add, strings and lists concatenate,
      anything else (including a missing value, `None`) is a TypeError. */
  function AddValues(orig: Value, arg: Value): (r: Result<Value>)
    ensures r.Ok? <==> (IsNumber(orig) && IsNumber(arg)) || (orig.VStr? && arg.VStr?) || (orig.VList? && arg.VList?)
    ensures r.Err? ==> r.error == TypeError
  {
    if IsNumber(orig) && IsNumber(arg) then Ok(VInt(Num(orig) + Num(arg)))
    else if orig.VStr? && arg.VStr? then Ok(VStr(orig.s + arg.s))
    else if orig.VList? && arg.VList? then Ok(VList(orig.items + arg.items))
    else Err(TypeError)
  }

  /** `list.index` under Python equality: the first position holding a
      value equal to `x`. */
  function IndexOf(xs: seq<Value>, x: Value): (r: Option<nat>)
    ensures r.Some? ==> r.value < |xs| && PyEq(xs[r.value], x) && forall j :: 0 <= j < r.value ==> !PyEq(xs[j], x)
    ensures r.None? ==> forall j :: 0 <= j < |xs| ==> !PyEq(xs[j], x)
  {
    if |xs| == 0 then None
    else if PyEq(xs[0], x) then Some(0)
    else match IndexOf(xs[1..], x)
      case Some(i) => Some(i + 1)
      case None => None
  }

  /** `list.remove(x)`: drops the first element equal to `x`; ValueError
      when there is none. A removal takes out exactly that one element and
      keeps all the others. */
  function RemoveFirst(xs: seq<Value>, x: Value): (r: Result<seq<Value>>)
    ensures r.Err? <==> IndexOf(xs, x).None?
    ensures r.Err? ==> r.error == ValueError
    ensures r.Ok? ==> |r.value| + 1 == |xs|
    ensures r.Ok? ==> multiset(r.value) + multiset{xs[IndexOf(xs, x).value]} == multiset(xs)
  {
    match IndexOf(xs, x)
    case Some(i) =>
      MultisetRemoveAt(xs, i);
      Ok(xs[..i] + xs[i + 1..])
    case None => Err(ValueError)
  }

  lemma MultisetRemoveAt(xs: seq<Value>, i: nat)
    requires i < |xs|
    ensures multiset(xs[..i] + xs[i + 1..]) + multiset{xs[i]} == multiset(xs)
  {
    assert xs == xs[..i] + [xs[i]] + xs[i + 1..];
  }

  /** `for x in arg: orig.remove(x)`: one removal per element of `arg`, in
      order, stopping at the first ValueError. */
  function RemoveEach(xs: seq<Value>, ys: seq<Value>): (r: Result<seq<Value>>)
    ensures r.Err? ==> r.error == ValueError
    ensures r.Ok? ==> |r.value| + |ys| == |xs| && multiset(r.value) <= multiset(xs)
    decreases |ys|
  {
    if |ys| == 0 then Ok(xs)
    else match RemoveFirst(xs, ys[0])
      case Err(e) => Err(e)
      case Ok(rest) => RemoveEach(rest, ys[1..])
  }

  /** A value of `arg` that no element of the list equals makes `-` raise
      ValueError, wherever it stands in `arg`. */
  lemma {:induction false} RemoveEachMisses(xs: seq<Value>, ys: seq<Value>, i: nat)
    requires i < |ys| && forall j :: 0 <= j < |xs| ==> !PyEq(xs[j], ys[i])
    ensures RemoveEach(xs, ys) == Err(ValueError)
    decreases |ys|
  {
    if i > 0 {
      match RemoveFirst(xs, ys[0])
      case Err(_) =>
      case Ok(rest) =>
        forall j | 0 <= j < |rest|
          ensures !PyEq(rest[j], ys[1..][i - 1])
        {
          assert rest[j] in multiset(xs);
          var k :| 0 <= k < |xs| && xs[k] == rest[j];
        }
        RemoveEachMisses(rest, ys[1..], i - 1);
    }
  }

  /** Where Python `==` on the values involved is plain equality, removing
      `ys` from `xs` succeeds exactly when `xs` holds every value of `ys`
      (counted with multiplicity), and leaves the multiset difference. */
  lemma {:induction false} RemoveEachExact(xs: seq<Value>, ys: seq<Value>)
    requires forall a, b :: a in xs && b in ys ==> (PyEq(a, b) <==> a == b)
    ensures RemoveEach(xs, ys).Ok? <==> multiset(ys) <= multiset(xs)
    ensures RemoveEach(xs, ys).Ok? ==> multiset(RemoveEach(xs, ys).value) == multiset(xs) - multiset(ys)
    decreases |ys|
  {
    if |ys| > 0 {
      var y := ys[0];
      assert ys == [y] + ys[1..];
      assert multiset(ys) == multiset(ys[1..]) + multiset{y};
      match RemoveFirst(xs, y)
      case Err(_) =>
        PyEqReflexive(y);
        assert y !in xs;
        assert multiset(xs)[y] == 0 < multiset(ys)[y];
      case Ok(rest) =>
        var i := IndexOf(xs, y).value;
        assert xs[i] in xs && y in ys;
        assert xs[i] == y;
        forall a, b | a in rest && b in ys[1..]
          ensures PyEq(a, b) <==> a == b
        {
          assert a in multiset(rest);
          assert a in xs && b in ys;
        }
        RemoveEachExact(rest, ys[1..]);
        MultisetCancel(multiset(ys[1..]), multiset(rest), y);
    }
  }

  /** Adding the same element to both sides changes neither inclusion nor
      difference. */
  lemma MultisetCancel(a: multiset<Value>, b: multiset<Value>, y: Value)
    ensures a + multiset{y} <= b + multiset{y} <==> a <= b
    ensures (b + multiset{y}) - (a + multiset{y}) == b - a
  {
    if a + multiset{y} <= b + multiset{y} {
      forall x
        ensures a[x] <= b[x]
      {
        assert (a + multiset{y})[x] <= (b + multiset{y})[x];
      }
    }
  }

  /** Python's `s.endswith(t)`. */
  predicate EndsWith(s: string, t: string)
  {
    |t| <= |s| && s[|s| - |t|..] == t
  }

  /** `_subtract`: lists lose one equal element per removed value, numbers
      subtract, a string loses `arg` when it ends with it (the corrected
      `StripSuffix`, which keeps the string for an empty `arg`; see
      `StripSuffixAsWritten`), and any other value (`None`, a dict) comes
      back unchanged. */
  function SubtractValues(orig: Value, arg: Value): (r: Result<Value>)
    ensures r.Err? ==> (orig.VList? && r.error == ValueError) || r.error == TypeError
    ensures orig.VNone? || orig.VMap? ==> r == Ok(orig)
    ensures orig.VStr? ==> (r.Ok? <==> arg.VStr?)
    ensures IsNumber(orig) ==> (r.Ok? <==> IsNumber(arg))
    ensures r.Ok? && orig.VList? ==> r.value.VList? && multiset(r.value.items) <= multiset(orig.items)
    ensures orig.VList? && arg.VList? ==> r == RemovedList(RemoveEach(orig.items, arg.items))
    ensures orig.VList? && !arg.VList? ==> r == RemovedList(RemoveFirst(orig.items, arg))
    ensures IsNumber(orig) && IsNumber(arg) ==> r == Ok(VInt(Num(orig) - Num(arg)))
    ensures orig.VStr? && arg.VStr? ==> r == Ok(VStr(StripSuffix(orig.s, arg.s)))
  {
    match orig
    case VList(xs) => RemovedList(if arg.VList? then RemoveEach(xs, arg.items) else RemoveFirst(xs, arg))
    case VInt(_) => if IsNumber(arg) then Ok(VInt(Num(orig) - Num(arg))) else Err(TypeError)
    case VBool(_) => if IsNumber(arg) then Ok(VInt(Num(orig) - Num(arg))) else Err(TypeError)
    case VStr(s) =>
      if !arg.VStr? then Err(TypeError)
      else Ok(VStr(StripSuffix(s, arg.s)))
    case _ => Ok(orig)
  }

  /** The list left after the removals, or their ValueError. */
  function RemovedList(removed: Result<seq<Value>>): Result<Value>
  {
    match removed
    case Ok(rest) => Ok(VList(rest))
    case Err(e) => Err(e)
  }

  /** The string branch of `_subtract` with the evident intent: remove a
      suffix the string ends with, otherwise leave the string alone. */
  function StripSuffix(s: string, t: string): (r: string)
    ensures EndsWith(s, t) ==> r + t == s
    ensures !EndsWith(s, t) ==> r == s
  {
    if EndsWith(s, t) then s[..|s| - |t|] else s
  }

  /** Python's slice `s[:k]`, a negative `k` counting from the end. */
  function PySliceTo(s: string, k: int): (r: string)
    ensures |r| <= |s| && r == s[..|r|]
  {
    if k >= 0 then (if k <= |s| then s[..k] else s)
    else if |s| + k >= 0 then s[..|s| + k] else ""
  }

  /** The string branch of `_subtract` as written: `orig[:-len(arg)]`, which
      for an empty `arg` is `orig[:0]`, the empty string. */
  function StripSuffixAsWritten(s: string, t: string): (r: string)
    ensures t != "" ==> r == StripSuffix(s, t)
    ensures t == "" ==> r == ""
  {
    if EndsWith(s, t) then PySliceTo(s, -|t|) else s
  }

  /** As written, subtracting the empty string erases the whole string,
      although every string ends with it: `"abc" - ""` gives `""`. */
  lemma StripEmptySuffixAsWritten(s: string)
    requires s != ""
    ensures StripSuffixAsWritten(s, "") == "" != s
    ensures StripSuffix(s, "") == s
  {
    assert EndsWith(s, "");
  }

  /** With the corrected suffix removal, `-` undoes `+` on strings, the
      empty string included. */
  lemma SubtractUndoesAddStr(s: string, t: string)
    ensures AddValues(VStr(s), VStr(t)) == Ok(VStr(s + t))
    ensures SubtractValues(VStr(s + t), VStr(t)) == Ok(VStr(s))
  {
    var st := s + t;
    assert st[|st| - |t|..] == t;
    assert st[..|st| - |t|] == s;
  }

  /** `-` undoes `+` on numbers. */
  lemma SubtractUndoesAddNum(a: Value, b: Value)
    requires IsNumber(a) && IsNumber(b)
    ensures AddValues(a, b).Ok? && SubtractValues(AddValues(a, b).value, b) == Ok(VInt(Num(a)))
  {
  }

  /** `-` on lists removes the values `+` appended when they are not
      already present in the original list. */
  lemma SubtractUndoesAddList(xs: seq<Value>, y: Value)
    requires forall j :: 0 <= j < |xs| ==> !PyEq(xs[j], y)
    ensures AddValues(VList(xs), VList([y])) == Ok(VList(xs + [y]))
    ensures SubtractValues(VList(xs + [y]), VList([y])) == Ok(VList(xs))
  {
    var zs := xs + [y];
    PyEqReflexive(y);
    assert PyEq(zs[|xs|], y);
    assert forall j :: 0 <= j < |xs| ==> !PyEq(zs[j], y) by {
      forall j | 0 <= j < |xs|
        ensures !PyEq(zs[j], y)
      {
        assert zs[j] == xs[j];
      }
    }
    assert IndexOf(zs, y) == Some(|xs|);
    assert zs[..|xs|] + zs[|xs| + 1..] == xs;
    assert RemoveEach(zs, [y]) == RemoveEach(xs, []);
  }

  /** `docstring: '+' sets the value if it doesn't exist`: the code does not;
      adding to a missing (`None`) value is a TypeError. */
  lemma AddToMissingFails(arg: Value)
    ensures AddValues(VNone, arg) == Err(TypeError)
  {
  }

  /** `_exists`: the existing value is not `None`. */
  function Exists(orig: Value): (r: bool)
    ensures orig.VNone? ==> !r
    ensures !orig.VNone? ==> r
  {
    orig != VNone
  }

  /** `_not_exists`: the existing value is `None`. */
  function NotExists(orig: Value): (r: bool)
    ensures r == !Exists(orig)
  {
    orig == VNone
  }

  /** A registered action: a built-in or a caller-supplied callable taking
      the existing and the new value. */
  datatype ActionFn =
    | AddAction
    | SubtractAction
    | CustomAction(f: (Value, Value) -> Result<Value>)

  /** A registered modifier: a built-in or a caller-supplied predicate over
      (action symbol, true key, existing value, new value). */
  datatype ModifierFn =
    | ExistsModifier
    | NotExistsModifier
    | CustomModifier(p: (Option<char>, string, Value, Value) -> bool)

  /** Calls the callable registered for an action symbol. */
  function CallAction(a: ActionFn, orig: Value, arg: Value): (r: Result<Value>)
    ensures a.AddAction? ==> r == AddValues(orig, arg)
    ensures a.SubtractAction? ==> r == SubtractValues(orig, arg)
    ensures a.CustomAction? ==> r == a.f(orig, arg)
  {
    match a
    case AddAction => AddValues(orig, arg)
    case SubtractAction => SubtractValues(orig, arg)
    case CustomAction(f) => f(orig, arg)
  }

  function CallModifier(m: ModifierFn, action: Option<char>, key: string, orig: Value, arg: Value): bool
  {
    match m
    case ExistsModifier => Exists(orig)
    case NotExistsModifier => NotExists(orig)
    case CustomModifier(p) => p(action, key, orig, arg)
  }

  /** `?` and `!` are complementary, and a missing key (read with
      `dict.get`) counts as `None`. */
  lemma ExistsModifiers(m: map<string, Value>, key: string, action: Option<char>, arg: Value)
    ensures CallModifier(ExistsModifier, action, key, GetOrNone(m, key), arg) <==> key in m && m[key] != VNone
    ensures CallModifier(NotExistsModifier, action, key, GetOrNone(m, key), arg) <==>
            !CallModifier(ExistsModifier, action, key, GetOrNone(m, key), arg)
  {
  }
}
