/** The key grammar of the advanced configuration: a key is
    `[modifiers*][action?][lock?]word`, matched the way the anchored regular
    expression `^([mods]+)?([acts])?(#)?(\w+)$` that `_compile` builds
    matches it: leftmost groups greedy, backtracking to shorter choices. */
module Grammar {
  import opened Values

  /** `\w` on ASCII: letters, digits and the underscore. */
  predicate IsWordChar(c: char)
  {
    ('a' <= c <= 'z') || ('A' <= c <= 'Z') || ('0' <= c <= '9') || c == '_'
  }

  /** `\w+`: a non-empty run of word characters. */
  predicate IsWord(s: string)
  {
    |s| > 0 && forall i :: 0 <= i < |s| ==> IsWordChar(s[i])
  }

  /** The compiled pattern: the character classes of the modifier and
      action groups, and the lock symbol. */
  datatype Grammar = Grammar(modifiers: set<char>, actions: set<char>, lock: char)

  /** `SeparatedKey`: the raw key and its four groups. An absent modifier
      group is the empty string, an absent lock group is `false`. */
  datatype SepKey = SepKey(key: string, modifiers: string, action: Option<char>, lock: bool, trueKey: string)

  /** `(\w+)$`; `$` also matches just before a final newline, which is then
      left out of the word. */
  function MatchWord(s: string): (r: Option<(string, bool)>)
    ensures r.Some? ==> IsWord(r.value.0) && s == r.value.0 + (if r.value.1 then "\n" else "")
  {
    if IsWord(s) then Some((s, false))
    else if |s| >= 2 && s[|s| - 1] == '\n' && IsWord(s[..|s| - 1]) then Some((s[..|s| - 1], true))
    else None
  }

  /** `(#)?(\w+)$`: the lock group is tried first, then skipped. */
  function MatchLock(g: Grammar, s: string): (r: Option<(bool, string, bool)>)
    ensures r.Some? ==> IsWord(r.value.1)
    ensures r.Some? ==> s == LockTail(g, r.value.0, r.value.1, r.value.2)
  {
    if |s| > 0 && s[0] == g.lock && MatchWord(s[1..]).Some? then
      var w := MatchWord(s[1..]).value;
      assert s == [s[0]] + s[1..];
      Some((true, w.0, w.1))
    else match MatchWord(s)
      case Some(w) => Some((false, w.0, w.1))
      case None => None
  }

  /** `([acts])?(#)?(\w+)$`: the action group is tried first, then skipped. */
  function MatchAction(g: Grammar, s: string): (r: Option<(Option<char>, bool, string, bool)>)
    ensures r.Some? ==> IsWord(r.value.2) && (r.value.0.Some? ==> r.value.0.value in g.actions)
    ensures r.Some? ==> s == Tail(g, r.value.0, r.value.1, r.value.2, r.value.3)
  {
    if |s| > 0 && s[0] in g.actions && MatchLock(g, s[1..]).Some? then
      var l := MatchLock(g, s[1..]).value;
      assert s == [s[0]] + s[1..];
      Some((Some(s[0]), l.0, l.1, l.2))
    else match MatchLock(g, s)
      case Some(l) =>
        assert Tail(g, None, l.0, l.1, l.2) == LockTail(g, l.0, l.1, l.2);
        Some((None, l.0, l.1, l.2))
      case None => None
  }

  /** Length of the longest run of modifier symbols at the start of `s`. */
  function ModifierRun(g: Grammar, s: string): (n: nat)
    ensures n <= |s| && (forall i :: 0 <= i < n ==> s[i] in g.modifiers)
    ensures n < |s| ==> s[n] !in g.modifiers
  {
    if |s| > 0 && s[0] in g.modifiers then 1 + ModifierRun(g, s[1..]) else 0
  }

  /** The modifier group takes `n` symbols, then fewer, down to none. */
  function MatchFrom(g: Grammar, key: string, n: nat): (r: Option<SepKey>)
    requires n <= |key| && forall i :: 0 <= i < n ==> key[i] in g.modifiers
    ensures r.Some? ==> WellFormed(g, r.value) && r.value.key == key
    decreases n
  {
    match MatchAction(g, key[n..])
    case Some(a) =>
      assert key == key[..n] + Tail(g, a.0, a.1, a.2, a.3);
      assert key == Compose(g, key[..n], a.0, a.1, a.2, a.3);
      Some(SepKey(key, key[..n], a.0, a.1, a.2))
    case None => if n == 0 then None else MatchFrom(g, key, n - 1)
  }

  /** The raw text a decomposition stands for, with or without the final
      newline that `$` lets through. */
  function Compose(g: Grammar, modifiers: string, action: Option<char>, lock: bool, trueKey: string, newline: bool)
    : string
  {
    modifiers + Tail(g, action, lock, trueKey, newline)
  }

  /** The part of a raw key after its modifiers. */
  function Tail(g: Grammar, action: Option<char>, lock: bool, trueKey: string, newline: bool): string
  {
    (if action.Some? then [action.value] else []) + LockTail(g, lock, trueKey, newline)
  }

  /** The part of a raw key after its modifiers and action. */
  function LockTail(g: Grammar, lock: bool, trueKey: string, newline: bool): string
  {
    (if lock then [g.lock] else []) + trueKey + (if newline then "\n" else "")
  }

  /** A separated key whose groups are drawn from the grammar and spell its
      raw key. */
  predicate WellFormed(g: Grammar, sk: SepKey)
  {
    (forall i :: 0 <= i < |sk.modifiers| ==> sk.modifiers[i] in g.modifiers) &&
    (sk.action.Some? ==> sk.action.value in g.actions) &&
    IsWord(sk.trueKey) &&
    (sk.key == Compose(g, sk.modifiers, sk.action, sk.lock, sk.trueKey, false) ||
     sk.key == Compose(g, sk.modifiers, sk.action, sk.lock, sk.trueKey, true))
  }

  /** `_separate`: ValueError unless the key matches the pattern; on success
      the groups concatenate back to the key. */
  function Separate(g: Grammar, key: string): (r: Result<SepKey>)
    ensures r.Ok? ==> WellFormed(g, r.value) && r.value.key == key
    ensures r.Err? ==> r.error == ValueError
  {
    match MatchFrom(g, key, ModifierRun(g, key))
    case Some(sk) => Ok(sk)
    case None => Err(ValueError)
  }

  /** `_separate` succeeds on every key that has a decomposition into
      modifiers, an optional action, an optional lock and a word: together
      with `Separate`'s contract, it succeeds exactly on such keys. */
  lemma SeparateComplete(g: Grammar, key: string, modifiers: string, action: Option<char>, lock: bool,
                         trueKey: string, newline: bool)
    requires forall i :: 0 <= i < |modifiers| ==> modifiers[i] in g.modifiers
    requires action.Some? ==> action.value in g.actions
    requires IsWord(trueKey)
    requires key == Compose(g, modifiers, action, lock, trueKey, newline)
    ensures Separate(g, key).Ok?
  {
    var m := |modifiers|;
    var rest := Tail(g, action, lock, trueKey, newline);
    assert key == modifiers + rest;
    assert key[..m] == modifiers && key[m..] == rest;
    ModifierRunCovers(g, key, m);
    MatchActionComplete(g, rest, action, lock, trueKey, newline);
    MatchFromComplete(g, key, ModifierRun(g, key), m);
  }

  lemma {:induction false} ModifierRunCovers(g: Grammar, s: string, m: nat)
    requires m <= |s| && forall i :: 0 <= i < m ==> s[i] in g.modifiers
    ensures m <= ModifierRun(g, s)
  {
    if m > 0 {
      ModifierRunCovers(g, s[1..], m - 1);
    }
  }

  lemma {:induction false} MatchFromComplete(g: Grammar, key: string, n: nat, m: nat)
    requires n <= |key| && forall i :: 0 <= i < n ==> key[i] in g.modifiers
    requires m <= n && MatchAction(g, key[m..]).Some?
    ensures MatchFrom(g, key, n).Some?
    decreases n
  {
    if MatchAction(g, key[n..]).None? {
      assert n != m;
      var k := n - 1;
      MatchFromComplete(g, key, k, m);
      MatchFromSkips(g, key, n, k);
    }
  }

  lemma MatchFromSkips(g: Grammar, key: string, n: nat, k: nat)
    requires n <= |key| && forall i :: 0 <= i < n ==> key[i] in g.modifiers
    requires k + 1 == n && MatchAction(g, key[n..]).None?
    ensures MatchFrom(g, key, n) == MatchFrom(g, key, k)
  {
    match MatchAction(g, key[n..])
    case None =>
      assert MatchFrom(g, key, n) == MatchFrom(g, key, n - 1);
  }

  lemma MatchWordComplete(w: string, newline: bool)
    requires IsWord(w)
    ensures MatchWord(w + (if newline then "\n" else "")).Some?
  {
    if newline {
      var s := w + "\n";
      assert s[..|s| - 1] == w;
      assert !IsWordChar(s[|s| - 1]);
    } else {
      assert w + "" == w;
    }
  }

  lemma MatchLockComplete(g: Grammar, s: string, lock: bool, w: string, newline: bool)
    requires IsWord(w) && s == LockTail(g, lock, w, newline)
    ensures MatchLock(g, s).Some?
  {
    MatchWordComplete(w, newline);
    if lock {
      assert s[1..] == w + (if newline then "\n" else "");
    } else {
      assert s == w + (if newline then "\n" else "");
    }
  }

  lemma MatchActionComplete(g: Grammar, s: string, action: Option<char>, lock: bool, w: string, newline: bool)
    requires IsWord(w) && (action.Some? ==> action.value in g.actions)
    requires s == Tail(g, action, lock, w, newline)
    ensures MatchAction(g, s).Some?
  {
    var tail := LockTail(g, lock, w, newline);
    MatchLockComplete(g, tail, lock, w, newline);
    if action.Some? {
      assert s == [action.value] + tail;
      assert s[1..] == tail;
    } else {
      assert s == tail;
    }
  }

  /** A plain word key, when no symbol of the grammar is a word character,
      separates into itself with no modifier, action or lock. */
  lemma SeparatePlainWord(g: Grammar, key: string)
    requires IsWord(key)
    requires forall c :: c in g.modifiers + g.actions ==> !IsWordChar(c)
    requires !IsWordChar(g.lock)
    ensures Separate(g, key) == Ok(SepKey(key, "", None, false, key))
  {
    assert IsWordChar(key[0]);
    assert ModifierRun(g, key) == 0;
    assert key[0..] == key;
  }
}
