/**
 Flattening loses nothing on trees whose keys cannot be mistaken for paths: every leaf is
 listed under a path string of its own.
 */
module FlattenLossless {
  import opened Wrappers
  import opened Decimals
  import opened StringOrder
  import opened ConfigTree

  datatype Token = Key(key: string) | Index(index: nat)

  predicate IsDigit(c: char) {
    '0' <= c <= '9'
  }

  predicate HasDigit(chars: set<char>) {
    exists c :: c in chars && IsDigit(c)
  }

  /** Keys over these characters cannot be mistaken for a longer path: no dot, and no text that looks like an index. */
  predicate Unambiguous(chars: set<char>) {
    '.' !in chars && !('[' in chars && ']' in chars && HasDigit(chars))
  }

  predicate KeyOver(k: string, chars: set<char>) {
    k != "" && forall i :: 0 <= i < |k| ==> k[i] in chars
  }

  /** Every key of the tree is a non-empty text over the characters. */
  predicate KeysOver(v: Yaml, chars: set<char>) {
    match v
    case Scalar(_) => true
    case List(items) => forall i :: 0 <= i < |items| ==> KeysOver(items[i], chars)
    case Map(entries) => forall k :: k in entries ==> KeyOver(k, chars) && KeysOver(entries[k], chars)
  }

  predicate PathOver(path: seq<Token>, chars: set<char>) {
    forall i :: 0 <= i < |path| ==> path[i].Key? ==> KeyOver(path[i].key, chars)
  }

  function Extend(prefix: string, t: Token): string {
    match t
    case Key(k) => KeyPath(prefix, k)
    case Index(i) => IndexPath(prefix, i)
  }

  /** The path string of a sequence of tokens. */
  function Render(path: seq<Token>): string {
    if path == [] then "" else Extend(Render(path[..|path| - 1]), path[|path| - 1])
  }

  // ---------- path strings are unambiguous ----------

  predicate All(s: string, plain: char -> bool) {
    forall i :: 0 <= i < |s| ==> plain(s[i])
  }

  predicate EndsBefore(s: string, plain: char -> bool) {
    s != "" ==> !plain(s[|s| - 1])
  }

  /** A text splits in one way only into a part that ends in another character and a plain part. */
  lemma SplitUnique(a: string, x: string, b: string, y: string, plain: char -> bool)
    requires a + x == b + y && All(x, plain) && All(y, plain) && EndsBefore(a, plain) && EndsBefore(b, plain)
    ensures a == b && x == y
  {
    var s := a + x;
    assert forall i :: |a| <= i < |s| ==> plain(s[i]);
    assert forall i :: |b| <= i < |b + y| ==> plain((b + y)[i]);
    assert a != "" ==> !plain(s[|a| - 1]);
    assert b != "" ==> !plain((b + y)[|b| - 1]);
    assert a == s[..|a|] && b == (b + y)[..|b|];
    assert x == s[|a|..] && y == (b + y)[|b|..];
  }

  /** An ending without a dot lies behind the last dot. */
  lemma EndingInside(before: string, k: string, b: string, ending: string)
    requires before + k == b + ending && '.' !in ending && (before == "" || before[|before| - 1] == '.')
    ensures |ending| <= |k| && k == k[..|k| - |ending|] + ending
  {
    var s := before + k;
    assert before != "" ==> s[|before| - 1] == '.';
    assert forall j :: 0 <= j < |ending| ==> (b + ending)[|b| + j] == ending[j];
    assert |ending| <= |k|;
    assert k == s[|before|..] && ending == (b + ending)[|b|..];
  }

  /** A key that can be mistaken for an index holds both brackets and a digit. */
  lemma KeyLikeIndex(a: string, k: string, b: string, i: nat)
    requires k != "" && KeyPath(a, k) == IndexPath(b, i)
    ensures '[' in k && ']' in k && exists j :: 0 <= j < |k| && IsDigit(k[j])
  {
    DecimalRoundTrip(i);
    var before := if a == "" then "" else a + ".";
    var ending := "[" + Decimal(i) + "]";
    assert before + k == KeyPath(a, k) && b + ending == IndexPath(b, i);
    EndingInside(before, k, b, ending);
    assert ending[0] == '[' && ending[1] == Decimal(i)[0] && ending[|ending| - 1] == ']';
    assert forall j :: 0 <= j < |ending| ==> k[|k| - |ending| + j] == ending[j];
    assert IsDigit(k[|k| - |ending| + 1]);
  }

  /** A path string that ends in a key never looks like one that ends in an index. */
  lemma KeyIsNotIndex(a: string, k: string, b: string, i: nat, chars: set<char>)
    requires Unambiguous(chars) && KeyOver(k, chars)
    ensures KeyPath(a, k) != IndexPath(b, i)
  {
    if KeyPath(a, k) == IndexPath(b, i) {
      KeyLikeIndex(a, k, b, i);
    }
  }

  lemma KeyPathInjective(a: string, k: string, b: string, l: string)
    requires k != "" && l != "" && '.' !in k && '.' !in l
    requires KeyPath(a, k) == KeyPath(b, l)
    ensures a == b && k == l
  {
    var x := if a == "" then "" else a + ".";
    var y := if b == "" then "" else b + ".";
    assert x + k == KeyPath(a, k) && y + l == KeyPath(b, l);
    SplitUnique(x, k, y, l, c => c != '.');
    assert a == if x == "" then "" else x[..|x| - 1];
    assert b == if y == "" then "" else y[..|y| - 1];
  }

  lemma IndexPathInjective(a: string, i: nat, b: string, j: nat)
    requires IndexPath(a, i) == IndexPath(b, j)
    ensures a == b && i == j
  {
    DecimalRoundTrip(i);
    DecimalRoundTrip(j);
    var s, t := IndexPath(a, i), IndexPath(b, j);
    assert s[..|s| - 1] == (a + "[") + Decimal(i);
    assert t[..|t| - 1] == (b + "[") + Decimal(j);
    SplitUnique(a + "[", Decimal(i), b + "[", Decimal(j), IsDigit);
    assert a == (a + "[")[..|a|] && b == (b + "[")[..|b|];
  }

  lemma {:induction false} RenderInjective(p: seq<Token>, q: seq<Token>, chars: set<char>)
    requires Unambiguous(chars) && PathOver(p, chars) && PathOver(q, chars) && Render(p) == Render(q)
    ensures p == q
    decreases |p|
  {
    if p != [] && q != [] {
      var p', s := p[..|p| - 1], p[|p| - 1];
      var q', t := q[..|q| - 1], q[|q| - 1];
      ExtendInjective(Render(p'), s, Render(q'), t, chars);
      RenderInjective(p', q', chars);
      assert p == p' + [s] && q == q' + [t];
    }
  }

  lemma ExtendInjective(a: string, s: Token, b: string, t: Token, chars: set<char>)
    requires Unambiguous(chars)
    requires s.Key? ==> KeyOver(s.key, chars)
    requires t.Key? ==> KeyOver(t.key, chars)
    requires Extend(a, s) == Extend(b, t)
    ensures a == b && s == t
  {
    match (s, t)
    case (Key(k), Key(l)) => KeyPathInjective(a, k, b, l);
    case (Index(i), Index(j)) => IndexPathInjective(a, i, b, j);
    case (Key(k), Index(j)) => KeyIsNotIndex(a, k, b, j, chars);
    case (Index(i), Key(l)) => KeyIsNotIndex(b, l, a, i, chars);
  }

  // ---------- leaves ----------

  /** The leaf at a path, if the path ends at one. */
  function Leaf(v: Yaml, path: seq<Token>): Option<Yaml>
    decreases |path|
  {
    if path == [] then if IsLeaf(v) then Some(v) else None
    else match (v, path[0])
      case (Map(entries), Key(k)) => if k in entries then Leaf(entries[k], path[1..]) else None
      case (List(items), Index(i)) => if i < |items| then Leaf(items[i], path[1..]) else None
      case _ => None
  }

  lemma {:induction false} LeafPathGood(v: Yaml, path: seq<Token>, chars: set<char>)
    requires KeysOver(v, chars) && Leaf(v, path).Some?
    ensures PathOver(path, chars)
    decreases |path|
  {
    if path != [] {
      var t := path[0];
      LeafPathGood(if t.Key? then v.entries[t.key] else v.items[t.index], path[1..], chars);
      assert path == [t] + path[1..];
    }
  }

  lemma {:induction false} SomeLeaf(v: Yaml) returns (path: seq<Token>)
    ensures Leaf(v, path).Some?
  {
    if IsLeaf(v) {
      path := [];
    } else if v.Map? {
      var k :| k in v.entries;
      var rest := SomeLeaf(v.entries[k]);
      path := [Key(k)] + rest;
    } else {
      var rest := SomeLeaf(v.items[0]);
      path := [Index(0)] + rest;
    }
  }

  /** The child at `t`, whether it is an entry or an item. */
  predicate HasChild(v: Yaml, t: Token) {
    (v.Map? && t.Key? && t.key in v.entries) || (v.List? && t.Index? && t.index < |v.items|)
  }

  function Child(v: Yaml, t: Token): Yaml
    requires HasChild(v, t)
  {
    if t.Key? then v.entries[t.key] else v.items[t.index]
  }

  ghost predicate LeafPathsOver(v: Yaml, chars: set<char>) {
    forall path :: Leaf(v, path).Some? ==> PathOver(path, chars)
  }

  lemma ChildPathsOver(v: Yaml, t: Token, chars: set<char>)
    requires HasChild(v, t) && LeafPathsOver(v, chars)
    ensures (t.Key? ==> KeyOver(t.key, chars)) && LeafPathsOver(Child(v, t), chars)
  {
    var some := SomeLeaf(Child(v, t));
    assert ([t] + some)[1..] == some && PathOver([t] + some, chars);
    assert ([t] + some)[0] == t;
    forall path | Leaf(Child(v, t), path).Some?
      ensures PathOver(path, chars)
    {
      assert ([t] + path)[1..] == path && PathOver([t] + path, chars);
      assert forall i :: 0 <= i < |path| ==> path[i] == ([t] + path)[i + 1];
    }
  }

  /** The keys of a tree are over the characters exactly when those on the way to every leaf are. */
  lemma {:induction false} KeysMean(v: Yaml, chars: set<char>)
    ensures KeysOver(v, chars) <==> LeafPathsOver(v, chars)
    decreases v
  {
    if KeysOver(v, chars) {
      forall path | Leaf(v, path).Some?
        ensures PathOver(path, chars)
      {
        LeafPathGood(v, path, chars);
      }
    }
    if LeafPathsOver(v, chars) {
      if v.Map? {
        forall k | k in v.entries
          ensures KeyOver(k, chars) && KeysOver(v.entries[k], chars)
        {
          ChildPathsOver(v, Key(k), chars);
          KeysMean(v.entries[k], chars);
        }
      } else if v.List? {
        forall i | 0 <= i < |v.items|
          ensures KeysOver(v.items[i], chars)
        {
          ChildPathsOver(v, Index(i), chars);
          KeysMean(v.items[i], chars);
        }
      }
    }
  }

  // ---------- what flatten computes ----------

  ghost predicate Starts(path: seq<Token>, first: iset<Token>) {
    path == [] || path[0] in first
  }

  lemma RenderStep(pre: seq<Token>, t: Token)
    ensures Render(pre + [t]) == Extend(Render(pre), t)
  {
    assert (pre + [t])[..|pre|] == pre;
  }

  ghost const ALL: iset<Token> := iset t: Token | true

  /** Every leaf of `v` at a path that starts in `first` is in the table. */
  ghost predicate Covers(table: Table, v: Yaml, pre: seq<Token>, first: iset<Token>) {
    forall path :: Leaf(v, path).Some? && Starts(path, first) ==>
      Render(pre + path) in table && table[Render(pre + path)] == Leaf(v, path).value
  }

  ghost predicate Names(v: Yaml, pre: seq<Token>, first: iset<Token>, s: string) {
    exists path :: Leaf(v, path).Some? && Starts(path, first) && s == Render(pre + path)
  }

  /** `table` holds the leaf of `v` at every path that starts in `first`, or at the root, and nothing else. */
  ghost predicate Holds(table: Table, v: Yaml, pre: seq<Token>, first: iset<Token>) {
    Covers(table, v, pre, first) && forall s :: s in table ==> Names(v, pre, first, s)
  }

  lemma NamedPath(v: Yaml, pre: seq<Token>, first: iset<Token>, s: string) returns (path: seq<Token>)
    requires Names(v, pre, first, s)
    ensures Leaf(v, path).Some? && Starts(path, first) && s == Render(pre + path)
  {
    path :| Leaf(v, path).Some? && Starts(path, first) && s == Render(pre + path);
  }

  /** A path through another child is not in the table of the child at `t`. */
  lemma NotInChild(child: Table, v: Yaml, pre: seq<Token>, t: Token, path: seq<Token>, chars: set<char>)
    requires Unambiguous(chars) && KeysOver(v, chars) && PathOver(pre, chars) && HasChild(v, t)
    requires forall s :: s in child ==> Names(Child(v, t), pre + [t], ALL, s)
    requires Leaf(v, path).Some? && path != [] && path[0] != t
    ensures Render(pre + path) !in child
  {
    if Render(pre + path) in child {
      var rest := NamedPath(Child(v, t), pre + [t], ALL, Render(pre + path));
      OtherChild(v, pre, path, t, rest, chars);
    }
  }

  lemma ChildCovers(table: Table, child: Table, v: Yaml, pre: seq<Token>, first: iset<Token>, t: Token, path: seq<Token>, chars: set<char>)
    requires Unambiguous(chars) && KeysOver(v, chars) && PathOver(pre, chars) && !IsLeaf(v) && HasChild(v, t)
    requires Covers(table, v, pre, first) && Holds(child, Child(v, t), pre + [t], ALL)
    requires Leaf(v, path).Some? && Starts(path, first + iset{t})
    ensures Render(pre + path) in table + child && (table + child)[Render(pre + path)] == Leaf(v, path).value
  {
    if path[0] == t {
      assert pre + path == (pre + [t]) + path[1..];
      assert Starts(path[1..], ALL);
    } else {
      NotInChild(child, v, pre, t, path, chars);
    }
  }

  lemma ChildNames(v: Yaml, pre: seq<Token>, first: iset<Token>, t: Token, s: string)
    requires HasChild(v, t) && Names(Child(v, t), pre + [t], ALL, s)
    ensures Names(v, pre, first + iset{t}, s)
  {
    var rest := NamedPath(Child(v, t), pre + [t], ALL, s);
    assert (pre + [t]) + rest == pre + ([t] + rest);
    assert ([t] + rest)[1..] == rest;
    assert Leaf(v, [t] + rest) == Leaf(Child(v, t), rest);
  }

  /** Adding the table of one more child. */
  lemma AddChild(table: Table, child: Table, v: Yaml, pre: seq<Token>, first: iset<Token>, t: Token, chars: set<char>)
    requires Unambiguous(chars) && KeysOver(v, chars) && PathOver(pre, chars) && !IsLeaf(v) && HasChild(v, t)
    requires Holds(table, v, pre, first) && Holds(child, Child(v, t), pre + [t], ALL)
    ensures Holds(table + child, v, pre, first + iset{t})
  {
    forall path | Leaf(v, path).Some? && Starts(path, first + iset{t})
      ensures Render(pre + path) in table + child && (table + child)[Render(pre + path)] == Leaf(v, path).value
    {
      ChildCovers(table, child, v, pre, first, t, path, chars);
    }
    forall s | s in table + child
      ensures Names(v, pre, first + iset{t}, s)
    {
      if s in child {
        ChildNames(v, pre, first, t, s);
      } else {
        WiderNames(v, pre, first, t, s);
      }
    }
  }

  lemma WiderNames(v: Yaml, pre: seq<Token>, first: iset<Token>, t: Token, s: string)
    requires Names(v, pre, first, s)
    ensures Names(v, pre, first + iset{t}, s)
  {
    var path := NamedPath(v, pre, first, s);
    assert Starts(path, first + iset{t});
  }

  /** Paths through different children never share a path string. */
  lemma OtherChild(v: Yaml, pre: seq<Token>, path: seq<Token>, t: Token, rest: seq<Token>, chars: set<char>)
    requires Unambiguous(chars) && KeysOver(v, chars) && PathOver(pre, chars) && HasChild(v, t) && Leaf(v, path).Some? && Leaf(Child(v, t), rest).Some?
    requires path != [] && path[0] != t
    ensures Render(pre + path) != Render((pre + [t]) + rest)
  {
    LeafPathGood(v, path, chars);
    assert Leaf(v, [t] + rest) == Leaf(Child(v, t), rest);
    LeafPathGood(v, [t] + rest, chars);
    assert (pre + [t]) + rest == pre + ([t] + rest);
    assert (pre + path)[|pre|] == path[0];
    assert (pre + ([t] + rest))[|pre|] == t;
    if Render(pre + path) == Render(pre + ([t] + rest)) {
      RenderInjective(pre + path, pre + ([t] + rest), chars);
    }
  }

  ghost function KeySet(keys: seq<string>): iset<Token> {
    iset t: Token | t.Key? && t.key in keys
  }

  ghost function IndexSet(n: nat): iset<Token> {
    iset t: Token | t.Index? && t.index < n
  }

  lemma {:induction false} EntriesHold(v: Yaml, keys: seq<string>, pre: seq<Token>, chars: set<char>)
    requires v.Map? && Unambiguous(chars) && KeysOver(v, chars) && PathOver(pre, chars) && !IsLeaf(v)
    requires forall k :: k in keys ==> k in v.entries
    requires Distinct(keys)
    ensures Holds(FlattenEntries(v, keys, Render(pre)), v, pre, KeySet(keys))
    decreases v, 0, |keys|
  {
    if keys == [] {
      assert KeySet(keys) == iset{};
    } else {
      var init, last := keys[..|keys| - 1], keys[|keys| - 1];
      EntriesHold(v, init, pre, chars);
      RenderStep(pre, Key(last));
      FlattenHolds(v.entries[last], pre + [Key(last)], chars);
      AddChild(FlattenEntries(v, init, Render(pre)), Flatten(v.entries[last], KeyPath(Render(pre), last)), v, pre, KeySet(init), Key(last), chars);
      assert KeySet(keys) == KeySet(init) + iset{Key(last)};
    }
  }

  lemma {:induction false} ItemsHold(v: Yaml, n: nat, pre: seq<Token>, chars: set<char>)
    requires v.List? && Unambiguous(chars) && KeysOver(v, chars) && PathOver(pre, chars) && !IsLeaf(v) && n <= |v.items|
    ensures Holds(FlattenItems(v, n, Render(pre)), v, pre, IndexSet(n))
    decreases v, 0, n
  {
    if n == 0 {
      assert IndexSet(n) == iset{};
    } else {
      ItemsHold(v, n - 1, pre, chars);
      RenderStep(pre, Index(n - 1));
      FlattenHolds(v.items[n - 1], pre + [Index(n - 1)], chars);
      AddChild(FlattenItems(v, n - 1, Render(pre)), Flatten(v.items[n - 1], IndexPath(Render(pre), n - 1)), v, pre, IndexSet(n - 1), Index(n - 1), chars);
      assert IndexSet(n) == IndexSet(n - 1) + iset{Index(n - 1)};
    }
  }

  /** `flatten` lists every leaf under its own path string, and nothing else. */
  lemma {:induction false} FlattenHolds(v: Yaml, pre: seq<Token>, chars: set<char>)
    requires Unambiguous(chars) && KeysOver(v, chars) && PathOver(pre, chars)
    ensures Holds(Flatten(v, Render(pre)), v, pre, ALL)
    decreases v, 1, 0
  {
    if IsLeaf(v) {
      LeafHolds(v, pre);
    } else if v.Map? {
      var keys := Sorted(v.entries.Keys);
      SortedDistinct(v.entries.Keys);
      EntriesHold(v, keys, pre, chars);
      assert forall path :: Leaf(v, path).Some? ==> Starts(path, KeySet(keys));
      HoldsAll(Flatten(v, Render(pre)), v, pre, KeySet(keys));
    } else {
      ItemsHold(v, |v.items|, pre, chars);
      assert forall path :: Leaf(v, path).Some? ==> Starts(path, IndexSet(|v.items|));
      HoldsAll(Flatten(v, Render(pre)), v, pre, IndexSet(|v.items|));
    }
  }

  lemma LeafHolds(v: Yaml, pre: seq<Token>)
    requires IsLeaf(v)
    ensures Holds(map[Render(pre) := v], v, pre, ALL)
  {
    assert pre + [] == pre;
    assert forall path :: Leaf(v, path).Some? ==> path == [];
    assert Leaf(v, []).Some? && Starts([], ALL);
    assert Names(v, pre, ALL, Render(pre));
  }

  lemma HoldsAll(table: Table, v: Yaml, pre: seq<Token>, first: iset<Token>)
    requires Holds(table, v, pre, first)
    requires forall path :: Leaf(v, path).Some? ==> Starts(path, first)
    ensures Holds(table, v, pre, ALL)
  {
    forall s | s in table
      ensures Names(v, pre, ALL, s)
    {
      var path := NamedPath(v, pre, first, s);
      assert Starts(path, ALL);
    }
  }
}
