/** What follows from the trace of a path: which paths are answered, when the answer is ordinary
    lookup, and when it is another field's number. */
module JsonAnswers {
  import opened Options
  import opened Json
  import opened JsonPaths
  import opened JsonTree
  import opened JsonLookup

  predicate IsPath(keys: seq<Key>) {
    keys != [] && forall i | 0 <= i < |keys| :: IsName(keys[i])
  }

  // ---------------------------------------------------------------- which paths are answered

  function Next(at: seq<nat>, c: nat): nat
    requires c <= |at|
  {
    if c == 0 then 0 else at[c - 1] + 1
  }

  /** Component c leads to field at[c]: the first one behind at[c - 1], at the level of the
      component, whose key contains it; it closes that key, and the value is an object, or a number
      for the last component. */
  ghost predicate Link(es: seq<Item>, level: int, keys: seq<Key>, at: seq<nat>, c: nat)
    requires c < |keys| && c < |at|
  {
    && Next(at, c) <= at[c] < |es|
    && Fits(es[at[c]], level + c, keys[c]) && Closes(es[at[c]].key, keys[c])
    && (forall j | Next(at, c) <= j < at[c] :: !Fits(es[j], level + c, keys[c]))
    && (es[at[c]].value.Object? <==> c + 1 < |keys|)
  }

  ghost predicate Chain(es: seq<Item>, level: int, keys: seq<Key>, at: seq<nat>) {
    |at| == |keys| && forall c | 0 <= c < |keys| :: Link(es, level, keys, at, c)
  }

  ghost predicate Chained(es: seq<Item>, level: int, keys: seq<Key>) {
    exists at :: Chain(es, level, keys, at)
  }

  /** The trace comes to a number. */
  predicate Answered(tr: Traced, key: Key) {
    tr.Reached? && !AtItem(tr.item, key).Error?
  }

  lemma FirstFitIs(es: seq<Item>, level: int, key: Key, i: nat)
    requires i < |es| && Fits(es[i], level, key) && forall j | 0 <= j < i :: !Fits(es[j], level, key)
    ensures FirstFit(es, level, key) == i
  {
  }

  function Shifted(at: seq<nat>, n: nat): (r: seq<nat>)
    ensures |r| == |at| && forall c | 0 <= c < |at| :: r[c] == at[c] + n
  {
    seq(|at|, c requires 0 <= c < |at| => at[c] + n)
  }

  /** A chain behind the first link. */
  lemma ChainLonger(es: seq<Item>, level: int, keys: seq<Key>, i: nat, at: seq<nat>)
    requires |keys| > 1 && i < |es| && i == FirstFit(es, level, keys[0])
    requires Closes(es[i].key, keys[0]) && es[i].value.Object?
    requires Chain(es[i + 1..], level + 1, keys[1..], at)
    ensures Chain(es, level, keys, [i] + Shifted(at, i + 1))
  {
    var all := [i] + Shifted(at, i + 1);
    forall c | 0 <= c < |keys|
      ensures Link(es, level, keys, all, c)
    {
      if c > 0 {
        LinkLonger(es, level, keys, i + 1, at, all, c - 1);
      }
    }
  }

  lemma LinkLonger(es: seq<Item>, level: int, keys: seq<Key>, n: nat, at: seq<nat>, all: seq<nat>, c: nat)
    requires n <= |es| && |all| == |keys| == |at| + 1 && c < |at|
    requires all[0] + 1 == n && forall d | 0 <= d < |at| :: all[d + 1] == at[d] + n
    requires Link(es[n..], level + 1, keys[1..], at, c)
    ensures Link(es, level, keys, all, c + 1)
  {
    assert Next(all, c + 1) == Next(at, c) + n;
    assert es[all[c + 1]] == es[n..][at[c]];
    forall j | Next(all, c + 1) <= j < all[c + 1]
      ensures !Fits(es[j], level + (c + 1), keys[c + 1])
    {
      assert es[j] == es[n..][j - n];
    }
  }

  lemma {:induction false} Increasing(es: seq<Item>, level: int, keys: seq<Key>, at: seq<nat>, c: nat)
    requires Chain(es, level, keys, at) && 0 < c < |keys|
    ensures at[c] > at[0]
  {
    assert Link(es, level, keys, at, c);
    if c > 1 {
      Increasing(es, level, keys, at, c - 1);
    }
  }

  lemma ChainShorter(es: seq<Item>, level: int, keys: seq<Key>, at: seq<nat>) returns (rest: seq<nat>)
    requires |keys| > 1 && Chain(es, level, keys, at)
    ensures at[0] < |es| && FirstFit(es, level, keys[0]) == at[0]
    ensures Closes(es[at[0]].key, keys[0]) && es[at[0]].value.Object?
    ensures Chain(es[at[0] + 1..], level + 1, keys[1..], rest)
  {
    var i := at[0];
    assert Link(es, level, keys, at, 0);
    FirstFitIs(es, level, keys[0], i);
    forall c | 0 <= c < |at[1..]|
      ensures at[1..][c] > i
    {
      Increasing(es, level, keys, at, c + 1);
    }
    rest := seq(|at[1..]|, c requires 0 <= c < |at[1..]| => at[1..][c] - (i + 1));
    var es', level', keys' := es[i + 1..], level + 1, keys[1..];
    forall c | 0 <= c < |rest|
      ensures Link(es', level', keys', rest, c)
    {
      LinkShorter(es, level, keys, at, rest, c);
    }
  }

  lemma LinkShorter(es: seq<Item>, level: int, keys: seq<Key>, at: seq<nat>, rest: seq<nat>, c: nat)
    requires Chain(es, level, keys, at) && |rest| + 1 == |keys| && c < |rest| && at[0] < |es|
    requires forall d | 0 <= d < |rest| :: at[d + 1] == rest[d] + at[0] + 1
    ensures Link(es[at[0] + 1..], level + 1, keys[1..], rest, c)
  {
    var n := at[0] + 1;
    assert Link(es, level, keys, at, c + 1);
    assert Next(at, c + 1) == Next(rest, c) + n;
    assert es[at[c + 1]] == es[n..][rest[c]];
    forall j | Next(rest, c) <= j < rest[c]
      ensures !Fits(es[n..][j], level + 1 + c, keys[1..][c])
    {
      assert es[n..][j] == es[j + n];
    }
  }

  lemma LastAnswered(es: seq<Item>, level: int, keys: seq<Key>)
    requires |keys| == 1
    ensures Answered(Trace(es, level, keys), keys[0]) <==> Chained(es, level, keys)
  {
    var i := FirstFit(es, level, keys[0]);
    if Answered(Trace(es, level, keys), keys[0]) {
      assert Link(es, level, keys, [i], 0);
      assert Chain(es, level, keys, [i]);
    }
    forall at | Chain(es, level, keys, at)
      ensures Answered(Trace(es, level, keys), keys[0])
    {
      assert Link(es, level, keys, at, 0);
      FirstFitIs(es, level, keys[0], at[0]);
    }
  }

  /** A chain of more than one link goes on from the first field that fits. */
  lemma ChainedOn(es: seq<Item>, level: int, keys: seq<Key>, i: nat)
    requires |keys| > 1 && i == FirstFit(es, level, keys[0])
    ensures Chained(es, level, keys) <==>
            i < |es| && Closes(es[i].key, keys[0]) && es[i].value.Object? && Chained(es[i + 1..], level + 1, keys[1..])
  {
    if i < |es| && Closes(es[i].key, keys[0]) && es[i].value.Object? && Chained(es[i + 1..], level + 1, keys[1..]) {
      var at :| Chain(es[i + 1..], level + 1, keys[1..], at);
      ChainLonger(es, level, keys, i, at);
    }
    if Chained(es, level, keys) {
      var at :| Chain(es, level, keys, at);
      var rest := ChainShorter(es, level, keys, at);
    }
  }

  lemma {:induction false} AnsweredIffChained(es: seq<Item>, level: int, keys: seq<Key>)
    requires keys != []
    ensures Answered(Trace(es, level, keys), keys[|keys| - 1]) <==> Chained(es, level, keys)
    decreases |keys|
  {
    if |keys| == 1 {
      LastAnswered(es, level, keys);
    } else {
      var i := FirstFit(es, level, keys[0]);
      ChainedOn(es, level, keys, i);
      if i < |es| {
        TraceStep(es, level, keys, i);
        AnsweredIffChained(es[i + 1..], level + 1, keys[1..]);
      }
    }
  }

  /** For every tree of named fields, every path of names, whether or not it leads anywhere in the
      tree, and every way of writing: json_get_int reports an error if and only if no chain of
      fields, in document order, answers the path. */
  lemma ErrorIffNoChain(t: Tree, keys: seq<Key>, st: Style)
    requires Named(t) && ValidStyle(st) && IsPath(keys)
    ensures GetInt(Written(t, st), PathText(keys)).Error? <==> !Chained(Items(t, 0), 1, keys)
  {
    GetIntIsTraced(t, keys, st);
    AnsweredIffChained(Items(t, 0), 1, keys);
  }

  // ---------------------------------------------------------------- ordinary lookup

  /** The fields inside a value stand further in than the value. */
  lemma {:induction false} ItemsAreDeeper(t: Tree, level: int)
    ensures forall i | 0 <= i < |Items(t, level)| :: Items(t, level)[i].level > level
    decreases t
  {
    if t.Object? {
      FieldItemsAreDeep(t.fields, level + 1);
    }
  }

  lemma {:induction false} FieldItemsAreDeep(fs: Fields, level: int)
    ensures forall i | 0 <= i < |FieldItems(fs, level)| :: FieldItems(fs, level)[i].level >= level
    decreases fs
  {
    if fs.More? {
      ItemsAreDeeper(fs.value, level);
      FieldItemsAreDeep(fs.rest, level);
    }
  }

  lemma {:induction false} FirstFitPast(pre: seq<Item>, es: seq<Item>, level: int, key: Key)
    requires forall i | 0 <= i < |pre| :: !Fits(pre[i], level, key)
    ensures FirstFit(pre + es, level, key) == |pre| + FirstFit(es, level, key)
  {
    if pre == [] {
      assert pre + es == es;
    } else {
      assert (pre + es)[1..] == pre[1..] + es;
      FirstFitPast(pre[1..], es, level, key);
    }
  }

  /** The place of a field among the fields of its object and all that is inside them. */
  function FieldPlace(fs: Fields, key: Key, level: int): nat
    requires Field(fs, key).Some?
  {
    if fs.key == key then 0 else 1 + |Items(fs.value, level)| + FieldPlace(fs.rest, key, level)
  }

  /** What follows a field in its object. */
  function FieldRest(fs: Fields, key: Key): Fields
    requires Field(fs, key).Some?
  {
    if fs.key == key then fs.rest else FieldRest(fs.rest, key)
  }

  lemma ItemsSplit(fs: Fields, level: int, more: seq<Item>)
    requires fs.More?
    ensures FieldItems(fs, level) + more
         == [Item(level, fs.key, fs.value)] + (Items(fs.value, level) + (FieldItems(fs.rest, level) + more))
  {
    RegroupItems([Item(level, fs.key, fs.value)], Items(fs.value, level), FieldItems(fs.rest, level), more);
  }

  lemma {:induction false} FieldAtPlace(fs: Fields, key: Key, level: int, more: seq<Item>)
    requires Field(fs, key).Some?
    ensures var es, i := FieldItems(fs, level) + more, FieldPlace(fs, key, level);
            && i < |es| && es[i] == Item(level, key, Field(fs, key).value)
            && es[i + 1..] == Items(Field(fs, key).value, level) + (FieldItems(FieldRest(fs, key), level) + more)
  {
    ItemsSplit(fs, level, more);
    if fs.key != key {
      var first, inside, es := [Item(level, fs.key, fs.value)], Items(fs.value, level), FieldItems(fs.rest, level) + more;
      FieldAtPlace(fs.rest, key, level, more);
      PlaceBehind(first, inside, es, FieldPlace(fs.rest, key, level), FieldPlace(fs, key, level));
    }
  }

  lemma PlaceBehind(a: seq<Item>, b: seq<Item>, c: seq<Item>, i: nat, k: nat)
    requires i < |c| && k == |a| + |b| + i
    ensures var all := a + (b + c); k < |all| && all[k] == c[i] && all[k + 1..] == c[i + 1..]
  {
    var all := a + (b + c);
    assert all == (a + b) + c;
  }

  lemma FitsItself(key: Key)
    ensures Contains(key, key) && Closes(key, key)
  {
    assert key <= key;
  }

  /** The search for a field's own key comes to that field if and only if no field before it in its
      object has a key that contains the wanted one. */
  lemma {:induction false} FieldFoundIff(fs: Fields, key: Key, level: int, more: seq<Item>)
    requires Field(fs, key).Some?
    ensures FirstFit(FieldItems(fs, level) + more, level, key) == FieldPlace(fs, key, level) <==> Clear(fs, key)
  {
    ItemsSplit(fs, level, more);
    var first, inside, es := Item(level, fs.key, fs.value), Items(fs.value, level), FieldItems(fs.rest, level) + more;
    if fs.key == key {
      FitsItself(key);
    } else if !Contains(fs.key, key) {
      ItemsAreDeeper(fs.value, level);
      FirstFitPast([first], inside + es, level, key);
      FirstFitPast(inside, es, level, key);
      FieldFoundIff(fs.rest, key, level, more);
    }
  }

  /** A path that is nowhere hidden by an earlier sibling's key is traced to what lookup finds. */
  lemma {:induction false} TraceIsFind(t: Tree, level: int, keys: seq<Key>, more: seq<Item>, end: int, key: Key)
    requires keys != [] && Find(t, keys).Some? && ClearPath(t, keys)
    requires end == level + |keys| && key == keys[|keys| - 1]
    ensures Trace(Items(t, level) + more, level + 1, keys) == Reached(Item(end, key, Find(t, keys).value))
    decreases |keys|
  {
    FindStep(t, keys);
    var fs, first, level' := t.fields, keys[0], level + 1;
    var v, es, i := Field(fs, first).value, Items(t, level) + more, FieldPlace(fs, first, level');
    ClearFieldIsMet(fs, first, level', more, es, i, v);
    if |keys| == 1 {
      TraceLast(es, level', keys, i);
    } else {
      var keys', more' := keys[1..], FieldItems(FieldRest(fs, first), level') + more;
      TraceStep(es, level', keys, i);
      TraceIsFind(v, level', keys', more', end, key);
    }
  }

  /** The search for a field that nothing hides comes to it, and what lies behind it is its value
      and the fields after it. */
  lemma ClearFieldIsMet(fs: Fields, key: Key, level: int, more: seq<Item>, es: seq<Item>, i: nat, v: Tree)
    requires Field(fs, key) == Some(v) && Clear(fs, key)
    requires es == FieldItems(fs, level) + more && i == FieldPlace(fs, key, level)
    ensures i == FirstFit(es, level, key) < |es| && es[i] == Item(level, key, v) && Closes(es[i].key, key)
    ensures es[i + 1..] == Items(v, level) + (FieldItems(FieldRest(fs, key), level) + more)
  {
    FieldFoundIff(fs, key, level, more);
    FieldAtPlace(fs, key, level, more);
    FitsItself(key);
  }

  lemma FindStep(t: Tree, keys: seq<Key>)
    requires keys != [] && Find(t, keys).Some? && ClearPath(t, keys)
    ensures t.Object? && Field(t.fields, keys[0]).Some? && Clear(t.fields, keys[0])
    ensures var v := Field(t.fields, keys[0]).value; Find(t, keys) == Find(v, keys[1..]) && ClearPath(v, keys[1..])
  {
  }

  lemma TraceLast(es: seq<Item>, level: int, keys: seq<Key>, i: nat)
    requires |keys| == 1 && i == FirstFit(es, level, keys[0]) < |es|
    ensures Trace(es, level, keys) == Reached(es[i])
  {
  }

  /** On a written tree of named fields, a path to a number that is nowhere hidden by an earlier
      sibling's key is looked up as in the tree. */
  lemma ClearPathIsLookedUp(t: Tree, keys: seq<Key>, st: Style)
    requires Named(t) && ValidStyle(st) && IsPath(keys) && ClearPath(t, keys)
    requires Find(t, keys).Some? && Find(t, keys).value.Leaf? && Find(t, keys).value.n < INT_LIMIT
    ensures GetInt(Written(t, st), PathText(keys)) == Value(Find(t, keys).value.n)
  {
    GetIntIsTraced(t, keys, st);
    TreeGetIsFind(t, keys);
  }

  lemma TreeGetIsFind(t: Tree, keys: seq<Key>)
    requires keys != [] && ClearPath(t, keys)
    requires Find(t, keys).Some? && Find(t, keys).value.Leaf? && Find(t, keys).value.n < INT_LIMIT
    ensures TreeGet(t, keys) == Value(Find(t, keys).value.n)
  {
    assert Items(t, 0) + [] == Items(t, 0);
    TraceIsFind(t, 0, keys, [], |keys|, keys[|keys| - 1]);
    FitsItself(keys[|keys| - 1]);
  }

  lemma {:induction false} ApartIsClear(fs: Fields, key: Key)
    requires ApartFields(fs) && Field(fs, key).Some?
    ensures Clear(fs, key) && Apart(Field(fs, key).value)
  {
    if fs.key != key {
      ApartIsClear(fs.rest, key);
      ApartFromField(fs.key, fs.rest, key);
    }
  }

  lemma {:induction false} ApartFromField(key: Key, fs: Fields, other: Key)
    requires ApartFrom(key, fs) && Field(fs, other).Some?
    ensures !Contains(key, other)
  {
    if fs.key != other {
      ApartFromField(key, fs.rest, other);
    }
  }

  lemma {:induction false} ApartPathIsClear(t: Tree, keys: seq<Key>)
    requires Apart(t) && Find(t, keys).Some?
    ensures ClearPath(t, keys)
    decreases |keys|
  {
    if keys != [] {
      ApartIsClear(t.fields, keys[0]);
      ApartPathIsClear(Field(t.fields, keys[0]).value, keys[1..]);
    }
  }

  lemma {:induction false} PathIsNamed(t: Tree, keys: seq<Key>)
    requires Named(t) && Find(t, keys).Some?
    ensures forall i | 0 <= i < |keys| :: IsName(keys[i])
    decreases |keys|
  {
    if keys != [] {
      FieldIsNamed(t.fields, keys[0]);
      PathIsNamed(Field(t.fields, keys[0]).value, keys[1..]);
      assert forall i | 1 <= i < |keys| :: keys[i] == keys[1..][i - 1];
    }
  }

  lemma {:induction false} FieldIsNamed(fs: Fields, key: Key)
    requires NamedFields(fs) && Field(fs, key).Some?
    ensures IsName(key) && Named(Field(fs, key).value)
  {
    if fs.key != key {
      FieldIsNamed(fs.rest, key);
    }
  }

  /** json_get_int on a written tree returns what tree lookup returns, for every path to a number,
      when no key is a substring of a sibling. */
  lemma GetIntIsLookup(t: Tree, keys: seq<Key>, st: Style)
    requires Named(t) && Apart(t) && ValidStyle(st) && keys != []
    requires Find(t, keys).Some? && Find(t, keys).value.Leaf? && Find(t, keys).value.n < INT_LIMIT
    ensures GetInt(Written(t, st), PathText(keys)) == Value(Find(t, keys).value.n)
  {
    PathIsNamed(t, keys);
    ApartPathIsClear(t, keys);
    ClearPathIsLookedUp(t, keys, st);
  }

  // ---------------------------------------------------------------- other answers

  /** An earlier sibling whose key ends in the wanted one answers for it. */
  lemma EarlierSiblingAnswers(name: Key, n: nat, rest: Fields, key: Key, st: Style)
    requires IsName(name) && NamedFields(rest) && ValidStyle(st) && IsName(key)
    requires name != key && Closes(name, key) && n < INT_LIMIT
    ensures var t := Object(More(name, Leaf(n), rest));
            Find(t, [key]) == Field(rest, key) && GetInt(Written(t, st), PathText([key])) == Value(n)
  {
    var t := Object(More(name, Leaf(n), rest));
    GetIntIsTraced(t, [key], st);
    FirstFieldAnswers(name, n, rest, key);
    assert [key][1..] == [];
  }

  lemma FirstFieldAnswers(name: Key, n: nat, rest: Fields, key: Key)
    requires Closes(name, key) && n < INT_LIMIT
    ensures TreeGet(Object(More(name, Leaf(n), rest)), [key]) == Value(n)
  {
    var es := FieldItems(More(name, Leaf(n), rest), 1);
    assert Items(Leaf(n), 1) == [];
    assert es == [Item(1, name, Leaf(n))] + ([] + FieldItems(rest, 1));
    assert FirstFit(es, 1, key) == 0;
  }

  /** No field of an object has a key that contains the wanted one. */
  predicate NowhereIn(fs: Fields, key: Key) {
    fs.More? ==> !Contains(fs.key, key) && NowhereIn(fs.rest, key)
  }

  lemma {:induction false} NothingFits(fs: Fields, key: Key, level: int)
    requires NowhereIn(fs, key)
    ensures Field(fs, key) == None
    ensures forall i | 0 <= i < |FieldItems(fs, level)| :: !Fits(FieldItems(fs, level)[i], level, key)
  {
    if fs.More? {
      FitsItself(key);
      ItemsAreDeeper(fs.value, level);
      NothingFits(fs.rest, key, level);
    }
  }

  /** At the top there is nothing beyond an object. */
  lemma AbsentAtTopIsKeyError(fs: Fields, key: Key, st: Style)
    requires NamedFields(fs) && ValidStyle(st) && IsName(key) && NowhereIn(fs, key)
    ensures GetInt(Written(Object(fs), st), PathText([key])) == Error(KeyError)
  {
    GetIntIsTraced(Object(fs), [key], st);
    NothingFits(fs, key, 1);
    NotTraced(fs, key);
  }

  lemma NotTraced(fs: Fields, key: Key)
    requires forall i | 0 <= i < |FieldItems(fs, 1)| :: !Fits(FieldItems(fs, 1)[i], 1, key)
    ensures TreeGet(Object(fs), [key]) == Error(KeyError)
  {
    assert Items(Object(fs), 0) == FieldItems(fs, 1);
  }

  /** Two fields, each an object. */
  function Pair(a: Key, first: Fields, b: Key, second: Fields): Fields {
    More(a, Object(first), More(b, Object(second), End))
  }

  lemma PairItems(a: Key, first: Fields, b: Key, second: Fields)
    ensures FieldItems(Pair(a, first, b, second), 1)
         == [Item(1, a, Object(first))] + (FieldItems(first, 2) + ([Item(1, b, Object(second))] + (FieldItems(second, 2) + [])))
  {
    var more := More(b, Object(second), End);
    assert FieldItems(End, 1) == [];
    assert Items(Object(first), 1) == FieldItems(first, 2) && Items(Object(second), 1) == FieldItems(second, 2);
    assert FieldItems(more, 1) == [Item(1, b, Object(second))] + (FieldItems(second, 2) + []);
    assert FieldItems(More(a, Object(first), more), 1) == [Item(1, a, Object(first))] + (FieldItems(first, 2) + FieldItems(more, 1));
  }

  /** A path that leads nowhere in the tree can return the number of a cousin: the second field's
      object answers for the first's. */
  lemma CousinAnswers(a: Key, first: Fields, b: Key, second: Fields, key: Key, st: Style)
    requires NamedFields(first) && NamedFields(second) && IsName(a) && IsName(b) && ValidStyle(st)
    requires NowhereIn(first, key) && Field(second, key).Some? && Clear(second, key)
    requires Field(second, key).value.Leaf? && Field(second, key).value.n < INT_LIMIT
    ensures Find(Object(Pair(a, first, b, second)), [a, key]) == None
    ensures GetInt(Written(Object(Pair(a, first, b, second)), st), PathText([a, key])) == Value(Field(second, key).value.n)
  {
    var t := Object(Pair(a, first, b, second));
    FieldIsNamed(second, key);
    assert Find(t, [a, key]) == None by {
      NothingFits(first, key, 2);
      assert [a, key][1..] == [key];
    }
    assert NamedFields(t.fields.rest);
    GetIntIsTraced(t, [a, key], st);
    CousinTraced(a, first, b, second, key);
  }

  lemma CousinTraced(a: Key, first: Fields, b: Key, second: Fields, key: Key)
    requires NowhereIn(first, key) && Field(second, key).Some? && Clear(second, key)
    requires Field(second, key).value.Leaf? && Field(second, key).value.n < INT_LIMIT
    ensures TreeGet(Object(Pair(a, first, b, second)), [a, key]) == Value(Field(second, key).value.n)
  {
    var all, es, mid := FieldItems(Pair(a, first, b, second), 1), FieldItems(second, 2) + [], [Item(1, b, Object(second))];
    var inner := FieldItems(first, 2) + (mid + es);
    PairItems(a, first, b, second);
    FitsItself(a);
    FitsItself(key);
    assert all[1..] == inner && [a, key][1..] == [key];
    CousinFound(first, b, second, key);
    assert Trace(all, 1, [a, key]) == Trace(inner, 2, [key]);
  }

  lemma CousinFound(first: Fields, b: Key, second: Fields, key: Key)
    requires NowhereIn(first, key) && Field(second, key).Some? && Clear(second, key)
    ensures var inner := FieldItems(first, 2) + ([Item(1, b, Object(second))] + (FieldItems(second, 2) + []));
            Trace(inner, 2, [key]) == Reached(Item(2, key, Field(second, key).value))
  {
    NothingFits(first, key, 2);
    FieldFoundIff(second, key, 2, []);
    FieldAtPlace(second, key, 2, []);
    FoundBehind(FieldItems(first, 2), [Item(1, b, Object(second))], FieldItems(second, 2) + [], 2, key,
                FieldPlace(second, key, 2));
  }

  /** The first fit, behind fields that do not fit. */
  lemma FoundBehind(a: seq<Item>, b: seq<Item>, c: seq<Item>, level: int, key: Key, i: nat)
    requires forall k | 0 <= k < |a| :: !Fits(a[k], level, key)
    requires forall k | 0 <= k < |b| :: !Fits(b[k], level, key)
    requires i < |c| && FirstFit(c, level, key) == i
    ensures Trace(a + (b + c), level, [key]) == Reached(c[i])
  {
    FirstFitPast(a, b + c, level, key);
    FirstFitPast(b, c, level, key);
    assert (a + (b + c))[|a| + (|b| + i)] == c[i];
  }
}
