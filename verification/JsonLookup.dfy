/** The scanner on the text of a tree: for every path it comes to what Trace says, read off the
    tree. When that is ordinary lookup, and when a path that leads nowhere gets an answer. */
module JsonLookup {
  import opened Options
  import opened Sequences
  import opened Bytes
  import opened Decimal
  import opened Json
  import opened JsonPaths
  import opened JsonTree

  // ---------------------------------------------------------------- text the search passes over

  /** A search that starts with x at this depth goes on after x as it would without it. */
  predicate Skips(x: seq<byte>, depth: int, key: Key, tail: seq<byte>) {
    Seek(x + tail, depth, key) == After(|x|, Seek(tail, depth, key))
  }

  /** Characters that are neither braces nor letters. */
  predicate Plain(x: seq<byte>) {
    forall i | 0 <= i < |x| :: Brace(x[i]) == 0 && !IsLetter(x[i])
  }

  lemma {:induction false} SkipsChars(x: seq<byte>, depth: int, key: Key, tail: seq<byte>)
    requires IsName(key) && BraceFree(x) && (depth != 1 || Plain(x))
    ensures Skips(x, depth, key, tail)
  {
    if x == [] {
      assert x + tail == tail;
    } else {
      SkipsChars(x[1..], depth, key, tail);
      assert (x + tail)[1..] == x[1..] + tail;
    }
  }

  lemma PrefixOfNames(name: Key, y: seq<byte>, key: Key)
    requires IsName(key) && y != [] && !IsLetter(y[0])
    ensures key <= name + y <==> key <= name
  {
    if |key| > |name| {
      assert IsLetter(key[|name|]) && (name + y)[|name|] == y[0];
    }
  }

  /** The search finds the key inside a name exactly when that contains it. */
  lemma {:induction false} SeekInName(name: Key, y: seq<byte>, key: Key)
    requires IsName(key) && (forall i | 0 <= i < |name| :: IsLetter(name[i]))
    requires y != [] && !IsLetter(y[0])
    ensures Contains(name, key) ==> Seek(name + y, 1, key) == Some(OccurrenceEnd(name, key))
    ensures !Contains(name, key) ==> Skips(name, 1, key, y)
  {
    if name == [] {
      assert name + y == y;
    } else {
      assert (name + y)[1..] == name[1..] + y;
      PrefixOfNames(name, y, key);
      SeekInName(name[1..], y, key);
    }
  }

  // ---------------------------------------------------------------- the rest of a document

  /** What is still to come of a document: the fields left in each of the objects that are open,
      innermost first. */
  type Pending = seq<Fields>

  predicate AllNamed(open: Pending) {
    forall i | 0 <= i < |open| :: NamedFields(open[i])
  }

  function Tail(open: Pending, st: Style): seq<byte> {
    if open == [] then [] else Others(open[0], st) + (['}'] + Tail(open[1..], st))
  }

  /** The same, with a field instead of a comma coming first. */
  function Body(fs: Fields, open: Pending, st: Style): seq<byte> {
    WrittenFields(fs, st) + (['}'] + Tail(open, st))
  }

  /** The fields to come; level is that of the innermost open object's fields. */
  function Coming(open: Pending, level: int): seq<Item> {
    if open == [] then [] else FieldItems(open[0], level) + Coming(open[1..], level - 1)
  }

  function Size(t: Tree): nat {
    match t
    case Leaf(_) => 1
    case Object(fs) => 1 + FieldsSize(fs)
  }

  function FieldsSize(fs: Fields): nat {
    match fs
    case End => 1
    case More(_, v, rest) => 1 + Size(v) + FieldsSize(rest)
  }

  function PendingSize(open: Pending): nat {
    if open == [] then 0 else FieldsSize(open[0]) + PendingSize(open[1..])
  }

  lemma Opened(fs: Fields, open: Pending, level: int, st: Style)
    ensures Tail([fs] + open, st) == Others(fs, st) + (['}'] + Tail(open, st))
    ensures Coming([fs] + open, level) == FieldItems(fs, level) + Coming(open, level - 1)
    ensures PendingSize([fs] + open) == FieldsSize(fs) + PendingSize(open)
  {
    assert ([fs] + open)[1..] == open;
  }

  lemma BodyOfMore(fs: Fields, open: Pending, st: Style)
    requires fs.More?
    ensures Body(fs, open, st) == fs.key + (st.colon + (Written(fs.value, st) + Tail([fs.rest] + open, st)))
  {
    Opened(fs.rest, open, 0, st);
    Regroup5(fs.key, st.colon, Written(fs.value, st), Others(fs.rest, st), ['}'] + Tail(open, st));
  }

  lemma Regroup5(a: seq<byte>, b: seq<byte>, c: seq<byte>, d: seq<byte>, e: seq<byte>)
    ensures a + b + c + d + e == a + (b + (c + (d + e)))
  {
  }

  lemma ComingOfMore(fs: Fields, open: Pending, level: int, st: Style)
    requires fs.More?
    ensures FieldItems(fs, level) + Coming(open, level - 1)
         == [Item(level, fs.key, fs.value)] + (Items(fs.value, level) + Coming([fs.rest] + open, level))
  {
    Opened(fs.rest, open, level, st);
    RegroupItems([Item(level, fs.key, fs.value)], Items(fs.value, level), FieldItems(fs.rest, level), Coming(open, level - 1));
  }

  lemma RegroupItems(a: seq<Item>, b: seq<Item>, c: seq<Item>, d: seq<Item>)
    ensures a + (b + c) + d == a + (b + (c + d))
  {
  }

  // ---------------------------------------------------------------- one search

  /** What is written from the end of a key's occurrence in a field's name on. */
  function Onwards(e: Item, key: Key, open: Pending, st: Style): seq<byte>
    requires Contains(e.key, key)
  {
    e.key[OccurrenceEnd(e.key, key)..] + (st.colon + (Written(e.value, st) + Tail(open, st)))
  }

  /** The search stopped at p of the text, in field i of the coming ones; open is what comes after
      that field's value. */
  ghost predicate Landed(text: seq<byte>, p: nat, es: seq<Item>, i: nat, key: Key, st: Style, open: Pending) {
    && i < |es| && p <= |text| && Contains(es[i].key, key)
    && text[p..] == Onwards(es[i], key, open, st)
    && es[i + 1..] == Items(es[i].value, es[i].level) + Coming(open, es[i].level)
    && IsName(es[i].key) && Named(es[i].value) && AllNamed(open) && open != []
  }

  ghost predicate LandedFirst(text: seq<byte>, found: Option<nat>, es: seq<Item>, want: int, key: Key, st: Style, open: Pending) {
    var i := FirstFit(es, want, key);
    if i == |es| then found == None else found.Some? && Landed(text, found.value, es, i, key, st, open)
  }

  /** The search came to the first field that fits, or found none because there is none. */
  ghost predicate Sought(text: seq<byte>, found: Option<nat>, es: seq<Item>, want: int, key: Key, st: Style) {
    exists open :: LandedFirst(text, found, es, want, key, st, open)
  }

  lemma SameTail(x: seq<byte>, text: seq<byte>, p: nat, k: nat)
    requires p <= |text| && k == |x| + p
    ensures (x + text)[k..] == text[p..]
  {
  }

  lemma LandedLater(x: seq<byte>, text: seq<byte>, p: nat, es: seq<Item>, i: nat, key: Key, st: Style, open: Pending, k: nat)
    requires Landed(text, p, es, i, key, st, open) && k == |x| + p
    ensures Landed(x + text, k, es, i, key, st, open)
  {
    SameTail(x, text, p, k);
  }

  lemma SoughtLater(x: seq<byte>, text: seq<byte>, found: Option<nat>, es: seq<Item>, want: int, key: Key, st: Style)
    requires Sought(text, found, es, want, key, st)
    ensures Sought(x + text, After(|x|, found), es, want, key, st)
  {
    var open :| LandedFirst(text, found, es, want, key, st, open);
    if found.Some? {
      LandedLater(x, text, found.value, es, FirstFit(es, want, key), key, st, open, |x| + found.value);
    }
    assert LandedFirst(x + text, After(|x|, found), es, want, key, st, open);
  }

  lemma LandedPast(e: Item, text: seq<byte>, p: nat, es: seq<Item>, i: nat, key: Key, st: Style, open: Pending, j: nat)
    requires Landed(text, p, es, i, key, st, open) && j == i + 1
    ensures Landed(text, p, [e] + es, j, key, st, open)
  {
    assert ([e] + es)[i + 1] == es[i] && ([e] + es)[i + 2..] == es[i + 1..];
  }

  lemma FirstFitNext(e: Item, es: seq<Item>, want: int, key: Key)
    requires !Fits(e, want, key)
    ensures FirstFit([e] + es, want, key) == 1 + FirstFit(es, want, key)
  {
    assert ([e] + es)[1..] == es;
  }

  lemma SoughtPast(e: Item, text: seq<byte>, found: Option<nat>, es: seq<Item>, want: int, key: Key, st: Style)
    requires Sought(text, found, es, want, key, st) && !Fits(e, want, key)
    ensures Sought(text, found, [e] + es, want, key, st)
  {
    var open :| LandedFirst(text, found, es, want, key, st, open);
    FirstFitNext(e, es, want, key);
    if found.Some? {
      LandedPast(e, text, found.value, es, FirstFit(es, want, key), key, st, open, FirstFit([e] + es, want, key));
    }
    assert LandedFirst(text, found, [e] + es, want, key, st, open);
  }

  lemma SkipBrace(c: byte, text: seq<byte>, depth: int, key: Key)
    requires Brace(c) != 0
    ensures Seek([c] + text, depth, key) == After(1, Seek(text, depth + Brace(c), key))
  {
    assert ([c] + text)[1..] == text;
  }

  /** The search through a document: fs and then what else is open, from where fs starts. */
  lemma {:induction false} SeekBody(fs: Fields, open: Pending, level: int, want: int, key: Key, st: Style)
    requires NamedFields(fs) && AllNamed(open) && IsName(key) && ValidStyle(st)
    ensures Sought(Body(fs, open, st), Seek(Body(fs, open, st), level - want + 1, key),
                   FieldItems(fs, level) + Coming(open, level - 1), want, key, st)
    decreases FieldsSize(fs) + PendingSize(open), 1
  {
    if fs.End? {
      SeekTail(open, level - 1, want, key, st);
      var tail := Tail(open, st);
      assert Body(fs, open, st) == ['}'] + tail;
      SkipBrace('}', tail, level - want + 1, key);
      SoughtLater(['}'], tail, Seek(tail, level - want, key), Coming(open, level - 1), want, key, st);
      assert FieldItems(fs, level) + Coming(open, level - 1) == Coming(open, level - 1);
    } else if level == want && Contains(fs.key, key) {
      SeekHere(fs, open, level, key, st);
    } else {
      Opened(fs.rest, open, level, st);
      SeekValue(fs.value, [fs.rest] + open, level, want, key, st);
      SeekPastName(fs, open, level, want, key, st);
    }
  }

  lemma SeekHere(fs: Fields, open: Pending, level: int, key: Key, st: Style)
    requires NamedFields(fs) && AllNamed(open) && IsName(key) && ValidStyle(st) && fs.More? && Contains(fs.key, key)
    ensures Sought(Body(fs, open, st), Seek(Body(fs, open, st), 1, key),
                   FieldItems(fs, level) + Coming(open, level - 1), level, key, st)
  {
    var left := [fs.rest] + open;
    var y := st.colon + (Written(fs.value, st) + Tail(left, st));
    BodyOfMore(fs, open, st);
    ValueStarts(fs.value, st);
    SeekInName(fs.key, y, key);
    ComingOfMore(fs, open, level, st);
    var e := OccurrenceEnd(fs.key, key);
    assert (fs.key + y)[e..] == fs.key[e..] + y;
    FirstLanded(Body(fs, open, st), e, FieldItems(fs, level) + Coming(open, level - 1), level, key, st, left);
  }

  lemma FirstLanded(text: seq<byte>, p: nat, es: seq<Item>, want: int, key: Key, st: Style, open: Pending)
    requires Landed(text, p, es, 0, key, st, open) && es[0].level == want
    ensures Sought(text, Some(p), es, want, key, st)
  {
    assert FirstFit(es, want, key) == 0;
    assert LandedFirst(text, Some(p), es, want, key, st, open);
  }

  lemma ValueStarts(t: Tree, st: Style)
    ensures Written(t, st) != [] && !IsLetter(Written(t, st)[0]) && !IsSeparator(Written(t, st)[0])
  {
  }

  /** The name and the separator of a field that does not fit are passed over. */
  lemma SeekPastName(fs: Fields, open: Pending, level: int, want: int, key: Key, st: Style)
    requires NamedFields(fs) && IsName(key) && ValidStyle(st) && fs.More?
    requires !(level == want && Contains(fs.key, key))
    requires var rest := Written(fs.value, st) + Tail([fs.rest] + open, st);
             Sought(rest, Seek(rest, level - want + 1, key), Items(fs.value, level) + Coming([fs.rest] + open, level), want, key, st)
    ensures Sought(Body(fs, open, st), Seek(Body(fs, open, st), level - want + 1, key),
                   FieldItems(fs, level) + Coming(open, level - 1), want, key, st)
  {
    var d, rest := level - want + 1, Written(fs.value, st) + Tail([fs.rest] + open, st);
    var es := Items(fs.value, level) + Coming([fs.rest] + open, level);
    ValueStarts(fs.value, st);
    SkipsChars(st.colon, d, key, rest);
    SoughtLater(st.colon, rest, Seek(rest, d, key), es, want, key, st);
    var y := st.colon + rest;
    assert Skips(fs.key, d, key, y) by {
      if d == 1 {
        SeekInName(fs.key, y, key);
      } else {
        SkipsChars(fs.key, d, key, y);
      }
    }
    SoughtLater(fs.key, y, Seek(y, d, key), es, want, key, st);
    BodyOfMore(fs, open, st);
    ComingOfMore(fs, open, level, st);
    SoughtPast(Item(level, fs.key, fs.value), fs.key + y, Seek(fs.key + y, d, key), es, want, key, st);
  }

  /** The search through a value and what follows it. */
  lemma {:induction false} SeekValue(t: Tree, open: Pending, level: int, want: int, key: Key, st: Style)
    requires Named(t) && AllNamed(open) && IsName(key) && ValidStyle(st)
    ensures var text := Written(t, st) + Tail(open, st);
            Sought(text, Seek(text, level - want + 1, key), Items(t, level) + Coming(open, level), want, key, st)
    decreases Size(t) + PendingSize(open), 0
  {
    if t.Leaf? {
      SeekTail(open, level, want, key, st);
      SeekPastNumber(t, open, level, want, key, st, level - want + 1);
    } else {
      SeekBody(t.fields, open, level + 1, want, key, st);
      SeekPastBrace(t, open, level, want, key, st);
    }
  }

  lemma SeekPastNumber(t: Tree, open: Pending, level: int, want: int, key: Key, st: Style, d: int)
    requires t.Leaf? && IsName(key)
    requires Sought(Tail(open, st), Seek(Tail(open, st), d, key), Coming(open, level), want, key, st)
    ensures var text := Written(t, st) + Tail(open, st);
            Sought(text, Seek(text, d, key), Items(t, level) + Coming(open, level), want, key, st)
  {
    var digits, tail := Digits(t.n), Tail(open, st);
    SkipsChars(digits, d, key, tail);
    SoughtLater(digits, tail, Seek(tail, d, key), Coming(open, level), want, key, st);
    assert [] + Coming(open, level) == Coming(open, level);
  }

  lemma SeekPastBrace(t: Tree, open: Pending, level: int, want: int, key: Key, st: Style)
    requires t.Object?
    requires Sought(Body(t.fields, open, st), Seek(Body(t.fields, open, st), level + 1 - want + 1, key),
                    FieldItems(t.fields, level + 1) + Coming(open, level + 1 - 1), want, key, st)
    ensures var text := Written(t, st) + Tail(open, st);
            Sought(text, Seek(text, level - want + 1, key), Items(t, level) + Coming(open, level), want, key, st)
  {
    var body, d := Body(t.fields, open, st), level - want + 1;
    assert level + 1 - want + 1 == d + 1 && level + 1 - 1 == level;
    ObjectText(t.fields, open, st);
    SkipBrace('{', body, d, key);
    SoughtLater(['{'], body, Seek(body, d + 1, key), FieldItems(t.fields, level + 1) + Coming(open, level), want, key, st);
  }

  lemma ObjectText(fs: Fields, open: Pending, st: Style)
    ensures Written(Object(fs), st) + Tail(open, st) == ['{'] + Body(fs, open, st)
  {
  }

  /** The search through what is open, a comma or a brace coming first. */
  lemma {:induction false} SeekTail(open: Pending, level: int, want: int, key: Key, st: Style)
    requires AllNamed(open) && IsName(key) && ValidStyle(st)
    ensures Sought(Tail(open, st), Seek(Tail(open, st), level - want + 1, key), Coming(open, level), want, key, st)
    decreases PendingSize(open), 2
  {
    if open == [] {
      NothingSought(level - want + 1, want, key, st);
    } else {
      SeekBody(open[0], open[1..], level, want, key, st);
      SeekPastComma(open, FieldItems(open[0], level) + Coming(open[1..], level - 1), want, key, st, level - want + 1);
    }
  }

  lemma NothingSought(d: int, want: int, key: Key, st: Style)
    ensures Sought([], Seek([], d, key), [], want, key, st)
  {
    assert LandedFirst([], None, [], want, key, st, []);
  }

  lemma SeekPastComma(open: Pending, es: seq<Item>, want: int, key: Key, st: Style, d: int)
    requires open != [] && IsName(key) && ValidStyle(st)
    requires var body := Body(open[0], open[1..], st);
             Sought(body, Seek(body, d, key), es, want, key, st)
    ensures Sought(Tail(open, st), Seek(Tail(open, st), d, key), es, want, key, st)
  {
    var body, x := Body(open[0], open[1..], st), if open[0].More? then st.comma else [];
    TailIs(open, st, body, x);
    SkipsChars(x, d, key, body);
    SoughtLater(x, body, Seek(body, d, key), es, want, key, st);
  }

  lemma TailIs(open: Pending, st: Style, body: seq<byte>, x: seq<byte>)
    requires open != [] && body == Body(open[0], open[1..], st) && x == if open[0].More? then st.comma else []
    ensures Tail(open, st) == x + body
  {
    Regroup(x, WrittenFields(open[0], st), ['}'] + Tail(open[1..], st));
  }

  // ---------------------------------------------------------------- a walk

  /** The walk came to what the trace says: an error, or a stop at the end of the last key's
      occurrence in the field reached. */
  ghost predicate Stops(w: Walked, text: seq<byte>, tr: Traced, key: Key, st: Style, open: Pending) {
    match tr
    case Lost(e) => w == Failed(e)
    case Reached(item) =>
      && w.Stopped? && w.at <= |text| && Contains(item.key, key)
      && text[w.at..] == Onwards(item, key, open, st)
      && IsName(item.key) && Named(item.value) && open != []
  }

  ghost predicate Walks(w: Walked, text: seq<byte>, tr: Traced, key: Key, st: Style) {
    exists open :: Stops(w, text, tr, key, st, open)
  }

  lemma {:induction false} SeparatorsOf(colon: seq<byte>, rest: seq<byte>)
    requires (forall i | 0 <= i < |colon| :: IsSeparator(colon[i])) && rest != [] && !IsSeparator(rest[0])
    ensures Separators(colon + rest) == |colon|
  {
    if colon == [] {
      assert colon + rest == rest;
    } else {
      SeparatorsOf(colon[1..], rest);
      assert (colon + rest)[1..] == colon[1..] + rest;
    }
  }

  /** Letters left of the name stop whatever was to follow it. */
  lemma LettersLeft(item: Item, key: Key, open: Pending, st: Style)
    requires IsName(item.key) && Contains(item.key, key) && !Closes(item.key, key)
    ensures var text := Onwards(item, key, open, st); text != [] && IsLetter(text[0]) && Separators(text) == 0
  {
  }

  lemma NoneLeft(item: Item, key: Key, open: Pending, st: Style)
    requires Closes(item.key, key) && ValidStyle(st)
    ensures var value := Written(item.value, st) + Tail(open, st);
            Onwards(item, key, open, st) == st.colon + value && Separators(st.colon + value) == |st.colon|
  {
    ValueStarts(item.value, st);
    var value := Written(item.value, st) + Tail(open, st);
    assert item.key[|item.key|..] + (st.colon + value) == st.colon + value;
    SeparatorsOf(st.colon, value);
  }

  /** A field whose key the component does not close, or whose value is a number, does not lead on. */
  lemma EnterFails(item: Item, key: Key, open: Pending, st: Style, path: seq<byte>)
    requires IsName(item.key) && Contains(item.key, key) && ValidStyle(st)
    requires !Closes(item.key, key) || item.value.Leaf?
    ensures Enter(Onwards(item, key, open, st), path) == Failed(TypeError)
  {
    if !Closes(item.key, key) {
      LettersLeft(item, key, open, st);
    } else {
      NoneLeft(item, key, open, st);
    }
  }

  lemma EnterObject(item: Item, key: Key, open: Pending, st: Style, path: seq<byte>, here: seq<byte>, inner: seq<byte>)
    requires Closes(item.key, key) && item.value.Object? && ValidStyle(st)
    requires here == Onwards(item, key, open, st) && inner == ['{'] + Body(item.value.fields, open, st)
    ensures here == st.colon + inner && Enter(here, path) == Onward(|st.colon|, Walk(inner, path))
  {
    NoneLeft(item, key, open, st);
    ObjectText(item.value.fields, open, st);
    assert (st.colon + inner)[|st.colon|..] == inner;
  }

  lemma WalksLater(text: seq<byte>, p: nat, colon: seq<byte>, inner: seq<byte>, w: Walked, w': Walked, tr: Traced, key: Key, st: Style)
    requires p <= |text| && text[p..] == colon + inner && Walks(w', inner, tr, key, st) && w == Onward(p, Onward(|colon|, w'))
    ensures Walks(w, text, tr, key, st)
  {
    var open :| Stops(w', inner, tr, key, st, open);
    if tr.Reached? {
      SliceLater(text, p, colon, inner, w'.at, w.at);
    }
    assert Stops(w, text, tr, key, st, open);
  }

  lemma SliceLater(text: seq<byte>, p: nat, a: seq<byte>, b: seq<byte>, n: nat, k: nat)
    requires p <= |text| && text[p..] == a + b && n <= |b| && k == p + |a| + n
    ensures k <= |text| && text[k..] == b[n..]
  {
    assert text == text[..p] + (a + b);
  }

  /** The walk through an object and what follows it: every component comes to the first field
      that fits it. */
  lemma {:induction false} WalkObject(fs: Fields, open: Pending, level: int, keys: seq<Key>, st: Style)
    requires NamedFields(fs) && AllNamed(open) && ValidStyle(st)
    requires keys != [] && forall i | 0 <= i < |keys| :: IsName(keys[i])
    ensures var text := ['{'] + Body(fs, open, st);
            Walks(Walk(text, PathText(keys)), text, Trace(FieldItems(fs, level) + Coming(open, level - 1), level, keys),
                  keys[|keys| - 1], st)
    decreases |keys|, 2
  {
    var key, es := keys[0], FieldItems(fs, level) + Coming(open, level - 1);
    var body, text := Body(fs, open, st), ['{'] + Body(fs, open, st);
    assert Sought(text, Seek(text, 0, key), es, level, key, st) by {
      SeekBody(fs, open, level, level, key, st);
      SkipBrace('{', body, 0, key);
      SoughtLater(['{'], body, Seek(body, 1, key), es, level, key, st);
    }
    WalkFound(text, es, level, keys, st);
  }

  lemma {:induction false} WalkFound(text: seq<byte>, es: seq<Item>, level: int, keys: seq<Key>, st: Style)
    requires ValidStyle(st) && keys != [] && forall i | 0 <= i < |keys| :: IsName(keys[i])
    requires Sought(text, Seek(text, 0, keys[0]), es, level, keys[0], st)
    ensures Walks(Walk(text, PathText(keys)), text, Trace(es, level, keys), keys[|keys| - 1], st)
    decreases |keys|, 1
  {
    var w, tr, i := Walk(text, PathText(keys)), Trace(es, level, keys), FirstFit(es, level, keys[0]);
    var open :| LandedFirst(text, Seek(text, 0, keys[0]), es, level, keys[0], st, open);
    WalkSplits(text, keys);
    if i < |es| && |keys| > 1 {
      WalkOn(text, Seek(text, 0, keys[0]).value, es, i, level, keys, st, open, w, tr);
    } else {
      assert Stops(w, text, tr, keys[|keys| - 1], st, open);
    }
  }

  lemma {:induction false} TraceStep(es: seq<Item>, level: int, keys: seq<Key>, i: nat)
    requires |keys| > 1 && i == FirstFit(es, level, keys[0]) < |es|
    ensures Trace(es, level, keys) ==
            if !Closes(es[i].key, keys[0]) || es[i].value.Leaf? then Lost(TypeError) else Trace(es[i + 1..], level + 1, keys[1..])
  {
  }

  /** w is the walk on from field i, and tr the trace. */
  lemma {:induction false} WalkOn(text: seq<byte>, p: nat, es: seq<Item>, i: nat, level: int, keys: seq<Key>, st: Style, open: Pending,
                                  w: Walked, tr: Traced)
    requires ValidStyle(st) && |keys| > 1 && forall j | 0 <= j < |keys| :: IsName(keys[j])
    requires Landed(text, p, es, i, keys[0], st, open) && i == FirstFit(es, level, keys[0])
    requires w == Onward(p, Enter(text[p..], PathText(keys[1..]))) && tr == Trace(es, level, keys)
    ensures Walks(w, text, tr, keys[|keys| - 1], st)
    decreases |keys|, 0
  {
    var item, path := es[i], PathText(keys[1..]);
    TraceStep(es, level, keys, i);
    if !Closes(item.key, keys[0]) || item.value.Leaf? {
      EnterFails(item, keys[0], open, st, path);
      assert Stops(w, text, tr, keys[|keys| - 1], st, open);
    } else {
      ItemsAfter(es, i, level, open);
      WalkDown(text, p, item, level + 1, keys[0], keys[1..], st, open, w, tr, keys[|keys| - 1]);
    }
  }

  /** The walk on from an object field is the walk of the rest of the path in that object. */
  lemma {:induction false} WalkDown(text: seq<byte>, p: nat, item: Item, level: int, key: Key, keys: seq<Key>, st: Style, open: Pending,
                                    w: Walked, tr: Traced, last: Key)
    requires ValidStyle(st) && keys != [] && last == keys[|keys| - 1] && forall j | 0 <= j < |keys| :: IsName(keys[j])
    requires Closes(item.key, key) && item.value.Object? && NamedFields(item.value.fields) && AllNamed(open)
    requires p <= |text| && text[p..] == Onwards(item, key, open, st)
    requires w == Onward(p, Enter(text[p..], PathText(keys)))
    requires tr == Trace(FieldItems(item.value.fields, level) + Coming(open, level - 1), level, keys)
    ensures Walks(w, text, tr, last, st)
    decreases |keys|, 3
  {
    var inner, path := ['{'] + Body(item.value.fields, open, st), PathText(keys);
    WalkObject(item.value.fields, open, level, keys, st);
    WalkInto(text, p, item, key, open, st, path, inner, w, Walk(inner, path), tr, last);
  }

  lemma ItemsAfter(es: seq<Item>, i: nat, level: int, open: Pending)
    requires i < |es| && es[i].level == level && es[i].value.Object?
    requires es[i + 1..] == Items(es[i].value, es[i].level) + Coming(open, es[i].level)
    ensures es[i + 1..] == FieldItems(es[i].value.fields, level + 1) + Coming(open, level + 1 - 1)
  {
  }

  lemma WalkInto(text: seq<byte>, p: nat, item: Item, key: Key, open: Pending, st: Style, path: seq<byte>,
                 inner: seq<byte>, w: Walked, w': Walked, tr: Traced, last: Key)
    requires ValidStyle(st) && Closes(item.key, key) && item.value.Object? && inner == ['{'] + Body(item.value.fields, open, st)
    requires p <= |text| && text[p..] == Onwards(item, key, open, st) && w == Onward(p, Enter(text[p..], path))
    requires w' == Walk(inner, path) && Walks(w', inner, tr, last, st)
    ensures Walks(w, text, tr, last, st)
  {
    EnterObject(item, key, open, st, path, text[p..], inner);
    WalksLater(text, p, st.colon, inner, w, w', tr, last, st);
  }

  // ---------------------------------------------------------------- the number at the end

  lemma {:induction false} EndsNumberMore(a: seq<byte>, b: seq<byte>)
    requires EndsNumber(a)
    ensures EndsNumber(a + b)
  {
    if !Terminator(a[0]) {
      EndsNumberMore(a[1..], b);
      assert (a + b)[1..] == a[1..] + b;
    }
  }

  lemma TailEndsNumber(open: Pending, st: Style)
    requires open != [] && ValidStyle(st)
    ensures EndsNumber(Tail(open, st))
  {
    var rest := ['}'] + Tail(open[1..], st);
    if open[0].More? {
      EndsNumberMore(st.comma, WrittenFields(open[0], st) + rest);
      assert Tail(open, st) == st.comma + (WrittenFields(open[0], st) + rest);
    } else {
      assert Tail(open, st) == rest;
    }
  }

  lemma {:induction false} DigitRunOf(digits: seq<byte>, rest: seq<byte>)
    requires AllDigits(digits) && rest != [] && !IsDigit(rest[0])
    ensures DigitRun(digits + rest) == |digits|
  {
    if digits == [] {
      assert digits + rest == rest;
    } else {
      DigitRunOf(digits[1..], rest);
      assert (digits + rest)[1..] == digits[1..] + rest;
    }
  }

  lemma {:induction false} ClosingOf(rest: seq<byte>)
    requires EndsNumber(rest)
    ensures Closing(rest) == None
  {
    if !Terminator(rest[0]) {
      ClosingOf(rest[1..]);
    }
  }

  lemma DigitsFit(n: nat)
    requires n < INT_LIMIT
    ensures |Digits(n)| < 32
  {
    assert Pow10(10) == 10000000000;
    DigitsLength(n, 10);
  }

  /** A number, after separators and before text that ends it. */
  lemma IntAtLeaf(n: nat, colon: seq<byte>, rest: seq<byte>)
    requires EndsNumber(rest) && forall i | 0 <= i < |colon| :: IsSeparator(colon[i])
    ensures IntAt(colon + (Digits(n) + rest)) == if n < INT_LIMIT then Value(n) else Undefined
  {
    var digits := Digits(n);
    assert IntAt(colon + (digits + rest)) == IntHere(digits + rest) by {
      SeparatorsOf(colon, digits + rest);
      assert (colon + (digits + rest))[|colon|..] == digits + rest;
    }
    assert IntHere(digits + rest) == IntOf(digits, rest) by {
      DigitRunOf(digits, rest);
      assert (digits + rest)[..|digits|] == digits && (digits + rest)[|digits|..] == rest;
    }
    ClosingOf(rest);
    NumberOfDigits(n);
    if n < INT_LIMIT {
      DigitsFit(n);
    }
  }

  lemma IntAtItem(item: Item, key: Key, open: Pending, st: Style)
    requires IsName(item.key) && Contains(item.key, key) && open != [] && ValidStyle(st)
    ensures IntAt(Onwards(item, key, open, st)) == AtItem(item, key)
  {
    if !Closes(item.key, key) {
      LettersLeft(item, key, open, st);
    } else {
      NoneLeft(item, key, open, st);
      TailEndsNumber(open, st);
      if item.value.Leaf? {
        IntAtLeaf(item.value.n, st.colon, Tail(open, st));
      }
    }
  }

  // ---------------------------------------------------------------- the main result

  /** On the text of a tree of named fields, however written, json_get_int returns for every path
      of names exactly what the trace of the path leads to. */
  lemma GetIntIsTraced(t: Tree, keys: seq<Key>, st: Style)
    requires Named(t) && ValidStyle(st) && keys != [] && forall i | 0 <= i < |keys| :: IsName(keys[i])
    ensures GetInt(Written(t, st), PathText(keys)) == TreeGet(t, keys)
  {
    var text, last := Written(t, st), keys[|keys| - 1];
    match t
    case Leaf(n) =>
      SkipsChars(Digits(n), 0, keys[0], []);
      assert Digits(n) + [] == Digits(n);
      WalkSplits(text, keys);
    case Object(fs) =>
      WalkObject(fs, [], 1, keys, st);
      assert text == ['{'] + Body(fs, [], st);
      assert FieldItems(fs, 1) + Coming([], 0) == Items(t, 0);
      var tr := Trace(Items(t, 0), 1, keys);
      var left :| Stops(Walk(text, PathText(keys)), text, tr, last, st, left);
      if tr.Reached? {
        IntAtItem(tr.item, last, left, st);
      }
  }
}
