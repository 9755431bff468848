/** What a walk finds: for any text, the brace depth it stops at. */
module JsonPaths {
  import opened Options
  import opened Bytes
  import opened Json

  /** A path as its components. */
  function PathText(keys: seq<seq<byte>>): seq<byte> {
    if keys == [] then [] else ['/'] + keys[0] + PathText(keys[1..])
  }

  predicate IsComponent(key: seq<byte>) {
    key != [] && '/' !in key
  }

  /** The walk on a path, component by component. */
  lemma WalkSplits(text: seq<byte>, keys: seq<seq<byte>>)
    requires keys != [] && IsComponent(keys[0]) && (|keys| > 1 ==> keys[1] != [])
    ensures Walk(text, PathText(keys)) ==
            match Seek(text, 0, keys[0])
            case None => Failed(KeyError)
            case Some(p) => if |keys| == 1 then Stopped(p) else Onward(p, Enter(text[p..], PathText(keys[1..])))
  {
    var path, key, rest := PathText(keys), keys[0], PathText(keys[1..]);
    var slash := SlashFrom(path, 1);
    assert slash == 1 + |key| by {
      assert |keys| > 1 ==> path[1 + |key|] == '/';
      assert forall i | 0 <= i < |key| :: path[1 + i] == key[i] && key[i] in key;
    }
    assert path[1..slash] == key && path[slash..] == rest;
  }

  // ---------------------------------------------------------------- depth

  function Brace(c: byte): int {
    if c == '{' then 1 else if c == '}' then -1 else 0
  }

  /** Opening braces less closing ones. */
  function Depth(text: seq<byte>): int {
    if text == [] then 0 else Brace(text[0]) + Depth(text[1..])
  }

  lemma {:induction false} DepthConcat(a: seq<byte>, b: seq<byte>)
    ensures Depth(a + b) == Depth(a) + Depth(b)
  {
    if a == [] {
      assert a + b == b;
    } else {
      assert (a + b)[1..] == a[1..] + b;
      DepthConcat(a[1..], b);
    }
  }

  predicate BraceFree(s: seq<byte>) {
    forall i | 0 <= i < |s| :: Brace(s[i]) == 0
  }

  lemma {:induction false} BraceFreeDepth(s: seq<byte>)
    requires BraceFree(s)
    ensures Depth(s) == 0
  {
    if s != [] {
      BraceFreeDepth(s[1..]);
    }
  }

  /** A place where the key starts and the depth, counted from the given one, is one. */
  predicate KeyAt(text: seq<byte>, depth: int, key: seq<byte>, i: nat) {
    i < |text| && Brace(text[i]) == 0 && depth + Depth(text[..i]) == 1 && Matches(text[i..], key)
  }

  lemma KeyAtNext(text: seq<byte>, depth: int, key: seq<byte>, i: nat)
    requires text != []
    ensures KeyAt(text, depth, key, i + 1) <==> KeyAt(text[1..], depth + Brace(text[0]), key, i)
  {
    if i + 1 < |text| {
      assert text[..i + 1][1..] == text[1..][..i] && text[i + 1..] == text[1..][i..];
    }
  }

  /** found is just past the first such place, or None if there is none. */
  ghost predicate IsFirst(text: seq<byte>, depth: int, key: seq<byte>, found: Option<nat>) {
    match found
    case None => forall i: nat :: !KeyAt(text, depth, key, i)
    case Some(p) => p >= |key| && KeyAt(text, depth, key, p - |key|) && forall i: nat | KeyAt(text, depth, key, i) :: p - |key| <= i
  }

  lemma FirstHere(text: seq<byte>, depth: int, key: seq<byte>)
    requires text != [] && Brace(text[0]) == 0 && depth == 1 && Matches(text, key)
    ensures IsFirst(text, depth, key, Some(|key|))
  {
    assert text[0..] == text && text[..0] == [];
    assert KeyAt(text, depth, key, 0);
  }

  lemma FirstNext(text: seq<byte>, depth: int, key: seq<byte>, found: Option<nat>)
    requires text != [] && !(Brace(text[0]) == 0 && depth == 1 && Matches(text, key))
    requires IsFirst(text[1..], depth + Brace(text[0]), key, found)
    ensures IsFirst(text, depth, key, After(1, found))
  {
    assert !KeyAt(text, depth, key, 0) by {
      assert text[0..] == text && text[..0] == [];
    }
    forall i: nat | KeyAt(text, depth, key, i)
      ensures i > 0 && KeyAt(text[1..], depth + Brace(text[0]), key, i - 1)
    {
      KeyAtNext(text, depth, key, i - 1);
    }
    if found.Some? {
      KeyAtNext(text, depth, key, found.value - |key|);
    }
  }

  /** A search stops just past the first such place, and fails if and only if there is none. */
  lemma {:induction false} SeekIsFirst(text: seq<byte>, depth: int, key: seq<byte>)
    ensures IsFirst(text, depth, key, Seek(text, depth, key))
  {
    if text != [] {
      if Brace(text[0]) == 0 && depth == 1 && Matches(text, key) {
        FirstHere(text, depth, key);
      } else {
        SeekIsFirst(text[1..], depth + Brace(text[0]), key);
        FirstNext(text, depth, key, Seek(text[1..], depth + Brace(text[0]), key));
      }
    }
  }

  predicate EndsWith(s: seq<byte>, key: seq<byte>) {
    |key| <= |s| && s[|s| - |key|..] == key
  }

  /** The text up to p ends in the key, and its braces leave it at the given depth. */
  predicate EndsAt(text: seq<byte>, key: seq<byte>, p: nat, depth: int) {
    p <= |text| && EndsWith(text[..p], key) && Depth(text[..p]) == depth
  }

  lemma PastKey(text: seq<byte>, key: seq<byte>, i: nat)
    requires BraceFree(key) && KeyAt(text, 0, key, i)
    ensures EndsAt(text, key, i + |key|, 1)
  {
    assert text[..i + |key|] == text[..i] + key by {
      assert text[i..][..|key|] == key;
    }
    DepthConcat(text[..i], key);
    BraceFreeDepth(key);
  }

  lemma SeekEnds(text: seq<byte>, key: seq<byte>)
    requires BraceFree(key) && Seek(text, 0, key).Some?
    ensures EndsAt(text, key, Seek(text, 0, key).value, 1)
  {
    SeekIsFirst(text, 0, key);
    PastKey(text, key, Seek(text, 0, key).value - |key|);
  }

  lemma EndsLater(front: seq<byte>, text: seq<byte>, key: seq<byte>, q: nat, d: int)
    requires EndsAt(text, key, q, d)
    ensures EndsAt(front + text, key, |front| + q, Depth(front) + d)
  {
    assert (front + text)[..|front| + q] == front + text[..q];
    DepthConcat(front, text[..q]);
    EndsWithAfter(front, text[..q], key);
  }

  lemma EndsWithAfter(front: seq<byte>, s: seq<byte>, key: seq<byte>)
    requires EndsWith(s, key)
    ensures EndsWith(front + s, key)
  {
    assert front + s == front + s[..|s| - |key|] + key;
  }

  /** A successful walk stops inside the text, just past an occurrence of the path's last
      component, at a brace depth equal to the number of components. */
  lemma {:induction false} WalkDepth(text: seq<byte>, keys: seq<seq<byte>>)
    requires keys != [] && forall i | 0 <= i < |keys| :: IsComponent(keys[i]) && BraceFree(keys[i])
    requires Walk(text, PathText(keys)).Stopped?
    ensures EndsAt(text, keys[|keys| - 1], Walk(text, PathText(keys)).at, |keys|)
    decreases |keys|, 1
  {
    WalkSplits(text, keys);
    var p, rest := Seek(text, 0, keys[0]).value, keys[1..];
    SeekEnds(text, keys[0]);
    if |keys| > 1 {
      WalkDepthOn(text, p, keys);
    }
  }

  lemma {:induction false} WalkDepthOn(text: seq<byte>, p: nat, keys: seq<seq<byte>>)
    requires |keys| > 1 && forall i | 0 <= i < |keys| :: IsComponent(keys[i]) && BraceFree(keys[i])
    requires p <= |text| && Depth(text[..p]) == 1 && Enter(text[p..], PathText(keys[1..])).Stopped?
    ensures EndsAt(text, keys[|keys| - 1], p + Enter(text[p..], PathText(keys[1..])).at, |keys|)
    decreases |keys|, 0
  {
    var after, rest := text[p..], keys[1..];
    var n := Separators(after);
    EnterStops(after, PathText(rest));
    WalkDepth(after[n..], rest);
    var q, last := Walk(after[n..], PathText(rest)).at, keys[|keys| - 1];
    assert rest[|rest| - 1] == last;
    EndsPastGap(text, p, last, q, |rest|);
    assert EndsAt(text, last, p + (n + q), |keys|);
  }

  lemma EnterStops(text: seq<byte>, path: seq<byte>)
    requires Enter(text, path).Stopped?
    ensures var n := Separators(text);
            Walk(text[n..], path).Stopped? && Enter(text, path).at == n + Walk(text[n..], path).at
  {
  }

  lemma EndsPastGap(text: seq<byte>, p: nat, key: seq<byte>, q: nat, d: int)
    requires p <= |text| && Depth(text[..p]) == 1 && EndsAt(text[p..][Separators(text[p..])..], key, q, d)
    ensures EndsAt(text, key, p + (Separators(text[p..]) + q), 1 + d)
  {
    var after := text[p..];
    var n := Separators(after);
    var front, back := text[..p] + after[..n], after[n..];
    assert Depth(front) == 1 by {
      DepthConcat(text[..p], after[..n]);
      BraceFreeDepth(after[..n]);
    }
    assert front + back == text;
    EndsLater(front, back, key, q, d);
  }
}
