/** What json_get_int makes of the text behind the last component: exactly when it is a number, and
    which error it reports otherwise. */
module JsonNumbers {
  import opened Options
  import opened Bytes
  import opened Decimal
  import opened Json
  import opened JsonPaths

  lemma {:induction false} SeparatorsAre(text: seq<byte>, a: nat)
    requires a <= |text| && (forall x | 0 <= x < a :: IsSeparator(text[x])) && (a < |text| ==> !IsSeparator(text[a]))
    ensures Separators(text) == a
  {
    var n := Separators(text);
    assert n >= a && n <= a;
  }

  lemma {:induction false} DigitsAre(text: seq<byte>, n: nat)
    requires n <= |text| && (forall x | 0 <= x < n :: IsDigit(text[x])) && (n < |text| ==> !IsDigit(text[n]))
    ensures DigitRun(text) == n
  {
    var r := DigitRun(text);
    assert r < |text| ==> !IsDigit(text[r]);
    assert forall x | 0 <= x < r :: IsDigit(text[..r][x]) && text[x] == text[..r][x];
  }

  lemma {:induction false} ClosingIs(text: seq<byte>, c: nat)
    requires c <= |text| && (forall x | 0 <= x < c :: text[x] == ' ') && (c < |text| ==> text[c] != ' ')
    ensures Closing(text) == if c == |text| then Some(BraceError) else if text[c] == ',' || text[c] == '}' then None else Some(TypeError)
  {
    if c > 0 {
      ClosingIs(text[1..], c - 1);
    }
  }

  /** Separators up to a, digits up to b, spaces up to c, and something else or nothing. */
  predicate NumberThere(text: seq<byte>, a: nat, b: nat, c: nat) {
    && a < b <= c <= |text|
    && (forall x | 0 <= x < a :: IsSeparator(text[x])) && (forall x | a <= x < b :: IsDigit(text[x]))
    && (forall x | b <= x < c :: text[x] == ' ')
    && (b < |text| ==> !IsDigit(text[b])) && (c < |text| ==> text[c] != ' ')
  }

  /** Separators up to a, and no digit there. */
  predicate NoNumberThere(text: seq<byte>, a: nat) {
    && a <= |text| && (forall x | 0 <= x < a :: IsSeparator(text[x]))
    && (a < |text| ==> !IsSeparator(text[a]) && !IsDigit(text[a]))
  }

  /** A number is read if and only if a comma or a closing brace closes it, past spaces; if the text
      ends first that is a brace error, and anything else a type error. */
  lemma NumberRead(text: seq<byte>, a: nat, b: nat, c: nat)
    requires NumberThere(text, a, b, c)
    ensures AllDigits(text[a..b])
    ensures c == |text| ==> IntAt(text) == Error(BraceError)
    ensures c < |text| && text[c] != ',' && text[c] != '}' ==> IntAt(text) == Error(TypeError)
    ensures c < |text| && (text[c] == ',' || text[c] == '}') ==>
              var n := Number(text[a..b]);
              IntAt(text) == if b - a < 32 && n < 0x8000_0000 then Value(n) else Undefined
  {
    SeparatorsAre(text, a);
    var here, n := text[a..], b - a;
    DigitsAre(here, n);
    assert here[..n] == text[a..b] && here[n..] == text[b..];
    ClosingIs(text[b..], c - b);
  }

  lemma NoNumberRead(text: seq<byte>, a: nat)
    requires NoNumberThere(text, a)
    ensures IntAt(text) == Error(TypeError)
  {
    SeparatorsAre(text, a);
  }

  lemma {:induction false} SpacesSplit(text: seq<byte>, b: nat) returns (c: nat)
    requires b <= |text|
    ensures b <= c <= |text| && (forall x | b <= x < c :: text[x] == ' ') && (c < |text| ==> text[c] != ' ')
    decreases |text| - b
  {
    c := b;
    if b < |text| && text[b] == ' ' {
      c := SpacesSplit(text, b + 1);
    }
  }

  /** Every text is one or the other. */
  lemma NumberOrNot(text: seq<byte>) returns (a: nat, b: nat, c: nat)
    ensures NumberThere(text, a, b, c) || NoNumberThere(text, a)
  {
    a := Separators(text);
    b, c := a, a;
    if a < |text| && IsDigit(text[a]) {
      var here := text[a..];
      var n := DigitRun(here);
      assert forall x | 0 <= x < n :: IsDigit(here[..n][x]);
      assert forall x | a <= x < a + n :: text[x] == here[..n][x - a];
      assert n > 0;
      b := a + n;
      c := SpacesSplit(text, b);
    }
  }

  /** The text ends before the number is closed. */
  ghost predicate Unclosed(text: seq<byte>) {
    exists a: nat, b: nat :: NumberThere(text, a, b, |text|)
  }

  /** A brace error is reported if and only if the text ends before the number is closed. */
  lemma BraceErrorIff(text: seq<byte>)
    ensures IntAt(text) == Error(BraceError) <==> Unclosed(text)
  {
    if Unclosed(text) {
      var a: nat, b: nat :| NumberThere(text, a, b, |text|);
      NumberRead(text, a, b, |text|);
    }
    if IntAt(text) == Error(BraceError) {
      var a, b, c := NumberOrNot(text);
      if NumberThere(text, a, b, c) {
        NumberRead(text, a, b, c);
      } else {
        NoNumberRead(text, a);
      }
    }
  }

  // ---------------------------------------------------------------- the walk's own errors

  /** Behind a component that is not the last the walk needs an object: when nothing but separators is
      left that is a key error, and when something else stands there a type error. */
  lemma ObjectNeeded(text: seq<byte>, path: seq<byte>, a: nat)
    requires a <= |text| && (forall x | 0 <= x < a :: IsSeparator(text[x])) && (a < |text| ==> !IsSeparator(text[a]))
    ensures a == |text| ==> Enter(text, path) == Failed(KeyError)
    ensures a < |text| && text[a] != '{' ==> Enter(text, path) == Failed(TypeError)
    ensures a < |text| && text[a] == '{' ==> Enter(text, path) == Onward(a, Walk(text[a..], path))
  {
    SeparatorsAre(text, a);
    EnterCases(text, path, a);
  }

  /** A path that is a slash and a component, once or several times, never fails the walk's assertion;
      one that does not start with a slash and something always does. */
  lemma {:induction false} NeverAborts(text: seq<byte>, keys: seq<seq<byte>>)
    requires keys != [] && forall i | 0 <= i < |keys| :: IsComponent(keys[i])
    ensures !Walk(text, PathText(keys)).Aborted?
    decreases |keys|
  {
    WalkSplits(text, keys);
    if Seek(text, 0, keys[0]).Some? && |keys| > 1 {
      var after := text[Seek(text, 0, keys[0]).value..];
      NeverAborts(after[Separators(after)..], keys[1..]);
    }
  }

  lemma BadPathAborts(text: seq<byte>, path: seq<byte>)
    requires |path| < 2 || path[0] != '/'
    ensures GetInt(text, path) == Abort
  {
  }
}
