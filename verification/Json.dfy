/** Path lookup in loosely written JSON text: a scanner that counts braces and looks for the
    path's components, without a parse tree. */
module Json {
  import opened Options
  import opened Bytes
  import opened Decimal

  datatype Error = BraceError | KeyError | TypeError

  /** What a walk comes to: an offset into the text just past the last key, an error, or a failed
      assertion about the path. */
  datatype Walked = Stopped(at: nat) | Failed(error: Error) | Aborted

  // ---------------------------------------------------------------- specification

  function After(n: nat, found: Option<nat>): Option<nat> {
    match found
    case None => None
    case Some(p) => Some(n + p)
  }

  predicate Matches(text: seq<byte>, key: seq<byte>) {
    key != [] && key <= text
  }

  /** The offset just past the first occurrence of key in text at brace depth one, when text
      starts at the given depth. */
  function Seek(text: seq<byte>, depth: int, key: seq<byte>): (found: Option<nat>)
    ensures found.Some? ==> |key| <= found.value <= |text|
  {
    if text == [] then None
    else if text[0] == '{' then After(1, Seek(text[1..], depth + 1, key))
    else if text[0] == '}' then After(1, Seek(text[1..], depth - 1, key))
    else if depth == 1 && Matches(text, key) then Some(|key|)
    else After(1, Seek(text[1..], depth, key))
  }

  predicate IsSeparator(c: byte) {
    c == ' ' || c == ':'
  }

  /** The number of separators that text starts with. */
  function Separators(text: seq<byte>): (n: nat)
    ensures n <= |text|
    ensures n < |text| ==> !IsSeparator(text[n])
    ensures forall i | 0 <= i < n :: IsSeparator(text[i])
  {
    if text == [] || !IsSeparator(text[0]) then 0 else 1 + Separators(text[1..])
  }

  function Onward(n: nat, w: Walked): Walked {
    if w.Stopped? then Stopped(n + w.at) else w
  }

  datatype Entry = At(n: nat) | NoObject(error: Error)

  /** Where the nested object starts that a component's key must be followed by. */
  function ObjectAfter(text: seq<byte>): (e: Entry)
    ensures e.At? ==> e.n < |text| && text[e.n] == '{'
  {
    var n := Separators(text);
    if n == |text| then NoObject(KeyError)
    else if text[n] != '{' then NoObject(TypeError)
    else At(n)
  }

  /** strchr(path + i, '/') as an offset, or |path|. */
  function SlashFrom(path: seq<byte>, i: nat): (e: nat)
    requires i <= |path|
    ensures i <= e <= |path| && (e < |path| ==> path[e] == '/')
    ensures forall k | i <= k < e :: path[k] != '/'
    decreases |path| - i
  {
    if i == |path| || path[i] == '/' then i else SlashFrom(path, i + 1)
  }

  /** json_walk */
  function Walk(text: seq<byte>, path: seq<byte>): (w: Walked)
    ensures w.Stopped? ==> w.at <= |text|
    decreases |path|
  {
    if |path| < 2 || path[0] != '/' then Aborted
    else
      var slash := SlashFrom(path, 1);
      match Seek(text, 0, path[1..slash])
      case None => Failed(KeyError)
      case Some(p) =>
        if slash == |path| then Stopped(p)
        else
          match ObjectAfter(text[p..])
          case NoObject(e) => Failed(e)
          case At(n) => Onward(p, Onward(n, Walk(text[p..][n..], path[slash..])))
  }

  /** The walk from just past the key of a component that is not the last. */
  function Enter(text: seq<byte>, path: seq<byte>): (w: Walked)
    ensures w.Stopped? ==> w.at <= |text|
  {
    match ObjectAfter(text)
    case NoObject(e) => Failed(e)
    case At(n) => Onward(n, Walk(text[n..], path))
  }

  datatype Got = Value(value: nat) | Error(error: Error) | Abort | Undefined

  const INT_LIMIT := 0x8000_0000

  function DigitRun(text: seq<byte>): (n: nat)
    ensures n <= |text| && AllDigits(text[..n])
    ensures n < |text| ==> !IsDigit(text[n])
  {
    if text == [] || !IsDigit(text[0]) then 0
    else
      var n := 1 + DigitRun(text[1..]);
      assert forall i | 1 <= i < n :: text[i] == text[1..][..n - 1][i - 1];
      n
  }

  /** Whether the text after a number closes it, past spaces, with a comma or a brace. */
  function Closing(text: seq<byte>): Option<Error> {
    if text == [] then Some(BraceError)
    else if text[0] == ' ' then Closing(text[1..])
    else if text[0] == ',' || text[0] == '}' then None
    else Some(TypeError)
  }

  /** The value of a run of digits, with what follows it. A number that overruns the 32-byte
      scratch buffer or an int has no defined value. */
  function IntOf(digits: seq<byte>, after: seq<byte>): Got
    requires AllDigits(digits)
  {
    match Closing(after)
    case Some(e) => Error(e)
    case None => if |digits| < 32 && Number(digits) < INT_LIMIT then Value(Number(digits)) else Undefined
  }

  /** The number that text starts with. */
  function IntHere(text: seq<byte>): Got {
    if text == [] || !IsDigit(text[0]) then Error(TypeError)
    else IntOf(text[..DigitRun(text)], text[DigitRun(text)..])
  }

  /** The number that text starts with, past separators. */
  function IntAt(text: seq<byte>): Got {
    IntHere(text[Separators(text)..])
  }

  /** json_get_int */
  function GetInt(text: seq<byte>, path: seq<byte>): Got {
    match Walk(text, path)
    case Aborted => Abort
    case Failed(e) => Error(e)
    case Stopped(p) => IntAt(text[p..])
  }

  /** A walk, from what the search for its first component comes to. */
  lemma WalkIs(text: seq<byte>, path: seq<byte>, slash: nat, found: Option<nat>)
    requires |path| >= 2 && path[0] == '/' && slash == SlashFrom(path, 1) && found == Seek(text, 0, path[1..slash])
    ensures Walk(text, path) ==
            match found
            case None => Failed(KeyError)
            case Some(p) => if slash == |path| then Stopped(p) else Onward(p, Enter(text[p..], path[slash..]))
  {
  }

  lemma EnterCases(text: seq<byte>, path: seq<byte>, n: nat)
    requires n == Separators(text)
    ensures Enter(text, path) ==
            if n == |text| then Failed(KeyError)
            else if text[n] != '{' then Failed(TypeError)
            else Onward(n, Walk(text[n..], path))
  {
  }

  lemma OnwardTwice(m: nat, n: nat, w: Walked)
    ensures Onward(m, Onward(n, w)) == Onward(m + n, w)
  {
  }

  // ---------------------------------------------------------------- the object

  class JsonObject {
    const raw: seq<byte>
    var errno: Option<Error>
    var walkIdx: nat

    constructor (str: seq<byte>)
      ensures raw == str && errno == None && walkIdx == 0
    {
      raw, errno, walkIdx := str, None, 0;
    }

    /** json_walk on the text from str on. The flag find_key of its second loop splits that loop
        in two: up to the key, and over the separators after it. */
    method JsonWalk(str: nat, path: seq<byte>) returns (w: Walked)
      requires str <= |raw|
      modifies this
      ensures w == Onward(str, Walk(raw[str..], path))
      ensures walkIdx == if w.Stopped? then w.at else old(walkIdx)
      ensures errno == if w.Failed? then Some(w.error) else old(errno)
      decreases |path|, 1
    {
      if |path| < 2 || path[0] != '/' {
        return Aborted;
      }
      var slash := SlashFrom(path, 1);
      var found := SeekKey(raw[str..], path[1..slash]);
      WalkIs(raw[str..], path, slash, found);
      if found.None? {
        errno := Some(KeyError);
        return Failed(KeyError);
      }
      var i := str + found.value;
      if slash == |path| {
        walkIdx := i;
        return Stopped(i);
      }
      assert raw[str..][found.value..] == raw[i..];
      OnwardTwice(str, found.value, Enter(raw[i..], path[slash..]));
      w := WalkInto(i, path[slash..]);
    }

    /** The rest of json_walk for a component that is not the last, from just past its key. */
    method WalkInto(p: nat, path: seq<byte>) returns (w: Walked)
      requires p <= |raw|
      modifies this
      ensures w == Onward(p, Enter(raw[p..], path))
      ensures walkIdx == if w.Stopped? then w.at else old(walkIdx)
      ensures errno == if w.Failed? then Some(w.error) else old(errno)
      decreases |path|, 2
    {
      var gap := SkipSeparators(raw[p..]);
      EnterCases(raw[p..], path, gap);
      if p + gap == |raw| {
        errno := Some(KeyError);
        return Failed(KeyError);
      }
      if raw[p + gap] != '{' {
        errno := Some(TypeError);
        return Failed(TypeError);
      }
      var i := p + gap;
      assert raw[p..][gap..] == raw[i..];
      OnwardTwice(p, gap, Walk(raw[i..], path));
      w := JsonWalk(i, path);
    }

    /** json_get_int */
    method JsonGetInt(path: seq<byte>) returns (got: Got)
      modifies this
      ensures got == GetInt(raw, path)
      ensures errno == if got.Error? then Some(got.error) else old(errno)
    {
      var w := JsonWalk(0, path);
      match w {
        case Aborted => got := Abort;
        case Failed(e) => got := Error(e);
        case Stopped(p) =>
          got := ReadInt();
          if got.Error? {
            errno := Some(got.error);
          }
      }
    }

    /** __json_get_int */
    method ReadInt() returns (got: Got)
      requires walkIdx <= |raw|
      ensures got == IntAt(raw[walkIdx..])
    {
      var i := SkipSeparators(raw[walkIdx..]);
      var text := raw[walkIdx..][i..];
      if text == [] || !IsDigit(text[0]) {
        return Error(TypeError);
      }
      var run := SkipDigits(text);
      var closing := SkipSpaces(text[run..]);
      if closing.Some? {
        return Error(closing.value);
      }
      if run < 32 && Number(text[..run]) < INT_LIMIT {
        return Value(Number(text[..run]));
      }
      return Undefined;
    }
  }

  /** The brace-counting loop. */
  method SeekKey(text: seq<byte>, key: seq<byte>) returns (found: Option<nat>)
    ensures found == Seek(text, 0, key)
  {
    var i, depth := 0, 0;
    while i < |text|
      invariant i <= |text|
      invariant Seek(text, 0, key) == After(i, Seek(text[i..], depth, key))
    {
      assert text[i..][1..] == text[i + 1..];
      if text[i] == '{' {
        depth := depth + 1;
      } else if text[i] == '}' {
        depth := depth - 1;
      } else if depth == 1 && Matches(text[i..], key) {
        return Some(i + |key|);
      }
      i := i + 1;
    }
    return None;
  }

  method SkipSeparators(text: seq<byte>) returns (i: nat)
    ensures i == Separators(text)
  {
    i := 0;
    while i < |text| && IsSeparator(text[i])
      invariant i <= |text| && Separators(text) == i + Separators(text[i..])
    {
      assert text[i..][1..] == text[i + 1..];
      i := i + 1;
    }
  }

  method SkipDigits(text: seq<byte>) returns (i: nat)
    ensures i == DigitRun(text)
  {
    i := 0;
    while i < |text| && IsDigit(text[i])
      invariant i <= |text| && DigitRun(text) == i + DigitRun(text[i..])
    {
      assert text[i..][1..] == text[i + 1..];
      i := i + 1;
    }
  }

  method SkipSpaces(text: seq<byte>) returns (e: Option<Error>)
    ensures e == Closing(text)
  {
    var i := 0;
    while i < |text| && text[i] == ' '
      invariant i <= |text| && Closing(text) == Closing(text[i..])
    {
      assert text[i..][1..] == text[i + 1..];
      i := i + 1;
    }
    if i == |text| {
      return Some(BraceError);
    }
    return if text[i] == ',' || text[i] == '}' then None else Some(TypeError);
  }
}
