/** Trees of nested objects, their text, ordinary lookup, and what the scanner makes of a path. */
module JsonTree {
  import opened Options
  import opened Bytes
  import opened Decimal
  import opened Json

  type Key = seq<byte>

  datatype Tree = Leaf(n: nat) | Object(fields: Fields)
  datatype Fields = End | More(key: Key, value: Tree, rest: Fields)

  /** How an object is written: what stands between a key and its value, and between fields. */
  datatype Style = Style(colon: seq<byte>, comma: seq<byte>)

  predicate Terminator(c: byte) {
    c == ',' || c == '}'
  }

  /** The text ends a number: a comma or a closing brace, possibly after spaces. */
  predicate EndsNumber(text: seq<byte>) {
    text != [] && (Terminator(text[0]) || (text[0] == ' ' && EndsNumber(text[1..])))
  }

  predicate ValidStyle(st: Style) {
    && (forall i | 0 <= i < |st.colon| :: IsSeparator(st.colon[i]))
    && (forall i | 0 <= i < |st.comma| :: st.comma[i] == ' ' || st.comma[i] == ',')
    && EndsNumber(st.comma)
  }

  function Written(t: Tree, st: Style): seq<byte>
    decreases t, 0
  {
    match t
    case Leaf(n) => Digits(n)
    case Object(fs) => ['{'] + WrittenFields(fs, st) + ['}']
  }

  function WrittenFields(fs: Fields, st: Style): seq<byte>
    decreases fs, 0
  {
    match fs
    case End => []
    case More(k, v, rest) => k + st.colon + Written(v, st) + Others(rest, st)
  }

  function Others(fs: Fields, st: Style): seq<byte>
    decreases fs, 1
  {
    if fs.End? then [] else st.comma + WrittenFields(fs, st)
  }

  // ---------------------------------------------------------------- the tree

  predicate IsLetter(c: byte) {
    'a' <= c <= 'z' || 'A' <= c <= 'Z'
  }

  predicate IsName(k: Key) {
    k != [] && forall i | 0 <= i < |k| :: IsLetter(k[i])
  }

  predicate Named(t: Tree) {
    t.Object? ==> NamedFields(t.fields)
  }

  predicate NamedFields(fs: Fields) {
    fs.More? ==> IsName(fs.key) && Named(fs.value) && NamedFields(fs.rest)
  }

  function Field(fs: Fields, key: Key): Option<Tree> {
    if fs.End? then None else if fs.key == key then Some(fs.value) else Field(fs.rest, key)
  }

  /** Ordinary lookup along a path. */
  function Find(t: Tree, keys: seq<Key>): Option<Tree>
    decreases |keys|
  {
    if keys == [] then Some(t)
    else if t.Leaf? then None
    else
      match Field(t.fields, keys[0])
      case None => None
      case Some(v) => Find(v, keys[1..])
  }

  predicate Contains(s: seq<byte>, key: Key)
    decreases |s|
  {
    key <= s || (s != [] && Contains(s[1..], key))
  }

  /** No field before the one with this key has a key that contains it. */
  predicate Clear(fs: Fields, key: Key) {
    fs.More? && fs.key != key ==> !Contains(fs.key, key) && Clear(fs.rest, key)
  }

  predicate ClearPath(t: Tree, keys: seq<Key>)
    decreases |keys|
  {
    keys != [] && t.Object? ==>
      && Clear(t.fields, keys[0])
      && var v := Field(t.fields, keys[0]);
         v.Some? ==> ClearPath(v.value, keys[1..])
  }

  /** No key of an object is a substring of a sibling's. */
  predicate Apart(t: Tree) {
    t.Object? ==> ApartFields(t.fields)
  }

  predicate ApartFields(fs: Fields) {
    fs.More? ==> ApartFrom(fs.key, fs.rest) && Apart(fs.value) && ApartFields(fs.rest)
  }

  predicate ApartFrom(key: Key, fs: Fields) {
    fs.More? ==> !Contains(fs.key, key) && !Contains(key, fs.key) && ApartFrom(key, fs.rest)
  }

  // ---------------------------------------------------------------- document order

  /** A field, with the nesting level it stands at: one for the fields of the outermost object. */
  datatype Item = Item(level: int, key: Key, value: Tree)

  /** The fields inside a value that stands at a level, in the order of the text. */
  function Items(t: Tree, level: int): seq<Item>
    decreases t, 0
  {
    match t
    case Leaf(_) => []
    case Object(fs) => FieldItems(fs, level + 1)
  }

  function FieldItems(fs: Fields, level: int): seq<Item>
    decreases fs, 0
  {
    match fs
    case End => []
    case More(k, v, rest) => [Item(level, k, v)] + (Items(v, level) + FieldItems(rest, level))
  }

  /** Where the first occurrence of a key in a name ends. */
  function OccurrenceEnd(name: Key, key: Key): (e: nat)
    requires Contains(name, key)
    ensures e <= |name|
    decreases |name|
  {
    if key <= name then |key| else 1 + OccurrenceEnd(name[1..], key)
  }

  /** The first occurrence of the key ends the name. */
  predicate Closes(name: Key, key: Key) {
    Contains(name, key) && OccurrenceEnd(name, key) == |name|
  }

  predicate Fits(e: Item, level: int, key: Key) {
    e.level == level && Contains(e.key, key)
  }

  /** The first field at a level whose key contains the wanted one, or |es|. */
  function FirstFit(es: seq<Item>, level: int, key: Key): (i: nat)
    ensures i <= |es| && (i < |es| ==> Fits(es[i], level, key))
    ensures forall j | 0 <= j < i :: !Fits(es[j], level, key)
  {
    if es == [] || Fits(es[0], level, key) then 0 else 1 + FirstFit(es[1..], level, key)
  }

  datatype Traced = Lost(error: Error) | Reached(item: Item)

  /** Where a path leads in document order: each component to the first field that fits it, one
      level further in than the last one found, anywhere behind that. Only a field whose key the
      component closes and whose value is an object leads on. */
  function Trace(es: seq<Item>, level: int, keys: seq<Key>): Traced
    requires keys != []
    decreases |keys|
  {
    var i := FirstFit(es, level, keys[0]);
    if i == |es| then Lost(KeyError)
    else if |keys| == 1 then Reached(es[i])
    else if !Closes(es[i].key, keys[0]) || es[i].value.Leaf? then Lost(TypeError)
    else Trace(es[i + 1..], level + 1, keys[1..])
  }

  /** What is read behind a field that the last component leads to. */
  function AtItem(item: Item, key: Key): Got {
    if !Closes(item.key, key) || item.value.Object? then Error(TypeError)
    else if item.value.n < INT_LIMIT then Value(item.value.n)
    else Undefined
  }

  /** The number a path leads to. */
  function TreeGet(t: Tree, keys: seq<Key>): Got
    requires keys != []
  {
    match Trace(Items(t, 0), 1, keys)
    case Lost(e) => Error(e)
    case Reached(item) => AtItem(item, keys[|keys| - 1])
  }
}
