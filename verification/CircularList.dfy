/** Intrusive circular doubly linked lists. A ring is a sequence of nodes, the head first, each
    linked to the next and the last to the first. */
module CircularList {
  import opened Sequences

  class ListHead {
    var prev: ListHead?
    var next: ListHead?

    constructor ()
    {
      prev, next := null, null;
    }
  }

  function After(n: nat, i: nat): (j: nat)
    requires i < n
    ensures j < n
  {
    if i + 1 == n then 0 else i + 1
  }

  /** The nodes of s, in this order, form a ring. */
  ghost predicate Ring(s: seq<ListHead>)
    reads s
  {
    && s != []
    && (forall i, j | 0 <= i < j < |s| :: s[i] != s[j])
    && (forall i | 0 <= i < |s| :: s[i].next == s[After(|s|, i)])
    && (forall i | 0 <= i < |s| :: s[After(|s|, i)].prev == s[i])
  }

  /** INIT_LIST_HEAD */
  method InitListHead(head: ListHead)
    modifies head
    ensures Ring([head])
  {
    head.next := head;
    head.prev := head;
  }

  /** __list_add */
  method AddBetween(entry: ListHead, prev: ListHead, next: ListHead)
    modifies entry, prev, next
    ensures entry != prev && entry != next ==>
              && entry.next == next && entry.prev == prev && next.prev == entry && prev.next == entry
              && (prev != next ==> prev.prev == old(prev.prev) && next.next == old(next.next))
  {
    next.prev := entry;
    entry.next := next;
    entry.prev := prev;
    prev.next := entry;
  }

  /** list_add: the entry becomes the first behind the head. */
  method ListAdd(entry: ListHead, head: ListHead, ghost es: seq<ListHead>)
    requires Ring([head] + es) && entry != head && entry !in es
    modifies entry, [head] + es
    ensures Ring([head, entry] + es)
  {
    ghost var s := [head] + es;
    assert head.next == s[After(|s|, 0)];
    AddBetween(entry, head, head.next);
    RingAdded(s, entry, [head, entry] + es);
  }

  lemma RingAdded(s: seq<ListHead>, entry: ListHead, t: seq<ListHead>)
    requires s != [] && entry !in s && |t| == |s| + 1 && t[0] == s[0] && t[1] == entry
    requires forall i | 1 <= i < |s| :: t[i + 1] == s[i]
    requires forall i, j | 0 <= i < j < |s| :: s[i] != s[j]
    requires s[0].next == entry && entry.prev == s[0] && entry.next == s[After(|s|, 0)] && s[After(|s|, 0)].prev == entry
    requires forall i | 1 <= i < |s| :: s[i].next == s[After(|s|, i)]
    requires forall i | 1 <= i < |s| :: s[After(|s|, i)].prev == s[i]
    ensures Ring(t)
  {
    assert forall i | 2 <= i < |t| :: t[i] == s[i - 1];
    assert forall i, j | 0 <= i < j < |t| :: t[i] != t[j];
    forall i | 0 <= i < |t|
      ensures t[i].next == t[After(|t|, i)] && t[After(|t|, i)].prev == t[i]
    {
      if i >= 2 {
        assert t[After(|t|, i)] == s[After(|s|, i - 1)];
      } else if i == 1 {
        assert t[After(|t|, 1)] == s[After(|s|, 0)];
      }
    }
  }

  /** list_add_tail: the entry becomes the last. */
  method ListAddTail(entry: ListHead, head: ListHead, ghost es: seq<ListHead>)
    requires Ring([head] + es) && entry != head && entry !in es
    modifies entry, [head] + es
    ensures Ring([head] + es + [entry])
  {
    ghost var s := [head] + es;
    assert s[After(|s|, |s| - 1)] == head;
    AddBetween(entry, head.prev, head);
    ghost var t := [head] + es + [entry];
    assert forall i | 0 <= i < |s| :: t[i] == s[i];
  }

  function Before(n: nat, i: nat): (j: nat)
    requires i < n
    ensures j < n && After(n, j) == i
  {
    if i == 0 then n - 1 else i - 1
  }

  /** The order of a ring without place k. */
  lemma AfterWithout(n: nat, k: nat, i: nat)
    requires k < n && i + 1 < n
    ensures var at := (i: nat) => if i < k then i else i + 1;
            at(After(n - 1, i)) == if at(i) == Before(n, k) then After(n, k) else After(n, at(i))
    ensures n > 2 ==> Before(n, k) != After(n, k)
    ensures Before(n, k) != k && After(n, k) != k
  {
  }

  /** The place that follows i once place k is skipped. */
  function Next(n: nat, k: nat, i: nat): (j: nat)
    requires k < n && i < n
    ensures j < n
  {
    if i == Before(n, k) then After(n, k) else After(n, i)
  }

  lemma RingWithout(s: seq<ListHead>, k: nat)
    requires k < |s| && |s| > 1
    requires forall i, j | 0 <= i < j < |s| :: s[i] != s[j]
    requires forall i | 0 <= i < |s| && i != k :: s[i].next == s[Next(|s|, k, i)]
    requires forall i | 0 <= i < |s| && i != k :: s[Next(|s|, k, i)].prev == s[i]
    ensures Ring(Without(s, k))
  {
    var t := Without(s, k);
    forall i | 0 <= i < |t|
      ensures t[i].next == t[After(|t|, i)] && t[After(|t|, i)].prev == t[i]
    {
      AfterWithout(|s|, k, i);
      var at := if i < k then i else i + 1;
      assert t[i] == s[at] && t[After(|t|, i)] == s[Next(|s|, k, at)];
    }
  }

  /** __list_del on the neighbours of the entry at place k. */
  method Unlink(entry: ListHead, ghost s: seq<ListHead>, ghost k: nat)
    requires Ring(s) && k < |s| && s[k] == entry
    modifies s
    ensures |s| > 1 ==> Ring(Without(s, k))
  {
    ghost var n, j, l := |s|, Before(|s|, k), After(|s|, k);
    assert s[After(n, j)].prev == s[j];
    assert entry.prev == s[j] && entry.next == s[l];
    entry.next.prev := entry.prev;
    entry.prev.next := entry.next;
    if n > 1 {
      AfterWithout(n, k, 0);
      RingWithout(s, k);
    }
  }

  /** list_del: the entry leaves the ring, which it may be alone in, and its own pointers are
      poisoned. */
  method ListDel(entry: ListHead, ghost s: seq<ListHead>, ghost k: nat)
    requires Ring(s) && k < |s| && s[k] == entry
    modifies s
    ensures entry.next == null && entry.prev == null && (|s| > 1 ==> Ring(Without(s, k)))
  {
    Unlink(entry, s, k);
    entry.next, entry.prev := null, null;
  }

  /** list_del_init: the entry leaves the ring and is a ring of its own, which an entry in no other
      ring stays. */
  method ListDelInit(entry: ListHead, ghost s: seq<ListHead>, ghost k: nat)
    requires Ring(s) && k < |s| && s[k] == entry
    modifies s
    ensures Ring([entry]) && (|s| > 1 ==> Ring(Without(s, k)))
  {
    Unlink(entry, s, k);
    InitListHead(entry);
  }

  /** list_replace: the new node takes the place of the old one, also when the old one is an
      empty list's head. */
  method ListReplace(old_: ListHead, new_: ListHead, ghost s: seq<ListHead>, ghost k: nat)
    requires Ring(s) && k < |s| && s[k] == old_ && new_ !in s
    modifies s, new_
    ensures Ring(s[k := new_])
  {
    ghost var n := |s|;
    assert old_.next == s[After(n, k)] && s[After(n, Before(n, k))].prev == s[Before(n, k)];
    new_.next := old_.next;
    new_.next.prev := new_;
    new_.prev := old_.prev;
    new_.prev.next := new_;
    ghost var t := s[k := new_];
    forall i | 0 <= i < n
      ensures t[i].next == t[After(n, i)] && t[After(n, i)].prev == t[i]
    {
      assert After(n, i) == k <==> i == Before(n, k);
    }
  }

  /** list_replace_init */
  method ListReplaceInit(old_: ListHead, new_: ListHead, ghost s: seq<ListHead>, ghost k: nat)
    requires Ring(s) && k < |s| && s[k] == old_ && new_ !in s
    modifies s, new_
    ensures Ring(s[k := new_]) && Ring([old_])
  {
    ListReplace(old_, new_, s, k);
    InitListHead(old_);
  }

  ghost predicate Apart(s: seq<ListHead>, t: seq<ListHead>) {
    forall i, j | 0 <= i < |s| && 0 <= j < |t| :: s[i] != t[j]
  }

  /** The node at place k is not in the rest of its ring. */
  lemma NotInRest(s: seq<ListHead>, k: nat)
    requires k < |s| && forall i, j | 0 <= i < j < |s| :: s[i] != s[j]
    ensures s[k] !in Without(s, k) && forall x | x in Without(s, k) :: x in s
  {
    var t := Without(s, k);
    forall x | x in t
      ensures x != s[k] && x in s
    {
      var i :| 0 <= i < |t| && t[i] == x;
      assert x == s[if i < k then i else i + 1];
    }
  }

  lemma ApartRings(s: seq<ListHead>, head: ListHead, es: seq<ListHead>)
    requires Apart(s, [head] + es)
    ensures head !in s && forall x | x in es :: x !in s
  {
    var d := [head] + es;
    assert d[0] == head && forall j | 0 <= j < |es| :: d[j + 1] == es[j];
  }

  /** list_move to another ring, also of an entry that is in no other. */
  method ListMove(entry: ListHead, head: ListHead, ghost s: seq<ListHead>, ghost k: nat, ghost es: seq<ListHead>)
    requires Ring(s) && k < |s| && s[k] == entry
    requires Ring([head] + es) && Apart(s, [head] + es)
    modifies s, [head] + es
    ensures Ring([head, entry] + es) && (|s| > 1 ==> Ring(Without(s, k)))
  {
    NotInRest(s, k);
    ApartRings(s, head, es);
    Unlink(entry, s, k);
    ListAdd(entry, head, es);
  }

  /** list_move_tail to another ring, also of an entry that is in no other. */
  method ListMoveTail(entry: ListHead, head: ListHead, ghost s: seq<ListHead>, ghost k: nat, ghost es: seq<ListHead>)
    requires Ring(s) && k < |s| && s[k] == entry
    requires Ring([head] + es) && Apart(s, [head] + es)
    modifies s, [head] + es
    ensures Ring([head] + es + [entry]) && (|s| > 1 ==> Ring(Without(s, k)))
  {
    NotInRest(s, k);
    ApartRings(s, head, es);
    Unlink(entry, s, k);
    ListAddTail(entry, head, es);
  }

  /** list_move within a ring: the entry becomes the first behind the head. */
  method ListMoveToFront(entry: ListHead, head: ListHead, ghost es: seq<ListHead>, ghost k: nat)
    requires Ring([head] + es) && k < |es| && es[k] == entry
    modifies [head] + es
    ensures Ring([head, entry] + Without(es, k))
  {
    ghost var s := [head] + es;
    assert s[k + 1] == entry && s[0] == head;
    NotInRest(s, k + 1);
    Unlink(entry, s, k + 1);
    assert Without(s, k + 1) == [head] + Without(es, k);
    ListAdd(entry, head, Without(es, k));
  }

  /** list_move_tail within a ring: the entry becomes the last. */
  method ListMoveToBack(entry: ListHead, head: ListHead, ghost es: seq<ListHead>, ghost k: nat)
    requires Ring([head] + es) && k < |es| && es[k] == entry
    modifies [head] + es
    ensures Ring([head] + Without(es, k) + [entry])
  {
    ghost var s := [head] + es;
    assert s[k + 1] == entry && s[0] == head;
    NotInRest(s, k + 1);
    Unlink(entry, s, k + 1);
    assert Without(s, k + 1) == [head] + Without(es, k);
    ListAddTail(entry, head, Without(es, k));
  }

  // ---------------------------------------------------------------- iteration

  /** What is left of a list when some nodes are deleted. */
  function Keep(es: seq<ListHead>, doomed: set<ListHead>): (ks: seq<ListHead>)
    ensures forall x | x in ks :: x in es && x !in doomed
  {
    if es == [] then []
    else Keep(es[..|es| - 1], doomed) + if es[|es| - 1] in doomed then [] else [es[|es| - 1]]
  }

  /** The ring when i entries have been visited. */
  ghost function Remaining(head: ListHead, es: seq<ListHead>, i: nat, doomed: set<ListHead>): seq<ListHead>
    requires i <= |es|
  {
    [head] + Keep(es[..i], doomed) + es[i..]
  }

  /** The i-th entry, or the head behind the last. */
  function At(head: ListHead, es: seq<ListHead>, i: nat): ListHead
    requires i <= |es|
  {
    if i < |es| then es[i] else head
  }

  /** Where the next entry to visit stands in the ring. */
  ghost function Place(head: ListHead, es: seq<ListHead>, i: nat, doomed: set<ListHead>): (k: nat)
    requires i <= |es|
    ensures k < |Remaining(head, es, i, doomed)| && Remaining(head, es, i, doomed)[k] == At(head, es, i)
  {
    if i < |es| then 1 + |Keep(es[..i], doomed)| else 0
  }

  lemma PlaceAfter(head: ListHead, es: seq<ListHead>, i: nat, doomed: set<ListHead>)
    requires i < |es|
    ensures var r := Remaining(head, es, i, doomed);
            r[After(|r|, Place(head, es, i, doomed))] == At(head, es, i + 1)
  {
  }

  lemma RemainingStep(head: ListHead, es: seq<ListHead>, i: nat, doomed: set<ListHead>)
    requires i < |es|
    ensures var r := Remaining(head, es, i, doomed);
            Remaining(head, es, i + 1, doomed)
            == if es[i] in doomed then Without(r, Place(head, es, i, doomed)) else r
  {
    var kept, rest := Keep(es[..i], doomed), es[i + 1..];
    assert Keep(es[..i + 1], doomed) == kept + if es[i] in doomed then [] else [es[i]] by {
      assert es[..i + 1][..i] == es[..i];
    }
    assert Remaining(head, es, i, doomed) == [head] + kept + [es[i]] + rest by {
      assert es[i..] == [es[i]] + rest;
    }
    if es[i] in doomed {
      WithoutMiddle(head, kept, es[i], rest);
    } else {
      Regroup([head], kept, [es[i]]);
    }
  }

  lemma WithoutMiddle(head: ListHead, a: seq<ListHead>, x: ListHead, b: seq<ListHead>)
    ensures Without([head] + a + [x] + b, 1 + |a|) == [head] + (a + []) + b
  {
  }

  lemma RemainingMembers(head: ListHead, es: seq<ListHead>, i: nat, doomed: set<ListHead>)
    requires i <= |es|
    ensures var r := Remaining(head, es, i, doomed); forall j | 0 <= j < |r| :: r[j] in [head] + es
  {
    var r := Remaining(head, es, i, doomed);
    forall j | 0 <= j < |r|
      ensures r[j] in [head] + es
    {
      var kept := Keep(es[..i], doomed);
      if 0 < j <= |kept| {
        assert r[j] == kept[j - 1] && kept[j - 1] in es[..i];
      } else if j > |kept| {
        assert r[j] == es[i + (j - 1 - |kept|)];
      }
    }
  }

  /** One turn of list_for_each_entry_safe whose body deletes the entry or leaves it. */
  method Visit(pos: ListHead, delete: bool, ghost ring: seq<ListHead>, ghost k: nat)
    requires Ring(ring) && 0 < k < |ring| && ring[k] == pos
    modifies ring
    ensures Ring(if delete then Without(ring, k) else ring)
  {
    if delete {
      ListDel(pos, ring, k);
    }
  }

  /** list_for_each_entry_safe with a body that deletes some of the entries it visits: every
      entry is visited exactly once, in order, and exactly the others are left, in order. */
  method ForEachSafe(head: ListHead, ghost es: seq<ListHead>, doomed: set<ListHead>) returns (ghost visited: seq<ListHead>)
    requires Ring([head] + es)
    modifies [head] + es
    ensures visited == es
    ensures Ring([head] + Keep(es, doomed))
  {
    visited := [];
    ghost var i := 0;
    ghost var ring := Remaining(head, es, 0, doomed);
    assert es[..0] == [] && ring == [head] + es && Place(head, es, 0, doomed) == After(|ring|, 0);
    HeadNotInside(head, es);
    var pos := head.next;
    if es != [] {
      PlaceAfter(head, es, 0, doomed);
    }
    var n := pos.next;
    while pos != head
      invariant i <= |es| && visited == es[..i]
      invariant ring == Remaining(head, es, i, doomed) && Ring(ring)
      invariant pos == At(head, es, i)
      invariant i < |es| ==> n == At(head, es, i + 1)
      decreases |es| - i
    {
      visited := visited + [pos];
      assert es[..i + 1] == es[..i] + [es[i]];
      RemainingMembers(head, es, i, doomed);
      assert forall j | 0 <= j < |ring| :: ring[j] in [head] + es;
      RemainingStep(head, es, i, doomed);
      Visit(pos, pos in doomed, ring, Place(head, es, i, doomed));
      i := i + 1;
      ring := Remaining(head, es, i, doomed);
      if i < |es| {
        PlaceAfter(head, es, i, doomed);
      }
      assert n == ring[Place(head, es, i, doomed)];
      pos := n;
      n := n.next;
    }
    assert es[..i] == es && ring == [head] + Keep(es, doomed);
  }

  lemma HeadNotInside(head: ListHead, es: seq<ListHead>)
    requires Ring([head] + es)
    ensures head !in es
  {
    var s := [head] + es;
    assert forall j | 0 <= j < |es| :: s[j + 1] == es[j] && s[0] != s[j + 1];
  }
}
