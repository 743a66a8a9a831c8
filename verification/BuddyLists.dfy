/** The doubly linked free lists of kernel/memory/buddy.c, threaded through the free pages. */
module BuddyLists {
  import opened BuddySpec
  import opened BuddyProofs

  const NULL: int := -1

  /** `block_list`: the two pointers stored in the first page of a free block. */
  datatype Link = Link(prev: int, next: int)

  type Links = map<int, Link>

  function At(l: seq<nat>, i: int): int {
    if 0 <= i < |l| then l[i] else NULL
  }

  /** The list whose head is `h` holds the pages `l`, in that order, linked both ways. */
  ghost predicate DList(m: Links, h: int, l: seq<nat>) {
    && h == At(l, 0) && (forall x :: x in l ==> x in m)
    && forall i :: 0 <= i < |l| ==> NodeOk(m, l, i)
  }

  ghost predicate NodeOk(m: Links, l: seq<nat>, i: nat)
    requires i < |l|
  {
    l[i] in m && m[l[i]] == Link(At(l, i - 1), At(l, i + 1))
  }

  /** No page is on two lists, or twice on one. */
  ghost predicate Apart(lists: seq<seq<nat>>) {
    && (forall k :: 0 <= k < |lists| ==> NoDup(lists[k]))
    && (forall j, k, x :: 0 <= j < |lists| && 0 <= k < |lists| && x in lists[j] && x in lists[k] ==> j == k)
  }

  ghost predicate Linked(m: Links, heads: seq<int>, lists: seq<seq<nat>>) {
    && |heads| == |lists| == ORDERS && Apart(lists)
    && forall k :: 0 <= k < ORDERS ==> DList(m, heads[k], lists[k])
  }

  // -------------------------------------------------------------------- pointer writes

  function SetPrev(m: Links, x: int, v: int): Links {
    if x != NULL && x in m then m[x := m[x].(prev := v)] else m
  }

  function SetNext(m: Links, x: int, v: int): Links {
    if x != NULL && x in m then m[x := m[x].(next := v)] else m
  }

  /** Memory after remove_from_free_list(p, order). */
  function Unlink(m: Links, p: int): Links
    requires p in m
  {
    SetPrev(SetNext(m, m[p].prev, m[p].next), m[p].next, m[p].prev)[p := Link(NULL, NULL)]
  }

  /** Memory after attach_to_free_list(p, order) with the old head `h`. */
  function Push(m: Links, p: int, h: int): Links {
    SetPrev(m[p := Link(NULL, h)], h, p)
  }

  lemma DListFrame(m: Links, m': Links, h: int, l: seq<nat>)
    requires DList(m, h, l) && forall x :: x in l ==> x in m && x in m' && m'[x] == m[x]
    ensures DList(m', h, l)
  {
    forall i | 0 <= i < |l|
      ensures NodeOk(m', l, i)
    {
      assert NodeOk(m, l, i);
    }
  }

  lemma UnlinkSame(m: Links, h: int, l: seq<nat>, i: nat, x: int)
    requires DList(m, h, l) && i < |l| && x !in l && x in m
    ensures x in Unlink(m, l[i]) && Unlink(m, l[i])[x] == m[x]
  {
    assert NodeOk(m, l, i);
    assert i > 0 ==> l[i - 1] in l;
    assert i + 1 < |l| ==> l[i + 1] in l;
  }

  lemma UnlinkList(m: Links, h: int, l: seq<nat>, i: nat)
    requires DList(m, h, l) && NoDup(l) && i < |l|
    ensures DList(Unlink(m, l[i]), if i == 0 then At(l, 1) else h, l[..i] + l[i + 1..])
  {
    var m', l' := Unlink(m, l[i]), l[..i] + l[i + 1..];
    assert NodeOk(m, l, i);
    forall j | 0 <= j < |l'|
      ensures NodeOk(m', l', j)
    {
      if j < i {
        assert l'[j] == l[j];
        assert NodeOk(m, l, j);
      } else {
        assert l'[j] == l[j + 1];
        assert NodeOk(m, l, j + 1);
      }
    }
  }

  lemma PushList(m: Links, h: int, l: seq<nat>, p: nat)
    requires DList(m, h, l) && p !in l && NoDup(l)
    ensures DList(Push(m, p, h), p, [p] + l)
  {
    var m', l' := Push(m, p, h), [p] + l;
    forall j | 0 <= j < |l'|
      ensures NodeOk(m', l', j)
    {
      if j > 0 {
        assert l'[j] == l[j - 1] && l[j - 1] in l;
        assert NodeOk(m, l, j - 1);
      }
    }
  }

  lemma {:induction false} WithoutAt(l: seq<nat>, i: nat)
    requires NoDup(l) && i < |l|
    ensures Without(l, l[i]) == l[..i] + l[i + 1..]
  {
    if i > 0 {
      WithoutAt(l[1..], i - 1);
      assert l[..i] + l[i + 1..] == [l[0]] + (l[1..][..i - 1] + l[1..][i..]);
    }
  }

  // -------------------------------------------------------------------- all lists together

  lemma UnlinkLinked(m: Links, heads: seq<int>, lists: seq<seq<nat>>, k: nat, i: nat)
    requires Linked(m, heads, lists) && k < ORDERS && i < |lists[k]| && lists[k][i] in m
    ensures var p := lists[k][i];
      Linked(Unlink(m, p), heads[k := if i == 0 then m[p].next else heads[k]], lists[k := Without(lists[k], p)])
  {
    var p, l := lists[k][i], lists[k];
    var m', lists' := Unlink(m, p), lists[k := Without(l, p)];
    var heads' := heads[k := if i == 0 then m[p].next else heads[k]];
    assert DList(m, heads[k], l) && NodeOk(m, l, i) && p in l;
    UnlinkList(m, heads[k], l, i);
    WithoutAt(l, i);
    WithoutFacts(l, p);
    assert Apart(lists') by {
      assert forall j, x :: 0 <= j < ORDERS && x in lists'[j] ==> x in lists[j];
    }
    forall j | 0 <= j < ORDERS
      ensures DList(m', heads'[j], lists'[j])
    {
      if j != k {
        assert DList(m, heads[j], lists[j]);
        forall x | x in lists[j]
          ensures x in m && x in m' && m'[x] == m[x]
        {
          UnlinkSame(m, heads[k], l, i, x);
        }
        DListFrame(m, m', heads[j], lists[j]);
      }
    }
  }

  lemma PushLinked(m: Links, heads: seq<int>, lists: seq<seq<nat>>, k: nat, p: nat)
    requires Linked(m, heads, lists) && k < ORDERS && forall j :: 0 <= j < ORDERS ==> p !in lists[j]
    ensures Linked(Push(m, p, heads[k]), heads[k := p], lists[k := [p] + lists[k]])
  {
    var m', lists' := Push(m, p, heads[k]), lists[k := [p] + lists[k]];
    assert DList(m, heads[k], lists[k]);
    PushList(m, heads[k], lists[k], p);
    assert lists[k] != [] ==> lists[k][0] in lists[k];
    forall j | 0 <= j < ORDERS && j != k
      ensures DList(m', heads[j], lists[j])
    {
      assert DList(m, heads[j], lists[j]);
      DListFrame(m, m', heads[j], lists[j]);
    }
    assert Apart(lists') by {
      assert forall j, x :: 0 <= j < ORDERS && x in lists'[j] ==> x in lists[j] || (j == k && x == p);
    }
  }
}
