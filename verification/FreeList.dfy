/** The intrusive doubly linked free lists in memory: two words per listed block, at its start. */
module FreeList {
  import opened Blocks
  import opened Buddy
  import opened BuddyMacro

  const OFFSET: int := 0x8000_0000
  const NULL: int := 0xFFFF_FFFF

  /** The kernel pointer to block (k, i). */
  function Ptr(k: nat, i: nat): int {
    Address(k, i) + OFFSET
  }

  /** The pointer to the n-th entry of a list, or the null pointer past either end. */
  function PtrAt(k: nat, list: seq<nat>, n: int): int {
    if 0 <= n < |list| then Ptr(k, list[n]) else NULL
  }

  /** The words reached from head spell out the list in both directions. */
  ghost predicate Linked(head: int, next: map<int, int>, prev: map<int, int>, k: nat, list: seq<nat>) {
    && head == PtrAt(k, list, 0)
    && forall n: nat :: n < |list| ==>
         && PtrAt(k, list, n) in next && next[PtrAt(k, list, n)] == PtrAt(k, list, n + 1)
         && PtrAt(k, list, n) in prev && prev[PtrAt(k, list, n)] == PtrAt(k, list, n - 1)
  }

  ghost predicate Wired(heads: seq<int>, next: map<int, int>, prev: map<int, int>, lists: seq<seq<nat>>) {
    && |heads| == |lists| == MAX_ORDER + 1
    && forall k: nat :: k <= MAX_ORDER ==> Linked(heads[k], next, prev, k, lists[k])
  }

  /** Pointers to listed blocks are proper and pairwise different. */
  ghost predicate Distinct(lists: seq<seq<nat>>)
    requires |lists| == MAX_ORDER + 1
  {
    && (forall k: nat, i: nat :: k <= MAX_ORDER && i in lists[k] ==> Ptr(k, i) < NULL)
    && (forall k: nat :: k <= MAX_ORDER ==> NoDup(lists[k]))
    && (forall k: nat, i: nat, l: nat, j: nat :: k <= MAX_ORDER && l <= MAX_ORDER && i in lists[k] && j in lists[l] && (k, i) != (l, j) ==>
          Ptr(k, i) != Ptr(l, j))
  }

  /** Words outside the changed pointers keep their values. */
  ghost predicate Keeps(m: map<int, int>, m': map<int, int>, changed: set<int>) {
    forall p :: p in m && p !in changed ==> p in m' && m'[p] == m[p]
  }

  lemma LinkedFrame(head: int, next: map<int, int>, prev: map<int, int>, next': map<int, int>, prev': map<int, int>,
                    k: nat, list: seq<nat>, changed: set<int>)
    requires Linked(head, next, prev, k, list)
    requires Keeps(next, next', changed) && Keeps(prev, prev', changed)
    requires forall n: nat :: n < |list| ==> PtrAt(k, list, n) !in changed
    ensures Linked(head, next', prev', k, list)
  {
  }

  lemma {:induction false} WithoutSplit(list: seq<nat>, n: nat)
    requires NoDup(list) && n < |list|
    ensures Without(list, list[n]) == list[..n] + list[n + 1..]
  {
    if n > 0 {
      WithoutSplit(list[1..], n - 1);
    }
  }

  /** Unlinking entry n: its neighbours, or the head, are joined past it. */
  lemma UnlinkedIsLinked(head: int, next: map<int, int>, prev: map<int, int>, head': int, next': map<int, int>, prev': map<int, int>,
                         k: nat, list: seq<nat>, n: nat)
    requires Linked(head, next, prev, k, list) && n < |list| && NoDup(list)
    requires forall i, j :: 0 <= i < |list| && 0 <= j < |list| && i != j ==> PtrAt(k, list, i) != PtrAt(k, list, j)
    requires Keeps(next, next', {PtrAt(k, list, n), PtrAt(k, list, n - 1)})
    requires Keeps(prev, prev', {PtrAt(k, list, n), PtrAt(k, list, n + 1)})
    requires n > 0 ==> PtrAt(k, list, n - 1) in next' && next'[PtrAt(k, list, n - 1)] == PtrAt(k, list, n + 1)
    requires n + 1 < |list| ==> PtrAt(k, list, n + 1) in prev' && prev'[PtrAt(k, list, n + 1)] == PtrAt(k, list, n - 1)
    requires head' == if n == 0 then PtrAt(k, list, 1) else head
    requires forall i :: 0 <= i < |list| ==> PtrAt(k, list, i) != NULL
    ensures Linked(head', next', prev', k, Without(list, list[n]))
  {
    hide Ptr, PtrAt, Without, NoDup;
    var w := Without(list, list[n]);
    WithoutSize(list, n);
    PtrWithout(k, list, n, 0);
    forall m: nat | m < |w|
      ensures PtrAt(k, w, m) in next' && next'[PtrAt(k, w, m)] == PtrAt(k, w, m + 1)
      ensures PtrAt(k, w, m) in prev' && prev'[PtrAt(k, w, m)] == PtrAt(k, w, m - 1)
    {
      PtrWithout(k, list, n, m);
      PtrWithout(k, list, n, m + 1);
      PtrWithout(k, list, n, m - 1);
      var o := Shift(n, m);
      assert PtrAt(k, list, o) in next && PtrAt(k, list, o) in prev;
      assert PtrAt(k, list, o) != PtrAt(k, list, n);
      assert o != n - 1 ==> PtrAt(k, list, o) != PtrAt(k, list, n - 1) by {
        PtrProper(k, list, n - 1);
      }
      assert o != n + 1 ==> PtrAt(k, list, o) != PtrAt(k, list, n + 1) by {
        PtrProper(k, list, n + 1);
      }
    }
  }

  /** Position m of a list without its entry n is this position of the list. */
  function Shift(n: nat, m: int): int {
    if m < n then m else m + 1
  }

  lemma WithoutSize(list: seq<nat>, n: nat)
    requires NoDup(list) && n < |list|
    ensures |Without(list, list[n])| == |list| - 1
  {
    WithoutSplit(list, n);
  }

  lemma PtrWithout(k: nat, list: seq<nat>, n: nat, m: int)
    requires NoDup(list) && n < |list| && -1 <= m < |list|
    ensures PtrAt(k, Without(list, list[n]), m) == PtrAt(k, list, Shift(n, m))
  {
    hide Ptr;
    WithoutSplit(list, n);
  }

  lemma PtrProper(k: nat, list: seq<nat>, m: int)
    ensures !(0 <= m < |list|) ==> PtrAt(k, list, m) == NULL
  {
  }

  /** Pushing a new first entry. */
  lemma PushedIsLinked(head: int, next: map<int, int>, prev: map<int, int>, next': map<int, int>, prev': map<int, int>,
                       k: nat, list: seq<nat>, i: nat)
    requires Linked(head, next, prev, k, list) && Ptr(k, i) != NULL
    requires forall m, n :: 0 <= m < |list| && 0 <= n < |list| && m != n ==> PtrAt(k, list, m) != PtrAt(k, list, n)
    requires forall n :: 0 <= n < |list| ==> PtrAt(k, list, n) != NULL && PtrAt(k, list, n) != Ptr(k, i)
    requires Keeps(next, next', {Ptr(k, i)}) && Keeps(prev, prev', {Ptr(k, i), head})
    requires Ptr(k, i) in next' && next'[Ptr(k, i)] == head && Ptr(k, i) in prev' && prev'[Ptr(k, i)] == NULL
    requires head != NULL ==> head in prev' && prev'[head] == Ptr(k, i)
    ensures Linked(Ptr(k, i), next', prev', k, [i] + list)
  {
    var w := [i] + list;
    forall m: nat | m < |w|
      ensures PtrAt(k, w, m) in next' && next'[PtrAt(k, w, m)] == PtrAt(k, w, m + 1)
      ensures PtrAt(k, w, m) in prev' && prev'[PtrAt(k, w, m)] == PtrAt(k, w, m - 1)
    {
      assert PtrAt(k, w, m + 1) == PtrAt(k, list, m);
      if m > 0 {
        assert PtrAt(k, w, m) == PtrAt(k, list, m - 1);
        assert PtrAt(k, list, 0) == head;
        assert PtrAt(k, w, m - 1) == if m == 1 then Ptr(k, i) else PtrAt(k, list, m - 2);
      }
    }
  }

  /** Entries of one list have distinct proper pointers, which no other list shares. */
  lemma EntriesDistinct(lists: seq<seq<nat>>, k: nat)
    requires |lists| == MAX_ORDER + 1 && Distinct(lists) && k <= MAX_ORDER
    ensures forall i, j :: 0 <= i < |lists[k]| && 0 <= j < |lists[k]| && i != j ==> PtrAt(k, lists[k], i) != PtrAt(k, lists[k], j)
    ensures forall i :: 0 <= i < |lists[k]| ==> PtrAt(k, lists[k], i) != NULL
  {
  }

  lemma OthersDistinct(lists: seq<seq<nat>>, k: nat, l: nat)
    requires |lists| == MAX_ORDER + 1 && Distinct(lists) && k <= MAX_ORDER && l <= MAX_ORDER && k != l
    ensures forall i: int, n: nat :: n < |lists[l]| ==> PtrAt(l, lists[l], n) != PtrAt(k, lists[k], i)
  {
    forall i: int, n: nat | n < |lists[l]|
      ensures PtrAt(l, lists[l], n) != PtrAt(k, lists[k], i)
    {
      assert lists[l][n] in lists[l];
      if 0 <= i < |lists[k]| {
        assert lists[k][i] in lists[k];
      }
    }
  }

  lemma UnlinkKeepsWired(heads: seq<int>, next: map<int, int>, prev: map<int, int>, heads': seq<int>, next': map<int, int>, prev': map<int, int>,
                         lists: seq<seq<nat>>, k: nat, n: nat)
    requires Wired(heads, next, prev, lists) && Distinct(lists) && k <= MAX_ORDER && n < |lists[k]|
    requires var list := lists[k];
      && Keeps(next, next', {PtrAt(k, list, n), PtrAt(k, list, n - 1)})
      && Keeps(prev, prev', {PtrAt(k, list, n), PtrAt(k, list, n + 1)})
      && (n > 0 ==> PtrAt(k, list, n - 1) in next' && next'[PtrAt(k, list, n - 1)] == PtrAt(k, list, n + 1))
      && (n + 1 < |list| ==> PtrAt(k, list, n + 1) in prev' && prev'[PtrAt(k, list, n + 1)] == PtrAt(k, list, n - 1))
      && heads' == heads[k := if n == 0 then PtrAt(k, list, 1) else heads[k]]
    ensures Wired(heads', next', prev', lists[k := Without(lists[k], lists[k][n])])
  {
    var list := lists[k];
    EntriesDistinct(lists, k);
    UnlinkedIsLinked(heads[k], next, prev, heads'[k], next', prev', k, list, n);
    forall l: nat | l <= MAX_ORDER && l != k
      ensures Linked(heads'[l], next', prev', l, lists[l])
    {
      OthersDistinct(lists, k, l);
      LinkedFrame(heads[l], next, prev, next', prev', l, lists[l],
                  {PtrAt(k, list, n), PtrAt(k, list, n - 1), PtrAt(k, list, n + 1)});
    }
  }

  lemma PushKeepsWired(heads: seq<int>, next: map<int, int>, prev: map<int, int>, next': map<int, int>, prev': map<int, int>,
                       lists: seq<seq<nat>>, k: nat, i: nat)
    requires Wired(heads, next, prev, lists) && k <= MAX_ORDER && Distinct(lists) && Distinct(lists[k := [i] + lists[k]])
    requires Keeps(next, next', {Ptr(k, i)}) && Keeps(prev, prev', {Ptr(k, i), heads[k]})
    requires Ptr(k, i) in next' && next'[Ptr(k, i)] == heads[k] && Ptr(k, i) in prev' && prev'[Ptr(k, i)] == NULL
    requires heads[k] != NULL ==> heads[k] in prev' && prev'[heads[k]] == Ptr(k, i)
    ensures Wired(heads[k := Ptr(k, i)], next', prev', lists[k := [i] + lists[k]])
  {
    var list := lists[k];
    var lists' := lists[k := [i] + list];
    EntriesDistinct(lists', k);
    EntriesDistinct(lists, k);
    assert forall n :: 0 <= n < |list| ==> PtrAt(k, list, n) == PtrAt(k, lists'[k], n + 1);
    assert PtrAt(k, lists'[k], 0) == Ptr(k, i);
    assert Linked(heads[k], next, prev, k, list);
    PushedIsLinked(heads[k], next, prev, next', prev', k, list, i);
    forall l: nat | l <= MAX_ORDER && l != k
      ensures Linked(heads[l], next', prev', l, lists[l])
    {
      OthersDistinct(lists', k, l);
      OthersDistinct(lists, k, l);
      assert PtrAt(k, list, 0) == heads[k];
      assert Linked(heads[l], next, prev, l, lists[l]);
      LinkedFrame(heads[l], next, prev, next', prev', l, lists[l], {Ptr(k, i), heads[k]});
    }
  }
}
