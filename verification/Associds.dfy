/** Allocation of 16-bit association IDs from a cyclic cursor that skips zero. */
module Associds {
  import opened Wrappers

  const LAST := 65535

  function Start(next: nat): nat { if next == 0 then 1 else next }

  /** The k-th ID visited from the cursor. */
  function Nth(next: nat, k: nat): (id: nat)
    ensures 1 <= id <= LAST
  {
    (Start(next) + LAST - 1 + k) % LAST + 1
  }

  function Successor(id: nat): nat { if id == LAST then 1 else id + 1 }

  lemma NthSuccessor(next: nat, k: nat)
    ensures Successor(Nth(next, k)) == Nth(next, k + 1)
  {
    var a := Start(next) + LAST - 1 + k;
    assert (a + 1) % LAST == if a % LAST == LAST - 1 then 0 else a % LAST + 1;
  }

  lemma NthStart(next: nat)
    requires next <= LAST
    ensures Nth(next, 0) == Start(next)
  {
  }

  /** Every ID is visited within one round. */
  lemma Visited(next: nat, id: nat) returns (k: nat)
    requires next <= LAST && 1 <= id <= LAST
    ensures k < LAST && Nth(next, k) == id
  {
    k := if Start(next) <= id then id - Start(next) else id + LAST - Start(next);
  }

  /** And only once. */
  lemma VisitedOnce(next: nat, j: nat, k: nat)
    requires j < LAST && k < LAST && Nth(next, j) == Nth(next, k)
    ensures j == k
  {
    var a := Start(next) + LAST - 1;
    assert a + j == LAST * ((a + j) / LAST) + (a + j) % LAST && a + k == LAST * ((a + k) / LAST) + (a + k) % LAST;
    assert j - k == LAST * ((a + j) / LAST - (a + k) / LAST);
  }

  /** The first unused ID at or after step k of the round. */
  function FirstUnused(next: nat, used: set<nat>, k: nat): Option<nat>
    requires k <= LAST
    decreases LAST - k
  {
    if k == LAST then None
    else if Nth(next, k) !in used then Some(Nth(next, k))
    else FirstUnused(next, used, k + 1)
  }

  function Allocate(next: nat, used: set<nat>): Option<nat> {
    FirstUnused(next, used, 0)
  }

  function CursorAfter(next: nat, used: set<nat>): nat {
    var id := Allocate(next, used);
    if id.Some? then Successor(id.value) else Successor(Nth(next, LAST - 1))
  }

  lemma {:induction false} FirstUnusedAt(next: nat, used: set<nat>, k: nat, n: nat)
    requires k <= n <= LAST
    requires forall j :: k <= j < n ==> Nth(next, j) in used
    ensures FirstUnused(next, used, k) == FirstUnused(next, used, n)
    decreases n - k
  {
    if k < n {
      FirstUnusedAt(next, used, k + 1, n);
    }
  }

  /** The allocator returns an unused ID in 1..65535, and fails exactly when all are used. */
  lemma AllocateSound(next: nat, used: set<nat>)
    requires next <= LAST
    ensures var id := Allocate(next, used); id.Some? ==> 1 <= id.value <= 65535 && id.value !in used
    ensures Allocate(next, used).None? <==> forall id :: 1 <= id <= 65535 ==> id in used
  {
    var n := FirstGap(next, used);
    FirstUnusedAt(next, used, 0, n);
    if n == LAST {
      forall id | 1 <= id <= LAST ensures id in used {
        var k := Visited(next, id);
      }
    }
  }

  /** It is the first unused ID in cyclic order from the cursor. */
  lemma AllocateFirst(next: nat, used: set<nat>, j: nat)
    requires next <= LAST && j < LAST && Nth(next, j) !in used
    ensures Allocate(next, used).Some?
    ensures exists k :: 0 <= k <= j && Allocate(next, used) == Some(Nth(next, k))
  {
    var n := FirstGap(next, used);
    FirstUnusedAt(next, used, 0, n);
    assert n <= j;
  }

  /** In numbers: the least unused ID from the cursor on or, if there is none, the least unused one. The
      cursor moves to the ID after it, 1 coming after 65535. */
  lemma AllocateLeast(next: nat, used: set<nat>, id: nat)
    requires 1 <= next <= 65535 && Allocate(next, used) == Some(id)
    ensures id >= next ==> forall j :: next <= j < id ==> j in used
    ensures id < next ==> (forall j :: next <= j <= 65535 ==> j in used) && (forall j :: 1 <= j < id ==> j in used)
    ensures CursorAfter(next, used) == if id == 65535 then 1 else id + 1
  {
    var n := FirstGap(next, used);
    FirstUnusedAt(next, used, 0, n);
    NthIs(next, n);
    forall j | next <= j <= 65535 && (j < id || id < next) ensures j in used {
      NthIs(next, j - next);
    }
    forall j | 1 <= j < id && id < next ensures j in used {
      NthIs(next, j + 65535 - next);
    }
  }

  lemma NthIs(next: nat, k: nat)
    requires 1 <= next <= 65535 && k < 65535
    ensures Nth(next, k) == if next + k <= 65535 then next + k else next + k - 65535
  {
  }

  /** When all IDs are used the cursor comes round to where it was. */
  lemma CursorWhenFull(next: nat, used: set<nat>)
    requires 1 <= next <= 65535 && Allocate(next, used) == None
    ensures CursorAfter(next, used) == next
  {
    NthIs(next, 65534);
  }

  /** Zero stands for one. */
  lemma {:induction false} ZeroIsOne(used: set<nat>)
    ensures Allocate(0, used) == Allocate(1, used) && CursorAfter(0, used) == CursorAfter(1, used)
  {
    SameFromZero(used, 0);
  }

  lemma {:induction false} SameFromZero(used: set<nat>, k: nat)
    requires k <= LAST
    ensures FirstUnused(0, used, k) == FirstUnused(1, used, k)
  {
    var n := FirstGapFrom(used, k);
    FirstUnusedAt(0, used, k, n);
    FirstUnusedAt(1, used, k, n);
  }

  lemma {:induction false} FirstGapFrom(used: set<nat>, k: nat) returns (n: nat)
    requires k <= LAST
    ensures k <= n <= LAST
    ensures forall j :: k <= j < n ==> Nth(0, j) in used && Nth(1, j) in used
    ensures n < LAST ==> Nth(0, n) !in used && Nth(1, n) !in used
  {
    n := k;
    while n < LAST && Nth(0, n) in used
      invariant k <= n <= LAST
      invariant forall j :: k <= j < n ==> Nth(0, j) in used && Nth(1, j) in used
    {
      assert Nth(0, n) == Nth(1, n);
      n := n + 1;
    }
    assert n < LAST ==> Nth(0, n) == Nth(1, n);
  }

  lemma {:induction false} FirstGap(next: nat, used: set<nat>) returns (n: nat)
    ensures n <= LAST
    ensures forall j :: 0 <= j < n ==> Nth(next, j) in used
    ensures n < LAST ==> Nth(next, n) !in used
  {
    n := 0;
    while n < LAST && Nth(next, n) in used
      invariant n <= LAST
      invariant forall j :: 0 <= j < n ==> Nth(next, j) in used
    {
      n := n + 1;
    }
  }

  method AllocateAssocid(next: nat, used: set<nat>) returns (id: Option<nat>, next': nat)
    requires next <= LAST
    ensures id == Allocate(next, used)
    ensures next' == CursorAfter(next, used)
    ensures 1 <= next' <= LAST
  {
    next' := next;
    NthStart(next);
    for k := 0 to LAST
      invariant Start(next') == Nth(next, k)
      invariant k > 0 ==> next' == Successor(Nth(next, k - 1))
      invariant forall j :: 0 <= j < k ==> Nth(next, j) in used
    {
      NthSuccessor(next, k);
      var candidate := if next' == 0 then 1 else next';
      next' := if candidate == LAST then 1 else candidate + 1;
      if candidate !in used {
        FirstUnusedAt(next, used, 0, k);
        return Some(candidate), next';
      }
    }
    FirstUnusedAt(next, used, 0, LAST);
    id := None;
  }
}
