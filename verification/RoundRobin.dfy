/**
 Fairness: while nobody comes or goes, the timer takes the active processes in
 turn, each exactly once a round (src/code/process/scheduler.c:73-123).
 */
module RoundRobin {
  import opened Kernel
  import opened Isolation
  import opened Scheduling

  // a lists the active slots from i on, in ascending order.
  ghost predicate ListsFrom(procs: Procs, i: nat, a: seq<nat>) {
    && (forall s :: s in a <==> i <= s < PROCESS_COUNT_MAX && procs[s].state != Inactive)
    && (forall x, y | 0 <= x < y < |a| :: a[x] < a[y])
  }

  ghost predicate Lists(procs: Procs, a: seq<nat>) {
    ListsFrom(procs, 0, a)
  }

  lemma Prepend(procs: Procs, i: nat, rest: seq<nat>)
    requires i < PROCESS_COUNT_MAX && procs[i].state != Inactive && ListsFrom(procs, i + 1, rest)
    ensures ListsFrom(procs, i, [i] + rest)
  {
    var a := [i] + rest;
    forall x, y | 0 <= x < y < |a| ensures a[x] < a[y] {
      assert a[y] == rest[y - 1] && rest[y - 1] in rest;
    }
  }

  lemma {:induction false} ListFrom(procs: Procs, i: nat) returns (a: seq<nat>)
    requires i <= PROCESS_COUNT_MAX
    ensures ListsFrom(procs, i, a) && |a| == CountActive(procs, i)
    decreases PROCESS_COUNT_MAX - i
  {
    a := [];
    if i == PROCESS_COUNT_MAX {
    } else {
      a := ListFrom(procs, i + 1);
      if procs[i].state != Inactive {
        Prepend(procs, i, a);
        a := [i] + a;
      }
    }
  }

  // Such a list exists, and is as long as the number of active processes that the kernel keeps.
  lemma ListOf(k: State) returns (a: seq<nat>)
    requires KInv(k)
    ensures Lists(k.procs, a) && |a| == k.active
  {
    a := ListFrom(k.procs, 0);
  }

  function After(j: nat, m: nat): nat {
    if j + 1 == m then 0 else j + 1
  }

  // The place in the list n turns after place j.
  function Turned(j: nat, n: nat, m: nat): (q: nat)
    requires j < m
    ensures q < m
    ensures n <= m ==> q == if j + n < m then j + n else j + n - m
  {
    if n == 0 then j else After(Turned(j, n - 1, m), m)
  }

  lemma PlaceOf(procs: Procs, a: seq<nat>, p: nat) returns (q: nat)
    requires Lists(procs, a) && p < PROCESS_COUNT_MAX && procs[p].state != Inactive
    ensures q < |a| && a[q] == p && forall x | 0 <= x < |a| && a[x] == p :: x == q
  {
    q :| 0 <= q < |a| && a[q] == p;
  }

  lemma ActiveAt(procs: Procs, a: seq<nat>, x: nat)
    requires Lists(procs, a) && x < |a|
    ensures a[x] < PROCESS_COUNT_MAX && procs[a[x]].state != Inactive
  {
    assert a[x] in a;
  }

  lemma RunningActive(k: State)
    requires Booted(k)
    ensures k.procs[RunningSlot(k)].state != Inactive && k.procs[NextSlot(k)].state != Inactive
  {}

  lemma NotFartherThan(k: State, y: nat)
    requires Booted(k) && y < PROCESS_COUNT_MAX && k.procs[y].state != Inactive && y != RunningSlot(k)
    ensures NextSlot(k) != RunningSlot(k) && Dist(RunningSlot(k), NextSlot(k)) <= Dist(RunningSlot(k), y)
  {
    assert k.procs[y].state == Waiting;
    SwitchCloser(k, y);
  }

  lemma Nearest(a: seq<nat>, j: nat, q: nat)
    requires forall x, y | 0 <= x < y < |a| :: a[x] < a[y]
    requires j < |a| && q < |a| && q != j
    requires a[j] < PROCESS_COUNT_MAX && a[q] < PROCESS_COUNT_MAX && a[After(j, |a|)] < PROCESS_COUNT_MAX
    requires Dist(a[j], a[q]) <= Dist(a[j], a[After(j, |a|)])
    ensures q == After(j, |a|)
  {}

  // The next process is the one after the running one in the list, or the first.
  lemma Successor(k: State, a: seq<nat>, j: nat)
    requires Booted(k) && Lists(k.procs, a) && j < |a| && a[j] == RunningSlot(k)
    ensures NextSlot(k) == a[After(j, |a|)]
  {
    hide KInv, NextSlot, Dist;
    RunningActive(k);
    var q := PlaceOf(k.procs, a, NextSlot(k));
    if |a| > 1 {
      ActiveAt(k.procs, a, After(j, |a|));
      NotFartherThan(k, a[After(j, |a|)]);
      Nearest(a, j, q);
    }
  }

  ghost function TickAll(k: State, frs: seq<Frame>): (k': State)
    requires Booted(k)
    ensures Booted(k')
    decreases |frs|
  {
    if frs == [] then k else Scheduling.Step(TickAll(k, frs[..|frs| - 1]), Tick(frs[|frs| - 1]))
  }

  lemma TickSame(k: State, fr: Frame, a: seq<nat>)
    requires Booted(k) && Lists(k.procs, a)
    ensures RunningSlot(Scheduling.Step(k, Tick(fr))) == NextSlot(k)
    ensures Lists(Scheduling.Step(k, Tick(fr)).procs, a)
  {
    hide KInv, Lists;
    TickDoes(k, fr);
    SameList(k.procs, Scheduling.Step(k, Tick(fr)).procs, a);
  }

  lemma SameList(p: Procs, q: Procs, a: seq<nat>)
    requires Lists(p, a) && forall s | 0 <= s < PROCESS_COUNT_MAX :: p[s].state == Inactive <==> q[s].state == Inactive
    ensures Lists(q, a)
  {}

  // After n ticks the running process is the n-th in turn.
  lemma {:induction false} TakesTurns(k: State, frs: seq<Frame>, a: seq<nat>, j: nat)
    requires Booted(k) && Lists(k.procs, a) && j < |a| && a[j] == RunningSlot(k)
    ensures var k' := TickAll(k, frs);
            Lists(k'.procs, a) && RunningSlot(k') == a[Turned(j, |frs|, |a|)]
    decreases |frs|
  {
    hide Booted, Lists, Scheduling.Step, RunningSlot, NextSlot;
    if frs == [] {
    } else {
      var init := frs[..|frs| - 1];
      TakesTurns(k, init, a, j);
      TickSame(TickAll(k, init), frs[|frs| - 1], a);
      Successor(TickAll(k, init), a, Turned(j, |init|, |a|));
    }
  }

  lemma PlaceOnce(j: nat, q: nat, m: nat) returns (t: nat)
    requires j < m && q < m
    ensures 1 <= t <= m && Turned(j, t, m) == q
    ensures forall u | 1 <= u <= m && Turned(j, u, m) == q :: u == t
  {
    t := if q > j then q - j else q + m - j;
  }

  // In every round of as many ticks as there are active processes, each runs exactly once.
  lemma OncePerRound(k: State, frs: seq<Frame>, p: nat) returns (t: nat)
    requires Booted(k) && p < PROCESS_COUNT_MAX && k.procs[p].state != Inactive && |frs| == k.active
    ensures 1 <= t <= |frs| && RunningSlot(TickAll(k, frs[..t])) == p
    ensures forall u | 1 <= u <= |frs| && RunningSlot(TickAll(k, frs[..u])) == p :: u == t
  {
    hide Lists, TickAll, RunningSlot, KInv, Turned;
    RunningActive(k);
    var a := ListOf(k);
    var j := PlaceOf(k.procs, a, RunningSlot(k));
    var q := PlaceOf(k.procs, a, p);
    t := PlaceOnce(j, q, |a|);
    forall u | 1 <= u <= |frs| ensures RunningSlot(TickAll(k, frs[..u])) == a[Turned(j, u, |a|)] {
      TakesTurns(k, frs[..u], a, j);
    }
  }
}
