/**
 The search command: a breadth-first walk over all directories, driven by the
 circular queue (src/usermode/find.c:44-106).
 */
module Search {
  import opened Bytes
  import opened Layout
  import opened Fat
  import opened Forest
  import opened Volume
  import opened Paths
  import opened ShellState
  import opened CircularQueue

  // One printed line: the path of the directory and the slot found in it.
  datatype Report = Report(path: seq<Byte>, dir: nat, slot: nat)

  // An entry matches by name, and by extension unless it has none.
  predicate Hit(e: DirEntry, k: Key) {
    Live(e) && e.name == k.name && (e.ext[0] == 0 || e.ext == k.ext)
  }

  // The directories in slots 2 up to i, in slot order.
  function KidsTo(t: Table, i: nat): seq<nat>
    requires i <= SLOTS && forall s | 0 <= s < SLOTS :: EntryOk(t[s])
  {
    if i <= 2 then [] else KidsTo(t, i - 1) + if Live(t[i - 1]) && IsDir(t[i - 1]) then [ClusterOf(t[i - 1])] else []
  }

  function HitsTo(t: Table, i: nat, k: Key, d: nat, path: seq<Byte>): seq<Report>
    requires i <= SLOTS
  {
    if i <= 2 then [] else HitsTo(t, i - 1, k, d, path) + if Hit(t[i - 1], k) then [Report(path, d, i - 1)] else []
  }

  // Everything that is reported when the directories are visited in this order.
  ghost function ReportsOf(f: FileSystem, order: seq<nat>, k: Key): seq<Report>
    requires Inv(f) && forall d | d in order :: d in f.tabs
  {
    if order == [] then []
    else
      var d := order[|order| - 1];
      ReportsOf(f, order[..|order| - 1], k) + HitsTo(f.tabs[d], SLOTS, k, d, PathText(Strip(NamesOf(f, d))))
  }

  // ---------- What is reported ----------

  // A report that is due: a live entry of that name, below the path of its directory.
  ghost predicate Due(f: FileSystem, r: Report, k: Key)
    requires Inv(f)
  {
    r.dir in f.tabs && 2 <= r.slot < SLOTS && Hit(f.tabs[r.dir][r.slot], k)
        && r.path == PathText(Strip(NamesOf(f, r.dir)))
  }

  lemma {:induction false} HitsAre(t: Table, i: nat, k: Key, d: nat, path: seq<Byte>)
    requires i <= SLOTS
    ensures forall r :: r in HitsTo(t, i, k, d, path) <==>
                        r.dir == d && r.path == path && 2 <= r.slot < i && Hit(t[r.slot], k)
    ensures Distinct(HitsTo(t, i, k, d, path))
  {
    hide Hit;
    if i <= 2 {
    } else {
      HitsAre(t, i - 1, k, d, path);
      if Hit(t[i - 1], k) {
        DistinctConcat(HitsTo(t, i - 1, k, d, path), [Report(path, d, i - 1)]);
      }
    }
  }

  // Each report that is due in these directories is made, once, and no other.
  lemma {:induction false} ReportsAre(f: FileSystem, order: seq<nat>, k: Key)
    requires Inv(f) && Distinct(order) && forall d | d in order :: d in f.tabs
    ensures forall r :: r in ReportsOf(f, order, k) <==> r.dir in order && Due(f, r, k)
    ensures Distinct(ReportsOf(f, order, k))
    decreases |order|
  {
    hide Inv, HitsTo, Hit, NamesOf, PathText;
    if order == [] {
    } else {
      var init, d := order[..|order| - 1], order[|order| - 1];
      var path := PathText(Strip(NamesOf(f, d)));
      ReportsAre(f, init, k);
      HitsAre(f.tabs[d], SLOTS, k, d, path);
      assert order == init + [d] && d !in init;
      DistinctConcat(ReportsOf(f, init, k), HitsTo(f.tabs[d], SLOTS, k, d, path));
    }
  }

  // The order in which reports are made: as the directories are visited, and by slot in each.
  ghost predicate InOrder(order: seq<nat>, a: Report, b: Report) {
    if a.dir == b.dir then a.slot < b.slot
    else exists x, y | 0 <= x < y < |order| :: order[x] == a.dir && order[y] == b.dir
  }

  lemma {:induction false} HitsInOrder(t: Table, i: nat, k: Key, d: nat, path: seq<Byte>)
    requires i <= SLOTS
    ensures var h := HitsTo(t, i, k, d, path); forall x, y | 0 <= x < y < |h| :: h[x].slot < h[y].slot
  {
    hide Hit;
    if i <= 2 {
    } else {
      HitsInOrder(t, i - 1, k, d, path);
      HitsAre(t, i - 1, k, d, path);
      var h := HitsTo(t, i - 1, k, d, path);
      assert forall x | 0 <= x < |h| :: h[x] in h;
    }
  }

  lemma {:induction false} ReportsInOrder(f: FileSystem, order: seq<nat>, k: Key)
    requires Inv(f) && Distinct(order) && forall d | d in order :: d in f.tabs
    ensures var r := ReportsOf(f, order, k); forall x, y | 0 <= x < y < |r| :: InOrder(order, r[x], r[y])
    decreases |order|
  {
    hide Inv, HitsTo, Hit, NamesOf, PathText;
    if order == [] {
    } else {
      var n := |order| - 1;
      var init, d := order[..n], order[n];
      var path := PathText(Strip(NamesOf(f, d)));
      ReportsInOrder(f, init, k);
      ReportsAre(f, init, k);
      HitsAre(f.tabs[d], SLOTS, k, d, path);
      HitsInOrder(f.tabs[d], SLOTS, k, d, path);
      OrderGrows(init, d, ReportsOf(f, init, k), HitsTo(f.tabs[d], SLOTS, k, d, path));
      assert order == init + [d];
    }
  }

  lemma OrderGrows(init: seq<nat>, d: nat, a: seq<Report>, b: seq<Report>)
    requires d !in init && (forall r | r in a :: r.dir in init) && (forall r | r in b :: r.dir == d)
    requires forall x, y | 0 <= x < y < |a| :: InOrder(init, a[x], a[y])
    requires forall x, y | 0 <= x < y < |b| :: b[x].slot < b[y].slot
    ensures forall x, y | 0 <= x < y < |a + b| :: InOrder(init + [d], (a + b)[x], (a + b)[y])
  {
    var order := init + [d];
    forall x, y | 0 <= x < y < |a + b| ensures InOrder(order, (a + b)[x], (a + b)[y]) {
      if y < |a| {
        assert InOrder(init, a[x], a[y]);
        if a[x].dir != a[y].dir {
          var i, j :| 0 <= i < j < |init| && init[i] == a[x].dir && init[j] == a[y].dir;
          assert order[i] == a[x].dir && order[j] == a[y].dir;
        }
      } else if x < |a| {
        assert a[x] in a && b[y - |a|] in b;
        var i :| 0 <= i < |init| && init[i] == a[x].dir;
        assert order[i] == a[x].dir && order[|init|] == d;
      } else {
        assert b[x - |a|] in b && b[y - |a|] in b;
      }
    }
  }

  // In terms of the tree: the binding that a report is about.
  ghost function About(f: FileSystem, r: Report): (nat, Key)
    requires r.dir in f.tabs && r.slot < SLOTS
  {
    (r.dir, KeyOf(f.tabs[r.dir][r.slot]))
  }

  // A binding is looked for that has the name, and that extension or none.
  ghost predicate Wanted(f: FileSystem, key: (nat, Key), k: Key)
    requires Inv(f)
  {
    key in TreeOf(f) && key.1.name == k.name && (key.1.ext == [0, 0, 0] || key.1.ext == k.ext)
  }

  lemma DueIsWanted(f: FileSystem, r: Report, k: Key)
    requires Inv(f) && r.dir in f.tabs && 2 <= r.slot < SLOTS && |k.ext| == 3
    ensures Due(f, r, k) <==>
            Live(f.tabs[r.dir][r.slot]) && Wanted(f, About(f, r), k) && r.path == PathText(Strip(NamesOf(f, r.dir)))
  {
    hide PathText, NamesOf, TreeOf;
    EntriesOk(f, r.dir);
    var e := f.tabs[r.dir][r.slot];
    assert e.ext[0] == 0 <==> e.ext == [0, 0, 0];
    if Live(e) {
      assert Occupied(f, (r.dir, r.slot));
      TreeAt(f, (r.dir, r.slot));
    }
  }

  // What is due in a directory is, binding for binding, what is looked for there.
  lemma WantedIsDue(f: FileSystem, d: nat, key: Key, k: Key) returns (r: Report)
    requires Inv(f) && Wanted(f, (d, key), k) && |k.ext| == 3
    ensures r.dir == d && d in f.tabs && 2 <= r.slot < SLOTS && Due(f, r, k) && About(f, r) == (d, key)
    ensures forall q: Report | Due(f, q, k) && About(f, q) == (d, key) :: q == r
  {
    hide PathText, NamesOf;
    var s := TreeSlot(f, d, key);
    r := Report(PathText(Strip(NamesOf(f, d))), d, s);
    DueIsWanted(f, r, k);
    assert TableOk(f.tabs[d]);
  }

  // So of the bindings in these directories just those looked for are reported, each once.
  lemma ReportsWanted(f: FileSystem, order: seq<nat>, k: Key, reports: seq<Report>)
    requires Inv(f) && |k.ext| == 3
    requires forall r :: r in reports <==> r.dir in order && Due(f, r, k)
    ensures forall r | r in reports :: r.dir in f.tabs && r.slot < SLOTS && Wanted(f, About(f, r), k)
    ensures forall d, key | d in order && Wanted(f, (d, key), k) ::
              exists r | r in reports :: r.dir in f.tabs && r.slot < SLOTS && About(f, r) == (d, key)
    ensures forall q, r | q in reports && r in reports && About(f, q) == About(f, r) :: q == r
  {
    hide Inv, PathText, NamesOf, Wanted, Hit;
    forall r | r in reports ensures r.dir in f.tabs && r.slot < SLOTS && Wanted(f, About(f, r), k) {
      DueIsWanted(f, r, k);
    }
    forall d, key | d in order && Wanted(f, (d, key), k)
      ensures exists r | r in reports :: r.dir in f.tabs && r.slot < SLOTS && About(f, r) == (d, key)
    {
      var r := WantedIsDue(f, d, key, k);
    }
    forall q, r | q in reports && r in reports && About(f, q) == About(f, r) ensures q == r {
      var u := WantedIsDue(f, r.dir, About(f, r).1, k);
    }
  }

  // ---------- Children ----------

  lemma {:induction false} KidsAre(f: FileSystem, d: nat, i: nat)
    requires Inv(f) && d in f.tabs && i <= SLOTS && forall s | 0 <= s < SLOTS :: EntryOk(f.tabs[d][s])
    ensures var kids := KidsTo(f.tabs[d], i);
            && Distinct(kids)
            && forall c :: c in kids <==> c in f.home && f.home[c].0 == d && f.home[c].1 < i
  {
    hide Inv;
    assert forall c | c in f.home :: f.home[c].1 >= 2 by {
      forall c | c in f.home ensures f.home[c].1 >= 2 {
        OwnSlot(f, c);
      }
    }
    if i <= 2 {
    } else {
      KidsAre(f, d, i - 1);
      var t := f.tabs[d];
      if Live(t[i - 1]) && IsDir(t[i - 1]) {
        KidHome(f, d, i - 1);
      }
      forall c | c in f.home && f.home[c] == (d, i - 1)
        ensures Live(t[i - 1]) && IsDir(t[i - 1]) && c == ClusterOf(t[i - 1])
      {
        OwnSlot(f, c);
      }
    }
  }

  // And in the order of its slots.
  lemma {:induction false} KidsInOrder(f: FileSystem, d: nat, i: nat)
    requires Inv(f) && d in f.tabs && i <= SLOTS && forall s | 0 <= s < SLOTS :: EntryOk(f.tabs[d][s])
    ensures var kids := KidsTo(f.tabs[d], i);
            && (forall c | c in kids :: c in f.home)
            && forall x, y | 0 <= x < y < |kids| :: f.home[kids[x]].1 < f.home[kids[y]].1
  {
    hide Inv;
    if i <= 2 {
    } else {
      KidsInOrder(f, d, i - 1);
      KidsAre(f, d, i - 1);
      var t, kids := f.tabs[d], KidsTo(f.tabs[d], i - 1);
      assert forall x | 0 <= x < |kids| :: kids[x] in kids;
      if Live(t[i - 1]) && IsDir(t[i - 1]) {
        KidHome(f, d, i - 1);
      }
    }
  }

  // ---------- The invariant of the walk ----------

  ghost predicate ByDepth(f: FileSystem, s: seq<nat>) {
    (forall d | d in s :: d in f.depth) && forall i, j | 0 <= i < j < |s| :: f.depth[s[i]] <= f.depth[s[j]]
  }

  // Seen so far are the root and the children of what was visited; levels come in order.
  ghost predicate Walking(f: FileSystem, visited: seq<nat>, queue: seq<nat>)
    requires Inv(f)
  {
    && Distinct(visited + queue)
    && (forall d :: d in visited + queue <==> d == ROOT_CLUSTER || (d in f.home && f.home[d].0 in visited))
    && ByDepth(f, visited + queue)
    && (forall d | d in queue :: d in f.depth && queue[0] in f.depth && f.depth[d] <= f.depth[queue[0]] + 1)
  }

  lemma WalkStarts(f: FileSystem)
    requires Inv(f)
    ensures Walking(f, [], [ROOT_CLUSTER])
  {
    assert [] + [ROOT_CLUSTER] == [ROOT_CLUSTER];
    assert forall d | d in f.home :: f.home[d].0 !in [];
  }

  lemma DistinctConcat<T(!new)>(a: seq<T>, b: seq<T>)
    requires Distinct(a) && Distinct(b) && forall x | x in b :: x !in a
    ensures Distinct(a + b)
  {
    forall i, j | 0 <= i < j < |a + b| ensures (a + b)[i] != (a + b)[j] {
      if |a| <= j {
        assert (a + b)[j] == b[j - |a|] && b[j - |a|] in b;
      }
    }
  }

  lemma WalkMembers(f: FileSystem, visited: seq<nat>, cn: nat, rest: seq<nat>, kids: seq<nat>)
    requires Inv(f) && Walking(f, visited, [cn] + rest) && cn in f.tabs
    requires Distinct(kids)
    requires forall c :: c in kids <==> c in f.home && f.home[c].0 == cn && f.home[c].1 < SLOTS
    requires forall c | c in f.home :: f.home[c].1 < SLOTS
    ensures var seen := (visited + [cn]) + (rest + kids);
            && seen == (visited + ([cn] + rest)) + kids
            && Distinct(seen)
            && forall d :: d in seen <==> d == ROOT_CLUSTER || (d in f.home && f.home[d].0 in visited + [cn])
  {
    var before := visited + ([cn] + rest);
    assert (visited + [cn]) + (rest + kids) == before + kids;
    forall c | c in kids ensures c !in before {
      NotOwnChild(f, visited, cn, rest, c);
    }
    DistinctConcat(before, kids);
  }

  // A child of the directory in turn has not been seen yet.
  lemma NotOwnChild(f: FileSystem, visited: seq<nat>, cn: nat, rest: seq<nat>, c: nat)
    requires Inv(f) && Walking(f, visited, [cn] + rest) && c in f.home && f.home[c].0 == cn
    ensures c !in visited + ([cn] + rest)
  {
    var before := visited + ([cn] + rest);
    assert before[|visited|] == cn;
    assert forall j | 0 <= j < |visited| :: visited[j] == before[j] != before[|visited|];
    assert HomeOk(f, c);
  }

  lemma WalkStep(f: FileSystem, visited: seq<nat>, cn: nat, rest: seq<nat>)
    requires Inv(f) && Walking(f, visited, [cn] + rest)
    ensures cn in f.tabs && (forall s | 0 <= s < SLOTS :: EntryOk(f.tabs[cn][s]))
    ensures Walking(f, visited + [cn], rest + KidsTo(f.tabs[cn], SLOTS))
  {
    DepthOfAll(f);
    assert cn in [cn] + rest;
    EntriesOk(f, cn);
    KidsAre(f, cn, SLOTS);
    var kids := KidsTo(f.tabs[cn], SLOTS);
    forall c | c in f.home ensures f.home[c].1 < SLOTS {
      OwnSlot(f, c);
    }
    WalkMembers(f, visited, cn, rest, kids);
    forall c | c in kids ensures c in f.depth && f.depth[c] == f.depth[cn] + 1 {
      assert HomeOk(f, c);
    }
    WalkDepths(f, visited, cn, rest, kids);
  }

  // What is in front of the head is no deeper, what is behind it no less deep.
  lemma AroundHead(f: FileSystem, visited: seq<nat>, cn: nat, rest: seq<nat>)
    requires ByDepth(f, visited + ([cn] + rest)) && cn in f.depth
    ensures forall d | d in visited :: d in f.depth && f.depth[d] <= f.depth[cn]
    ensures forall d | d in rest :: d in f.depth && f.depth[cn] <= f.depth[d]
  {
    var before := visited + ([cn] + rest);
    assert before[|visited|] == cn;
    forall d | d in visited ensures d in f.depth && f.depth[d] <= f.depth[cn] {
      var i :| 0 <= i < |visited| && visited[i] == d;
      assert before[i] == d;
    }
    forall d | d in rest ensures d in f.depth && f.depth[cn] <= f.depth[d] {
      var i :| 0 <= i < |rest| && rest[i] == d;
      assert before[|visited| + 1 + i] == d;
    }
  }

  lemma ByDepthAppend(f: FileSystem, before: seq<nat>, kids: seq<nat>, m: nat)
    requires ByDepth(f, before)
    requires forall d | d in before :: f.depth[d] <= m
    requires forall c | c in kids :: c in f.depth && f.depth[c] == m
    ensures ByDepth(f, before + kids)
  {
    var seen := before + kids;
    forall i, j | 0 <= i < j < |seen| ensures f.depth[seen[i]] <= f.depth[seen[j]] {
      if j >= |before| {
        assert seen[j] in kids;
        assert seen[i] in before || seen[i] in kids;
      }
    }
  }

  lemma WalkDepths(f: FileSystem, visited: seq<nat>, cn: nat, rest: seq<nat>, kids: seq<nat>)
    requires ByDepth(f, visited + ([cn] + rest)) && cn in f.depth
    requires forall d | d in [cn] + rest :: d in f.depth && f.depth[d] <= f.depth[cn] + 1
    requires forall c | c in kids :: c in f.depth && f.depth[c] == f.depth[cn] + 1
    ensures ByDepth(f, (visited + [cn]) + (rest + kids))
    ensures var queue := rest + kids;
            forall d | d in queue :: d in f.depth && queue[0] in f.depth && f.depth[d] <= f.depth[queue[0]] + 1
  {
    hide ByDepth;
    AroundHead(f, visited, cn, rest);
    assert forall d | d in rest :: d in [cn] + rest;
    ByDepthAppend(f, visited + ([cn] + rest), kids, f.depth[cn] + 1);
    assert (visited + [cn]) + (rest + kids) == visited + ([cn] + rest) + kids;
    var queue := rest + kids;
    assert queue != [] ==> queue[0] in rest || queue[0] in kids;
  }

  lemma {:induction false} AtMost(s: seq<nat>, all: set<nat>)
    requires Distinct(s) && forall d | d in s :: d in all
    ensures |s| <= |all|
  {
    if s == [] {
    } else {
      var n := |s| - 1;
      AtMost(s[..n], all - {s[n]});
    }
  }

  lemma WalkFits(f: FileSystem, visited: seq<nat>, queue: seq<nat>)
    requires Inv(f) && Walking(f, visited, queue)
    ensures |visited| + |queue| <= |f.tabs.Keys|
    ensures forall d | d in visited :: d in f.tabs
  {
    DepthOfAll(f);
    AtMost(visited + queue, f.tabs.Keys);
    assert forall d | d in visited :: d in visited + queue;
  }

  lemma {:induction false} WalkReaches(f: FileSystem, visited: seq<nat>, d: nat)
    requires Inv(f) && Walking(f, visited, []) && d in f.tabs
    ensures d in visited
    decreases f.depth[d]
  {
    assert visited + [] == visited;
    if d == ROOT_CLUSTER {
    } else {
      assert HomeOk(f, d);
      WalkReaches(f, visited, f.home[d].0);
    }
  }

  lemma WalkEnds(f: FileSystem, visited: seq<nat>)
    requires Inv(f) && Walking(f, visited, [])
    ensures Distinct(visited) && ByDepth(f, visited) && forall d :: d in visited <==> d in f.tabs
  {
    assert visited + [] == visited;
    WalkFits(f, visited, []);
    forall d | d in f.tabs ensures d in visited {
      WalkReaches(f, visited, d);
    }
  }

  // ---------- Room in the queue ----------

  // From here on the queue stays below its capacity after every round.
  ghost predicate NeverFull(f: FileSystem, visited: seq<nat>, queue: seq<nat>)
    requires Inv(f) && Walking(f, visited, queue)
    decreases |f.tabs.Keys| - |visited|
  {
    queue == []
    || (var cn, rest := queue[0], queue[1..];
        assert queue == [cn] + rest;
        WalkStep(f, visited, cn, rest);
        var next := rest + KidsTo(f.tabs[cn], SLOTS);
        WalkFits(f, visited + [cn], next);
        |next| < CAPACITY && NeverFull(f, visited + [cn], next))
  }

  ghost predicate SearchFits(f: FileSystem)
    requires Inv(f)
  {
    WalkStarts(f);
    NeverFull(f, [], [ROOT_CLUSTER])
  }

  // A hundred directories are never too many, whatever their shape.
  lemma {:induction false} FewNeverFull(f: FileSystem, visited: seq<nat>, queue: seq<nat>)
    requires Inv(f) && Walking(f, visited, queue) && |f.tabs.Keys| <= CAPACITY
    ensures NeverFull(f, visited, queue)
    decreases |f.tabs.Keys| - |visited|
  {
    hide Inv, Walking, KidsTo;
    if queue == [] {
    } else {
      var cn, rest := queue[0], queue[1..];
      assert queue == [cn] + rest;
      WalkStep(f, visited, cn, rest);
      var next := rest + KidsTo(f.tabs[cn], SLOTS);
      WalkFits(f, visited + [cn], next);
      FewNeverFull(f, visited + [cn], next);
    }
  }

  lemma FewFit(f: FileSystem)
    requires Inv(f) && |f.tabs.Keys| <= 100
    ensures SearchFits(f)
  {
    WalkStarts(f);
    FewNeverFull(f, [], [ROOT_CLUSTER]);
  }

  // ---------- When the ring overflows ----------

  // Seen so far are the root and the children of what was visited, but some of them, which
  // the ring has lost, will never be visited.
  ghost predicate Strolling(f: FileSystem, visited: seq<nat>, queue: seq<nat>, lost: set<nat>)
    requires Inv(f)
  {
    && Distinct(visited + queue)
    && (forall d | d in lost :: d !in visited + queue)
    && (forall d :: d in visited + queue || d in lost <==> d == ROOT_CLUSTER || (d in f.home && f.home[d].0 in visited))
  }

  lemma StrollStarts(f: FileSystem)
    requires Inv(f)
    ensures Strolling(f, [], [ROOT_CLUSTER], {})
  {
    assert [] + [ROOT_CLUSTER] == [ROOT_CLUSTER];
    assert forall d | d in f.home :: f.home[d].0 !in [];
  }

  lemma StrollFits(f: FileSystem, visited: seq<nat>, queue: seq<nat>, lost: set<nat>)
    requires Inv(f) && Strolling(f, visited, queue, lost)
    ensures |visited| + |queue| <= |f.tabs.Keys|
    ensures forall d | d in visited || d in queue || d in lost :: d in f.tabs
  {
    assert forall d | d in visited || d in queue :: d in visited + queue;
    AtMost(visited + queue, f.tabs.Keys);
  }

  lemma NewKids(f: FileSystem, visited: seq<nat>, cn: nat, rest: seq<nat>, lost: set<nat>, c: nat)
    requires Inv(f) && Strolling(f, visited, [cn] + rest, lost) && c in f.home && f.home[c].0 == cn
    ensures c !in visited + ([cn] + rest) && c !in lost
  {
    var before := visited + ([cn] + rest);
    assert before[|visited|] == cn;
    assert forall j | 0 <= j < |visited| :: visited[j] == before[j] != before[|visited|];
    assert HomeOk(f, c);
  }

  // Dropping a stretch from the middle leaves distinct elements, and none of those dropped.
  lemma DropMiddle(a: seq<nat>, gone: seq<nat>, b: seq<nat>)
    requires Distinct(a + (gone + b))
    ensures Distinct(a + b) && forall x | x in gone :: x !in a + b
  {
    var all, left := a + (gone + b), a + b;
    forall i | 0 <= i < |left| ensures left[i] == all[if i < |a| then i else i + |gone|] {
    }
    forall x | x in gone ensures x !in left {
      var i :| 0 <= i < |gone| && gone[i] == x;
      assert all[|a| + i] == x;
    }
  }

  lemma StrollStep(f: FileSystem, visited: seq<nat>, cn: nat, rest: seq<nat>, lost: set<nat>) returns (gone: set<nat>)
    requires Inv(f) && Strolling(f, visited, [cn] + rest, lost) && |rest| < CAPACITY
    ensures cn in f.tabs && (forall s | 0 <= s < SLOTS :: EntryOk(f.tabs[cn][s]))
    ensures Strolling(f, visited + [cn], PushAll(rest, KidsTo(f.tabs[cn], SLOTS)), lost + gone)
    ensures gone == {} <==> |rest| + |KidsTo(f.tabs[cn], SLOTS)| <= CAPACITY
    ensures gone == {} ==> PushAll(rest, KidsTo(f.tabs[cn], SLOTS)) == rest + KidsTo(f.tabs[cn], SLOTS)
    ensures |PushAll(rest, KidsTo(f.tabs[cn], SLOTS))| <= CAPACITY
  {
    assert cn in [cn] + rest;
    StrollFits(f, visited, [cn] + rest, lost);
    EntriesOk(f, cn);
    KidsAre(f, cn, SLOTS);
    var kids := KidsTo(f.tabs[cn], SLOTS);
    var dropped := PushAllKeeps(rest, kids);
    gone := set x | x in dropped;
    assert dropped != [] ==> dropped[0] in gone;
    StrollMembers(f, visited, cn, rest, lost, kids, dropped, PushAll(rest, kids), gone);
  }

  lemma HomesBounded(f: FileSystem)
    requires Inv(f)
    ensures forall c | c in f.home :: f.home[c].1 < SLOTS
  {
    forall c | c in f.home ensures f.home[c].1 < SLOTS {
      OwnSlot(f, c);
    }
  }

  lemma StrollMembers(f: FileSystem, visited: seq<nat>, cn: nat, rest: seq<nat>, lost: set<nat>, kids: seq<nat>,
                      dropped: seq<nat>, next: seq<nat>, gone: set<nat>)
    requires Inv(f) && Strolling(f, visited, [cn] + rest, lost) && Distinct(kids)
    requires forall c :: c in kids <==> c in f.home && f.home[c].0 == cn && f.home[c].1 < SLOTS
    requires dropped + next == rest + kids && gone == set x | x in dropped
    ensures Strolling(f, visited + [cn], next, lost + gone)
  {
    HomesBounded(f);
    var before := visited + ([cn] + rest);
    forall c | c in kids ensures c !in before && c !in lost {
      NewKids(f, visited, cn, rest, lost, c);
    }
    DistinctConcat(before, kids);
    assert before + kids == (visited + [cn]) + (dropped + next);
    DropMiddle(visited + [cn], dropped, next);
    hide Inv, Distinct;
    forall d ensures d in (visited + [cn]) + next || d in gone <==> d in before || d in kids {
      assert d in before + kids <==> d in before || d in kids;
      assert d in (visited + [cn]) + (dropped + next) <==> d in visited + [cn] || d in dropped || d in next;
    }
  }

  // Where something is reported, the path has to fit the printer.
  ghost predicate PathsFit(f: FileSystem, k: Key) {
    forall d, s | d in f.tabs && d in f.depth && 2 <= s < SLOTS && Hit(f.tabs[d][s], k) :: f.depth[d] <= MAX_PARTS
  }

  // ---------- The command ----------

  // One round of process_find's loop.
  method VisitSlot(sh: Shell, q: Queue, k: Key, i: nat) returns (reports: seq<Report>)
    requires sh.Valid() && |k.name| == 8 && |k.ext| == 3 && 2 <= i < SLOTS && q.Valid()
    requires sh.currDir == sh.driver.fs.tabs[sh.currentDirectory] && EntryOk(sh.currDir[i])
    requires sh.currentDirectory in sh.driver.fs.depth && PathsFit(sh.driver.fs, k)
    modifies sh`currDir, q, q.buffer
    ensures q.Valid() && sh.currDir == old(sh.currDir)
    ensures q.Contents() == if Live(sh.currDir[i]) && IsDir(sh.currDir[i])
                            then Pushed(old(q.Contents()), ClusterOf(sh.currDir[i])) else old(q.Contents())
    ensures reports == if Hit(sh.currDir[i], k)
                       then [Report(PathText(Strip(NamesOf(sh.driver.fs, sh.currentDirectory))),
                                    sh.currentDirectory, i)]
                       else []
  {
    hide Inv, OnDisk;
    reports := [];
    if sh.currDir[i].userAttribute == UATTR_NOT_EMPTY {
      if sh.currDir[i].attribute == ATTR_SUBDIRECTORY {
        q.Enqueue(ClusterOf(sh.currDir[i]));
      }
      var n := MemCmp(sh.currDir[i].name, k.name);
      var x := MemCmp(sh.currDir[i].ext, k.ext);
      if n == 0 && (sh.currDir[i].ext[0] == 0 || x == 0) {
        var path := sh.PrintPath(sh.currentDirectory);
        reports := [Report(path, sh.currentDirectory, i)];
      }
    }
  }

  lemma OneSlotOn(t: Table, i: nat, k: Key, d: nat, path: seq<Byte>)
    requires 2 <= i < SLOTS && forall s | 0 <= s < SLOTS :: EntryOk(t[s])
    ensures KidsTo(t, 2) == [] && HitsTo(t, 2, k, d, path) == []
    ensures KidsTo(t, i + 1) == if Live(t[i]) && IsDir(t[i]) then KidsTo(t, i) + [ClusterOf(t[i])] else KidsTo(t, i)
    ensures HitsTo(t, i + 1, k, d, path) == HitsTo(t, i, k, d, path) + if Hit(t[i], k) then [Report(path, d, i)] else []
  {}

  lemma OneMorePushed(q: seq<nat>, vals: seq<nat>, val: nat)
    ensures PushAll(q, []) == q && PushAll(q, vals + [val]) == Pushed(PushAll(q, vals), val)
  {
    assert (vals + [val])[..|vals|] == vals;
  }

  // The loop of process_find over the table of the current directory.
  method ScanTable(sh: Shell, q: Queue, k: Key, ghost rest: seq<nat>) returns (reports: seq<Report>)
    requires sh.Valid() && |k.name| == 8 && |k.ext| == 3 && q.Valid() && q.Contents() == rest
    requires sh.currDir == sh.driver.fs.tabs[sh.currentDirectory] && forall s | 0 <= s < SLOTS :: EntryOk(sh.currDir[s])
    requires sh.currentDirectory in sh.driver.fs.depth && PathsFit(sh.driver.fs, k)
    modifies sh`currDir, q, q.buffer
    ensures q.Valid() && sh.currDir == old(sh.currDir) && q.Contents() == PushAll(rest, KidsTo(sh.currDir, SLOTS))
    ensures reports == HitsTo(sh.currDir, SLOTS, k, sh.currentDirectory,
            PathText(Strip(NamesOf(sh.driver.fs, sh.currentDirectory))))
  {
    hide Inv, OnDisk, NamesOf, PathText, Hit, EntryOk, KidsTo, HitsTo, PathsFit, PushAll, Pushed;
    ghost var t := sh.currDir;
    ghost var path := PathText(Strip(NamesOf(sh.driver.fs, sh.currentDirectory)));
    OneSlotOn(t, 2, k, sh.currentDirectory, path);
    OneMorePushed(rest, [], 0);
    reports := [];
    for i := 2 to SLOTS
      invariant sh.currDir == t
      invariant q.Valid() && q.Contents() == PushAll(rest, KidsTo(t, i))
      invariant reports == HitsTo(t, i, k, sh.currentDirectory, path)
      modifies sh`currDir, q, q.buffer
    {
      OneSlotOn(t, i, k, sh.currentDirectory, path);
      OneMorePushed(rest, KidsTo(t, i), ClusterOf(t[i]));
      var found := VisitSlot(sh, q, k, i);
      reports := reports + found;
    }
  }

  // process_find: takes one directory from the queue, queues its subdirectories and reports.
  method ProcessFind(sh: Shell, q: Queue, k: Key, ghost rest: seq<nat>, ghost cn0: nat)
    returns (cn: nat, reports: seq<Report>)
    requires sh.driver.Valid() && |k.name| == 8 && |k.ext| == 3
    requires q.Valid() && q.Contents() == [cn0] + rest && cn0 in sh.driver.fs.tabs
    requires cn0 in sh.driver.fs.depth && PathsFit(sh.driver.fs, k)
    requires forall s | 0 <= s < SLOTS :: EntryOk(sh.driver.fs.tabs[cn0][s])
    modifies sh, q, q.buffer
    ensures q.Valid() && cn == cn0 && q.Contents() == PushAll(rest, KidsTo(sh.driver.fs.tabs[cn], SLOTS))
    ensures reports == HitsTo(sh.driver.fs.tabs[cn], SLOTS, k, cn, PathText(Strip(NamesOf(sh.driver.fs, cn))))
  {
    hide Inv, OnDisk, NamesOf, PathText, Hit, EntryOk, KidsTo, HitsTo, PathsFit, PushAll, Pushed, DecodeTable;
    cn := q.Dequeue();
    assert ([cn] + q.Contents())[0] == cn && ([cn] + q.Contents())[1..] == q.Contents() && ([cn0] + rest)[1..] == rest;
    sh.currentDirectory := cn;
    sh.UpdateDirectoryTable(cn);
    reports := ScanTable(sh, q, k, rest);
  }

  lemma OneMoreReport(f: FileSystem, order: seq<nat>, d: nat, k: Key)
    requires Inv(f) && (forall e | e in order :: e in f.tabs) && d in f.tabs
    ensures ReportsOf(f, order + [d], k) == ReportsOf(f, order, k)
            + HitsTo(f.tabs[d], SLOTS, k, d, PathText(Strip(NamesOf(f, d))))
  {
    assert (order + [d])[..|order|] == order;
  }

  // Where the search stands: what it has visited, what is queued, and what is lost.  As long
  // as nothing is lost and the ring is not full the walk is the complete one.
  ghost predicate Searching(f: FileSystem, order: seq<nat>, pending: seq<nat>, lost: set<nat>)
    requires Inv(f)
  {
    && Strolling(f, order, pending, lost) && |pending| <= CAPACITY
    && (forall d | d in order :: d in f.tabs)
    && (lost == {} && |pending| < CAPACITY ==>
          Walking(f, order, pending) && (SearchFits(f) <==> NeverFull(f, order, pending)))
    && (lost != {} || |pending| == CAPACITY ==> !SearchFits(f))
  }

  lemma SearchStarts(f: FileSystem)
    requires Inv(f)
    ensures Searching(f, [], [ROOT_CLUSTER], {})
  {
    StrollStarts(f);
    WalkStarts(f);
  }

  lemma SearchStep(f: FileSystem, order: seq<nat>, cn: nat, rest: seq<nat>, lost: set<nat>) returns (gone: set<nat>)
    requires Inv(f) && Searching(f, order, [cn] + rest, lost) && |rest| + 1 < CAPACITY
    ensures cn in f.tabs && (forall s | 0 <= s < SLOTS :: EntryOk(f.tabs[cn][s]))
    ensures Searching(f, order + [cn], PushAll(rest, KidsTo(f.tabs[cn], SLOTS)), lost + gone)
    ensures |order| + 1 <= |f.tabs.Keys|
  {
    gone := StrollStep(f, order, cn, rest, lost);
    StrollFits(f, order + [cn], PushAll(rest, KidsTo(f.tabs[cn], SLOTS)), lost + gone);
    if lost == {} {
      WalkStep(f, order, cn, rest);
      assert ([cn] + rest)[0] == cn && ([cn] + rest)[1..] == rest;
    }
  }

  // When the loop ends, everything was visited exactly if the search fits.
  lemma SearchEnds(f: FileSystem, order: seq<nat>, pending: seq<nat>, lost: set<nat>)
    requires Inv(f) && Searching(f, order, pending, lost) && (pending == [] || |pending| == CAPACITY)
    ensures Distinct(order) && forall d | d in order :: d in f.tabs
    ensures (forall d | d in f.tabs :: d in order) <==> SearchFits(f)
    ensures SearchFits(f) ==> ByDepth(f, order)
  {
    StrollFits(f, order, pending, lost);
    assert forall i, j | 0 <= i < j < |order| :: order[i] == (order + pending)[i] && order[j] == (order + pending)[j];
    hide Inv, NeverFull, SearchFits;
    if lost == {} && pending == [] {
      EmptyNeverFull(f, order);
      WalkEnds(f, order);
    } else if lost != {} {
      var d :| d in lost;
      assert d !in order + pending;
    } else {
      assert pending[0] in pending && (order + pending)[|order|] == pending[0];
      assert forall i | 0 <= i < |order| :: order[i] == (order + pending)[i] != pending[0];
    }
  }

  lemma EmptyNeverFull(f: FileSystem, order: seq<nat>)
    requires Inv(f) && Walking(f, order, [])
    ensures NeverFull(f, order, [])
  {}

  // One round of find: process the directory at the head of the queue.
  method Round(sh: Shell, q: Queue, k: Key, ghost order: seq<nat>, ghost pending: seq<nat>, ghost lost: set<nat>)
    returns (found: seq<Report>, ghost cn: nat, ghost gone: set<nat>)
    requires sh.driver.Valid() && |k.name| == 8 && |k.ext| == 3
    requires PathsFit(sh.driver.fs, k)
    requires q.Valid() && q.Contents() == pending && 0 < |pending| < CAPACITY
    requires Searching(sh.driver.fs, order, pending, lost) && forall d | d in order :: d in sh.driver.fs.tabs
    modifies sh, q, q.buffer
    ensures q.Valid() && Searching(sh.driver.fs, order + [cn], q.Contents(), lost + gone)
    ensures (forall d | d in order + [cn] :: d in sh.driver.fs.tabs) && |order| + 1 <= |sh.driver.fs.tabs.Keys|
    ensures ReportsOf(sh.driver.fs, order + [cn], k) == ReportsOf(sh.driver.fs, order, k) + found
  {
    hide Inv, OnDisk, Searching, KidsTo, HitsTo, EntryOk, ReportsOf, NamesOf, PushAll, PathsFit;
    ghost var rest := pending[1..];
    cn := pending[0];
    assert pending == [cn] + rest;
    gone := SearchStep(sh.driver.fs, order, cn, rest, lost);
    OneMoreReport(sh.driver.fs, order, cn, k);
    DepthOfAll(sh.driver.fs);
    var c;
    c, found := ProcessFind(sh, q, k, rest, cn);
  }

  // The loop of find: it ends when the ring is empty, or full.
  method Explore(sh: Shell, k: Key) returns (reports: seq<Report>, ghost order: seq<nat>)
    requires sh.driver.Valid() && |k.name| == 8 && |k.ext| == 3 && PathsFit(sh.driver.fs, k)
    modifies sh
    ensures Distinct(order) && forall d | d in order :: d in sh.driver.fs.tabs
    ensures (forall d | d in sh.driver.fs.tabs :: d in order) <==> SearchFits(sh.driver.fs)
    ensures SearchFits(sh.driver.fs) ==> ByDepth(sh.driver.fs, order)
    ensures reports == ReportsOf(sh.driver.fs, order, k)
  {
    hide Inv, OnDisk, Searching, ReportsOf, PathsFit, SearchFits, Distinct, ByDepth;
    var bfs := new Queue();
    bfs.Enqueue(ROOT_CLUSTER);
    order, reports := [], [];
    SearchStarts(sh.driver.fs);
    NoReport(sh.driver.fs, k);
    ghost var lost: set<nat> := {};
    assert bfs.Contents() == [ROOT_CLUSTER];
    var empty, full := false, false;
    while !empty && !full
      invariant bfs.Valid() && Searching(sh.driver.fs, order, bfs.Contents(), lost)
      invariant forall d | d in order :: d in sh.driver.fs.tabs
      invariant reports == ReportsOf(sh.driver.fs, order, k)
      invariant (empty <==> bfs.Contents() == []) && (full <==> |bfs.Contents()| == CAPACITY)
      invariant |bfs.Contents()| <= CAPACITY
      decreases |sh.driver.fs.tabs.Keys| - |order|
      modifies sh, bfs, bfs.buffer
    {
      var found; ghost var cn, gone;
      found, cn, gone := Round(sh, bfs, k, order, bfs.Contents(), lost);
      order, lost := order + [cn], lost + gone;
      reports := reports + found;
      empty := bfs.IsEmpty();
      full := bfs.IsFull();
    }
    SearchEnds(sh.driver.fs, order, bfs.Contents(), lost);
  }

  lemma NoReport(f: FileSystem, k: Key)
    requires Inv(f)
    ensures ReportsOf(f, [], k) == []
  {}

  // find: in the directories visited every live entry that matches is reported, once, and
  // nothing else is; these are all directories exactly if the search fits; and the shell is
  // back where it was.
  method Find(sh: Shell, k: Key) returns (reports: seq<Report>, ghost order: seq<nat>)
    requires sh.Valid() && |k.name| == 8 && |k.ext| == 3 && PathsFit(sh.driver.fs, k)
    modifies sh
    ensures sh.Valid() && sh.currentDirectory == old(sh.currentDirectory)
    ensures sh.currDir == sh.driver.fs.tabs[sh.currentDirectory]
    ensures Distinct(order) && forall d | d in order :: d in sh.driver.fs.tabs
    ensures (forall d | d in sh.driver.fs.tabs :: d in order) <==> SearchFits(sh.driver.fs)
    ensures SearchFits(sh.driver.fs) ==> ByDepth(sh.driver.fs, order)
    ensures reports == ReportsOf(sh.driver.fs, order, k)
    ensures Distinct(reports) && forall r :: r in reports <==> r.dir in order && Due(sh.driver.fs, r, k)
    ensures forall r | r in reports ::
              r.dir in sh.driver.fs.tabs && r.slot < SLOTS && Wanted(sh.driver.fs, About(sh.driver.fs, r), k)
    ensures forall d, key | d in order && Wanted(sh.driver.fs, (d, key), k) ::
              exists r | r in reports ::
                r.dir in sh.driver.fs.tabs && r.slot < SLOTS && About(sh.driver.fs, r) == (d, key)
    ensures forall q, r | q in reports && r in reports && About(sh.driver.fs, q) == About(sh.driver.fs, r) :: q == r
    ensures forall x, y | 0 <= x < y < |reports| :: InOrder(order, reports[x], reports[y])
  {
    hide Inv, OnDisk, SearchFits, ReportsOf, Distinct, ByDepth, Due, Wanted, About, InOrder;
    var here := sh.currentDirectory;
    reports, order := Explore(sh, k);
    ReportsAre(sh.driver.fs, order, k);
    ReportsInOrder(sh.driver.fs, order, k);
    ReportsWanted(sh.driver.fs, order, k, reports);
    sh.currentDirectory := here;
    sh.UpdateDirectoryTable(here);
  }
}
