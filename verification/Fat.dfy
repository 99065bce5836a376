/**
 The allocation table: chains of clusters, first-fit allocation, linking and
 freeing (src/code/filesystem/fat32.c:334-355, 399-422, 483-497).
 K names the owner of a chain.
 */
module Fat {
  import opened Layout

  const END_OF_FILE: int := 0x0FFF_FFFF
  const EMPTY: int := 0
  const CLUSTER_0_VALUE: int := 0x0FFF_FFF0
  const CLUSTER_1_VALUE: int := 0x0FFF_FFFF
  const FAT_CLUSTER: nat := 1
  const ROOT_CLUSTER: nat := 2

  type Chain = seq<nat>

  ghost predicate Distinct<T(!new)>(s: seq<T>) {
    forall i, j | 0 <= i < j < |s| :: s[i] != s[j]
  }

  // s with s[idx[i]] replaced by vals[i], one index after the other.
  function Scatter<T>(s: seq<T>, idx: Chain, vals: seq<T>): (r: seq<T>)
    requires |idx| == |vals| && forall i | 0 <= i < |idx| :: idx[i] < |s|
    ensures |r| == |s|
    ensures forall c | 0 <= c < |s| && c !in idx :: r[c] == s[c]
  {
    var n := |idx|;
    if n == 0 then s else Scatter(s, idx[..n - 1], vals[..n - 1])[idx[n - 1] := vals[n - 1]]
  }

  lemma {:induction false} ScatterAt<T>(s: seq<T>, idx: Chain, vals: seq<T>)
    requires |idx| == |vals| && forall i | 0 <= i < |idx| :: idx[i] < |s|
    requires Distinct(idx)
    ensures forall i | 0 <= i < |idx| :: Scatter(s, idx, vals)[idx[i]] == vals[i]
  {
    var n := |idx|;
    if n == 0 {
    } else {
      ScatterAt(s, idx[..n - 1], vals[..n - 1]);
    }
  }

  // The link that the i-th cluster of a chain holds.
  function NextLink(ch: Chain, i: nat): int
    requires i < |ch|
  {
    if i + 1 < |ch| then ch[i + 1] else END_OF_FILE
  }

  function NextLinks(ch: Chain): seq<int> {
    seq(|ch|, i requires 0 <= i < |ch| => NextLink(ch, i))
  }

  predicate InRange(ch: Chain) {
    forall i | 0 <= i < |ch| :: 3 <= ch[i] < MAP_SIZE
  }

  function Linked(fat: Links, ch: Chain): (r: Links)
    requires InRange(ch)
  {
    var r := Scatter(fat, ch, NextLinks(ch));
    ScatterBounded(fat, ch, NextLinks(ch));
    r
  }

  function Freed(fat: Links, ch: Chain): (r: Links)
    requires InRange(ch)
  {
    ScatterBounded(fat, ch, seq(|ch|, _ => EMPTY));
    Scatter(fat, ch, seq(|ch|, _ => EMPTY))
  }

  lemma {:induction false} ScatterBounded(s: Links, idx: Chain, vals: seq<int>)
    requires |idx| == |vals| && InRange(idx)
    requires forall i | 0 <= i < |vals| :: 0 <= vals[i] < 0x1_0000_0000
    ensures forall c | 0 <= c < |s| :: 0 <= Scatter(s, idx, vals)[c] < 0x1_0000_0000
  {
    var n := |idx|;
    if n == 0 {
    } else {
      ScatterBounded(s, idx[..n - 1], vals[..n - 1]);
    }
  }

  // ---------- Consistency of the table with a set of owned chains ----------

  ghost predicate IsChain(fat: Links, ch: Chain) {
    && |ch| > 0 && InRange(ch)
    && forall i {:trigger NextLink(ch, i)} {:trigger fat[ch[i]]} | 0 <= i < |ch| :: fat[ch[i]] == NextLink(ch, i)
  }

  ghost predicate NoSharing<K(!new)>(chains: map<K, Chain>) {
    forall k, i, m, j | k in chains && m in chains && 0 <= i < |chains[k]| && 0 <= j < |chains[m]|
                        && chains[k][i] == chains[m][j] :: k == m && i == j
  }

  ghost predicate NoLeak<K(!new)>(fat: Links, chains: map<K, Chain>) {
    forall c: nat {:trigger Owned(chains, c)} | 3 <= c < MAP_SIZE && fat[c] != EMPTY :: Owned(chains, c)
  }

  ghost predicate Owned<K(!new)>(chains: map<K, Chain>, c: nat) {
    exists k :: k in chains && c in chains[k]
  }

  ghost predicate Consistent<K(!new)>(fat: Links, chains: map<K, Chain>) {
    && fat[0] == CLUSTER_0_VALUE && fat[1] == CLUSTER_1_VALUE && fat[2] == END_OF_FILE
    && (forall k {:trigger IsChain(fat, chains[k])} | k in chains :: IsChain(fat, chains[k]))
    && NoSharing(chains)
    && NoLeak(fat, chains)
  }

  lemma ChainDistinct<K(!new)>(fat: Links, chains: map<K, Chain>, k: K)
    requires Consistent(fat, chains) && k in chains
    ensures Distinct(chains[k])
  {}

  // A chain is what one gets by following the links from its head.
  lemma {:induction false} ChainUnique(fat: Links, a: Chain, b: Chain)
    requires IsChain(fat, a) && IsChain(fat, b) && a[0] == b[0]
    ensures a == b
  {
    assert fat[a[0]] == NextLink(a, 0) == NextLink(b, 0);
    hide IsChain;
    if |a| == 1 || |b| == 1 {
    } else {
      ChainTail(fat, a);
      ChainTail(fat, b);
      ChainUnique(fat, a[1..], b[1..]);
      assert a == [a[0]] + a[1..] && b == [b[0]] + b[1..];
    }
  }

  lemma ChainTail(fat: Links, a: Chain)
    requires IsChain(fat, a) && |a| > 1
    ensures IsChain(fat, a[1..]) && a[1..][0] == a[1]
  {
    forall i | 0 <= i < |a| - 1 ensures 3 <= a[1..][i] < MAP_SIZE && fat[a[1..][i]] == NextLink(a[1..], i) {
      assert a[1..][i] == a[i + 1] && NextLink(a[1..], i) == NextLink(a, i + 1) == fat[a[i + 1]];
    }
  }

  // ---------- Allocation ----------

  // The first n free clusters from i on, or all of them if there are fewer.
  function FirstFit(fat: Links, i: nat, n: nat): (cs: Chain)
    requires i <= MAP_SIZE
    ensures |cs| <= n
    decreases MAP_SIZE - i
  {
    if n == 0 || i == MAP_SIZE then []
    else if fat[i] == EMPTY then [i] + FirstFit(fat, i + 1, n - 1)
    else FirstFit(fat, i + 1, n)
  }

  ghost predicate Ascending(cs: Chain, lo: nat) {
    (forall j | 0 <= j < |cs| :: lo <= cs[j] < MAP_SIZE) && forall j, k | 0 <= j < k < |cs| :: cs[j] < cs[k]
  }

  // The clusters found are free and in ascending order.
  lemma {:induction false} FirstFitFree(fat: Links, i: nat, n: nat)
    requires i <= MAP_SIZE
    ensures Ascending(FirstFit(fat, i, n), i)
    ensures forall c | c in FirstFit(fat, i, n) :: c < MAP_SIZE && fat[c] == EMPTY
    decreases MAP_SIZE - i
  {
    if n == 0 || i == MAP_SIZE {
    } else {
      FirstFitFree(fat, i + 1, if fat[i] == EMPTY then n - 1 else n);
    }
  }

  lemma FirstFitInRange(fat: Links, n: nat)
    requires fat[0] != EMPTY && fat[1] != EMPTY && fat[2] != EMPTY
    ensures InRange(FirstFit(fat, 0, n))
  {
    FirstFitFree(fat, 0, n);
    assert forall j | 0 <= j < |FirstFit(fat, 0, n)| :: FirstFit(fat, 0, n)[j] in FirstFit(fat, 0, n);
  }

  // No free cluster below the last one found is passed over.
  lemma {:induction false} FirstFitFirst(fat: Links, i: nat, n: nat, c: nat)
    requires i <= c < MAP_SIZE && fat[c] == EMPTY
    requires |FirstFit(fat, i, n)| < n || (n > 0 && c < FirstFit(fat, i, n)[n - 1])
    ensures c in FirstFit(fat, i, n)
    decreases MAP_SIZE - i
  {
    if c == i {
    } else {
      FirstFitFirst(fat, i + 1, if fat[i] == EMPTY then n - 1 else n, c);
    }
  }

  // The number of free clusters from i on.
  function FreeFrom(fat: seq<int>, i: nat): nat
    requires i <= |fat|
    decreases |fat| - i
  {
    if i == |fat| then 0 else (if fat[i] == EMPTY then 1 else 0) + FreeFrom(fat, i + 1)
  }

  function FreeCount(fat: seq<int>): nat {
    FreeFrom(fat, 0)
  }

  lemma {:induction false} FreeFromUpdate(fat: seq<int>, i: nat, c: nat, v: int)
    requires i <= |fat| && c < |fat|
    ensures FreeFrom(fat[c := v], i) == FreeFrom(fat, i)
              + if c < i then 0 else (if v == EMPTY then 1 else 0) - (if fat[c] == EMPTY then 1 else 0)
    decreases |fat| - i
  {
    if i == |fat| {
    } else {
      FreeFromUpdate(fat, i + 1, c, v);
    }
  }

  // Overwriting clusters that are all free, or all taken, moves the count by their number.
  lemma {:induction false} FreeCountScatter(s: seq<int>, idx: Chain, vals: seq<int>, wasFree: bool)
    requires |idx| == |vals| && forall i | 0 <= i < |idx| :: idx[i] < |s|
    requires Distinct(idx)
    requires forall i | 0 <= i < |idx| :: (s[idx[i]] == EMPTY) == wasFree && (vals[i] == EMPTY) == !wasFree
    ensures FreeCount(Scatter(s, idx, vals)) == FreeCount(s) + if wasFree then -|idx| else |idx|
  {
    var n := |idx|;
    if n == 0 {
    } else {
      var before := Scatter(s, idx[..n - 1], vals[..n - 1]);
      FreeCountScatter(s, idx[..n - 1], vals[..n - 1], wasFree);
      assert idx[n - 1] !in idx[..n - 1];
      FreeFromUpdate(before, 0, idx[n - 1], vals[n - 1]);
    }
  }

  // First fit gives up only when there really are too few free clusters.
  lemma {:induction false} FirstFitCount(fat: Links, i: nat, n: nat)
    requires i <= MAP_SIZE
    ensures |FirstFit(fat, i, n)| == if n <= FreeFrom(fat, i) then n else FreeFrom(fat, i)
    decreases MAP_SIZE - i
  {
    if n == 0 || i == MAP_SIZE {
    } else {
      FirstFitCount(fat, i + 1, if fat[i] == EMPTY then n - 1 else n);
    }
  }

  // ---------- Linking and freeing keep the table consistent ----------

  lemma LinkKeeps<K(!new)>(fat: Links, chains: map<K, Chain>, k: K, cs: Chain)
    requires Consistent(fat, chains) && k !in chains
    requires |cs| > 0 && Distinct(cs) && InRange(cs)
    requires forall i | 0 <= i < |cs| :: fat[cs[i]] == EMPTY
    ensures Consistent(Linked(fat, cs), chains[k := cs])
  {
    var fat', chains' := Linked(fat, cs), chains[k := cs];
    ScatterAt(fat, cs, NextLinks(cs));
    forall m, i | m in chains && 0 <= i < |chains[m]| ensures chains[m][i] !in cs {
      assert IsChain(fat, chains[m]);
      assert fat[chains[m][i]] == NextLink(chains[m], i) != EMPTY;
    }
    forall m | m in chains' ensures IsChain(fat', chains'[m]) {
      if m != k {
        assert IsChain(fat, chains[m]);
      }
    }
    assert NoSharing(chains') by {
      forall a, i, b, j | a in chains' && b in chains' && 0 <= i < |chains'[a]| && 0 <= j < |chains'[b]|
                          && chains'[a][i] == chains'[b][j] ensures a == b && i == j {
        if a != k && b != k {
          assert chains[a][i] == chains[b][j];
        }
      }
    }
    forall c: nat | 3 <= c < MAP_SIZE && fat'[c] != EMPTY ensures Owned(chains', c) {
      if c in cs {
        assert c in chains'[k];
      } else {
        assert Owned(chains, c);
        var m :| m in chains && c in chains[m];
        assert m != k;
        assert c in chains'[m];
      }
    }
  }

  lemma FreeKeeps<K(!new)>(fat: Links, chains: map<K, Chain>, k: K)
    requires Consistent(fat, chains) && k in chains
    ensures InRange(chains[k]) && Consistent(Freed(fat, chains[k]), chains - {k})
  {
    var cs := chains[k];
    assert IsChain(fat, cs);
    var fat', chains' := Freed(fat, cs), chains - {k};
    ChainDistinct(fat, chains, k);
    ScatterAt(fat, cs, seq(|cs|, _ => EMPTY));
    forall m | m in chains' ensures IsChain(fat', chains'[m]) {
      assert IsChain(fat, chains[m]);
      assert forall i | 0 <= i < |chains[m]| :: chains[m][i] !in cs;
    }
    forall c: nat | 3 <= c < MAP_SIZE && fat'[c] != EMPTY ensures Owned(chains', c) {
      assert Owned(chains, c);
      var m :| m in chains && c in chains[m];
      assert c in chains'[m];
    }
  }

  // Freeing what was just linked gives the old table back, link by link.
  lemma FreeUndoesLink(fat: Links, cs: Chain)
    requires Distinct(cs) && InRange(cs)
    requires forall i | 0 <= i < |cs| :: fat[cs[i]] == EMPTY
    ensures Freed(Linked(fat, cs), cs) == fat
  {
    var mid := Linked(fat, cs);
    ScatterAt(mid, cs, seq(|cs|, _ => EMPTY));
    forall c | 0 <= c < MAP_SIZE ensures Freed(mid, cs)[c] == fat[c] {
      if c in cs {
        var i :| 0 <= i < |cs| && cs[i] == c;
        assert Scatter(mid, cs, seq(|cs|, _ => EMPTY))[cs[i]] == EMPTY;
      }
    }
  }
}
