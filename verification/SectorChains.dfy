/**
 Sector chains in an allocation table (scratch/mso-dumper/src/ole.py, SAT.getSectorIDChain):
 entry i of the table names the sector that follows sector i, and -2 ends a chain.
 */
module SectorChains {

  /** chain is the path through the table from start to the end-of-chain mark. */
  ghost predicate IsChain(table: seq<int>, start: int, chain: seq<nat>) {
    if start < 0 then chain == []
    else
      && chain != [] && chain[0] == start
      && (forall j :: 0 <= j < |chain| ==> chain[j] < |table|)
      && (forall j :: 0 <= j < |chain| - 1 ==> table[chain[j]] == chain[j + 1])
      && table[chain[|chain| - 1]] == -2
  }

  /** Following the links ends; the code's loop needs this of its table. */
  ghost predicate ReachesEnd(table: seq<int>, start: int) {
    exists chain :: IsChain(table, start, chain)
  }

  lemma {:induction false} SameSteps(table: seq<int>, start: int, a: seq<nat>, b: seq<nat>, j: nat)
    requires start >= 0 && IsChain(table, start, a) && IsChain(table, start, b)
    requires j < |a|
    ensures j < |b| && a[j] == b[j]
  {
    if j > 0 {
      SameSteps(table, start, a, b, j - 1);
      assert table[a[j - 1]] == a[j];
      assert j < |b| && table[b[j - 1]] == b[j];
    }
  }

  lemma ChainUnique(table: seq<int>, start: int, a: seq<nat>, b: seq<nat>)
    requires IsChain(table, start, a) && IsChain(table, start, b)
    ensures a == b
  {
    if start >= 0 {
      SameSteps(table, start, a, b, |a| - 1);
      SameSteps(table, start, b, a, |b| - 1);
      forall j | 0 <= j < |a| ensures a[j] == b[j] { SameSteps(table, start, a, b, j); }
    }
  }

  /** The chain from start; ChainUnique makes it the only one. */
  ghost function ChainFrom(table: seq<int>, start: int): (chain: seq<nat>)
    requires ReachesEnd(table, start)
    ensures IsChain(table, start, chain)
  {
    var chain :| IsChain(table, start, chain);
    chain
  }

  lemma IsChainFrom(table: seq<int>, start: int, chain: seq<nat>)
    requires IsChain(table, start, chain)
    ensures ReachesEnd(table, start) && ChainFrom(table, start) == chain
  {
    ChainUnique(table, start, chain, ChainFrom(table, start));
  }

  lemma {:induction false} NoRepeat(table: seq<int>, start: int, chain: seq<nat>, i: nat, j: nat)
    requires IsChain(table, start, chain) && i < j < |chain|
    ensures chain[i] != chain[j]
    decreases |chain| - j
  {
    if chain[i] == chain[j] {
      assert table[chain[i]] == chain[i + 1] >= 0;
      if j + 1 < |chain| {
        NoRepeat(table, start, chain, i + 1, j + 1);
      }
    }
  }

  /** A chain visits no sector twice, so it is no longer than the table. */
  lemma ChainHasNoRepeats(table: seq<int>, start: int, chain: seq<nat>)
    requires IsChain(table, start, chain)
    ensures forall i, j :: 0 <= i < j < |chain| ==> chain[i] != chain[j]
    ensures |chain| <= |table|
  {
    forall i, j | 0 <= i < j < |chain| ensures chain[i] != chain[j] { NoRepeat(table, start, chain, i, j); }
    DistinctBelow(chain, |table|);
  }

  lemma {:induction false} DistinctBelow(s: seq<nat>, n: nat)
    requires forall i, j :: 0 <= i < j < |s| ==> s[i] != s[j]
    requires forall i :: 0 <= i < |s| ==> s[i] < n
    ensures |s| <= n
    decreases n
  {
    if |s| > 0 {
      assert s[0] < n;
      if k :| 0 <= k < |s| && s[k] == n - 1 {
        var rest := s[..k] + s[k + 1..];
        assert forall i :: 0 <= i < |rest| ==> rest[i] == s[if i < k then i else i + 1];
        DistinctBelow(rest, n - 1);
      } else {
        DistinctBelow(s, n - 1);
      }
    }
  }

  ghost predicate OnePredecessor(table: seq<int>) {
    forall i, j :: 0 <= i < j < |table| && table[i] >= 0 ==> table[i] != table[j]
  }

  ghost predicate IsHead(table: seq<int>, head: int) { head !in table }

  lemma {:induction false} MeetBackwards(table: seq<int>, a: seq<nat>, b: seq<nat>, i: nat, j: nat)
    requires a != [] && b != [] && IsChain(table, a[0], a) && IsChain(table, b[0], b)
    requires IsHead(table, a[0]) && IsHead(table, b[0])
    requires OnePredecessor(table)
    requires i < |a| && j < |b| && a[i] == b[j]
    ensures a[0] == b[0]
  {
    if i > 0 { assert table[a[i - 1]] == a[i]; assert a[i] in table; }
    if j > 0 { assert table[b[j - 1]] == b[j]; assert b[j] in table; }
    if i > 0 && j > 0 {
      MeetBackwards(table, a, b, i - 1, j - 1);
    }
  }

  /** When no sector has two predecessors, chains from distinct heads share no sector. */
  lemma ChainsDisjoint(table: seq<int>, s: int, t: int, a: seq<nat>, b: seq<nat>)
    requires OnePredecessor(table) && IsHead(table, s) && IsHead(table, t) && s != t
    requires IsChain(table, s, a) && IsChain(table, t, b)
    ensures forall i, j :: 0 <= i < |a| && 0 <= j < |b| ==> a[i] != b[j]
  {
    forall i, j | 0 <= i < |a| && 0 <= j < |b| ensures a[i] != b[j] {
      if a[i] == b[j] { MeetBackwards(table, a, b, i, j); }
    }
  }
}
