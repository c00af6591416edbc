/** Why walking at most as many blocks as the file has bytes is enough: a longer chain goes round for ever. */
module Mf4Cycles {
  import opened Bytes
  import opened Mf4Format
  import opened Mf4Reader
  import opened Mf4Records

  /** The two chains of a file: the channel groups of a data group, and the data groups. */
  datatype Chain = CGChain | DGChain

  /** Where a chain goes from `addr`: 0 when it ends there or cannot be followed. */
  function NextIn(chain: Chain, file: seq<Byte>, addr: int): int {
    if addr == 0 then 0
    else if chain == CGChain then
      match BlockAt(file, addr)
      case Ok(b) => if GroupOf(file, b).Ok? then b.links[0] else 0
      case _ => 0
    else
      match DataGroup(file, addr)
      case Ok(group) => group.1
      case _ => 0
  }

  function After(chain: Chain, file: seq<Byte>, addr: int, n: nat): int {
    if n == 0 then addr else NextIn(chain, file, After(chain, file, addr, n - 1))
  }

  lemma {:induction false} AfterShift(chain: Chain, file: seq<Byte>, addr: int, n: nat)
    ensures After(chain, file, NextIn(chain, file, addr), n) == After(chain, file, addr, n + 1)
  {
    hide NextIn;
    if n > 0 { AfterShift(chain, file, addr, n - 1); }
  }

  lemma {:induction false} ZeroStays(chain: Chain, file: seq<Byte>, addr: int, m: nat, n: nat)
    requires m <= n && After(chain, file, addr, m) == 0
    ensures After(chain, file, addr, n) == 0
  {
    hide BlockAt, GroupOf;
    if m < n { ZeroStays(chain, file, addr, m, n - 1); }
  }

  /** With n > 0 steps allowed, the walk runs out of them exactly when the chain goes on after n. */
  lemma {:induction false} OutOfStepsIff(file: seq<Byte>, addr: int, n: nat, t: GroupTable)
    requires n > 0
    ensures GroupChain(file, addr, n, t) == Diverges <==> After(CGChain, file, addr, n) != 0
    decreases n
  {
    hide BlockAt, GroupOf;
    AfterShift(CGChain, file, addr, n - 1);
    if addr == 0 {
      ZeroStays(CGChain, file, 0, 0, n);
    } else if BlockAt(file, addr).Ok? && GroupOf(file, BlockAt(file, addr).value).Ok? {
      var b := BlockAt(file, addr).value;
      var t' := AddGroup(t, GroupOf(file, b).value);
      if n == 1 {
        assert GroupChain(file, b.links[0], 0, t') == (if b.links[0] == 0 then Ok(t') else Diverges);
      } else {
        OutOfStepsIff(file, b.links[0], n - 1, t');
      }
    } else {
      ZeroStays(CGChain, file, 0, 0, n - 1);
      NoneDiverges(file, addr);
    }
  }

  lemma {:induction false} NoneDiverges(file: seq<Byte>, addr: int)
    ensures BlockAt(file, addr) != Diverges
    ensures BlockAt(file, addr).Ok? ==> GroupOf(file, BlockAt(file, addr).value) != Diverges
  {
  }

  /** A block that could be followed lies inside the file. */
  lemma {:induction false} FollowedIsInside(chain: Chain, file: seq<Byte>, addr: int)
    requires NextIn(chain, file, addr) != 0
    ensures 0 < addr < |file|
  {
    hide GroupOf, GroupChain, ReadDTData, Decoded;
  }

  /** Distinct numbers between 1 and n - 1 are fewer than n. */
  lemma {:induction false} Pigeonhole(s: seq<int>, n: nat)
    requires forall i :: 0 <= i < |s| ==> 0 < s[i] < n
    requires |s| >= n > 0
    ensures exists i, j :: 0 <= i < j < |s| && s[i] == s[j]
  {
    if forall i, j :: 0 <= i < j < |s| ==> s[i] != s[j] {
      var used := set i | 0 <= i < |s| :: s[i];
      Count(s, |s|);
      assert used <= Below(n);
      SubsetSize(used, Below(n));
      assert false;
    }
  }

  lemma {:induction false} Count(s: seq<int>, k: nat)
    requires k <= |s| && forall i, j :: 0 <= i < j < |s| ==> s[i] != s[j]
    ensures |set i | 0 <= i < k :: s[i]| == k
  {
    if k > 0 {
      Count(s, k - 1);
      assert (set i | 0 <= i < k :: s[i]) == (set i | 0 <= i < k - 1 :: s[i]) + {s[k - 1]};
    }
  }

  /** The numbers from 1 to n - 1. */
  function Below(n: nat): (s: set<int>)
    requires n > 0
    ensures |s| == n - 1 && forall x: int :: x in s <==> 0 < x < n
  {
    if n == 1 then {} else Below(n - 1) + {n - 1}
  }

  lemma {:induction false} SubsetSize(a: set<int>, b: set<int>)
    requires a <= b
    ensures |a| <= |b|
  {
    assert b == a + (b - a);
  }

  /** Once an address comes up a second time, the chain repeats from there. */
  lemma {:induction false} Repeats(chain: Chain, file: seq<Byte>, addr: int, i: nat, j: nat, k: nat)
    requires After(chain, file, addr, i) == After(chain, file, addr, j)
    ensures After(chain, file, addr, i + k) == After(chain, file, addr, j + k)
  {
    hide NextIn;
    if k > 0 { Repeats(chain, file, addr, i, j, k - 1); }
  }

  lemma {:induction false} NeverEnds(chain: Chain, file: seq<Byte>, addr: int, i: nat, j: nat, n: nat)
    requires i < j && After(chain, file, addr, i) == After(chain, file, addr, j) && After(chain, file, addr, j) != 0
    ensures After(chain, file, addr, n) != 0
    decreases n
  {
    hide NextIn;
    if n <= j {
      if After(chain, file, addr, n) == 0 { ZeroStays(chain, file, addr, n, j); }
    } else {
      Repeats(chain, file, addr, i, j, n - j);
      NeverEnds(chain, file, addr, i, j, i + (n - j));
    }
  }

  /** A chain longer than the file has bytes has no end. */
  lemma {:induction false} LongIsEndless(chain: Chain, file: seq<Byte>, addr: int, n: nat)
    requires After(chain, file, addr, |file|) != 0 && |file| > 0
    ensures After(chain, file, addr, n) != 0
  {
    hide NextIn, After;
    var visited := seq(|file|, i requires 0 <= i < |file| => After(chain, file, addr, i));
    forall i | 0 <= i < |file|
      ensures 0 < visited[i] < |file|
    {
      VisitedInside(chain, file, addr, i, |file|);
    }
    Pigeonhole(visited, |file|);
    var i, j :| 0 <= i < j < |visited| && visited[i] == visited[j];
    assert After(chain, file, addr, i) == After(chain, file, addr, j) && visited[j] > 0;
    NeverEnds(chain, file, addr, i, j, n);
  }

  lemma {:induction false} VisitedInside(chain: Chain, file: seq<Byte>, addr: int, i: nat, n: nat)
    requires i < n && After(chain, file, addr, n) != 0
    ensures 0 < After(chain, file, addr, i) < |file|
  {
    hide NextIn;
    if After(chain, file, addr, i + 1) == 0 { ZeroStays(chain, file, addr, i + 1, n); }
    FollowedIsInside(chain, file, After(chain, file, addr, i));
  }

  // ------------------------------------------------------------ main results

  /** Diverges means what it says: a walk that exhausts |file| steps would exhaust any number of them. */
  lemma {:induction false} DivergesForGood(file: seq<Byte>, addr: int, n: nat, t: GroupTable)
    requires GroupChain(file, addr, |file|, t) == Diverges && |file| > 0 && n > 0
    ensures GroupChain(file, addr, n, t) == Diverges
  {
    hide NextIn, GroupChain, After;
    OutOfStepsIff(file, addr, |file|, t);
    LongIsEndless(CGChain, file, addr, n);
    OutOfStepsIff(file, addr, n, t);
  }

  /** The same for the data groups, whose walk can also come upon a group that itself never ends. */
  lemma {:induction false} DataGroupsDivergeForGood(file: seq<Byte>, addr: int, n: nat, entries: seq<LogEntry>)
    requires DataGroups(file, addr, |file|, entries) == Diverges && |file| > 0
    ensures DataGroups(file, addr, n, entries) == Diverges
  {
    hide NextIn, DataGroups, After;
    if n <= |file| {
      FewerSteps(file, addr, n, |file|, entries);
    } else if After(DGChain, file, addr, |file|) == 0 {
      MoreSteps(file, addr, |file|, n, entries);
    } else {
      LongIsEndless(DGChain, file, addr, n);
      StillGoing(file, addr, n, entries);
    }
  }

  lemma {:induction false} FewerSteps(file: seq<Byte>, addr: int, m: nat, n: nat, entries: seq<LogEntry>)
    requires m <= n && DataGroups(file, addr, n, entries) == Diverges
    ensures DataGroups(file, addr, m, entries) == Diverges
    decreases m
  {
    hide DataGroup;
    if m > 0 && DataGroup(file, addr).Ok? {
      var group := DataGroup(file, addr).value;
      FewerSteps(file, group.1, m - 1, n - 1, entries + group.0);
    }
  }

  /** When the chain ends within n steps, the walk met a data group that never ends, and more steps change nothing. */
  lemma {:induction false} MoreSteps(file: seq<Byte>, addr: int, n: nat, m: nat, entries: seq<LogEntry>)
    requires n <= m && DataGroups(file, addr, n, entries) == Diverges && After(DGChain, file, addr, n) == 0
    ensures DataGroups(file, addr, m, entries) == Diverges
    decreases n
  {
    hide DataGroup;
    if n > 0 && DataGroup(file, addr).Ok? {
      var group := DataGroup(file, addr).value;
      AfterShift(DGChain, file, addr, n - 1);
      MoreSteps(file, group.1, n - 1, m - 1, entries + group.0);
    }
  }

  lemma {:induction false} StillGoing(file: seq<Byte>, addr: int, n: nat, entries: seq<LogEntry>)
    requires After(DGChain, file, addr, n) != 0
    ensures DataGroups(file, addr, n, entries) == Diverges
    decreases n
  {
    hide DataGroup;
    if n > 0 {
      AfterShift(DGChain, file, addr, n - 1);
      if DataGroup(file, addr).Ok? && addr != 0 {
        var group := DataGroup(file, addr).value;
        StillGoing(file, group.1, n - 1, entries + group.0);
      } else {
        ZeroStays(DGChain, file, 0, 0, n - 1);
      }
    }
  }
}
