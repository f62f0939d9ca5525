/** The chain as a fixed, ordered sequence of contract logs, and the slices of it that
    range queries return. */
module Chain {
  import opened Events
  import opened Order

  /** Logs are ordered by block, then transaction, then position in the block. */
  function LogKey(l: Log): seq<int> { [l.block, l.txIndex, l.index] }

  predicate Before(a: Log, b: Log) {
    || a.block < b.block
    || (a.block == b.block && (a.txIndex < b.txIndex || (a.txIndex == b.txIndex && a.index < b.index)))
  }

  /** A chain lists its logs in order and no two share a position. */
  ghost predicate IsChain(chain: seq<Log>) {
    chain == [] || (IsChain(chain[1..]) && (|chain| > 1 ==> Before(chain[0], chain[1])))
  }

  lemma BeforeIsLex(a: Log, b: Log)
    ensures Before(a, b) <==> LexLe(LogKey(a), LogKey(b)) && LogKey(a) != LogKey(b)
  {
    var x1, y1, x2, y2 := [a.txIndex, a.index], [b.txIndex, b.index], [a.index], [b.index];
    assert x2[1..] == [] && y2[1..] == [];
    assert LexLe(x2, y2) <==> a.index <= b.index;
    assert x1[1..] == x2 && y1[1..] == y2;
    assert LexLe(x1, y1) <==> a.txIndex < b.txIndex || (a.txIndex == b.txIndex && a.index <= b.index);
    assert LogKey(a)[1..] == x1 && LogKey(b)[1..] == y1;
    assert LogKey(a) == LogKey(b) <==> LogKey(a)[0] == LogKey(b)[0] && x1[0] == y1[0] && x1[1] == y1[1];
  }

  lemma {:induction false} HeadIsFirst(chain: seq<Log>, j: nat)
    requires IsChain(chain) && 0 < j < |chain|
    ensures Before(chain[0], chain[j])
  {
    if j > 1 {
      HeadIsFirst(chain[1..], j - 1);
    }
  }

  lemma {:induction false} ChainIsOrdered(chain: seq<Log>, i: nat, j: nat)
    requires IsChain(chain) && i < j < |chain|
    ensures Before(chain[i], chain[j])
  {
    if i == 0 { HeadIsFirst(chain, j); } else { ChainIsOrdered(chain[1..], i - 1, j - 1); }
  }

  lemma ChainIsSorted(chain: seq<Log>)
    requires IsChain(chain)
    ensures SortedBy(chain, LogKey) && Separates(LogKey, chain)
  {
    forall i, j | 0 <= i < j < |chain|
      ensures LexLe(LogKey(chain[i]), LogKey(chain[j])) && LogKey(chain[i]) != LogKey(chain[j]) {
      ChainIsOrdered(chain, i, j);
      BeforeIsLex(chain[i], chain[j]);
    }
    forall x, y | x in chain && y in chain && LogKey(x) == LogKey(y) ensures x == y {
      var i :| 0 <= i < |chain| && chain[i] == x;
      var j :| 0 <= j < |chain| && chain[j] == y;
      assert !(i < j) && !(j < i);
    }
  }

  /** The logs of blocks first to last, in chain order. */
  function Slice(chain: seq<Log>, first: int, last: int): seq<Log> {
    if chain == [] then []
    else if first <= chain[0].block <= last then [chain[0]] + Slice(chain[1..], first, last)
    else Slice(chain[1..], first, last)
  }

  lemma {:induction false} SliceMembers(chain: seq<Log>, first: int, last: int, l: Log)
    ensures l in Slice(chain, first, last) <==> l in chain && first <= l.block <= last
  {
    if chain != [] {
      SliceMembers(chain[1..], first, last, l);
      assert l in chain <==> l == chain[0] || l in chain[1..];
    }
  }

  lemma HeadBeforeMember(chain: seq<Log>, l: Log)
    requires IsChain(chain) && chain != [] && l in chain[1..]
    ensures Before(chain[0], l)
  {
    var i :| 0 <= i < |chain[1..]| && chain[1..][i] == l;
    HeadIsFirst(chain, i + 1);
  }

  lemma {:induction false} SliceIsChain(chain: seq<Log>, first: int, last: int)
    requires IsChain(chain)
    ensures IsChain(Slice(chain, first, last))
  {
    if chain != [] {
      var rest := Slice(chain[1..], first, last);
      SliceIsChain(chain[1..], first, last);
      if rest != [] {
        SliceMembers(chain[1..], first, last, rest[0]);
        HeadBeforeMember(chain, rest[0]);
      }
      assert ([chain[0]] + rest)[1..] == rest;
    }
  }

  lemma {:induction false} SliceEmpty(chain: seq<Log>, first: int, last: int)
    requires forall l | l in chain :: !(first <= l.block <= last)
    ensures Slice(chain, first, last) == []
  {
    if chain != [] { SliceEmpty(chain[1..], first, last); }
  }

  /** Adjacent ranges have adjacent slices. */
  lemma {:induction false} SliceConcat(chain: seq<Log>, first: int, mid: int, last: int)
    requires IsChain(chain) && first <= mid + 1 && mid <= last
    ensures Slice(chain, first, mid) + Slice(chain, mid + 1, last) == Slice(chain, first, last)
  {
    if chain != [] {
      SliceConcat(chain[1..], first, mid, last);
      if chain[0].block > mid {
        forall l | l in chain ensures l.block > mid {
          if l != chain[0] { HeadBeforeMember(chain, l); }
        }
        SliceEmpty(chain, first, mid);
      }
    }
  }

  /** Sorting any rearrangement of a slice gives the slice. */
  lemma SortedSlice(chain: seq<Log>, first: int, last: int, s: seq<Log>)
    requires IsChain(chain)
    requires SortedBy(s, LogKey) && multiset(s) == multiset(Slice(chain, first, last))
    ensures s == Slice(chain, first, last)
  {
    SliceIsChain(chain, first, last);
    ChainIsSorted(Slice(chain, first, last));
    SortedUnique(Slice(chain, first, last), s, LogKey);
  }
}
