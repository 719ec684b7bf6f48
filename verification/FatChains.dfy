/** Cluster chains in a file allocation table: the linked structure every file and directory is stored in. */
module FatChains {

  const EOC_MIN := 0x0fff_fff8
  const EOC := 0x0fff_ffff
  const BAD := 0x0fff_fff7
  /** First FAT value that the reader no longer takes for a link. */
  const LINK_LIMIT := 0x0fff_fff0

  datatype Next = End | Link(to: nat) | Broken

  /** What `next_cluster` makes of the table entry of cluster `c`. */
  function NextOf(fat: seq<nat>, c: nat): Next
  {
    if c < 2 || c >= |fat| then Broken
    else if fat[c] >= EOC_MIN then End
    else if fat[c] == 0 || fat[c] == 1 || LINK_LIMIT <= fat[c] <= BAD then Broken
    else if fat[c] >= |fat| then Broken
    else Link(fat[c])
  }

  ghost predicate NoDup(s: seq<nat>)
  {
    forall i, j | 0 <= i < j < |s| :: s[i] != s[j]
  }

  ghost predicate InRange(fat: seq<nat>, s: seq<nat>)
  {
    forall i | 0 <= i < |s| :: 2 <= s[i] < |fat|
  }

  /** `s` follows the links of `fat` from `s[0]`, without having reached the end yet. */
  ghost predicate IsPath(fat: seq<nat>, s: seq<nat>)
  {
    InRange(fat, s) && forall i | 0 <= i < |s| - 1 :: NextOf(fat, s[i]) == Link(s[i + 1])
  }

  /** `s` is a whole chain: linked from its head to an end-of-chain mark. */
  ghost predicate IsChain(fat: seq<nat>, s: seq<nat>)
  {
    |s| > 0 && IsPath(fat, s) && NextOf(fat, s[|s| - 1]) == End
  }

  /** Two runs over the same links agree as far as both go. */
  lemma {:induction false} PathsAgree(fat: seq<nat>, s: seq<nat>, t: seq<nat>, k: nat)
    requires IsPath(fat, s) && IsPath(fat, t)
    requires 0 < |s| && 0 < |t| && s[0] == t[0]
    requires k < |s| && k < |t|
    ensures s[k] == t[k]
  {
    if k > 0 {
      PathsAgree(fat, s, t, k - 1);
      assert NextOf(fat, s[k - 1]) == Link(s[k]);
      assert NextOf(fat, t[k - 1]) == Link(t[k]);
    }
  }

  /** A path never outgrows the chain from the same head. */
  lemma PathWithinChain(fat: seq<nat>, p: seq<nat>, s: seq<nat>)
    requires IsPath(fat, p) && IsChain(fat, s)
    requires 0 < |p| && p[0] == s[0]
    ensures |p| <= |s| && p == s[..|p|]
  {
    if |p| > |s| {
      assert NextOf(fat, p[|s| - 1]) == Link(p[|s|]);
      PathsAgree(fat, p, s, |s| - 1);
      assert false;
    }
    forall k | 0 <= k < |p| ensures p[k] == s[k] {
      PathsAgree(fat, p, s, k);
    }
  }

  /** The table determines the chain of a head. */
  lemma ChainUnique(fat: seq<nat>, s: seq<nat>, t: seq<nat>)
    requires IsChain(fat, s) && IsChain(fat, t) && s[0] == t[0]
    ensures s == t
  {
    PathWithinChain(fat, s, t);
    PathWithinChain(fat, t, s);
  }

  lemma {:induction false} RepeatShifts(fat: seq<nat>, s: seq<nat>, i: nat, j: nat, k: nat)
    requires IsPath(fat, s)
    requires i < j && j + k < |s| && s[i] == s[j]
    ensures s[i + k] == s[j + k]
  {
    if k > 0 {
      RepeatShifts(fat, s, i, j, k - 1);
      assert NextOf(fat, s[i + k - 1]) == Link(s[i + k]);
      assert NextOf(fat, s[j + k - 1]) == Link(s[j + k]);
    }
  }

  /** A chain that ends cannot visit a cluster twice: chains are acyclic. */
  lemma ChainNoDup(fat: seq<nat>, s: seq<nat>)
    requires IsChain(fat, s)
    ensures NoDup(s)
  {
    forall i, j | 0 <= i < j < |s| ensures s[i] != s[j] {
      if s[i] == s[j] {
        var k := |s| - 1 - j;
        assert NextOf(fat, s[i + k]) == Link(s[i + k + 1]);
        RepeatShifts(fat, s, i, j, k);
        assert false;
      }
    }
  }

  ghost function Elements(s: seq<nat>): set<nat>
  {
    set i | 0 <= i < |s| :: s[i]
  }

  ghost function Below(n: nat): set<nat>
  {
    set i: nat {:trigger InBelow(i, n)} | InBelow(i, n) && 0 <= i < n
  }

  ghost predicate InBelow(i: nat, n: nat)
  {
    i < n
  }

  lemma {:induction false} BelowSize(n: nat)
    ensures |Below(n)| == n
  {
    if n > 0 {
      BelowSize(n - 1);
      assert Below(n) == Below(n - 1) + {n - 1};
    } else {
      assert Below(0) == {};
    }
  }

  lemma {:induction false} NoDupSize(s: seq<nat>)
    requires NoDup(s)
    ensures |Elements(s)| == |s|
  {
    if |s| > 0 {
      var p := s[..|s| - 1];
      NoDupSize(p);
      assert Elements(s) == Elements(p) + {s[|s| - 1]};
      assert s[|s| - 1] !in Elements(p);
    } else {
      assert Elements(s) == {};
    }
  }

  lemma SubsetSize(a: set<nat>, b: set<nat>)
    requires a <= b
    ensures |a| <= |b|
  {
    assert b == a + (b - a);
  }

  /** A chain has at most one cluster per data cluster of the volume. */
  lemma ChainLength(fat: seq<nat>, s: seq<nat>)
    requires IsChain(fat, s)
    ensures |s| + 2 <= |fat|
  {
    ChainNoDup(fat, s);
    NoDupSize(s);
    var low := {0, 1};
    assert s[0] >= 2;
    assert Elements(s) + low <= Below(|fat|);
    assert Elements(s) !! low;
    assert |Elements(s) + low| == |s| + 2;
    SubsetSize(Elements(s) + low, Below(|fat|));
    BelowSize(|fat|);
  }

  /** A chain only depends on the entries of its own clusters. */
  lemma ChainFrame(fat: seq<nat>, fat': seq<nat>, s: seq<nat>)
    requires |fat| == |fat'| && IsChain(fat, s)
    requires forall i | 0 <= i < |s| :: fat'[s[i]] == fat[s[i]]
    ensures IsChain(fat', s)
  {
  }

  /** A path whose last link leads to the head of a chain continues into it. */
  lemma JoinChains(fat: seq<nat>, s: seq<nat>, t: seq<nat>)
    requires |s| > 0 && IsPath(fat, s) && IsChain(fat, t) && NextOf(fat, s[|s| - 1]) == Link(t[0])
    ensures IsChain(fat, s + t)
  {
  }

  /** Redirecting the end of a chain keeps the path up to it. */
  lemma RedirectEnd(fat: seq<nat>, s: seq<nat>, to: nat)
    requires IsChain(fat, s) && 2 <= to < |fat| <= LINK_LIMIT
    ensures var fat' := fat[s[|s| - 1] := to];
            IsPath(fat', s) && NextOf(fat', s[|s| - 1]) == Link(to)
  {
  }

  /** Every in-range link reads back as itself exactly on volumes whose cluster numbers stay
      below the reserved range; beyond it the reader calls links that the allocator writes broken. */
  lemma LinksReadBack(fat: seq<nat>, c: nat)
    requires 2 <= c < |fat|
    ensures (forall to | 2 <= to < |fat| :: NextOf(fat[c := to], c) == Link(to)) <==> |fat| <= LINK_LIMIT
  {
    if |fat| > LINK_LIMIT {
      var to: nat := LINK_LIMIT;
      assert NextOf(fat[c := to], c) != Link(to);
    }
  }
}
