/** What a checked volume looks like: a tree of directories whose entries own disjoint cluster chains.

    `Tree` is the bookkeeping a file-system checker would build. `at` maps each used cluster to the
    head of its chain, so chains are disjoint because a map has one value per key; `owner` maps each
    head to the one entry that names it. */
module FatTree {
  import opened Bytes
  import opened FatChains
  import opened FatDirectory
  import opened Rows

  datatype Tree = Tree(
    chains: map<nat, seq<nat>>,
    at: map<nat, nat>,
    depth: map<nat, nat>,
    owner: map<nat, (nat, nat)>)

  predicate InUse(x: nat) { x != 0 && x != BAD }

  ghost predicate HeadsOk(fat: seq<nat>, t: Tree)
  {
    forall h | h in t.chains :: IsChain(fat, t.chains[h]) && t.chains[h][0] == h
  }

  ghost predicate MembersOk(t: Tree)
  {
    && (forall h, i | h in t.chains && 0 <= i < |t.chains[h]| :: t.chains[h][i] in t.at && t.at[t.chains[h][i]] == h)
    && (forall c | c in t.at :: t.at[c] in t.chains && c in t.chains[t.at[c]])
  }

  /** The chains cover exactly the clusters that are neither free nor bad. */
  ghost predicate CoverOk(fat: seq<nat>, t: Tree)
  {
    && (forall c | c in t.at :: 2 <= c < |fat|)
    && (forall c | 2 <= c < |fat| :: c in t.at <==> InUse(fat[c]))
  }

  /** All chains end, are acyclic and disjoint, and cover exactly the used clusters. */
  ghost predicate ChainsOk(fat: seq<nat>, t: Tree)
  {
    HeadsOk(fat, t) && MembersOk(t) && CoverOk(fat, t)
  }

  type Listings = map<nat, seq<Item>>

  ghost predicate HasItem(items: seq<Item>, slot: nat, first: nat)
  {
    exists p :: 0 <= p < |items| && items[p].slot == slot && items[p].first == first && !IsDot(items[p].name)
  }

  /** Entry `it` of directory `d` points where it may. */
  ghost predicate ItemOk(t: Tree, size: nat, d: nat, it: Item)
  {
    && (it.isDir ==> d in t.depth && it.first in t.depth && t.depth[it.first] == t.depth[d] + 1)
    && (!it.isDir && it.first == 0 ==> it.size == 0)
    && (!it.isDir && it.first != 0 ==>
          it.first in t.chains && it.first !in t.depth && it.size <= Row(|t.chains[it.first]|, size))
    && (it.first != 0 ==> it.first in t.owner && t.owner[it.first] == (d, it.slot))
  }

  ghost predicate ItemsOk(t: Tree, size: nat, d: nat, items: seq<Item>)
  {
    forall p | 0 <= p < |items| && !IsDot(items[p].name) :: ItemOk(t, size, d, items[p])
  }

  ghost predicate SlotsDistinct(items: seq<Item>)
  {
    forall p, q | 0 <= p < q < |items| :: items[p].slot != items[q].slot
  }

  ghost predicate ShapeOk(root: nat, t: Tree, ls: Listings)
  {
    && root in t.depth && t.depth[root] == 0
    && t.depth.Keys <= t.chains.Keys && t.depth.Keys == ls.Keys
    && 0 !in t.chains && root !in t.owner
    && (forall h | h in t.chains && h != root :: h in t.owner)
  }

  ghost predicate OwnerOk(t: Tree, ls: Listings, h: nat)
    requires h in t.owner
  {
    h in t.chains && t.owner[h].0 in ls && HasItem(ls[t.owner[h].0], t.owner[h].1, h)
  }

  ghost predicate DirOk(t: Tree, size: nat, d: nat, items: seq<Item>)
  {
    ItemsOk(t, size, d, items) && SlotsDistinct(items)
  }

  /** Every chain but the root's is named by exactly one entry, and directories nest: each lies one
      level below the directory that names it. */
  ghost predicate TreeOk(root: nat, size: nat, t: Tree, ls: Listings)
  {
    && ShapeOk(root, t, ls)
    && (forall h | h in t.owner :: OwnerOk(t, ls, h))
    && (forall d | d in ls :: DirOk(t, size, d, ls[d]))
  }

  // --------------------------------------------------------- reachability

  /** `h` is found by following entries from the root: directories `path`, the last naming `h`. */
  ghost predicate Reaches(ls: Listings, root: nat, path: seq<nat>, h: nat)
  {
    if |path| == 0 then h == root
    else
      var d := path[|path| - 1];
      d in ls && (exists k :: HasItem(ls[d], k, h)) && Reaches(ls, root, path[..|path| - 1], d)
  }

  /** Nothing is lost: every chain of the tree is reachable from the root. */
  lemma {:induction false} AllReachable(root: nat, size: nat, t: Tree, ls: Listings, h: nat) returns (path: seq<nat>)
    requires TreeOk(root, size, t, ls) && h in t.chains
    ensures Reaches(ls, root, path, h)
    decreases h !in t.depth, if h in t.depth then t.depth[h] else 0
  {
    if h == root {
      path := [];
    } else {
      var (d, k) := t.owner[h];
      assert OwnerOk(t, ls, h);
      assert HasItem(ls[d], k, h);
      var p :| 0 <= p < |ls[d]| && ls[d][p].slot == k && ls[d][p].first == h && !IsDot(ls[d][p].name);
      assert DirOk(t, size, d, ls[d]) && ItemOk(t, size, d, ls[d][p]);
      path := AllReachable(root, size, t, ls, d);
      path := path + [d];
      assert path[..|path| - 1] + [d] == path;
    }
  }

  // ------------------------------------------------------ chains of a tree

  /** Two tables that differ at most in how they write end-of-chain. */
  predicate EocEq(a: nat, b: nat) { a == b || (a >= EOC_MIN && b >= EOC_MIN) }

  ghost predicate SameChains(fat: seq<nat>, fat': seq<nat>)
  {
    |fat| == |fat'| && forall c | 0 <= c < |fat| :: EocEq(fat[c], fat'[c])
  }

  lemma SameChain(fat: seq<nat>, fat': seq<nat>, s: seq<nat>)
    requires SameChains(fat, fat') && IsChain(fat, s)
    ensures IsChain(fat', s)
  {
    forall i | 0 <= i < |s| ensures NextOf(fat', s[i]) == NextOf(fat, s[i]) {
      assert EocEq(fat[s[i]], fat'[s[i]]);
    }
  }

  lemma SameChainsOk(fat: seq<nat>, fat': seq<nat>, t: Tree)
    requires SameChains(fat, fat') && ChainsOk(fat, t)
    ensures ChainsOk(fat', t)
  {
    forall h | h in t.chains ensures IsChain(fat', t.chains[h]) && t.chains[h][0] == h {
      SameChain(fat, fat', t.chains[h]);
    }
    forall c | 2 <= c < |fat'| ensures c in t.at <==> InUse(fat'[c]) {
      assert EocEq(fat[c], fat'[c]);
    }
  }

  /** The map that sends every cluster of `s` to `h`. */
  ghost function AllTo(s: seq<nat>, h: nat): (m: map<nat, nat>)
    ensures forall c :: c in m <==> c in s
    ensures forall c | c in m :: m[c] == h
  {
    map c | c in s :: h
  }

  ghost function ChainOr(t: Tree, h: nat): seq<nat>
  {
    if h in t.chains then t.chains[h] else []
  }

  ghost function WithChain(t: Tree, h: nat, s: seq<nat>): Tree
  {
    t.(chains := t.chains[h := s], at := t.at + AllTo(s, h))
  }

  /** Appending free clusters to a chain (or starting a new one) keeps all chains in order. */
  lemma ExtendChainsOk(fat: seq<nat>, fat': seq<nat>, t: Tree, h: nat, added: seq<nat>)
    requires ChainsOk(fat, t) && |fat'| == |fat|
    requires var s := ChainOr(t, h) + added; IsChain(fat', s) && s[0] == h
    requires forall i | 0 <= i < |added| :: 2 <= added[i] < |fat| && fat[added[i]] == 0
    requires forall c | 2 <= c < |fat| && c !in ChainOr(t, h) + added :: fat'[c] == fat[c]
    ensures ChainsOk(fat', WithChain(t, h, ChainOr(t, h) + added))
  {
    hide IsChain;
    var s := ChainOr(t, h) + added;
    var t' := WithChain(t, h, s);
    ExtendHeads(fat, fat', t, h, added);
    ExtendMembers(fat, t, h, added);
    ExtendCover(fat, fat', t, h, added);
  }

  lemma OtherChainApart(fat: seq<nat>, t: Tree, h: nat, added: seq<nat>, h': nat, i: nat)
    requires MembersOk(t) && CoverOk(fat, t) && h' in t.chains && h' != h && i < |t.chains[h']|
    requires forall i | 0 <= i < |added| :: 2 <= added[i] < |fat| && fat[added[i]] == 0
    ensures t.chains[h'][i] !in ChainOr(t, h) + added
  {
    var c := t.chains[h'][i];
    assert c in t.at && t.at[c] == h';
    assert InUse(fat[c]);
  }

  lemma ExtendHeads(fat: seq<nat>, fat': seq<nat>, t: Tree, h: nat, added: seq<nat>)
    requires ChainsOk(fat, t) && |fat'| == |fat|
    requires var s := ChainOr(t, h) + added; IsChain(fat', s) && s[0] == h
    requires forall i | 0 <= i < |added| :: 2 <= added[i] < |fat| && fat[added[i]] == 0
    requires forall c | 2 <= c < |fat| && c !in ChainOr(t, h) + added :: fat'[c] == fat[c]
    ensures HeadsOk(fat', WithChain(t, h, ChainOr(t, h) + added))
  {
    var t' := WithChain(t, h, ChainOr(t, h) + added);
    forall h' | h' in t'.chains ensures IsChain(fat', t'.chains[h']) && t'.chains[h'][0] == h' {
      if h' != h {
        var s := t.chains[h'];
        assert IsChain(fat, s);
        forall i | 0 <= i < |s| ensures fat'[s[i]] == fat[s[i]] {
          OtherChainApart(fat, t, h, added, h', i);
        }
        ChainFrame(fat, fat', s);
      }
    }
  }

  lemma ExtendMembers(fat: seq<nat>, t: Tree, h: nat, added: seq<nat>)
    requires MembersOk(t) && CoverOk(fat, t)
    requires forall i | 0 <= i < |added| :: 2 <= added[i] < |fat| && fat[added[i]] == 0
    ensures MembersOk(WithChain(t, h, ChainOr(t, h) + added))
  {
    var s := ChainOr(t, h) + added;
    var t' := WithChain(t, h, s);
    forall h', i | h' in t'.chains && 0 <= i < |t'.chains[h']|
      ensures t'.chains[h'][i] in t'.at && t'.at[t'.chains[h'][i]] == h'
    {
      if h' != h {
        OtherChainApart(fat, t, h, added, h', i);
      }
    }
    forall c | c in t'.at ensures t'.at[c] in t'.chains && c in t'.chains[t'.at[c]] {
      if c !in s {
        assert t.at[c] != h;
      }
    }
  }

  lemma ChainInUse(fat: seq<nat>, s: seq<nat>, i: nat)
    requires IsChain(fat, s) && i < |s|
    ensures InUse(fat[s[i]])
  {
    if i < |s| - 1 {
      assert NextOf(fat, s[i]) == Link(s[i + 1]);
    }
  }

  lemma ExtendCover(fat: seq<nat>, fat': seq<nat>, t: Tree, h: nat, added: seq<nat>)
    requires MembersOk(t) && CoverOk(fat, t) && |fat'| == |fat|
    requires IsChain(fat', ChainOr(t, h) + added)
    requires forall c | 2 <= c < |fat| && c !in ChainOr(t, h) + added :: fat'[c] == fat[c]
    ensures CoverOk(fat', WithChain(t, h, ChainOr(t, h) + added))
  {
    var s := ChainOr(t, h) + added;
    var t' := WithChain(t, h, s);
    forall c | c in s ensures 2 <= c < |fat'| && InUse(fat'[c]) {
      var i :| 0 <= i < |s| && s[i] == c;
      ChainInUse(fat', s, i);
    }
  }

  ghost function WithoutChain(t: Tree, h: nat): Tree
    requires h in t.chains
  {
    t.(chains := t.chains - {h}, at := t.at - Elements(t.chains[h]))
  }

  /** Freeing all clusters of a chain keeps the other chains in order. */
  lemma DropChainsOk(fat: seq<nat>, fat': seq<nat>, t: Tree, h: nat)
    requires ChainsOk(fat, t) && h in t.chains && |fat'| == |fat|
    requires forall c | 2 <= c < |fat| :: fat'[c] == if c in t.chains[h] then 0 else fat[c]
    ensures ChainsOk(fat', WithoutChain(t, h))
  {
    var t' := WithoutChain(t, h);
    forall h' | h' in t'.chains ensures IsChain(fat', t'.chains[h']) && t'.chains[h'][0] == h' {
      var s := t.chains[h'];
      assert IsChain(fat, s);
      forall i | 0 <= i < |s| ensures fat'[s[i]] == fat[s[i]] {
        OtherChainApart(fat, t, h, [], h', i);
      }
      ChainFrame(fat, fat', s);
    }
    assert MembersOk(t') by {
      DropMembers(fat, t, h);
    }
  }

  lemma DropMembers(fat: seq<nat>, t: Tree, h: nat)
    requires MembersOk(t) && CoverOk(fat, t) && h in t.chains
    ensures MembersOk(WithoutChain(t, h))
  {
    var t' := WithoutChain(t, h);
    forall h', i | h' in t'.chains && 0 <= i < |t'.chains[h']|
      ensures t'.chains[h'][i] in t'.at && t'.at[t'.chains[h'][i]] == h'
    {
      OtherChainApart(fat, t, h, [], h', i);
    }
    forall c | c in t'.at ensures t'.at[c] in t'.chains && c in t'.chains[t'.at[c]] {
      assert c !in t.chains[h];
    }
  }

  // ------------------------------------------------------ entries of a tree

  lemma RowMonotoneEq(a: nat, b: nat, n: nat)
    requires a <= b
    ensures Row(a, n) <= Row(b, n)
  {
    if a < b {
      RowMonotone(a, b, n);
    }
  }

  /** `t'` says about cluster head `h` at least what `t` says. */
  ghost predicate Keeps(t: Tree, t': Tree, h: nat)
  {
    && (h in t.depth <==> h in t'.depth) && (h in t.depth ==> t'.depth[h] == t.depth[h])
    && (h in t.chains ==> h in t'.chains && |t.chains[h]| <= |t'.chains[h]|)
    && (h in t.owner ==> h in t'.owner && t'.owner[h] == t.owner[h])
  }

  lemma ItemKept(t: Tree, t': Tree, size: nat, d: nat, it: Item)
    requires ItemOk(t, size, d, it)
    requires it.first == 0 || Keeps(t, t', it.first)
    requires d in t.depth ==> d in t'.depth && t'.depth[d] == t.depth[d]
    requires 0 !in t.depth
    ensures ItemOk(t', size, d, it)
  {
    if !it.isDir && it.first != 0 {
      RowMonotoneEq(|t.chains[it.first]|, |t'.chains[it.first]|, size);
    }
  }

  lemma GetItem(root: nat, size: nat, t: Tree, ls: Listings, d: nat, p: nat)
    requires TreeOk(root, size, t, ls) && d in ls && p < |ls[d]| && !IsDot(ls[d][p].name)
    ensures ItemOk(t, size, d, ls[d][p])
    ensures ls[d][p].first != 0 ==> ls[d][p].first in t.chains && ls[d][p].first in t.owner
    ensures ls[d][p].first != root
  {
    assert DirOk(t, size, d, ls[d]);
  }

  /** Distinct entries name distinct heads. */
  lemma FirstsDistinct(root: nat, size: nat, t: Tree, ls: Listings, d: nat, p: nat, d': nat, p': nat)
    requires TreeOk(root, size, t, ls) && d in ls && d' in ls && p < |ls[d]| && p' < |ls[d']|
    requires !IsDot(ls[d][p].name) && !IsDot(ls[d'][p'].name)
    requires d != d' || p != p'
    ensures ls[d][p].first != 0 ==> ls[d][p].first != ls[d'][p'].first
  {
    GetItem(root, size, t, ls, d, p);
    GetItem(root, size, t, ls, d', p');
    assert DirOk(t, size, d, ls[d]);
  }

  /** An entry stays in order when the bookkeeping about its own head and directory stays. */
  lemma OtherKept(root: nat, size: nat, t: Tree, t': Tree, ls: Listings, d: nat, p: nat)
    requires TreeOk(root, size, t, ls) && d in ls && p < |ls[d]| && !IsDot(ls[d][p].name)
    requires ls[d][p].first == 0 || Keeps(t, t', ls[d][p].first)
    requires d in t'.depth && t'.depth[d] == t.depth[d]
    ensures ItemOk(t', size, d, ls[d][p])
  {
    GetItem(root, size, t, ls, d, p);
    ItemKept(t, t', size, d, ls[d][p]);
  }

  /** An owner's entry survives unless it is the one that changed. */
  lemma OwnerKept(root: nat, size: nat, t: Tree, ls: Listings, h: nat, d: nat, items: seq<Item>)
    requires TreeOk(root, size, t, ls) && h in t.owner && d in ls
    requires t.owner[h].0 == d ==> HasItem(ls[d], t.owner[h].1, h) ==> HasItem(items, t.owner[h].1, h)
    ensures h in t.chains && t.owner[h].0 in ls && HasItem(ls[d := items][t.owner[h].0], t.owner[h].1, h)
  {
    assert OwnerOk(t, ls, h);
  }

  // ------------------------------------------------------- rewritten entry

  function NewItem(it: Item, h: nat, size: nat): Item { it.(first := h, size := size) }

  lemma HasItemAfter(items: seq<Item>, p: nat, x: Item, k: nat, h: nat)
    requires p < |items| && !IsDot(items[p].name) && (items[p].first != h || x == items[p])
    ensures HasItem(items, k, h) ==> HasItem(items[p := x], k, h)
  {
    if HasItem(items, k, h) {
      var q :| 0 <= q < |items| && items[q].slot == k && items[q].first == h && !IsDot(items[q].name);
      assert items[p := x][q] == items[q];
    }
  }

  /** What a rewritten file entry may say: no cluster and no bytes, or a chain that holds its bytes. */
  ghost predicate RewriteOk(t: Tree, t': Tree, size: nat, d: nat, it: Item, h: nat, bytes: nat)
  {
    && t'.depth == t.depth
    && (h == 0 ==> bytes == 0 && h !in t'.chains && h !in t'.owner)
    && (h != 0 ==> h in t'.chains && h !in t.depth && bytes <= Row(|t'.chains[h]|, size)
                   && h in t'.owner && t'.owner[h] == (d, it.slot))
    && (forall h' :: h' != h && h' != it.first ==>
          && (h' in t.chains <==> h' in t'.chains) && (h' in t.chains ==> t'.chains[h'] == t.chains[h'])
          && (h' in t.owner <==> h' in t'.owner) && (h' in t.owner ==> t'.owner[h'] == t.owner[h']))
  }

  lemma RewrittenItems(root: nat, size: nat, t: Tree, t': Tree, ls: Listings, d: nat, p: nat, h: nat, bytes: nat,
                       d': nat)
    requires TreeOk(root, size, t, ls) && d in ls && p < |ls[d]| && !IsDot(ls[d][p].name) && !ls[d][p].isDir
    requires h == ls[d][p].first || h == 0 || h !in t.chains
    requires RewriteOk(t, t', size, d, ls[d][p], h, bytes) && d' in ls
    ensures DirOk(t', size, d', ls[d := ls[d][p := NewItem(ls[d][p], h, bytes)]][d'])
  {
    hide TreeOk, Keeps;
    var items := ls[d := ls[d][p := NewItem(ls[d][p], h, bytes)]][d'];
    forall q | 0 <= q < |items| && !IsDot(items[q].name) ensures ItemOk(t', size, d', items[q]) {
      if d' != d || q != p {
        RewrittenOther(root, size, t, t', ls, d, p, h, bytes, d', q);
      }
    }
    assert SlotsDistinct(items) by {
      DirSlots(root, size, t, ls, d');
    }
  }

  lemma DirSlots(root: nat, size: nat, t: Tree, ls: Listings, d: nat)
    requires TreeOk(root, size, t, ls) && d in ls
    ensures SlotsDistinct(ls[d]) && d in t.depth && d in t.chains
  {
    assert DirOk(t, size, d, ls[d]);
  }

  lemma RewrittenOther(root: nat, size: nat, t: Tree, t': Tree, ls: Listings, d: nat, p: nat, h: nat, bytes: nat,
                       d': nat, q: nat)
    requires TreeOk(root, size, t, ls) && d in ls && p < |ls[d]| && !IsDot(ls[d][p].name)
    requires h == ls[d][p].first || h == 0 || h !in t.chains
    requires RewriteOk(t, t', size, d, ls[d][p], h, bytes)
    requires d' in ls && q < |ls[d']| && !IsDot(ls[d'][q].name) && (d' != d || q != p)
    ensures ItemOk(t', size, d', ls[d'][q])
  {
    hide ItemOk, DirOk;
    FirstsDistinct(root, size, t, ls, d', q, d, p);
    GetItem(root, size, t, ls, d', q);
    OtherKept(root, size, t, t', ls, d', q);
  }

  /** A file entry got a new chain and size. */
  lemma FileRewritten(root: nat, size: nat, t: Tree, t': Tree, ls: Listings, d: nat, p: nat, h: nat, bytes: nat)
    requires TreeOk(root, size, t, ls) && d in ls && p < |ls[d]| && !IsDot(ls[d][p].name) && !ls[d][p].isDir
    requires h == ls[d][p].first || h == 0 || h !in t.chains
    requires h != ls[d][p].first ==> ls[d][p].first !in t'.chains && ls[d][p].first !in t'.owner
    requires RewriteOk(t, t', size, d, ls[d][p], h, bytes)
    ensures TreeOk(root, size, t', ls[d := ls[d][p := NewItem(ls[d][p], h, bytes)]])
  {
    hide DirOk, OwnerOk;
    var it := ls[d][p];
    var ls' := ls[d := ls[d][p := NewItem(it, h, bytes)]];
    GetItem(root, size, t, ls, d, p);
    forall d' | d' in ls' ensures DirOk(t', size, d', ls'[d']) {
      RewrittenItems(root, size, t, t', ls, d, p, h, bytes, d');
    }
    forall h' | h' in t'.owner ensures OwnerOk(t', ls', h') {
      RewrittenOwner(root, size, t, t', ls, d, p, h, bytes, h');
    }
  }

  lemma RewrittenOwner(root: nat, size: nat, t: Tree, t': Tree, ls: Listings, d: nat, p: nat, h: nat, bytes: nat,
                       h': nat)
    requires TreeOk(root, size, t, ls) && d in ls && p < |ls[d]| && !IsDot(ls[d][p].name)
    requires h != ls[d][p].first ==> ls[d][p].first !in t'.owner
    requires RewriteOk(t, t', size, d, ls[d][p], h, bytes) && h' in t'.owner
    requires h == 0 ==> h !in t'.owner
    ensures OwnerOk(t', ls[d := ls[d][p := NewItem(ls[d][p], h, bytes)]], h')
  {
    hide TreeOk;
    var items := ls[d][p := NewItem(ls[d][p], h, bytes)];
    if h' == h {
      assert items[p].first == h && items[p].slot == ls[d][p].slot;
    } else {
      HasItemAfter(ls[d], p, items[p], t.owner[h'].1, h');
      OwnerKept(root, size, t, ls, h', d, items);
    }
  }

  // --------------------------------------------------------- removed entry

  ghost function WithoutHead(t: Tree, h: nat): Tree
    requires h in t.chains
  {
    WithoutChain(t, h).(owner := t.owner - {h}, depth := t.depth - {h})
  }

  /** What is left of the tree's bookkeeping when an entry's chain is given up. */
  ghost function Released(t: Tree, h: nat): Tree
    requires h == 0 || h in t.chains
  {
    if h == 0 then t else WithoutHead(t, h)
  }

  ghost function Removed(ls: Listings, d: nat, p: nat): Listings
    requires d in ls && p < |ls[d]|
  {
    (ls - (if ls[d][p].isDir then {ls[d][p].first} else {}))[d := Without(ls[d], p)]
  }

  /** The position in `items` of entry `q` of `Without(items, p)`. */
  function Unshift(p: nat, q: nat): nat { if q < p then q else q + 1 }

  lemma HasItemWithout(items: seq<Item>, p: nat, k: nat, h: nat)
    requires p < |items| && items[p].first != h
    ensures HasItem(items, k, h) ==> HasItem(Without(items, p), k, h)
  {
    if HasItem(items, k, h) {
      var q :| 0 <= q < |items| && items[q].slot == k && items[q].first == h && !IsDot(items[q].name);
      assert Without(items, p)[if q < p then q else q - 1] == items[q];
    }
  }

  /** Directory `h` shows nothing but its dot entries. */
  ghost predicate OnlyDots(items: seq<Item>)
  {
    forall q | 0 <= q < |items| :: IsDot(items[q].name)
  }

  /** Removal of a file, or of a directory that lists nothing but dot entries. */
  lemma EntryRemoved(root: nat, size: nat, t: Tree, ls: Listings, d: nat, p: nat)
    requires TreeOk(root, size, t, ls) && d in ls && p < |ls[d]| && !IsDot(ls[d][p].name)
    requires ls[d][p].isDir ==> (ls[d][p].first in ls && OnlyDots(ls[ls[d][p].first]))
    ensures ls[d][p].first == 0 || ls[d][p].first in t.chains
    ensures TreeOk(root, size, Released(t, ls[d][p].first), Removed(ls, d, p))
  {
    hide DirOk, OwnerOk;
    GetItem(root, size, t, ls, d, p);
    var t', ls' := Released(t, ls[d][p].first), Removed(ls, d, p);
    forall d' | d' in ls' ensures DirOk(t', size, d', ls'[d']) {
      RemovedItems(root, size, t, ls, d, p, d');
    }
    forall h' | h' in t'.owner ensures OwnerOk(t', ls', h') {
      RemovedOwner(root, size, t, ls, d, p, h');
    }
  }

  lemma RemovedItems(root: nat, size: nat, t: Tree, ls: Listings, d: nat, p: nat, d': nat)
    requires TreeOk(root, size, t, ls) && d in ls && p < |ls[d]| && !IsDot(ls[d][p].name)
    requires ls[d][p].first == 0 || ls[d][p].first in t.chains
    requires d' in Removed(ls, d, p)
    ensures DirOk(Released(t, ls[d][p].first), size, d', Removed(ls, d, p)[d'])
  {
    hide TreeOk, ItemOk, Released;
    var t' := Released(t, ls[d][p].first);
    var items := Removed(ls, d, p)[d'];
    forall q | 0 <= q < |items| && !IsDot(items[q].name) ensures ItemOk(t', size, d', items[q]) {
      RemovedOther(root, size, t, ls, d, p, d', if d' == d then Unshift(p, q) else q);
    }
    DirSlots(root, size, t, ls, d');
    forall i, j | 0 <= i < j < |items| ensures items[i].slot != items[j].slot {
      if d' == d {
        assert items[i] == ls[d][Unshift(p, i)] && items[j] == ls[d][Unshift(p, j)];
      }
    }
  }

  lemma RemovedOther(root: nat, size: nat, t: Tree, ls: Listings, d: nat, p: nat, d': nat, q: nat)
    requires TreeOk(root, size, t, ls) && d in ls && p < |ls[d]| && !IsDot(ls[d][p].name)
    requires ls[d][p].first == 0 || ls[d][p].first in t.chains
    requires d' in Removed(ls, d, p)
    requires q < |ls[d']| && !IsDot(ls[d'][q].name) && (d' != d || q != p)
    ensures ItemOk(Released(t, ls[d][p].first), size, d', ls[d'][q])
  {
    hide TreeOk, Keeps, ItemOk;
    var h := ls[d][p].first;
    FirstsDistinct(root, size, t, ls, d, p, d', q);
    DirSlots(root, size, t, ls, d');
    ReleasedKeeps(t, h, ls[d'][q].first);
    RemovedDirKept(root, size, t, ls, d, p, d');
    OtherKept(root, size, t, Released(t, h), ls, d', q);
  }

  lemma ReleasedKeeps(t: Tree, h: nat, x: nat)
    requires h == 0 || h in t.chains
    ensures h == 0 || x != h ==> Keeps(t, Released(t, h), x)
  {
  }

  lemma RemovedDirKept(root: nat, size: nat, t: Tree, ls: Listings, d: nat, p: nat, d': nat)
    requires TreeOk(root, size, t, ls) && d in ls && p < |ls[d]| && !IsDot(ls[d][p].name)
    requires ls[d][p].first == 0 || ls[d][p].first in t.chains
    requires d' in Removed(ls, d, p)
    ensures d' in ls && d' in Released(t, ls[d][p].first).depth
    ensures Released(t, ls[d][p].first).depth[d'] == t.depth[d']
  {
    hide DirOk, OwnerOk;
    GetItem(root, size, t, ls, d, p);
  }

  lemma RemovedOwner(root: nat, size: nat, t: Tree, ls: Listings, d: nat, p: nat, h: nat)
    requires TreeOk(root, size, t, ls) && d in ls && p < |ls[d]| && !IsDot(ls[d][p].name)
    requires ls[d][p].first == 0 || ls[d][p].first in t.chains
    requires ls[d][p].isDir ==> (ls[d][p].first in ls && OnlyDots(ls[ls[d][p].first]))
    requires h in Released(t, ls[d][p].first).owner
    ensures OwnerOk(Released(t, ls[d][p].first), Removed(ls, d, p), h)
  {
    hide TreeOk, HasItem;
    var items := Without(ls[d], p);
    RemovedOwnerDir(root, size, t, ls, d, p, h);
    HasItemWithout(ls[d], p, t.owner[h].1, h);
    OwnerKept(root, size, t, ls, h, d, items);
  }

  /** The entry naming `h` does not stand in the removed directory. */
  lemma RemovedOwnerDir(root: nat, size: nat, t: Tree, ls: Listings, d: nat, p: nat, h: nat)
    requires TreeOk(root, size, t, ls) && d in ls && p < |ls[d]| && !IsDot(ls[d][p].name)
    requires ls[d][p].isDir ==> (ls[d][p].first in ls && OnlyDots(ls[ls[d][p].first]))
    requires h in t.owner && (ls[d][p].first == 0 || h != ls[d][p].first)
    ensures t.owner[h].0 in Removed(ls, d, p)
    ensures h in t.chains && h != 0
  {
    hide DirOk, ItemOk;
    GetItem(root, size, t, ls, d, p);
    assert OwnerOk(t, ls, h);
  }

  // ----------------------------------------------------------- added entry

  lemma HasItemLonger(items: seq<Item>, it: Item, k: nat, h: nat)
    ensures HasItem(items, k, h) ==> HasItem(items + [it], k, h)
  {
    if HasItem(items, k, h) {
      var q :| 0 <= q < |items| && items[q].slot == k && items[q].first == h && !IsDot(items[q].name);
      assert (items + [it])[q] == items[q];
    }
  }

  ghost predicate FreshSlot(items: seq<Item>, it: Item)
  {
    forall p | 0 <= p < |items| :: items[p].slot != it.slot
  }

  /** `t'` differs from `t` by a longer chain for `d` and, unless `c` is zero, a new directory `c`
      named by the entry at `slot` of `d`. */
  ghost predicate GrowsBy(t: Tree, t': Tree, d: nat, slot: nat, c: nat)
  {
    && d in t.depth && d in t.chains && d in t'.chains && |t.chains[d]| <= |t'.chains[d]|
    && (forall h :: h != d && h != c ==> (h in t.chains <==> h in t'.chains))
    && (forall h :: h != d && h != c && h in t.chains ==> t'.chains[h] == t.chains[h])
    && (c == 0 ==> t'.depth == t.depth && t'.owner == t.owner && 0 !in t'.chains)
    && (c != 0 ==> c !in t.chains && c in t'.chains
                   && t'.depth == t.depth[c := t.depth[d] + 1] && t'.owner == t.owner[c := (d, slot)])
  }

  lemma GrownOther(root: nat, size: nat, t: Tree, t': Tree, ls: Listings, d: nat, slot: nat, c: nat, d': nat, q: nat)
    requires TreeOk(root, size, t, ls) && GrowsBy(t, t', d, slot, c)
    requires d' in ls && q < |ls[d']| && !IsDot(ls[d'][q].name)
    ensures ItemOk(t', size, d', ls[d'][q])
  {
    hide DirOk, ItemOk, OwnerOk;
    GetItem(root, size, t, ls, d', q);
    OtherKept(root, size, t, t', ls, d', q);
  }

  ghost predicate AddedOk(items: seq<Item>, it: Item, c: nat)
  {
    && FreshSlot(items, it) && it.first == c && (c != 0 ==> !IsDot(it.name))
    && (it.isDir <==> c != 0) && (c == 0 ==> it.size == 0)
  }

  lemma AddedItems(root: nat, size: nat, t: Tree, t': Tree, ls: Listings, d: nat, it: Item, c: nat, d': nat)
    requires TreeOk(root, size, t, ls) && d in ls && d' in ls
    requires GrowsBy(t, t', d, it.slot, c) && AddedOk(ls[d], it, c)
    ensures DirOk(t', size, d', if d' == d then ls[d] + [it] else ls[d'])
  {
    hide TreeOk;
    var items := if d' == d then ls[d] + [it] else ls[d'];
    DirSlots(root, size, t, ls, d');
    assert d != c;
    forall q | 0 <= q < |items| && !IsDot(items[q].name) ensures ItemOk(t', size, d', items[q]) {
      if q < |ls[d']| {
        GrownOther(root, size, t, t', ls, d, it.slot, c, d', q);
      }
    }
  }

  ghost function Added(ls: Listings, d: nat, it: Item, c: nat, dots: seq<Item>): Listings
    requires d in ls
  {
    if c == 0 then ls[d := ls[d] + [it]] else ls[d := ls[d] + [it]][c := dots]
  }

  /** A new entry in directory `d`: an empty file (`c` zero), or a directory `c` that lists only
      its dot entries. The chain of `d` may have grown on the way. */
  lemma EntryAdded(root: nat, size: nat, t: Tree, t': Tree, ls: Listings, d: nat, it: Item, c: nat, dots: seq<Item>)
    requires TreeOk(root, size, t, ls) && d in ls
    requires GrowsBy(t, t', d, it.slot, c) && AddedOk(ls[d], it, c)
    requires SlotsDistinct(dots) && OnlyDots(dots)
    ensures TreeOk(root, size, t', Added(ls, d, it, c, dots))
  {
    hide HasItem, ItemOk, AddedOk, TreeOk, ShapeOk;
    var ls' := Added(ls, d, it, c, dots);
    AddedShape(root, size, t, t', ls, d, it, c, dots);
    assert TreeOk(root, size, t', ls') by {
      AddedTree(root, size, t, t', ls, d, it, c, dots);
    }
  }

  lemma AddedShape(root: nat, size: nat, t: Tree, t': Tree, ls: Listings, d: nat, it: Item, c: nat, dots: seq<Item>)
    requires TreeOk(root, size, t, ls) && d in ls && GrowsBy(t, t', d, it.slot, c)
    ensures ShapeOk(root, t', Added(ls, d, it, c, dots)) && c !in ls
  {
    hide DirOk, OwnerOk;
  }

  lemma AddedTree(root: nat, size: nat, t: Tree, t': Tree, ls: Listings, d: nat, it: Item, c: nat, dots: seq<Item>)
    requires TreeOk(root, size, t, ls) && d in ls && c !in ls
    requires GrowsBy(t, t', d, it.slot, c) && AddedOk(ls[d], it, c)
    requires SlotsDistinct(dots) && OnlyDots(dots)
    requires ShapeOk(root, t', Added(ls, d, it, c, dots))
    ensures TreeOk(root, size, t', Added(ls, d, it, c, dots))
  {
    hide HasItem, ItemOk, AddedOk, ShapeOk, OwnerOk, GrowsBy;
    var ls' := Added(ls, d, it, c, dots);
    forall d' | d' in ls' ensures DirOk(t', size, d', ls'[d']) {
      if d' in ls {
        AddedItems(root, size, t, t', ls, d, it, c, d');
      }
    }
    forall h | h in t'.owner ensures OwnerOk(t', ls', h) {
      AddedOwner(root, size, t, t', ls, d, it, c, dots, h);
    }
  }

  lemma AddedOwner(root: nat, size: nat, t: Tree, t': Tree, ls: Listings, d: nat, it: Item, c: nat, dots: seq<Item>,
                   h: nat)
    requires TreeOk(root, size, t, ls) && d in ls && c !in ls
    requires GrowsBy(t, t', d, it.slot, c) && AddedOk(ls[d], it, c) && h in t'.owner
    ensures OwnerOk(t', Added(ls, d, it, c, dots), h)
  {
    hide DirOk;
    if h == c != 0 {
      assert (ls[d] + [it])[|ls[d]|] == it;
    } else {
      HasItemLonger(ls[d], it, t.owner[h].1, h);
      OwnerKept(root, size, t, ls, h, d, ls[d] + [it]);
    }
  }
}
