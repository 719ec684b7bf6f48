/** Lists of heap blocks in address order, and the bytes they stand for. */
module HeapBlocks {

  /** Size and alignment of a free block's header. */
  const HEADER: nat := 16
  const GRAIN: nat := 8

  datatype Block = Block(addr: nat, size: nat)

  function End(b: Block): nat { b.addr + b.size }

  ghost predicate Has(b: Block, x: nat) { b.addr <= x < End(b) }

  /** Byte `x` lies in one of the blocks. */
  ghost predicate In(s: seq<Block>, x: nat) { exists i :: 0 <= i < |s| && Has(s[i], x) }

  /** A block that can hold a header. */
  predicate Fit(b: Block) { b.addr > 0 && b.addr % GRAIN == 0 && b.size % GRAIN == 0 && b.size >= HEADER }

  /** Canonical form: in address order, no two blocks touch, each can hold a header. */
  ghost predicate Canon(s: seq<Block>)
  {
    && (forall i | 0 <= i < |s| :: Fit(s[i]))
    && (forall i, j | 0 <= i < j < |s| :: End(s[i]) < s[j].addr)
  }

  function Sum(s: seq<Block>): nat { if s == [] then 0 else Sum(s[..|s| - 1]) + s[|s| - 1].size }

  lemma {:induction false} SumCat(s: seq<Block>, t: seq<Block>)
    ensures Sum(s + t) == Sum(s) + Sum(t)
    decreases |t|
  {
    if t == [] {
      assert s + t == s;
    } else {
      assert (s + t)[..|s + t| - 1] == s + t[..|t| - 1];
      SumCat(s, t[..|t| - 1]);
    }
  }

  lemma SumAround(s: seq<Block>, i: nat, j: nat)
    requires i <= j <= |s|
    ensures Sum(s) == Sum(s[..i]) + Sum(s[i..j]) + Sum(s[j..])
  {
    assert s == s[..i] + s[i..j] + s[j..];
    SumCat(s[..i] + s[i..j], s[j..]);
    SumCat(s[..i], s[i..j]);
  }

  lemma SumOne(b: Block)
    ensures Sum([b]) == b.size
  {
  }

  lemma InCat(s: seq<Block>, t: seq<Block>, x: nat)
    ensures In(s + t, x) <==> In(s, x) || In(t, x)
  {
    if In(s, x) {
      var i :| 0 <= i < |s| && Has(s[i], x);
      assert Has((s + t)[i], x);
    }
    if In(t, x) {
      var i :| 0 <= i < |t| && Has(t[i], x);
      assert Has((s + t)[|s| + i], x);
    }
    if In(s + t, x) {
      var i :| 0 <= i < |s + t| && Has((s + t)[i], x);
      assert if i < |s| then Has(s[i], x) else Has(t[i - |s|], x);
    }
  }

  lemma InOne(b: Block, x: nat)
    ensures In([b], x) <==> Has(b, x)
  {
    assert [b][0] == b;
  }

  lemma InAround(s: seq<Block>, i: nat, j: nat, x: nat)
    requires i <= j <= |s|
    ensures In(s, x) <==> In(s[..i], x) || In(s[i..j], x) || In(s[j..], x)
  {
    assert s == s[..i] + s[i..j] + s[j..];
    InCat(s[..i] + s[i..j], s[j..], x);
    InCat(s[..i], s[i..j], x);
  }

  // ------------------------------------------------------------- canonical

  /** The first byte of a canonical list is where its first block starts. */
  lemma FirstByte(s: seq<Block>, x: nat)
    requires Canon(s) && In(s, x)
    ensures s != [] && s[0].addr <= x
  {
  }

  lemma FirstIn(s: seq<Block>)
    requires Canon(s) && s != []
    ensures In(s, s[0].addr) && In(s, End(s[0]) - 1) && !In(s, End(s[0]))
    ensures forall x | s[0].addr <= x < End(s[0]) :: In(s, x)
  {
  }

  lemma TailCanon(s: seq<Block>, x: nat)
    requires Canon(s) && s != []
    ensures Canon(s[1..]) && (In(s[1..], x) <==> In(s, x) && x >= End(s[0]))
  {
  }

  lemma FirstSame(s: seq<Block>, t: seq<Block>)
    requires Canon(s) && Canon(t) && s != [] && t != [] && forall x: nat :: In(s, x) <==> In(t, x)
    ensures s[0] == t[0]
  {
    FirstIn(s);
    FirstIn(t);
    FirstByte(s, t[0].addr);
    FirstByte(t, s[0].addr);
    assert In(s, End(s[0])) <==> In(t, End(s[0]));
    assert In(s, End(t[0])) <==> In(t, End(t[0]));
    assert Fit(s[0]) && Fit(t[0]);
    assert s[0].addr == t[0].addr;
    var es, et := End(s[0]), End(t[0]);
    assert es < et ==> In(t, es);
    assert et < es ==> In(s, et);
  }

  /** The free list is determined by its bytes. */
  lemma {:induction false} CanonUnique(s: seq<Block>, t: seq<Block>)
    requires Canon(s) && Canon(t) && forall x: nat :: In(s, x) <==> In(t, x)
    ensures s == t
    decreases |s|
  {
    if s != [] {
      FirstIn(s);
    }
    if t != [] {
      FirstIn(t);
    }
    if s != [] && t != [] {
      FirstSame(s, t);
      TailCanon(s, 0);
      TailCanon(t, 0);
      forall x: nat ensures In(s[1..], x) <==> In(t[1..], x) {
        TailCanon(s, x);
        TailCanon(t, x);
      }
      CanonUnique(s[1..], t[1..]);
      assert s == [s[0]] + s[1..] && t == [t[0]] + t[1..];
    }
  }

  // -------------------------------------------------------------- inserting

  /** Where a block starting at `addr` belongs: all blocks before it start below, all others do not. */
  ghost predicate Slot(s: seq<Block>, k: nat, addr: nat)
  {
    k <= |s| && (forall i | 0 <= i < k :: s[i].addr < addr) && (forall i | k <= i < |s| :: s[i].addr >= addr)
  }

  predicate JoinsNext(s: seq<Block>, k: nat, b: Block) { k < |s| && End(b) == s[k].addr }

  predicate JoinsPrev(s: seq<Block>, k: nat, b: Block) { 0 < k <= |s| && End(s[k - 1]) == b.addr }

  /** The new block together with the neighbours it touches. */
  function Grown(s: seq<Block>, k: nat, b: Block): Block
  {
    var size := if JoinsNext(s, k, b) then b.size + s[k].size else b.size;
    if JoinsPrev(s, k, b) then Block(s[k - 1].addr, s[k - 1].size + size) else Block(b.addr, size)
  }

  function From(s: seq<Block>, k: nat, b: Block): nat { if JoinsPrev(s, k, b) then k - 1 else k }

  function To(s: seq<Block>, k: nat, b: Block): nat { if JoinsNext(s, k, b) then k + 1 else k }

  function Inserted(s: seq<Block>, k: nat, b: Block): seq<Block>
    requires k <= |s|
  {
    s[..From(s, k, b)] + [Grown(s, k, b)] + s[To(s, k, b)..]
  }

  ghost predicate Outside(s: seq<Block>, b: Block) { forall x | Has(b, x) :: !In(s, x) }

  /** A block outside a canonical list lies between its neighbours. */
  lemma Between(s: seq<Block>, k: nat, b: Block)
    requires Canon(s) && Slot(s, k, b.addr) && Outside(s, b) && b.size > 0
    ensures (k > 0 ==> End(s[k - 1]) <= b.addr) && (k < |s| ==> End(b) <= s[k].addr)
  {
    if k > 0 && End(s[k - 1]) > b.addr {
      assert Has(s[k - 1], b.addr) && Has(b, b.addr);
    }
    if k < |s| && End(b) > s[k].addr {
      assert Fit(s[k]);
      assert Has(s[k], s[k].addr) && Has(b, s[k].addr);
    }
  }

  lemma InsertedAt(s: seq<Block>, k: nat, b: Block, i: nat)
    requires k <= |s| && i < |Inserted(s, k, b)|
    ensures var f := From(s, k, b); var t := To(s, k, b); var r := Inserted(s, k, b);
            && (i < f ==> r[i] == s[i]) && (i == f ==> r[i] == Grown(s, k, b))
            && (i > f ==> t + (i - f - 1) < |s| && r[i] == s[t + (i - f - 1)])
  {
  }

  lemma InsertedFit(s: seq<Block>, k: nat, b: Block, i: nat)
    requires Canon(s) && k <= |s| && Fit(b) && i < |Inserted(s, k, b)|
    ensures Fit(Inserted(s, k, b)[i])
  {
    hide Inserted;
    InsertedAt(s, k, b, i);
    assert k > 0 ==> Fit(s[k - 1]);
    assert k < |s| ==> Fit(s[k]);
  }

  lemma InsertedPair(s: seq<Block>, k: nat, b: Block, i: nat, j: nat)
    requires Canon(s) && Slot(s, k, b.addr) && b.size > 0 && i < j < |Inserted(s, k, b)|
    requires (k > 0 ==> End(s[k - 1]) <= b.addr) && (k < |s| ==> End(b) <= s[k].addr)
    ensures End(Inserted(s, k, b)[i]) < Inserted(s, k, b)[j].addr
  {
    InsertedAt(s, k, b, i);
    InsertedAt(s, k, b, j);
    InsertedOrder(s, k, b, i, j);
    hide Inserted, Grown, Fit;
    var f, t := From(s, k, b), To(s, k, b);
    var a := if i < f then i else if i > f then t + (i - f - 1) else 0;
    var c := if j < f then j else if j > f then t + (j - f - 1) else 0;
    assert i != f && j != f ==> End(s[a]) < s[c].addr;
  }

  lemma InsertedCanon(s: seq<Block>, k: nat, b: Block)
    requires Canon(s) && Slot(s, k, b.addr) && Outside(s, b) && Fit(b)
    ensures Canon(Inserted(s, k, b))
  {
    FitSize(b);
    Between(s, k, b);
    hide Inserted, Fit;
    var r := Inserted(s, k, b);
    forall i | 0 <= i < |r| ensures Fit(r[i]) {
      InsertedFit(s, k, b, i);
    }
    forall i, j | 0 <= i < j < |r| ensures End(r[i]) < r[j].addr {
      InsertedPair(s, k, b, i, j);
    }
  }

  lemma FitSize(b: Block)
    requires Fit(b)
    ensures b.size > 0
  {
  }

  lemma InsertedOrder(s: seq<Block>, k: nat, b: Block, i: nat, j: nat)
    requires Canon(s) && Slot(s, k, b.addr) && b.size > 0
    requires (k > 0 ==> End(s[k - 1]) <= b.addr) && (k < |s| ==> End(b) <= s[k].addr)
    ensures i < From(s, k, b) ==> End(s[i]) < Grown(s, k, b).addr
    ensures To(s, k, b) + (j - From(s, k, b) - 1) < |s| && j > From(s, k, b) ==>
              End(Grown(s, k, b)) < s[To(s, k, b) + (j - From(s, k, b) - 1)].addr
  {
  }

  /** Inserting adds exactly the block's bytes. */
  lemma InsertedIn(s: seq<Block>, k: nat, b: Block, x: nat)
    requires k <= |s|
    ensures In(Inserted(s, k, b), x) <==> In(s, x) || Has(b, x)
  {
    var f, t := From(s, k, b), To(s, k, b);
    InAround(s, f, t, x);
    InCat(s[..f] + [Grown(s, k, b)], s[t..], x);
    InCat(s[..f], [Grown(s, k, b)], x);
    InOne(Grown(s, k, b), x);
    MiddleIn(s, k, b, x);
  }

  lemma MiddleIn(s: seq<Block>, k: nat, b: Block, x: nat)
    requires k <= |s|
    ensures Has(Grown(s, k, b), x) <==> In(s[From(s, k, b)..To(s, k, b)], x) || Has(b, x)
  {
  }

  lemma InsertedSum(s: seq<Block>, k: nat, b: Block)
    requires k <= |s|
    ensures Sum(Inserted(s, k, b)) == Sum(s) + b.size
  {
    var f, t := From(s, k, b), To(s, k, b);
    SumAround(s, f, t);
    SumCat(s[..f] + [Grown(s, k, b)], s[t..]);
    SumCat(s[..f], [Grown(s, k, b)]);
    SumOne(Grown(s, k, b));
    MiddleSum(s, k, b);
  }

  lemma MiddleSum(s: seq<Block>, k: nat, b: Block)
    requires k <= |s|
    ensures Grown(s, k, b).size == Sum(s[From(s, k, b)..To(s, k, b)]) + b.size
  {
    var m := s[From(s, k, b)..To(s, k, b)];
    if JoinsPrev(s, k, b) && JoinsNext(s, k, b) {
      assert m == [s[k - 1]] + [s[k]];
      SumCat([s[k - 1]], [s[k]]);
      SumOne(s[k - 1]);
      SumOne(s[k]);
    } else if JoinsPrev(s, k, b) {
      assert m == [s[k - 1]];
      SumOne(s[k - 1]);
    } else if JoinsNext(s, k, b) {
      assert m == [s[k]];
      SumOne(s[k]);
    }
  }

  // --------------------------------------------------------------- removing

  function Without(s: seq<Block>, k: nat): seq<Block>
    requires k < |s|
  {
    s[..k] + s[k + 1..]
  }

  lemma WithoutCanon(s: seq<Block>, k: nat)
    requires Canon(s) && k < |s|
    ensures Canon(Without(s, k))
  {
  }

  lemma WithoutIn(s: seq<Block>, k: nat, x: nat)
    requires k < |s|
    ensures In(s, x) <==> In(Without(s, k), x) || Has(s[k], x)
  {
    InAround(s, k, k + 1, x);
    assert s[k..k + 1] == [s[k]];
    InOne(s[k], x);
    InCat(s[..k], s[k + 1..], x);
  }

  lemma WithoutOutside(s: seq<Block>, k: nat)
    requires Canon(s) && k < |s|
    ensures Outside(Without(s, k), s[k])
  {
  }

  lemma WithoutSum(s: seq<Block>, k: nat)
    requires k < |s|
    ensures Sum(Without(s, k)) == Sum(s) - s[k].size
  {
    SumAround(s, k, k + 1);
    assert s[k..k + 1] == [s[k]];
    SumOne(s[k]);
    SumCat(s[..k], s[k + 1..]);
  }
}
