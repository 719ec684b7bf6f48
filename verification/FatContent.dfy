/** The bytes stored in a cluster chain, and a directory's bytes as a row of 32-byte slots. */
module FatContent {
  import opened Bytes
  import opened FatChains
  import opened FatLayout
  import opened Rows

  /** Every cluster of `s` names contents of `size` bytes. */
  ghost predicate Sized(data: seq<seq<Byte>>, s: seq<nat>, size: nat)
  {
    forall i | 0 <= i < |s| :: s[i] < |data| && |data[s[i]]| == size
  }

  /** The contents of the clusters of `s`, in chain order. */
  ghost function Flatten(data: seq<seq<Byte>>, s: seq<nat>, size: nat): (r: seq<Byte>)
    requires Sized(data, s, size)
    ensures |r| == Row(|s|, size)
  {
    if s == [] then []
    else
      Flatten(data, s[..|s| - 1], size) + data[s[|s| - 1]]
  }

  lemma {:induction false} FlattenAt(data: seq<seq<Byte>>, s: seq<nat>, size: nat, i: nat, o: nat)
    requires Sized(data, s, size) && i < |s| && o < size
    ensures Row(i, size) + o < Row(|s|, size)
    ensures Flatten(data, s, size)[Row(i, size) + o] == data[s[i]][o]
  {
    RowMonotone(i, |s|, size);
    var init := s[..|s| - 1];
    if i < |s| - 1 {
      FlattenAt(data, init, size, i, o);
    }
  }

  lemma {:induction false} FlattenFrame(data: seq<seq<Byte>>, data': seq<seq<Byte>>, s: seq<nat>, size: nat)
    requires Sized(data, s, size) && Sized(data', s, size)
    requires forall i | 0 <= i < |s| :: data[s[i]] == data'[s[i]]
    ensures Flatten(data, s, size) == Flatten(data', s, size)
  {
    if s != [] {
      FlattenFrame(data, data', s[..|s| - 1], size);
    }
  }

  lemma {:induction false} FlattenAppend(data: seq<seq<Byte>>, s: seq<nat>, t: seq<nat>, size: nat)
    requires Sized(data, s, size) && Sized(data, t, size)
    ensures Sized(data, s + t, size)
    ensures Flatten(data, s + t, size) == Flatten(data, s, size) + Flatten(data, t, size)
  {
    if t == [] {
      assert s + t == s;
    } else {
      var init := t[..|t| - 1];
      FlattenAppend(data, s, init, size);
      assert (s + t)[..|s + t| - 1] == s + init;
      assert Sized(data, s + t, size);
      assert Flatten(data, s + t, size) == Flatten(data, s + init, size) + data[t[|t| - 1]];
    }
  }

  lemma {:induction false} FlattenZeros(data: seq<seq<Byte>>, s: seq<nat>, size: nat)
    requires Sized(data, s, size)
    requires forall i | 0 <= i < |s| :: data[s[i]] == Zeros(size)
    ensures Flatten(data, s, size) == Zeros(Row(|s|, size))
  {
    if s != [] {
      FlattenZeros(data, s[..|s| - 1], size);
    }
  }

  /** Overwriting a stretch of one cluster overwrites that stretch of the chain. */
  lemma FlattenSplice(data: seq<seq<Byte>>, s: seq<nat>, size: nat, i: nat, o: nat, piece: seq<Byte>)
    requires Sized(data, s, size) && NoDup(s) && i < |s| && o + |piece| <= size && 0 < size
    ensures var data' := data[s[i] := Splice(data[s[i]], o, piece)];
            && Sized(data', s, size)
            && Row(i, size) + o + |piece| <= Row(|s|, size)
            && Flatten(data', s, size) == Splice(Flatten(data, s, size), Row(i, size) + o, piece)
  {
    var data' := data[s[i] := Splice(data[s[i]], o, piece)];
    RowMonotone(i, |s|, size);
    var a, b := Flatten(data', s, size), Splice(Flatten(data, s, size), Row(i, size) + o, piece);
    forall p | 0 <= p < |a| ensures a[p] == b[p] {
      SplicedByte(data, s, size, i, o, piece, p);
    }
  }

  lemma SplicedByte(data: seq<seq<Byte>>, s: seq<nat>, size: nat, i: nat, o: nat, piece: seq<Byte>, p: nat)
    requires Sized(data, s, size) && NoDup(s) && i < |s| && o + |piece| <= size && 0 < size && p < Row(|s|, size)
    requires Row(i, size) + o + |piece| <= Row(|s|, size)
    ensures var data' := data[s[i] := Splice(data[s[i]], o, piece)];
            Sized(data', s, size) &&
            Flatten(data', s, size)[p] == Splice(Flatten(data, s, size), Row(i, size) + o, piece)[p]
  {
    var data' := data[s[i] := Splice(data[s[i]], o, piece)];
    LocateBelow(p, size, |s|);
    var q, r := p / size, p % size;
    FlattenAt(data, s, size, q, r);
    FlattenAt(data', s, size, q, r);
    if q < i {
      RowMonotone(q, i, size);
    } else if q > i {
      RowMonotone(i, q, size);
    }
  }

  // ---------------------------------------------------------------- slots

  const SLOT_SIZE: nat := 32

  /** Consecutive 32-byte chunks. */
  function Chunks(b: seq<Byte>): (r: seq<seq<Byte>>)
    ensures |r| == |b| / SLOT_SIZE
    ensures forall n | 0 <= n < |r| :: |r[n]| == SLOT_SIZE && r[n] == b[n * SLOT_SIZE..(n + 1) * SLOT_SIZE]
  {
    seq(|b| / SLOT_SIZE, n requires 0 <= n < |b| / SLOT_SIZE => b[n * SLOT_SIZE..(n + 1) * SLOT_SIZE])
  }

  lemma ChunksSplice(b: seq<Byte>, n: nat, o: nat, piece: seq<Byte>)
    requires |b| % SLOT_SIZE == 0 && n < |b| / SLOT_SIZE && o + |piece| <= SLOT_SIZE
    ensures Chunks(Splice(b, n * SLOT_SIZE + o, piece)) == Chunks(b)[n := Splice(Chunks(b)[n], o, piece)]
  {
    var r, x := Chunks(Splice(b, n * SLOT_SIZE + o, piece)), Chunks(b)[n := Splice(Chunks(b)[n], o, piece)];
    forall m | 0 <= m < |r| ensures r[m] == x[m] {
      assert forall i | 0 <= i < SLOT_SIZE :: r[m][i] == x[m][i];
    }
  }

  lemma ChunksAppend(a: seq<Byte>, b: seq<Byte>)
    requires |a| % SLOT_SIZE == 0 && |b| % SLOT_SIZE == 0
    ensures Chunks(a + b) == Chunks(a) + Chunks(b)
  {
    var r, x := Chunks(a + b), Chunks(a) + Chunks(b);
    forall m | 0 <= m < |r| ensures r[m] == x[m] {
      assert forall i | 0 <= i < SLOT_SIZE :: r[m][i] == x[m][i];
    }
  }
}
