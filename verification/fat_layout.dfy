/**
  Files as sequences of sectors and of bytes laid over a cluster chain.
 */
module FatLayout {
  import opened RawMemory
  import opened Sectors
  import opened FatChains

  // ---------------------------------------------------------------------------
  // Where the sectors of a chain are
  // ---------------------------------------------------------------------------

  // Sector arithmetic with a variable cluster size, under names that proofs can hide.

  function Times(n: int, spc: int): (t: int)
    ensures 0 <= n && 0 <= spc ==> 0 <= t
  {
    n * spc
  }

  function Quot(k: int, spc: nat): (q: int)
    requires spc > 0
    ensures 0 <= k ==> 0 <= q
  {
    k / spc
  }

  function Rem(k: int, spc: nat): (r: nat)
    requires spc > 0
    ensures r < spc
  {
    k % spc
  }

  lemma MulMono(a: int, b: int, d: nat)
    requires a <= b
    ensures a * d <= b * d
  {
  }

  lemma DivUnique(x: int, d: int, q: int, r: int)
    requires x == q * d + r && 0 <= r < d
    ensures x / d == q && x % d == r
  {
    var p := x / d;
    assert x == p * d + x % d;
    assert (q + 1) * d == q * d + d && (p + 1) * d == p * d + d;
    if p > q { MulMono(q + 1, p, d); }
    if p < q { MulMono(p + 1, q, d); }
  }

  lemma DivLess(x: int, d: int, q: int)
    requires d > 0
    ensures x < q * d <==> x / d < q
  {
    assert x == x / d * d + x % d;
    assert (x / d + 1) * d == x / d * d + d;
    if x / d >= q { MulMono(q, x / d, d); } else { MulMono(x / d + 1, q, d); }
  }

  /** The data sector, counted from the start of the data section, of sector `k` of the chain. */
  function At(c: seq<nat>, spc: nat, k: nat): int
    requires spc > 0 && Quot(k, spc) < |c|
  {
    Times((c[Quot(k, spc)] as int) - 2, spc) + Rem(k, spc)
  }

  lemma ClusterOf(c: seq<nat>, spc: nat, k: nat)
    requires spc > 0
    ensures k < Times(|c|, spc) <==> Quot(k, spc) < |c|
  {
    DivLess(k, spc, |c|);
  }

  lemma AtInside(f: Fat, c: seq<nat>, spc: nat, k: nat)
    requires IsChain(f, c) && spc > 0 && k < Times(|c|, spc)
    ensures Quot(k, spc) < |c| && 0 <= At(c, spc, k) < Times(|f| - 2, spc)
  {
    ClusterOf(c, spc, k);
    assert LinkAt(f, c, Quot(k, spc));
    ClusterInside(c[Quot(k, spc)] - 2, |f| - 2, spc, Rem(k, spc));
  }

  lemma ClusterInside(a: int, b: int, spc: nat, r: nat)
    requires 0 <= a < b && r < spc
    ensures 0 <= a * spc + r < b * spc
  {
    assert (a + 1) * spc == a * spc + spc;
    MulMono(a + 1, b, spc);
  }

  /** A data sector belongs to one cluster. */
  lemma ClusterAt(c: seq<nat>, spc: nat, k: nat)
    requires spc > 0 && Quot(k, spc) < |c|
    ensures Quot(At(c, spc, k), spc) == (c[Quot(k, spc)] as int) - 2 && Rem(At(c, spc, k), spc) == Rem(k, spc)
  {
    DivUnique(At(c, spc, k), spc, (c[Quot(k, spc)] as int) - 2, Rem(k, spc));
  }

  lemma AtInjective(f: Fat, c: seq<nat>, spc: nat, j: nat, k: nat)
    requires IsChain(f, c) && spc > 0 && j < Times(|c|, spc) && k < Times(|c|, spc) && j != k
    ensures Quot(j, spc) < |c| && Quot(k, spc) < |c| && At(c, spc, j) != At(c, spc, k)
  {
    ClusterOf(c, spc, j);
    ClusterOf(c, spc, k);
    ClusterAt(c, spc, j);
    ClusterAt(c, spc, k);
    assert j == Quot(j, spc) * spc + Rem(j, spc) && k == Quot(k, spc) * spc + Rem(k, spc);
    if At(c, spc, j) == At(c, spc, k) {
      ChainDistinct(f, c);
    }
  }

  lemma AtDisjoint(c: seq<nat>, d: seq<nat>, spc: nat, j: nat, k: nat)
    requires Disjoint(c, d) && spc > 0 && Quot(j, spc) < |c| && Quot(k, spc) < |d|
    ensures At(c, spc, j) != At(d, spc, k)
  {
    ClusterAt(c, spc, j);
    ClusterAt(d, spc, k);
    assert c[Quot(j, spc)] in c && d[Quot(k, spc)] in d;
  }

  /** Inside a cluster sectors follow each other. */
  lemma AtNext(c: seq<nat>, spc: nat, k: nat, i: nat)
    requires spc > 0 && Quot(k, spc) < |c| && Rem(k, spc) + i < spc
    ensures Quot(k + i, spc) == Quot(k, spc) && At(c, spc, k + i) == At(c, spc, k) + i
  {
    assert k == Quot(k, spc) * spc + Rem(k, spc);
    DivUnique(k + i, spc, Quot(k, spc), Rem(k, spc) + i);
  }

  // ---------------------------------------------------------------------------
  // The sectors of a chain
  // ---------------------------------------------------------------------------

  ghost predicate Fitting(f: Fat, c: seq<nat>, spc: nat, data: seq<Sector>) {
    IsChain(f, c) && spc > 0 && |data| == Times(|f| - 2, spc)
  }

  ghost function SectorAt(f: Fat, c: seq<nat>, spc: nat, data: seq<Sector>, k: nat): Sector
    requires Fitting(f, c, spc, data) && k < Times(|c|, spc)
  {
    AtInside(f, c, spc, k);
    data[At(c, spc, k)]
  }

  ghost function FileSectors(f: Fat, c: seq<nat>, spc: nat, data: seq<Sector>): (v: seq<Sector>)
    requires Fitting(f, c, spc, data)
    ensures |v| == Times(|c|, spc)
  {
    seq(Times(|c|, spc), k requires 0 <= k < Times(|c|, spc)
      && Fitting(f, c, spc, data) => SectorAt(f, c, spc, data, k))
  }

  /** Writing `n` sectors in one cluster, which follow each other on the device, writes them in the file. */
  lemma WriteInCluster(f: Fat, c: seq<nat>, spc: nat, data: seq<Sector>, pos: nat, src: seq<Sector>)
    requires Fitting(f, c, spc, data) && pos < Times(|c|, spc) && Rem(pos, spc) + |src| <= spc
    ensures Quot(pos, spc) < |c| && pos + |src| <= Times(|c|, spc)
    ensures 0 <= At(c, spc, pos) && At(c, spc, pos) + |src| <= |data|
    ensures FileSectors(f, c, spc, Splice(data, At(c, spc, pos), src)) == Splice(FileSectors(f, c, spc, data), pos, src)
  {
    PieceInside(f, c, spc, data, pos, |src|);
    var at := At(c, spc, pos);
    var data' := Splice(data, at, src);
    var v := FileSectors(f, c, spc, data);
    forall k | 0 <= k < Times(|c|, spc)
      ensures SectorAt(f, c, spc, data', k) == Splice(v, pos, src)[k]
    {
      SectorWritten(f, c, spc, data, pos, src, k);
    }
  }

  lemma PieceInside(f: Fat, c: seq<nat>, spc: nat, data: seq<Sector>, pos: nat, n: nat)
    requires Fitting(f, c, spc, data) && pos < Times(|c|, spc) && Rem(pos, spc) + n <= spc
    ensures Quot(pos, spc) < |c| && pos + n <= Times(|c|, spc) && 0 <= At(c, spc, pos) && At(c, spc, pos) + n <= |data|
  {
    AtInside(f, c, spc, pos);
    if n > 0 {
      AtNext(c, spc, pos, n - 1);
      ClusterOf(c, spc, pos + n - 1);
      AtInside(f, c, spc, pos + n - 1);
    }
  }

  lemma SectorWritten(f: Fat, c: seq<nat>, spc: nat, data: seq<Sector>, pos: nat, src: seq<Sector>, k: nat)
    requires Fitting(f, c, spc, data) && pos < Times(|c|, spc) && Rem(pos, spc) + |src| <= spc && k < Times(|c|, spc)
    requires Quot(pos, spc) < |c| && 0 <= At(c, spc, pos) && At(c, spc, pos) + |src| <= |data|
    ensures SectorAt(f, c, spc, Splice(data, At(c, spc, pos), src), k)
      == if pos <= k < pos + |src| then src[k - pos] else SectorAt(f, c, spc, data, k)
  {
    var at := At(c, spc, pos);
    AtInside(f, c, spc, k);
    if pos <= k < pos + |src| {
      AtNext(c, spc, pos, k - pos);
    } else if at <= At(c, spc, k) < at + |src| {
      var j := At(c, spc, k) - at;
      AtNext(c, spc, pos, j);
      ClusterOf(c, spc, pos + j);
      AtInjective(f, c, spc, pos + j, k);
    }
  }

  /** Files over disjoint chains do not share a sector. */
  lemma OtherFileStays(f: Fat, c: seq<nat>, d: seq<nat>, spc: nat, data: seq<Sector>, pos: nat, src: seq<Sector>)
    requires Fitting(f, c, spc, data) && Fitting(f, d, spc, data) && Disjoint(c, d)
    requires pos < Times(|c|, spc) && Rem(pos, spc) + |src| <= spc
    ensures Quot(pos, spc) < |c| && 0 <= At(c, spc, pos) && At(c, spc, pos) + |src| <= |data|
    ensures FileSectors(f, d, spc, Splice(data, At(c, spc, pos), src)) == FileSectors(f, d, spc, data)
  {
    PieceInside(f, c, spc, data, pos, |src|);
    var at := At(c, spc, pos);
    forall k | 0 <= k < Times(|d|, spc)
      ensures SectorAt(f, d, spc, Splice(data, at, src), k) == SectorAt(f, d, spc, data, k)
    {
      AtInside(f, d, spc, k);
      if at <= At(d, spc, k) < at + |src| {
        var j := At(d, spc, k) - at;
        AtNext(c, spc, pos, j);
        AtDisjoint(c, d, spc, pos + j, k);
      }
    }
  }

  // ---------------------------------------------------------------------------
  // Whole transfers
  // ---------------------------------------------------------------------------

  /** How many of the `rest` sectors one step takes; the rest is first narrowed to eight bits. */
  function Piece(rest: nat, room: nat): (m: nat)
    ensures m <= rest && m <= room
  {
    var narrow := rest % 0x100;
    if narrow > room then room else narrow
  }

  function NextCluster(pos: nat, spc: nat): (n: nat)
    requires spc > 0
    ensures n == pos + (spc - Rem(pos, spc)) && n > pos
  {
    assert pos == Quot(pos, spc) * spc + Rem(pos, spc);
    Times(Quot(pos, spc) + 1, spc)
  }

  lemma RoomInside(len: nat, pos: nat, spc: nat)
    requires spc > 0 && Rem(len, spc) == 0 && pos < len
    ensures NextCluster(pos, spc) <= len
  {
    var q := Quot(len, spc);
    assert len == Times(q, spc);
    DivLess(pos, spc, q);
    MulMono(Quot(pos, spc) + 1, q, spc);
  }

  /** fat32_read_write of the sectors `src` from position `pos` of a file that holds `v`. */
  function WriteRun(v: seq<Sector>, pos: nat, src: seq<Sector>, spc: nat): (r: (Code, seq<Sector>))
    requires spc > 0 && Rem(|v|, spc) == 0
    ensures |r.1| == |v|
    decreases |v| - pos
  {
    if pos >= |v| then (InvalidRange, v)
    else
      var m := Piece(|src|, spc - Rem(pos, spc));
      RoomInside(|v|, pos, spc);
      var w := Splice(v, pos, src[..m]);
      if m == |src| then (Success, w) else WriteRun(w, NextCluster(pos, spc), src[m..], spc)
  }

  function ReadRun(v: seq<Sector>, pos: nat, n: nat, spc: nat): (r: (Code, seq<Sector>))
    requires spc > 0 && Rem(|v|, spc) == 0
    ensures |r.1| <= n
    decreases |v| - pos
  {
    if pos >= |v| then (InvalidRange, [])
    else
      var m := Piece(n, spc - Rem(pos, spc));
      RoomInside(|v|, pos, spc);
      if m == n then (Success, v[pos..pos + m])
      else
        var rest := ReadRun(v, NextCluster(pos, spc), n - m, spc);
        (rest.0, v[pos..pos + m] + rest.1)
  }

  lemma ReadRunStep(v: seq<Sector>, pos: nat, n: nat, spc: nat)
    requires spc > 0 && Rem(|v|, spc) == 0 && pos < |v|
    ensures var m := Piece(n, spc - Rem(pos, spc));
      && pos + m <= |v|
      && ReadRun(v, pos, n, spc) ==
        if m == n then (Success, v[pos..pos + m])
        else
          var rest := ReadRun(v, NextCluster(pos, spc), n - m, spc);
          (rest.0, v[pos..pos + m] + rest.1)
  {
    RoomInside(|v|, pos, spc);
  }

  lemma {:induction false} ReadRunIs(v: seq<Sector>, pos: nat, n: nat, spc: nat)
    requires spc > 0 && Rem(|v|, spc) == 0 && 0 < n <= 255 && pos + n <= |v|
    ensures ReadRun(v, pos, n, spc) == (Success, v[pos..pos + n])
    decreases |v| - pos
  {
    hide NextCluster, ReadRun;
    var m := Piece(n, spc - Rem(pos, spc));
    ReadRunStep(v, pos, n, spc);
    if m < n {
      RoomInside(|v|, pos, spc);
      assert v[pos..pos + n] == v[pos..pos + m] + v[pos + m..pos + n];
      ReadRunIs(v, NextCluster(pos, spc), n - m, spc);
    }
  }

  lemma WriteRunStep(v: seq<Sector>, pos: nat, src: seq<Sector>, spc: nat)
    requires spc > 0 && Rem(|v|, spc) == 0 && pos < |v|
    ensures var m := Piece(|src|, spc - Rem(pos, spc));
      && NextCluster(pos, spc) <= |v|
      && WriteRun(v, pos, src, spc) ==
        if m == |src| then (Success, Splice(v, pos, src[..m]))
        else WriteRun(Splice(v, pos, src[..m]), NextCluster(pos, spc), src[m..], spc)
  {
    RoomInside(|v|, pos, spc);
  }

  lemma {:induction false} WriteRunBelow(v: seq<Sector>, pos: nat, src: seq<Sector>, spc: nat)
    requires spc > 0 && Rem(|v|, spc) == 0
    ensures forall i :: 0 <= i < |v| && i < pos ==> WriteRun(v, pos, src, spc).1[i] == v[i]
    decreases |v| - pos
  {
    if pos < |v| {
      var m := Piece(|src|, spc - Rem(pos, spc));
      RoomInside(|v|, pos, spc);
      if m < |src| {
        WriteRunBelow(Splice(v, pos, src[..m]), NextCluster(pos, spc), src[m..], spc);
      }
    }
  }

  lemma {:induction false} WriteRunIs(v: seq<Sector>, pos: nat, src: seq<Sector>, spc: nat)
    requires spc > 0 && Rem(|v|, spc) == 0 && 0 < |src| <= 255 && pos + |src| <= |v|
    ensures WriteRun(v, pos, src, spc) == (Success, Splice(v, pos, src))
    decreases |v| - pos
  {
    var m := Piece(|src|, spc - Rem(pos, spc));
    if m < |src| {
      RoomInside(|v|, pos, spc);
      WriteRunIs(Splice(v, pos, src[..m]), NextCluster(pos, spc), src[m..], spc);
      SpliceGrow(v, pos, src, m, |src|);
      assert src[m..|src|] == src[m..] && src[..|src|] == src;
    } else {
      assert src[..m] == src;
    }
  }

  /** A multiple of 256 sectors looks like none at all: the run walks to the end and does nothing. */
  lemma {:induction false} WriteRunStuck(v: seq<Sector>, pos: nat, src: seq<Sector>, spc: nat)
    requires spc > 0 && Rem(|v|, spc) == 0 && 0 < |src| && |src| % 0x100 == 0
    ensures WriteRun(v, pos, src, spc) == (InvalidRange, v)
    decreases |v| - pos
  {
    if pos < |v| {
      WriteRunStep(v, pos, src, spc);
      SpliceNothing(v, pos);
      WriteRunStuck(v, NextCluster(pos, spc), src, spc);
    }
  }

  lemma {:induction false} ReadRunStuck(v: seq<Sector>, pos: nat, n: nat, spc: nat)
    requires spc > 0 && Rem(|v|, spc) == 0 && 0 < n && n % 0x100 == 0
    ensures ReadRun(v, pos, n, spc) == (InvalidRange, [])
    decreases |v| - pos
  {
    if pos < |v| {
      ReadRunStep(v, pos, n, spc);
      ReadRunStuck(v, NextCluster(pos, spc), n, spc);
    }
  }

  /** A sector of the file that differs from what was to be written is left. */
  lemma {:induction false} WriteRunSkips(v: seq<Sector>, pos: nat, src: seq<Sector>, spc: nat) returns (i: nat)
    requires spc > 0 && Rem(|v|, spc) == 0 && |src| >= 256 && pos + |src| <= |v|
    ensures pos <= i < pos + |src| && WriteRun(v, pos, src, spc).1[i] == v[i]
    decreases |v| - pos
  {
    hide NextCluster, WriteRun;
    var m, next := Piece(|src|, spc - Rem(pos, spc)), NextCluster(pos, spc);
    WriteRunStep(v, pos, src, spc);
    var w := Splice(v, pos, src[..m]);
    if m < spc - Rem(pos, spc) {
      i := pos + m;
      WriteRunBelow(w, next, src[m..], spc);
    } else {
      i := WriteRunSkips(w, next, src[m..], spc);
    }
  }

  /** A run of 256 sectors or more never comes to its end, and neither does one that leaves the file. */
  lemma {:induction false} WriteRunFails(v: seq<Sector>, pos: nat, src: seq<Sector>, spc: nat)
    requires spc > 0 && Rem(|v|, spc) == 0 && 0 < |src| && (|src| >= 256 || pos + |src| > |v|)
    ensures WriteRun(v, pos, src, spc).0 == InvalidRange
    decreases |v| - pos
  {
    hide WriteRun;
    if pos < |v| {
      var m := Piece(|src|, spc - Rem(pos, spc));
      WriteRunStep(v, pos, src, spc);
      RoomInside(|v|, pos, spc);
      WriteRunFails(Splice(v, pos, src[..m]), NextCluster(pos, spc), src[m..], spc);
    } else {
      WriteRunPast(v, pos, src, spc);
    }
  }

  lemma {:induction false} ReadRunFails(v: seq<Sector>, pos: nat, n: nat, spc: nat)
    requires spc > 0 && Rem(|v|, spc) == 0 && 0 < n && (n >= 256 || pos + n > |v|)
    ensures ReadRun(v, pos, n, spc).0 == InvalidRange
    decreases |v| - pos
  {
    hide ReadRun;
    if pos < |v| {
      ReadRunStep(v, pos, n, spc);
      RoomInside(|v|, pos, spc);
      ReadRunFails(v, NextCluster(pos, spc), n - Piece(n, spc - Rem(pos, spc)), spc);
    } else {
      ReadRunPast(v, pos, n, spc);
    }
  }

  /** A write succeeds exactly when it is of at most 255 sectors and stays in the file. */
  lemma WriteSucceeds(v: seq<Sector>, pos: nat, src: seq<Sector>, spc: nat)
    requires spc > 0 && Rem(|v|, spc) == 0 && 0 < |src|
    ensures WriteRun(v, pos, src, spc).0 == Success <==> |src| <= 255 && pos + |src| <= |v|
  {
    if |src| <= 255 && pos + |src| <= |v| { WriteRunIs(v, pos, src, spc); } else { WriteRunFails(v, pos, src, spc); }
  }

  lemma ReadSucceeds(v: seq<Sector>, pos: nat, n: nat, spc: nat)
    requires spc > 0 && Rem(|v|, spc) == 0 && 0 < n
    ensures ReadRun(v, pos, n, spc).0 == Success <==> n <= 255 && pos + n <= |v|
  {
    if n <= 255 && pos + n <= |v| { ReadRunIs(v, pos, n, spc); } else { ReadRunFails(v, pos, n, spc); }
  }

  /**
    A write inside the file does what it should, and says so, exactly when it is of at most 255 sectors: the count
    of remaining sectors is narrowed to eight bits.
   */
  lemma NarrowCount(v: seq<Sector>, pos: nat, src: seq<Sector>, spc: nat)
    requires spc > 0 && Rem(|v|, spc) == 0 && 0 < |src| && pos + |src| <= |v|
    ensures WriteRun(v, pos, src, spc) == (Success, Splice(v, pos, src)) <==> |src| <= 255
    ensures WriteRun(v, pos, src, spc).0 == Success <==> |src| <= 255
  {
    if |src| <= 255 { WriteRunIs(v, pos, src, spc); } else { WriteRunFails(v, pos, src, spc); }
  }

  /** The same of a read. */
  lemma NarrowRead(v: seq<Sector>, pos: nat, n: nat, spc: nat)
    requires spc > 0 && Rem(|v|, spc) == 0 && 0 < n && pos + n <= |v|
    ensures ReadRun(v, pos, n, spc) == (Success, v[pos..pos + n]) <==> n <= 255
    ensures ReadRun(v, pos, n, spc).0 == Success <==> n <= 255
  {
    if n <= 255 { ReadRunIs(v, pos, n, spc); } else { ReadRunFails(v, pos, n, spc); }
  }

  /** Nor are the right bytes written then, unless some were there before. */
  lemma NarrowContent(v: seq<Sector>, pos: nat, src: seq<Sector>, spc: nat)
    requires spc > 0 && Rem(|v|, spc) == 0 && 0 < |src| && pos + |src| <= |v|
    ensures |src| <= 255 ==> WriteRun(v, pos, src, spc).1 == Splice(v, pos, src)
    ensures |src| > 255 ==> exists i :: pos <= i < pos + |src| && WriteRun(v, pos, src, spc).1[i] == v[i]
  {
    if |src| <= 255 {
      WriteRunIs(v, pos, src, spc);
    } else {
      var i := WriteRunSkips(v, pos, src, spc);
    }
  }

  // ---------------------------------------------------------------------------
  // One cluster's share
  // ---------------------------------------------------------------------------

  ghost predicate OthersKept(f: Fat, c: seq<nat>, spc: nat, was: seq<Sector>, now: seq<Sector>)
    requires spc > 0 && |was| == Times(|f| - 2, spc) && |now| == Times(|f| - 2, spc)
  {
    forall d {:trigger FileSectors(f, d, spc, now)} :: IsChain(f, d) && Disjoint(c, d) ==>
      FileSectors(f, d, spc, now) == FileSectors(f, d, spc, was)
  }

  lemma OthersKeptTwice(f: Fat, c: seq<nat>, spc: nat, a: seq<Sector>, b: seq<Sector>, e: seq<Sector>)
    requires spc > 0 && |a| == Times(|f| - 2, spc) && |b| == Times(|f| - 2, spc) && |e| == Times(|f| - 2, spc)
    requires OthersKept(f, c, spc, a, b) && OthersKept(f, c, spc, b, e)
    ensures OthersKept(f, c, spc, a, e)
  {
    forall d | IsChain(f, d) && Disjoint(c, d)
      ensures FileSectors(f, d, spc, e) == FileSectors(f, d, spc, a)
    {
      assert FileSectors(f, d, spc, b) == FileSectors(f, d, spc, a);
    }
  }

  lemma StageAt(c: seq<nat>, spc: nat, idx: nat, shift: nat)
    requires idx < |c| && shift < spc
    ensures var pos := Times(idx, spc) + shift;
      && pos < Times(|c|, spc) && Quot(pos, spc) == idx && Rem(pos, spc) == shift
          && At(c, spc, pos) == Times(c[idx] as int - 2, spc) + shift
      && NextCluster(pos, spc) == Times(idx + 1, spc) && Rem(Times(|c|, spc), spc) == 0
  {
    ClustersMod(|c|, spc, idx, shift);
  }

  lemma WriteStage(f: Fat, c: seq<nat>, spc: nat, data: seq<Sector>, idx: nat, shift: nat, p: seq<Sector>)
    requires Fitting(f, c, spc, data) && idx < |c| && shift + |p| <= spc && shift < spc
    ensures var pos, at := Times(idx, spc) + shift, Times(c[idx] as int - 2, spc) + shift;
      && 0 <= at && at + |p| <= |data| && pos + |p| <= Times(|c|, spc)
      && FileSectors(f, c, spc, Splice(data, at, p)) == Splice(FileSectors(f, c, spc, data), pos, p)
      && OthersKept(f, c, spc, data, Splice(data, at, p))
  {
    hide FileSectors, SectorAt, At, NextCluster, IsChain;
    var pos := Times(idx, spc) + shift;
    StageAt(c, spc, idx, shift);
    WriteInCluster(f, c, spc, data, pos, p);
    forall d | IsChain(f, d) && Disjoint(c, d)
      ensures FileSectors(f, d, spc, Splice(data, At(c, spc, pos), p)) == FileSectors(f, d, spc, data)
    {
      OtherFileStays(f, c, d, spc, data, pos, p);
    }
  }

  /** The run after one cluster; a count that narrows to zero keeps the shift of the first cluster. */
  lemma RunStage(v: seq<Sector>, spc: nat, clusters: nat, idx: nat, shift: nat, src: seq<Sector>)
    requires |v| == Times(clusters, spc) && idx < clusters && shift < spc && src != []
    ensures Rem(|v|, spc) == 0 && Times(idx, spc) + shift < |v|
    ensures var pos, m := Times(idx, spc) + shift, Piece(|src|, spc - shift);
      && pos + m <= |v|
      && var w := Splice(v, pos, src[..m]);
        WriteRun(v, pos, src, spc) ==
          if m == |src| then (Success, w)
          else if idx + 1 == clusters then (InvalidRange, w)
          else WriteRun(w, Times(idx + 1, spc) + if m == 0 then shift else 0, src[m..], spc)
  {
    hide WriteRun, NextCluster;
    var pos, m := Times(idx, spc) + shift, Piece(|src|, spc - shift);
    ClustersMod(clusters, spc, idx, shift);
    WriteRunStep(v, pos, src, spc);
    var w := Splice(v, pos, src[..m]);
    if m < |src| && idx + 1 == clusters {
      WriteRunPast(w, NextCluster(pos, spc), src[m..], spc);
    } else if m < |src| && m == 0 {
      WriteRunStuck(w, Times(idx + 1, spc) + shift, src, spc);
      WriteRunStuck(w, Times(idx + 1, spc), src, spc);
    }
  }

  /** The result of a read that goes on from what has been read. */
  function After(out: seq<Sector>, r: (Code, seq<Sector>)): (Code, seq<Sector>) {
    (r.0, out + r.1)
  }

  lemma AfterTwice(out: seq<Sector>, p: seq<Sector>, r: (Code, seq<Sector>))
    ensures After(out, After(p, r)) == After(out + p, r)
  {
    assert out + (p + r.1) == (out + p) + r.1;
  }

  lemma ReadStage(v: seq<Sector>, spc: nat, clusters: nat, idx: nat, shift: nat, n: nat)
    requires |v| == Times(clusters, spc) && idx < clusters && shift < spc && n > 0
    ensures Rem(|v|, spc) == 0
    ensures var pos, m := Times(idx, spc) + shift, Piece(n, spc - shift);
      && pos + m <= |v|
      && ReadRun(v, pos, n, spc) ==
        if m == n then (Success, v[pos..pos + m])
        else if idx + 1 == clusters then (InvalidRange, v[pos..pos + m])
        else After(v[pos..pos + m], ReadRun(v, Times(idx + 1, spc) + if m == 0 then shift else 0, n - m, spc))
  {
    hide ReadRun, NextCluster;
    var pos, m := Times(idx, spc) + shift, Piece(n, spc - shift);
    ClustersMod(clusters, spc, idx, shift);
    ReadRunStep(v, pos, n, spc);
    if m < n && idx + 1 == clusters {
      ReadRunPast(v, NextCluster(pos, spc), n - m, spc);
      assert v[pos..pos + m] + [] == v[pos..pos + m];
    } else if m < n && m == 0 {
      ReadRunStuck(v, Times(idx + 1, spc) + shift, n, spc);
      ReadRunStuck(v, Times(idx + 1, spc), n, spc);
    }
  }

  lemma ReadRunPast(v: seq<Sector>, pos: nat, n: nat, spc: nat)
    requires spc > 0 && Rem(|v|, spc) == 0 && pos >= |v|
    ensures ReadRun(v, pos, n, spc) == (InvalidRange, [])
  {
  }

  /** Inside a cluster the file and the device run in parallel. */
  lemma ReadInCluster(f: Fat, c: seq<nat>, spc: nat, data: seq<Sector>, idx: nat, shift: nat, n: nat)
    requires Fitting(f, c, spc, data) && idx < |c| && shift + n <= spc && shift < spc
    ensures var pos, at := Times(idx, spc) + shift, Times(c[idx] as int - 2, spc) + shift;
      && 0 <= at && at + n <= |data| && pos + n <= Times(|c|, spc)
      && data[at..at + n] == FileSectors(f, c, spc, data)[pos..pos + n]
  {
    hide NextCluster, IsChain, FileSectors, SectorAt, At;
    var pos, at := Times(idx, spc) + shift, Times(c[idx] as int - 2, spc) + shift;
    StageAt(c, spc, idx, shift);
    PieceInside(f, c, spc, data, pos, n);
    var v := FileSectors(f, c, spc, data);
    forall k | pos <= k < pos + n
      ensures v[k] == data[at + (k - pos)]
    {
      AtNext(c, spc, pos, k - pos);
      SectorPlace(f, c, spc, data, k);
    }
  }

  lemma SectorPlace(f: Fat, c: seq<nat>, spc: nat, data: seq<Sector>, k: nat)
    requires Fitting(f, c, spc, data) && k < Times(|c|, spc)
    ensures Quot(k, spc) < |c| && At(c, spc, k) == Times(c[Quot(k, spc)] as int - 2, spc) + Rem(k, spc)
    ensures 0 <= At(c, spc, k) < |data| && data[At(c, spc, k)] == FileSectors(f, c, spc, data)[k]
  {
    AtInside(f, c, spc, k);
  }

  lemma ClustersMod(clusters: nat, spc: nat, idx: nat, shift: nat)
    requires idx < clusters && shift < spc
    ensures var pos := Times(idx, spc) + shift;
      pos < Times(clusters, spc) && Quot(pos, spc) == idx && Rem(pos, spc) == shift
        && NextCluster(pos, spc) == Times(idx + 1, spc) && Rem(Times(clusters, spc), spc) == 0
  {
    DivUnique(Times(idx, spc) + shift, spc, idx, shift);
    ClusterInside(idx, clusters, spc, shift);
    DivUnique(Times(clusters, spc), spc, clusters, 0);
  }

  lemma WriteRunPast(v: seq<Sector>, pos: nat, src: seq<Sector>, spc: nat)
    requires spc > 0 && Rem(|v|, spc) == 0 && pos >= |v|
    ensures WriteRun(v, pos, src, spc) == (InvalidRange, v)
  {
  }

  // ---------------------------------------------------------------------------
  // Bytes
  // ---------------------------------------------------------------------------

  function Flat(v: seq<Sector>): (b: seq<Byte>)
    ensures |b| == 512 * |v|
  {
    seq(512 * |v|, i requires 0 <= i < 512 * |v| => v[i / 512][i % 512])
  }

  lemma FlatPiece(v: seq<Sector>, s: nat, offset: nat, p: seq<Byte>)
    requires s < |v| && offset + |p| <= 512
    ensures Flat(v[s := Splice(v[s], offset, p)]) == Splice(Flat(v), 512 * s + offset, p)
  {
  }

  lemma FlatSectors(v: seq<Sector>, s: nat, w: seq<Sector>)
    requires s + |w| <= |v|
    ensures Flat(Splice(v, s, w)) == Splice(Flat(v), 512 * s, Flat(w))
  {
  }

  lemma FlatRange(v: seq<Sector>, s: nat, e: nat)
    requires s <= e <= |v|
    ensures Flat(v[s..e]) == Flat(v)[512 * s..512 * e]
  {
  }

  /** The bytes as whole sectors. */
  function Chunks(b: seq<Byte>): (v: seq<Sector>)
    requires |b| % 512 == 0
    ensures Flat(v) == b
  {
    var v: seq<Sector> := seq(|b| / 512, k requires 0 <= k < |b| / 512 => b[512 * k..512 * k + 512]);
    assert Flat(v) == b;
    v
  }
}
