/**
  Well-formed directories, and what adding and erasing a sequence does to them.
 */
module FatDirShape {
  import opened Sectors
  import opened FatDirEntries

  /** The position of the terminator, or the number of entries. */
  function EndFrom(d: seq<Entry>, i: nat): (e: nat)
    requires i <= |d|
    ensures i <= e <= |d|
    ensures forall k :: i <= k < e ==> KindOf(d[k]) != Term
    ensures e < |d| ==> KindOf(d[e]) == Term
    decreases |d| - i
  {
    if i == |d| || KindOf(d[i]) == Term then i else EndFrom(d, i + 1)
  }

  function End(d: seq<Entry>): nat {
    EndFrom(d, 0)
  }

  lemma EndIs(d: seq<Entry>, e: nat)
    requires e <= |d| && (forall k :: 0 <= k < e ==> KindOf(d[k]) != Term) && (e < |d| ==> KindOf(d[e]) == Term)
    ensures End(d) == e
  {
    var f := End(d);
    assert f < |d| ==> KindOf(d[f]) == Term;
  }

  /** The number of long-name entries right before position `k`. */
  function LfnRun(d: seq<Entry>, k: nat): (n: nat)
    requires k <= |d|
    ensures n <= k && (forall i :: k - n <= i < k ==> KindOf(d[i]) == Lfn) && (n < k ==> KindOf(d[k - n - 1]) != Lfn)
  {
    if k == 0 || KindOf(d[k - 1]) != Lfn then 0 else LfnRun(d, k - 1) + 1
  }

  /** The first entry of the sequence that ends with the short-name entry at `j`. */
  function SeqStart(d: seq<Entry>, j: nat): (s: nat)
    requires j < |d|
    ensures s <= j
  {
    j - LfnRun(d, j)
  }

  ghost predicate FollowedOk(d: seq<Entry>, e: nat, k: nat)
    requires k < e <= |d|
  {
    && k + 1 < e && InUse(d[k + 1])
    && (Marked(d[k]) <==> k == 0 || KindOf(d[k - 1]) != Lfn)
  }

  ghost predicate NameOk(d: seq<Entry>, j: nat)
    requires j < |d|
  {
    LfnRun(d, j) <= MAX_LFN_ENTRIES && |NameBefore(d, j)| <= MAX_NAME
  }

  ghost predicate EntryOk(d: seq<Entry>, e: nat, k: nat)
    requires k < e <= |d|
  {
    match KindOf(d[k])
    case Term => false
    case Free => true
    case Lfn => FollowedOk(d, e, k)
    case Sfn => NameOk(d, k)
  }

  ghost predicate EntriesOk(d: seq<Entry>, e: nat)
    requires e <= |d|
  {
    forall k {:trigger EntryOk(d, e, k)} :: 0 <= k < e ==> EntryOk(d, e, k)
  }

  /** Free entries and complete sequences, then perhaps a terminator, which lies in the last cluster. */
  ghost predicate WellFormed(d: seq<Entry>, perCluster: nat) {
    EntriesOk(d, End(d)) && (End(d) < |d| ==> End(d) + perCluster >= |d|)
  }

  /** The files of a directory, by the position of their short-name entry. */
  ghost function Files(d: seq<Entry>): set<nat> {
    set j | 0 <= j < End(d) && KindOf(d[j]) == Sfn
  }

  // ---------------------------------------------------------------------------
  // Changing a block of entries
  // ---------------------------------------------------------------------------

  /** Only [s, t) changes, and the block ends, before and after, with something that is not a long-name entry. */
  ghost predicate BlockChanged(d: seq<Entry>, d': seq<Entry>, s: nat, t: nat) {
    && |d'| == |d| && s < t <= |d|
    && (forall k :: 0 <= k < |d| && !(s <= k < t) ==> d'[k] == d[k])
    && KindOf(d[t - 1]) != Lfn && KindOf(d'[t - 1]) != Lfn
  }

  lemma {:induction false} OutsideSame(d: seq<Entry>, d': seq<Entry>, s: nat, t: nat, k: nat)
    requires BlockChanged(d, d', s, t) && k <= |d| && (k <= s || t <= k)
    ensures NameBefore(d', k) == NameBefore(d, k) && LfnRun(d', k) == LfnRun(d, k)
    decreases k
  {
    hide KindOf, EntryChars;
    if k > 0 && k != t {
      assert d'[k - 1] == d[k - 1];
      OutsideSame(d, d', s, t, k - 1);
    }
  }

  lemma RunStops(d: seq<Entry>, j: nat, p: nat)
    requires p < j <= |d| && KindOf(d[p]) != Lfn
    ensures j - LfnRun(d, j) > p
  {
  }

  /** Other files keep their place, their entries and their name. */
  lemma OtherFilesSame(d: seq<Entry>, d': seq<Entry>, s: nat, t: nat, j: nat)
    requires BlockChanged(d, d', s, t) && j < |d| && !(s <= j < t)
    ensures d'[j] == d[j] && SeqStart(d', j) == SeqStart(d, j) && NameBefore(d', j) == NameBefore(d, j)
    ensures d'[SeqStart(d, j)..j + 1] == d[SeqStart(d, j)..j + 1]
  {
    OutsideSame(d, d', s, t, j);
    if j >= t { RunStops(d, j, t - 1); }
  }

  /** Outside the block everything is as well formed as before. */
  lemma OutsideOk(d: seq<Entry>, d': seq<Entry>, s: nat, t: nat, e: nat, k: nat)
    requires BlockChanged(d, d', s, t) && t <= e <= |d| && k < e && !(s <= k < t)
    requires EntryOk(d, e, k) && (s > 0 ==> KindOf(d[s - 1]) != Lfn)
    ensures EntryOk(d', e, k)
  {
    hide NameBefore, LfnRun, KindOf;
    OutsideSame(d, d', s, t, k);
  }

  lemma EndSame(d: seq<Entry>, d': seq<Entry>, s: nat, t: nat)
    requires BlockChanged(d, d', s, t) && t <= End(d) && forall k :: s <= k < t ==> KindOf(d'[k]) != Term
    ensures End(d') == End(d)
  {
    EndIs(d', End(d));
  }

  // ---------------------------------------------------------------------------
  // Adding a sequence
  // ---------------------------------------------------------------------------

  /** The sequence of a file: its long-name entries, the first marked, and its short-name entry. */
  ghost predicate IsSequence(q: seq<Entry>, name: seq<Char16>) {
    var n := NumLfnEntries(|name|);
    && |q| == n + 1 && KindOf(q[n]) == Sfn
    && (forall i :: 0 <= i < n ==> HoldsPart(q[i], name, n - 1 - i))
    && (forall i :: 0 <= i < n ==> (Marked(q[i]) <==> i == 0))
  }

  ghost predicate AllFree(d: seq<Entry>, s: nat, t: nat)
    requires s <= t <= |d|
  {
    forall k :: s <= k < t ==> KindOf(d[k]) == Free
  }

  lemma BeforeFree(d: seq<Entry>, e: nat, s: nat)
    requires e <= |d| && EntriesOk(d, e) && s < e && KindOf(d[s]) == Free
    ensures s > 0 ==> KindOf(d[s - 1]) != Lfn
  {
    if s > 0 { assert EntryOk(d, e, s - 1); }
  }

  /** The new sequence in its place: its name reads back. */
  lemma AddedName(d: seq<Entry>, s: nat, q: seq<Entry>, name: seq<Char16>)
    requires IsSequence(q, name) && ZeroFree(name) && |name| <= MAX_NAME && s + |q| <= |d|
    requires s > 0 ==> KindOf(d[s - 1]) != Lfn
    ensures var d', j := Splice(d, s, q), s + |q| - 1;
      NameBefore(d', j) == name && LfnRun(d', j) == |q| - 1 && SeqStart(d', j) == s
  {
    hide NumLfnEntries, NameBefore, LfnRun, HoldsPart, KindOf;
    var n := NumLfnEntries(|name|);
    var d', j := Splice(d, s, q), s + n;
    AddedLies(d, s, q, name);
    NameReadsBack(d', j, name);
    OnlyLast(d, s, q, name);
    RunIs(d', j, n);
  }

  lemma RunIs(d: seq<Entry>, j: nat, n: nat)
    requires n <= j <= |d| && (forall i :: j - n <= i < j ==> KindOf(d[i]) == Lfn)
    requires (n < j ==> KindOf(d[j - n - 1]) != Lfn)
    ensures LfnRun(d, j) == n
  {
    if n < j { RunStops(d, j, j - n - 1); }
  }

  lemma AddedLies(d: seq<Entry>, s: nat, q: seq<Entry>, name: seq<Char16>)
    requires IsSequence(q, name) && s + |q| <= |d| && (s > 0 ==> KindOf(d[s - 1]) != Lfn)
    ensures NameLies(Splice(d, s, q), s + |q| - 1, name)
  {
    hide NumLfnEntries, HoldsPart, KindOf;
    var n, d', j := NumLfnEntries(|name|), Splice(d, s, q), s + |q| - 1;
    forall p | j - n <= p < j
      ensures HoldsPart(d'[p], name, j - 1 - p)
    {
      assert d'[p] == q[p - s];
      assert HoldsPart(q[p - s], name, n - 1 - (p - s));
    }
  }

  lemma AddIsBlock(d: seq<Entry>, s: nat, q: seq<Entry>, name: seq<Char16>)
    requires IsSequence(q, name) && s + |q| <= |d| && AllFree(d, s, s + |q|)
    ensures BlockChanged(d, Splice(d, s, q), s, s + |q|)
    ensures forall k :: s <= k < s + |q| ==> InUse(Splice(d, s, q)[k])
  {
    var d' := Splice(d, s, q);
    forall k | s <= k < s + |q|
      ensures InUse(d'[k])
    {
      assert d'[k] == q[k - s];
      if k - s < |q| - 1 { assert HoldsPart(q[k - s], name, |q| - 2 - (k - s)); }
    }
  }

  /**
    A sequence written over free entries makes a file of that name, leaves all others as they were,
    and the directory well formed.
   */
  lemma AddKeeps(d: seq<Entry>, perCluster: nat, s: nat, q: seq<Entry>, name: seq<Char16>)
    requires WellFormed(d, perCluster) && IsSequence(q, name) && ZeroFree(name) && |name| <= MAX_NAME
    requires s + |q| <= End(d) && AllFree(d, s, s + |q|)
    ensures var d', j := Splice(d, s, q), s + |q| - 1;
      && WellFormed(d', perCluster) && End(d') == End(d)
      && Files(d') == Files(d) + {j} && j !in Files(d)
      && NameBefore(d', j) == name && SeqStart(d', j) == s
      && forall i :: i in Files(d) ==>
          d'[i] == d[i] && SeqStart(d', i) == SeqStart(d, i) && NameBefore(d', i) == NameBefore(d, i)
  {
    hide NameBefore, LfnRun, SeqStart, IsSequence, HoldsPart, EndFrom, InUse;
    var d', e, t := Splice(d, s, q), End(d), s + |q|;
    LastInUse(d, s, q, name);
    BeforeFree(d, e, s);
    AddIsBlock(d, s, q, name);
    UsedKinds(d');
    AddedName(d, s, q, name);
    EndSame(d, d', s, t);
    forall k | 0 <= k < e
      ensures EntryOk(d', e, k)
    {
      if s <= k < t {
        AddedOk(d, s, q, name, e, k);
      } else {
        assert EntryOk(d, e, k);
        OutsideOk(d, d', s, t, e, k);
      }
    }
    forall i | i in Files(d)
      ensures !(s <= i < t) && d'[i] == d[i] && SeqStart(d', i) == SeqStart(d, i)
      ensures NameBefore(d', i) == NameBefore(d, i)
    {
      OtherFilesSame(d, d', s, t, i);
    }
    OnlyLast(d, s, q, name);
  }

  lemma LastInUse(d: seq<Entry>, s: nat, q: seq<Entry>, name: seq<Char16>)
    requires IsSequence(q, name) && s + |q| <= |d|
    ensures |q| > 0 && KindOf(Splice(d, s, q)[s + |q| - 1]) == Sfn
  {
  }

  lemma UsedKinds(d: seq<Entry>)
    ensures forall k :: 0 <= k < |d| && InUse(d[k]) ==> KindOf(d[k]) != Term && KindOf(d[k]) != Free
  {
  }

  /** Of the new entries only the last is a short-name entry. */
  lemma OnlyLast(d: seq<Entry>, s: nat, q: seq<Entry>, name: seq<Char16>)
    requires IsSequence(q, name) && s + |q| <= |d|
    ensures forall k :: s <= k < s + |q| - 1 ==> KindOf(Splice(d, s, q)[k]) == Lfn
  {
    forall k | s <= k < s + |q| - 1
      ensures KindOf(Splice(d, s, q)[k]) == Lfn
    {
      assert HoldsPart(q[k - s], name, |q| - 2 - (k - s));
    }
  }

  lemma AddedOk(d: seq<Entry>, s: nat, q: seq<Entry>, name: seq<Char16>, e: nat, k: nat)
    requires IsSequence(q, name) && ZeroFree(name) && |name| <= MAX_NAME && s + |q| <= e <= |d|
    requires s > 0 ==> KindOf(d[s - 1]) != Lfn
    requires s <= k < s + |q|
    ensures EntryOk(Splice(d, s, q), e, k)
  {
    hide NameBefore, LfnRun, SeqStart, HoldsPart;
    var d' := Splice(d, s, q);
    AddedName(d, s, q, name);
    OnlyLast(d, s, q, name);
    LastInUse(d, s, q, name);
    if k < s + |q| - 1 {
      assert KindOf(d'[k]) == Lfn && InUse(d'[k + 1]);
      assert d'[k] == q[k - s];
      if k > s { assert KindOf(d'[k - 1]) == Lfn; }
      if k == s && s > 0 { assert d'[s - 1] == d[s - 1]; }
    }
  }

  // ---------------------------------------------------------------------------
  // Erasing a sequence
  // ---------------------------------------------------------------------------

  function Erased(d: seq<Entry>, s: nat, t: nat): (r: seq<Entry>)
    requires s <= t <= |d|
    ensures |r| == |d|
    ensures forall k :: 0 <= k < |d| ==> r[k] == if s <= k < t then WithFirst(d[k], UNUSED) else d[k]
  {
    seq(|d|, k requires 0 <= k < |d| => if s <= k < t then WithFirst(d[k], UNUSED) else d[k])
  }

  lemma EraseIsBlock(d: seq<Entry>, s: nat, t: nat)
    requires s < t <= |d| && KindOf(d[t - 1]) == Sfn
    ensures AllFree(Erased(d, s, t), s, t) && BlockChanged(d, Erased(d, s, t), s, t)
  {
  }

  /** Erasing the sequence of a file removes that file, and leaves all others as they were. */
  lemma EraseKeeps(d: seq<Entry>, perCluster: nat, j: nat)
    requires WellFormed(d, perCluster) && j in Files(d)
    ensures var d' := Erased(d, SeqStart(d, j), j + 1);
      && WellFormed(d', perCluster) && End(d') == End(d) && AllFree(d', SeqStart(d, j), j + 1)
      && Files(d') == Files(d) - {j}
      && forall i :: i in Files(d) && i != j ==>
           d'[i] == d[i] && SeqStart(d', i) == SeqStart(d, i) && NameBefore(d', i) == NameBefore(d, i)
  {
    hide NameBefore, LfnRun, EndFrom, KindOf;
    var s, t, e := SeqStart(d, j), j + 1, End(d);
    var d' := Erased(d, s, t);
    EraseIsBlock(d, s, t);
    EndSame(d, d', s, t);
    forall k | 0 <= k < e
      ensures EntryOk(d', e, k)
    {
      if !(s <= k < t) {
        assert EntryOk(d, e, k);
        OutsideOk(d, d', s, t, e, k);
      }
    }
    forall i | i in Files(d) && i != j
      ensures !(s <= i < t) && d'[i] == d[i] && SeqStart(d', i) == SeqStart(d, i)
      ensures NameBefore(d', i) == NameBefore(d, i)
    {
      OtherFilesSame(d, d', s, t, i);
    }
  }

  // ---------------------------------------------------------------------------
  // Making room
  // ---------------------------------------------------------------------------

  /**
    The search for free entries may push the terminator back, over what lies behind it and into new
    clusters, whose first entry is the terminator then. `to` entries are known to be no terminator.
   */
  ghost predicate Pushed(d: seq<Entry>, d': seq<Entry>, to: nat) {
    var e := End(d);
    && |d'| >= |d| && to <= |d'|
    && (forall k :: 0 <= k < e ==> d'[k] == d[k])
    && (forall k :: e <= k < to ==> KindOf(d'[k]) == Free)
    && (if to < e then d' == d else to < |d'| ==> KindOf(d'[to]) == Term)
  }

  /** Pushing the terminator back exposes only free entries: all files stay, nothing else appears. */
  lemma PushKeeps(d: seq<Entry>, d': seq<Entry>, to: nat, perCluster: nat)
    requires WellFormed(d, perCluster) && Pushed(d, d', to) && (to < |d'| ==> to + perCluster >= |d'| || to < End(d))
    ensures WellFormed(d', perCluster) && Files(d') == Files(d) && |d'| >= |d|
    ensures End(d') == if to < End(d) then End(d) else to
    ensures forall i :: i in Files(d) ==>
      d'[i] == d[i] && SeqStart(d', i) == SeqStart(d, i) && NameBefore(d', i) == NameBefore(d, i)
  {
    hide NameBefore, LfnRun, EndFrom;
    var e := End(d);
    if to >= e {
      EndIs(d', to);
      forall k | 0 <= k <= e
        ensures NameBefore(d', k) == NameBefore(d, k) && LfnRun(d', k) == LfnRun(d, k)
      {
        PrefixSame(d, d', e, k);
      }
      forall k | 0 <= k < to
        ensures EntryOk(d', to, k)
      {
        if k < e { assert EntryOk(d, e, k); }
      }
    }
  }

  lemma {:induction false} PrefixSame(d: seq<Entry>, d': seq<Entry>, e: nat, k: nat)
    requires k <= e <= |d| && e <= |d'| && forall i :: 0 <= i < e ==> d'[i] == d[i]
    ensures NameBefore(d', k) == NameBefore(d, k) && LfnRun(d', k) == LfnRun(d, k)
    decreases k
  {
    hide KindOf, EntryChars;
    if k > 0 { PrefixSame(d, d', e, k - 1); }
  }
}
