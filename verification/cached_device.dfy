/**
  The write-back sector cache in front of a block device.
 */
module CachedDevices {
  import opened RawMemory
  import opened Sectors

  type Size = x: int | 0 <= x < 0x1_0000_0000

  datatype Code = Success | InvalidRange

  /** A cache slot: a copy of the sector with this index. */
  datatype Entry = Entry(sector: nat, copy: Sector)

  /** The range test of the source, in which the sum may wrap around. */
  predicate BadRange(start: Size, count: Size, total: nat) {
    start >= total || (start + count) % 0x1_0000_0000 > total || (start + count) % 0x1_0000_0000 < start
  }

  /** The wrap-around is caught: what passes the test is a range of the device. */
  lemma RangeTest(start: Size, count: Size, total: Size)
    ensures BadRange(start, count, total) <==> start >= total || start + count > total
  {
  }

  class CachedDevice {
    const disk: array<Sector>
    const cache: array<Entry>
    var fill: nat
    var sectorMap: map<nat, nat>

    /** The map and the used slots of the cache are each other's inverse. */
    ghost predicate Inverse()
      reads this, cache
    {
      && fill <= cache.Length
      && (forall s {:trigger s in sectorMap} :: s in sectorMap ==>
          s < disk.Length && sectorMap[s] < fill && cache[sectorMap[s]].sector == s)
      && (forall i :: 0 <= i < fill ==> cache[i].sector in sectorMap && sectorMap[cache[i].sector] == i)
    }

    ghost predicate Valid()
      reads this, cache
    {
      0 < cache.Length && disk.Length < 0x1_0000_0000 && Inverse()
    }

    /** Sector `s` as a client sees it. */
    ghost function At(s: nat): Sector
      requires Valid() && s < disk.Length
      reads this, cache, disk
    {
      if s in sectorMap then cache[sectorMap[s]].copy else disk[s]
    }

    /** What the device holds, as a client sees it. */
    ghost function View(): (v: seq<Sector>)
      requires Valid()
      reads this, cache, disk
      ensures |v| == disk.Length
    {
      seq(disk.Length, s requires 0 <= s < disk.Length && Valid() reads this, cache, disk => At(s))
    }

    /** The cached copy of a sector. */
    function Copy(s: nat): (c: Sector)
      requires Valid() && s in sectorMap
      reads this, cache
      ensures sectorMap[s] < cache.Length && c == cache[sectorMap[s]].copy
    {
      cache[sectorMap[s]].copy
    }

    constructor (disk: array<Sector>, capacity: nat)
      requires 0 < capacity && disk.Length < 0x1_0000_0000
      ensures Valid() && View() == disk[..] && this.disk == disk && fresh(cache)
    {
      this.disk := disk;
      cache := new Entry[capacity](i => Entry(0, seq(512, j => 0)));
      fill, sectorMap := 0, map[];
    }

    method Read(start: Size, count: Size, dest: array<Sector>) returns (code: Code)
      requires Valid() && count <= dest.Length && dest != disk
      modifies dest
      ensures code == if start >= disk.Length || start + count > disk.Length then InvalidRange else Success
      ensures dest[..] == if code == Success then Splice(old(dest[..]), 0, View()[start..start + count])
        else old(dest[..])
    {
      hide Inverse, BadRange, Shown;
      RangeTest(start, count, disk.Length);
      if BadRange(start, count, disk.Length) {
        return InvalidRange;
      }
      ghost var was := dest[..];
      NothingShown(was, start);
      var section, i := start, start;
      while i < start + count
        invariant start <= section <= i <= start + count
        invariant forall s :: section <= s < i ==> s !in sectorMap
        invariant Shown(dest[..], was, start, section)
      {
        if i in sectorMap {
          ReadMisses(section, i, start, dest, was);
          ReadHit(i, start, dest, was);
          section := i + 1;
        }
        i := i + 1;
      }
      ReadMisses(section, i, start, dest, was);
      AllShown(dest[..], was, start, i);
      code := Success;
    }

    lemma NothingShown(was: seq<Sector>, start: nat)
      requires Valid() && start <= disk.Length
      ensures Shown(was, was, start, start)
    {
    }

    lemma AllShown(dest: seq<Sector>, was: seq<Sector>, start: nat, to: nat)
      requires Valid() && Shown(dest, was, start, to)
      ensures start <= to <= disk.Length && to - start <= |was| && dest == Splice(was, 0, View()[start..to])
    {
    }

    /** `dest` holds the sectors [start, to) and is otherwise as it was. */
    ghost predicate Shown(dest: seq<Sector>, was: seq<Sector>, start: nat, to: nat)
      requires Valid()
      reads this, cache, disk
    {
      && |dest| == |was| && start <= to <= disk.Length && to - start <= |was|
      && (forall s :: start <= s < to ==> dest[s - start] == At(s))
      && (forall k :: to - start <= k < |was| ==> dest[k] == was[k])
    }

    /** A read of the sectors [from, to), which are not cached, from the wrapped device. */
    method ReadMisses(from: nat, to: nat, base: nat, dest: array<Sector>, ghost was: seq<Sector>)
      requires Valid() && base <= from <= to <= disk.Length && to - base <= dest.Length && dest != disk
      requires forall s :: from <= s < to ==> s !in sectorMap
      requires Shown(dest[..], was, base, from)
      modifies dest
      ensures Shown(dest[..], was, base, to)
    {
      hide Inverse;
      var k := from;
      while k < to
        invariant from <= k <= to && Shown(dest[..], was, base, k)
      {
        dest[k - base] := disk[k];
        assert At(k) == disk[k];
        k := k + 1;
      }
    }

    method ReadHit(s: nat, base: nat, dest: array<Sector>, ghost was: seq<Sector>)
      requires Valid() && s in sectorMap && base <= s < disk.Length && s - base < dest.Length && dest != disk
      requires Shown(dest[..], was, base, s)
      modifies dest
      ensures Shown(dest[..], was, base, s + 1)
    {
      hide Inverse;
      dest[s - base] := Copy(s);
    }

    method Write(start: Size, count: Size, src: seq<Sector>) returns (code: Code)
      requires Valid() && count <= |src|
      modifies disk, cache
      ensures Valid()
      ensures code == if start >= disk.Length || start + count > disk.Length then InvalidRange else Success
      ensures View() == if code == Success then Splice(old(View()), start, src[..count]) else old(View())
    {
      RangeTest(start, count, disk.Length);
      if BadRange(start, count, disk.Length) {
        return InvalidRange;
      }
      hide Inverse, BadRange;
      ghost var v := View();
      var section, i := start, start;
      while i < start + count
        invariant start <= section <= i <= start + count && Valid()
        invariant forall s :: section <= s < i ==> s !in sectorMap
        invariant Overwritten(v, start, section, src)
      {
        if i in sectorMap {
          WriteMisses(section, i, start, src, v);
          WriteHit(i, start, src, v);
          section := i + 1;
        }
        i := i + 1;
      }
      WriteMisses(section, i, start, src, v);
      code := Success;
    }

    /** The device shows `v` with the sectors [from, to) written over by `src`. */
    ghost predicate Overwritten(v: seq<Sector>, from: nat, to: nat, src: seq<Sector>)
      requires Valid()
      reads this, cache, disk
    {
      && |v| == disk.Length && from <= to <= from + |src|
      && forall s :: 0 <= s < disk.Length ==> At(s) == if from <= s < to then src[s - from] else v[s]
    }

    /** A write of the sectors [from, to), which are not cached, to the wrapped device. */
    method WriteMisses(from: nat, to: nat, base: nat, src: seq<Sector>, ghost v: seq<Sector>)
      requires Valid() && base <= from <= to <= disk.Length && to - base <= |src|
      requires forall s :: from <= s < to ==> s !in sectorMap
      requires Overwritten(v, base, from, src)
      modifies disk
      ensures Valid() && Overwritten(v, base, to, src)
    {
      var k := from;
      while k < to
        invariant from <= k <= to && Overwritten(v, base, k, src)
      {
        label before:
        disk[k] := src[k - base];
        assert At(k) == src[k - base];
        assert forall t :: 0 <= t < disk.Length && t != k ==> At(t) == old@before(At(t));
        k := k + 1;
      }
    }

    method WriteHit(s: nat, base: nat, src: seq<Sector>, ghost v: seq<Sector>)
      requires Valid() && s in sectorMap && base <= s < base + |src|
      requires Overwritten(v, base, s, src)
      modifies cache
      ensures Valid() && Overwritten(v, base, s + 1, src)
    {
      assert forall t :: t in sectorMap && t != s ==> sectorMap[t] != sectorMap[s];
      cache[sectorMap[s]] := cache[sectorMap[s]].(copy := src[s - base]);
      assert At(s) == src[s - base];
      assert forall t :: 0 <= t < disk.Length && t != s ==> At(t) == old(At(t));
    }

    /** The cache slot of a sector, which is loaded, in place of another one chosen at random, if it has none. */
    method GetCacheEntry(s: nat) returns (ind: nat)
      requires Valid() && s < disk.Length
      modifies this`fill, this`sectorMap, cache, disk
      ensures Valid() && View() == old(View())
      ensures s in sectorMap && ind == sectorMap[s]
      ensures s in old(sectorMap) ==> sectorMap == old(sectorMap) && disk[..] == old(disk[..])
      ensures old(fill) < cache.Length ==>
        sectorMap.Keys == old(sectorMap).Keys + {s} && disk[..] == old(disk[..])
    {
      if s in sectorMap {
        return sectorMap[s];
      }
      ind := Load(s);
    }

    /** A sector that is not cached takes an unused place, or that of another one, which is written out. */
    method Load(s: nat) returns (ind: nat)
      requires Valid() && s < disk.Length && s !in sectorMap
      modifies this`fill, this`sectorMap, cache, disk
      ensures Valid() && View() == old(View()) && s in sectorMap && ind == sectorMap[s]
      ensures old(fill) < cache.Length ==>
        sectorMap.Keys == old(sectorMap).Keys + {s} && disk[..] == old(disk[..])
    {
      if fill < cache.Length {
        ind := fill;
        fill := fill + 1;
      } else {
        ind :| 0 <= ind < cache.Length;
        disk[cache[ind].sector] := cache[ind].copy;
        sectorMap := map t | t in sectorMap && t != cache[ind].sector :: sectorMap[t];
      }
      sectorMap := sectorMap[s := ind];
      cache[ind] := Entry(s, disk[s]);
    }

    method ReadPiece(s: Size, offset: Size, len: Size) returns (code: Code, bytes: seq<Byte>)
      requires Valid()
      modifies this`fill, this`sectorMap, cache, disk
      ensures Valid() && View() == old(View())
      ensures code == if s >= disk.Length || offset >= SECTOR_SIZE || offset + len > SECTOR_SIZE then InvalidRange
        else Success
      ensures code == Success ==> bytes == View()[s][offset..offset + len]
      ensures code == Success ==> s in sectorMap && (s in old(sectorMap) ==> disk[..] == old(disk[..]))
    {
      RangeTest(offset, len, SECTOR_SIZE);
      if s >= disk.Length || BadRange(offset, len, SECTOR_SIZE) {
        return InvalidRange, [];
      }
      var ind := GetCacheEntry(s);
      return Success, cache[ind].copy[offset..offset + len];
    }

    method WritePiece(s: Size, offset: Size, bytes: seq<Byte>) returns (code: Code)
      requires Valid() && |bytes| < 0x1_0000_0000
      modifies this`fill, this`sectorMap, cache, disk
      ensures Valid()
      ensures code == if s >= disk.Length || offset >= SECTOR_SIZE || offset + |bytes| > SECTOR_SIZE then InvalidRange
        else Success
      ensures code != Success ==> View() == old(View())
      ensures code == Success ==> View() == old(View())[s := Splice(old(View())[s], offset, bytes)]
      ensures code == Success ==> s in sectorMap && (s in old(sectorMap) ==> disk[..] == old(disk[..]))
    {
      RangeTest(offset, |bytes|, SECTOR_SIZE);
      if s >= disk.Length || BadRange(offset, |bytes|, SECTOR_SIZE) {
        return InvalidRange;
      }
      var ind := GetCacheEntry(s);
      ghost var v := View();
      cache[ind] := cache[ind].(copy := Splice(cache[ind].copy, offset, bytes));
      code := Success;
      assert forall t :: 0 <= t < disk.Length && t != s ==> At(t) == v[t];
    }

    /** After a flush the wrapped device holds what the clients saw, and nothing is cached. */
    method Flush()
      requires Valid()
      modifies this`fill, this`sectorMap, disk
      ensures Valid() && View() == old(View()) && disk[..] == View() && fill == 0
    {
      WriteBack();
      sectorMap := map[];
      fill := 0;
      Emptied();
    }

    method WriteBack()
      requires Valid()
      modifies disk
      ensures Valid() && View() == old(View()) && disk[..] == View()
    {
      hide Inverse;
      MappedInside();
      ghost var v := View();
      var todo := sectorMap.Keys;
      while todo != {}
        invariant todo <= sectorMap.Keys && Valid()
        invariant forall s :: 0 <= s < disk.Length ==> At(s) == v[s] && (s !in todo ==> disk[s] == v[s])
        decreases |todo|
      {
        var s :| s in todo;
        label before:
        disk[s] := Copy(s);
        assert forall t :: 0 <= t < disk.Length ==> At(t) == old@before(At(t));
        todo := todo - {s};
      }
    }

    lemma Emptied()
      requires 0 < cache.Length && disk.Length < 0x1_0000_0000 && sectorMap == map[] && fill == 0
      ensures Valid() && View() == disk[..]
    {
    }

    lemma MappedInside()
      requires Valid()
      ensures forall s :: s in sectorMap ==> s < disk.Length
    {
    }
  }
}
