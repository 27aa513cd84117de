/**
  A pipe: a ring buffer with one cell always empty, reference counts of its ends, and the threads that
  wait for data or for space.
 */
module Pipes {
  import opened RawMemory

  type Tid = nat

  const TX_MAX_LEN := 2048

  datatype Code = Success | BadArgs | Empty | Mismatch | NoMem | Asleep

  /** Threads that run again, in order, and what their wait returns. */
  datatype Woken = Woken(threads: seq<Tid>, code: Code)

  function Min(a: nat, b: nat): nat {
    if a <= b then a else b
  }

  /** What lies from `i` to before `j` in a ring. */
  function Between(buf: seq<Byte>, i: nat, j: nat): (s: seq<Byte>)
    requires i < |buf| && j < |buf|
    ensures |s| == if i <= j then j - i else |buf| - i + j
  {
    if i <= j then buf[i..j] else buf[i..] + buf[..j]
  }

  class Pipe {
    const buf: array<Byte>
    var i: nat
    var j: nat
    var writeRefs: nat
    var readRefs: nat
    var readers: seq<Tid>
    var writers: seq<Tid>
    ghost var written: seq<Byte>
    ghost var taken: seq<Byte>

    ghost function Contents(): seq<Byte>
      requires i < buf.Length && j < buf.Length
      reads this, buf
    {
      Between(buf[..], i, j)
    }

    function Full(): bool
      requires buf.Length > 0
      reads this
    {
      (j + 1) % buf.Length == i
    }

    /**
      First in, first out: what was taken, followed by what is inside, is what was written. Readers sleep
      only while the pipe is empty and can still be written, writers only while it is full and can still
      be read.
     */
    ghost predicate Valid()
      reads this, buf
    {
      && 2 <= buf.Length && i < buf.Length && j < buf.Length
      && written == taken + Contents()
      && (readers != [] ==> Contents() == [] && writeRefs > 0)
      && (writers != [] ==> |Contents()| == buf.Length - 1 && readRefs > 0)
    }

    constructor (capacity: nat)
      requires capacity > 0
      ensures Valid() && Contents() == [] && written == [] && writeRefs == 1 && readRefs == 1 && readers == []
      ensures writers == []
      ensures buf.Length == capacity + 1 && fresh(buf)
    {
      buf := new Byte[capacity + 1](k => 0);
      i, j, writeRefs, readRefs, readers, writers := 0, 0, 1, 1, [], [];
      written, taken := [], [];
    }

    /** At no time readers and writers wait. */
    lemma NeverBoth()
      requires Valid()
      ensures readers == [] || writers == []
      ensures Contents() == [] <==> i == j
      ensures |Contents()| == buf.Length - 1 <==> Full()
      ensures |Contents()| <= buf.Length - 1
    {
      FullMeans(buf.Length, i, j);
    }

    function Occupied(): (n: nat)
      requires i < buf.Length && j < buf.Length
      reads this
    {
      if i <= j then j - i else (buf.Length - i) + j
    }

    /** mem_cpy_from_user: user bytes into the buffer at `j`, as far as they can be read. */
    method CopyIn(src: seq<Byte>, from: nat, n: nat) returns (copied: nat)
      requires i < buf.Length && j < buf.Length && from <= |src|
      requires if i <= j then j + n <= buf.Length && (i == 0 ==> j + n < buf.Length) else j + n < i
      modifies this`j, buf
      ensures copied == Min(n, |src| - from)
      ensures j < buf.Length && Contents() == old(Contents()) + src[from..from + copied]
      ensures j == if old(j) + copied == buf.Length then 0 else old(j) + copied
    {
      copied := Min(n, |src| - from);
      ghost var b := buf[..];
      var k := 0;
      while k < copied
        invariant 0 <= k <= copied && j == old(j)
        invariant forall a :: 0 <= a < buf.Length ==> buf[a] == if j <= a < j + k then src[from + a - j] else b[a]
      {
        buf[j + k] := src[from + k];
        k := k + 1;
      }
      CopiedIn(b, buf[..], i, j, src[from..from + copied]);
      j := j + copied;
      if j == buf.Length {
        j := 0;
      }
    }

    /**
      pipe_hs_write; `src` holds as many of the `len` user bytes as can be read, and `countOut` says whether the count
      can be written.
     */
    method Write(src: seq<Byte>, len: nat, countOut: bool) returns (code: Code, count: nat, woken: Woken)
      requires Valid()
      modifies this`j, this`readers, this`written, buf
      ensures Valid()
      ensures len == 0 ==> code == BadArgs
      ensures len > 0 && (readRefs == 0 || |old(Contents())| == buf.Length - 1) ==> code == Empty
      ensures code in {BadArgs, Empty} ==> count == 0
      ensures len > 0 && readRefs > 0 && |old(Contents())| < buf.Length - 1 ==>
        var n := Min(len, Min(buf.Length - 1 - |old(Contents())|, TX_MAX_LEN));
        count == Min(n, |src|) && code == if count == n && countOut then Success else NoMem
      ensures count <= |src| && Contents() == old(Contents()) + src[..count] && written == old(written) + src[..count]
      ensures woken.threads + readers == old(readers) && woken.code == Success
      ensures readers == if old(Contents()) == [] && count > 0 then [] else old(readers)
    {
      count := 0;
      woken := Woken([], Success);
      NeverBoth();
      if len == 0 {
        return BadArgs, 0, woken;
      }
      if readRefs == 0 {
        return Empty, 0, woken;
      }
      if Full() {
        return Empty, 0, woken;
      }
      var wasEmpty := i == j;
      var available := (buf.Length - 1) - Occupied();
      var n := Min(len, Min(available, TX_MAX_LEN));
      ghost var before := Contents();
      code, count := Fill(src, n);
      written := written + src[..count];
      assert written == taken + (before + src[..count]);
      if wasEmpty && count > 0 {
        woken := Woken(readers, Success);
        readers := [];
      }
      if !countOut {
        code := NoMem;
      }
    }

    /** The one or two copies of a write of `n` bytes. */
    method Fill(src: seq<Byte>, n: nat) returns (code: Code, count: nat)
      requires i < buf.Length && j < buf.Length && |Contents()| + n <= buf.Length - 1
      modifies this`j, buf
      ensures j < buf.Length && count == Min(n, |src|) && code == if count == n then Success else NoMem
      ensures Contents() == old(Contents()) + src[..count]
    {
      code, count := Success, 0;
      ghost var before := Contents();
      if i <= j {
        var first := Min(n, buf.Length - j);
        count := CopyIn(src, 0, first);
        code := if count == first then Success else NoMem;
      }
      assert Contents() == before + src[..count];
      if code == Success && n - count > 0 {
        var more := CopyIn(src, count, n - count);
        code := if more == n - count then Success else NoMem;
        assert src[..count] + src[count..count + more] == src[..count + more];
        assert Contents() == (before + src[..count]) + src[count..count + more];
        count := count + more;
      }
    }

    /** mem_cpy_to_user: bytes from `i` on to the user, as far as `room` bytes can be written. */
    method CopyOut(n: nat, room: nat) returns (out: seq<Byte>)
      requires i < buf.Length && j < buf.Length && (if i <= j then n <= j - i else i + n <= buf.Length)
      modifies this`i
      ensures i < buf.Length && |out| == Min(n, room) && out + Contents() == old(Contents())
      ensures i == if old(i) + |out| == buf.Length then 0 else old(i) + |out|
    {
      hide Between;
      var copied := Min(n, room);
      out := buf[i..i + copied];
      CopiedOut(buf[..], i, j, copied);
      i := i + copied;
      if i == buf.Length {
        i := 0;
      }
    }

    /** pipe_hs_read; `room` of the `len` user bytes can be written. */
    method Read(len: nat, room: nat, countOut: bool) returns (code: Code, out: seq<Byte>, woken: Woken)
      requires Valid()
      modifies this`i, this`writers, this`taken
      ensures Valid() && written == old(written)
      ensures len == 0 ==> code == BadArgs
      ensures len > 0 && old(Contents()) == [] ==> code == Empty
      ensures code in {BadArgs, Empty} ==> out == []
      ensures len > 0 && old(Contents()) != [] ==>
        var n := Min(len, Min(|old(Contents())|, TX_MAX_LEN));
        |out| == Min(n, room) && code == if |out| == n && countOut then Success else NoMem
      ensures out + Contents() == old(Contents()) && taken == old(taken) + out
      ensures woken.threads + writers == old(writers) && woken.code == Success
      ensures writers == if |old(Contents())| == buf.Length - 1 && out != [] then [] else old(writers)
    {
      out := [];
      woken := Woken([], Success);
      NeverBoth();
      if len == 0 {
        return BadArgs, [], woken;
      }
      if i == j {
        return Empty, [], woken;
      }
      var wasFull := Full();
      var n := Min(len, Min(Occupied(), TX_MAX_LEN));
      ghost var before := Contents();
      code, out := Drain(n, room);
      taken := taken + out;
      assert written == (old(taken) + out) + Contents() by {
        assert old(taken) + (out + Contents()) == (old(taken) + out) + Contents();
      }
      if wasFull && |out| > 0 {
        woken := Woken(writers, Success);
        writers := [];
      }
      if !countOut {
        code := NoMem;
      }
    }

    /** The one or two copies of a read of `n` bytes. */
    method Drain(n: nat, room: nat) returns (code: Code, out: seq<Byte>)
      requires i < buf.Length && j < buf.Length && n <= |Contents()|
      modifies this`i
      ensures i < buf.Length && |out| == Min(n, room) && code == if |out| == n then Success else NoMem
      ensures out + Contents() == old(Contents())
    {
      code, out := Success, [];
      ghost var before := Contents();
      if j < i {
        var first := Min(buf.Length - i, n);
        out := CopyOut(first, room);
        code := if |out| == first then Success else NoMem;
      }
      assert out + Contents() == before;
      if code == Success && n - |out| > 0 {
        ghost var mid := Contents();
        var more := CopyOut(n - |out|, room - |out|);
        code := if |more| == n - |out| then Success else NoMem;
        assert (out + more) + Contents() == out + mid;
        out := out + more;
      }
    }

    /** `memory` says whether there is any for the queue's entry. */
    method WaitWriteReady(t: Tid, memory: bool) returns (code: Code)
      requires Valid()
      modifies this`writers
      ensures Valid()
      ensures code ==
        if readRefs == 0 then Empty else if |Contents()| < buf.Length - 1 then Success else if memory then Asleep
          else NoMem
      ensures writers == if code == Asleep then old(writers) + [t] else old(writers)
    {
      NeverBoth();
      if readRefs == 0 {
        return Empty;
      }
      if Full() {
        if !memory {
          return NoMem;
        }
        writers := writers + [t];
        return Asleep;
      }
      return Success;
    }

    method WaitReadReady(t: Tid, memory: bool) returns (code: Code)
      requires Valid()
      modifies this`readers
      ensures Valid()
      ensures code == if Contents() != [] then Success else if writeRefs == 0 then Empty else if memory then Asleep
        else NoMem
      ensures readers == if code == Asleep then old(readers) + [t] else old(readers)
    {
      NeverBoth();
      if i == j {
        if writeRefs == 0 {
          return Empty;
        }
        if !memory {
          return NoMem;
        }
        readers := readers + [t];
        return Asleep;
      }
      return Success;
    }

    /** A copy of a handle, when its process forks. */
    method CopyHandle(writer: bool, memory: bool) returns (code: Code)
      requires Valid()
      modifies this`writeRefs, this`readRefs
      ensures Valid() && code == if memory then Success else NoMem
      ensures writeRefs == old(writeRefs) + (if writer && memory then 1 else 0)
      ensures readRefs == old(readRefs) + (if writer || !memory then 0 else 1)
    {
      if !memory {
        return NoMem;
      }
      code := Success;
      if writer {
        writeRefs := writeRefs + 1;
      } else {
        readRefs := readRefs + 1;
      }
    }

    /**
      The end of a handle. With the last one of its kind everybody who waits is woken: the other side is told
      that the pipe is done, the own side that something is wrong. Says whether the pipe is to be deleted.
     */
    method DeleteHandle(writer: bool) returns (fromWriters: Woken, fromReaders: Woken, gone: bool)
      requires Valid() && (if writer then writeRefs else readRefs) > 0
      modifies this`writeRefs, this`readRefs, this`readers, this`writers
      ensures Valid()
      ensures writeRefs == old(writeRefs) - (if writer then 1 else 0)
      ensures readRefs == old(readRefs) - (if writer then 0 else 1)
      ensures var last := (if writer then writeRefs else readRefs) == 0;
        && fromWriters == Woken(if last then old(writers) else [], if writer then Mismatch else Empty)
        && fromReaders == Woken(if last then old(readers) else [], if writer then Empty else Mismatch)
        && writers == (if last then [] else old(writers)) && readers == (if last then [] else old(readers))
      ensures gone <==> readers == [] && writers == [] && writeRefs == 0 && readRefs == 0
    {
      fromWriters, fromReaders := Woken([], if writer then Mismatch else Empty),
        Woken([], if writer then Empty else Mismatch);
      if writer {
        writeRefs := writeRefs - 1;
      } else {
        readRefs := readRefs - 1;
      }
      if (if writer then writeRefs else readRefs) == 0 {
        fromWriters := fromWriters.(threads := writers);
        fromReaders := fromReaders.(threads := readers);
        writers, readers := [], [];
      }
      gone := writeRefs + readRefs == 0;
    }
  }

  lemma FullMeans(cap: nat, i: nat, j: nat)
    requires i < cap && j < cap && cap > 0
    ensures (j + 1) % cap == i <==> (if i <= j then j - i else cap - i + j) == cap - 1
  {
    if j + 1 < cap { assert (j + 1) % cap == j + 1; }
  }

  /** Bytes put at `j` lie behind those that are there. */
  lemma CopiedIn(b: seq<Byte>, c: seq<Byte>, i: nat, j: nat, p: seq<Byte>)
    requires i < |b| && j < |b| && |c| == |b|
    requires if i <= j then j + |p| <= |b| && (i == 0 ==> j + |p| < |b|) else j + |p| < i
    requires forall a :: 0 <= a < |b| ==> c[a] == if j <= a < j + |p| then p[a - j] else b[a]
    ensures var k := if j + |p| == |b| then 0 else j + |p|; k < |b| && Between(c, i, k) == Between(b, i, j) + p
  {
  }

  lemma CopiedOut(b: seq<Byte>, i: nat, j: nat, n: nat)
    requires i < |b| && j < |b| && (if i <= j then n <= j - i else i + n <= |b|)
    ensures var k := if i + n == |b| then 0 else i + n; k < |b| && b[i..i + n] + Between(b, k, j) == Between(b, i, j)
  {
  }
}
