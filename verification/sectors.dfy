/**
  Sectors of bytes, and writing part of a sequence over.
 */
module Sectors {
  import opened RawMemory

  const SECTOR_SIZE := 512

  type Sector = s: seq<Byte> | |s| == 512 witness seq(512, i => 0)

  /** `s` with `p` written over it from position `at`. */
  function Splice<T>(s: seq<T>, at: nat, p: seq<T>): (r: seq<T>)
    requires at + |p| <= |s|
    ensures |r| == |s|
    ensures forall i :: 0 <= i < |s| ==> r[i] == if at <= i < at + |p| then p[i - at] else s[i]
  {
    s[..at] + p + s[at + |p|..]
  }

  lemma SpliceNothing<T>(s: seq<T>, at: nat)
    requires at <= |s|
    ensures Splice(s, at, []) == s
  {
  }

  /** Two pieces that follow each other are one piece. */
  lemma SpliceGrow<T>(s: seq<T>, at: nat, p: seq<T>, a: nat, b: nat)
    requires a <= b <= |p| && at + b <= |s|
    ensures Splice(Splice(s, at, p[..a]), at + a, p[a..b]) == Splice(s, at, p[..b])
  {
  }
}
