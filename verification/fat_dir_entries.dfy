/**
  Directory entries and long file names (Microsoft FAT Specification, sections 6 and 7).

  A directory is a sequence of 32-byte entries. A file is a short-name entry with up to twenty
  long-name entries right before it, of which the one nearest to it holds the first 13 characters.
 */
module FatDirEntries {
  import opened RawMemory

  type Entry = e: seq<Byte> | |e| == 32 witness seq(32, i => 0)
  type Char16 = c: int | 0 <= c < 0x1_0000

  const TERMINATOR: Byte := 0
  const UNUSED: Byte := 0xE5
  const ATTR_LFN: Byte := 0x0F
  const MAX_NAME := 255
  const MAX_LFN_ENTRIES := 20

  datatype Kind = Term | Free | Lfn | Sfn

  /** The low four attribute bits are all set in a long-name entry. */
  predicate HasLfnAttrs(e: Entry) {
    e[11] % 16 == 15
  }

  function KindOf(e: Entry): Kind {
    if e[0] == TERMINATOR then Term else if e[0] == UNUSED then Free else if HasLfnAttrs(e) then Lfn else Sfn
  }

  /** The long-name entry that comes first in its sequence, and holds the end of the name. */
  predicate Marked(e: Entry) {
    e[0] as int / 64 % 2 == 1
  }

  predicate InUse(e: Entry) {
    KindOf(e) == Lfn || KindOf(e) == Sfn
  }

  function WithFirst(e: Entry, b: Byte): (r: Entry)
    ensures r[0] == b && r[1..] == e[1..]
  {
    e[0 := b]
  }

  // ---------------------------------------------------------------------------
  // The 13 characters of a long-name entry
  // ---------------------------------------------------------------------------

  function CharPos(i: nat): (p: nat)
    requires i < 13
    ensures 1 <= p <= 30 && p != 11 && p != 10
  {
    if i < 5 then 1 + 2 * i else if i < 11 then 14 + 2 * (i - 5) else 28 + 2 * (i - 11)
  }

  function CharAt(e: Entry, i: nat): (c: Char16)
    requires i < 13
  {
    e[CharPos(i)] as int + 0x100 * (e[CharPos(i) + 1] as int)
  }

  function SetChar(e: Entry, i: nat, c: Char16): (r: Entry)
    requires i < 13
    ensures CharAt(r, i) == c && r[0] == e[0] && r[11] == e[11]
    ensures forall j :: 0 <= j < 13 && j != i ==> CharAt(r, j) == CharAt(e, j)
  {
    e[CharPos(i) := c % 0x100][CharPos(i) + 1 := c / 0x100]
  }

  /** The characters of an entry up to the first zero, from the `i`-th on. */
  function EntryChars(e: Entry, i: nat): (s: seq<Char16>)
    requires i <= 13
    ensures |s| <= 13 - i
    decreases 13 - i
  {
    if i == 13 || CharAt(e, i) == 0 then [] else [CharAt(e, i)] + EntryChars(e, i + 1)
  }

  // ---------------------------------------------------------------------------
  // Names
  // ---------------------------------------------------------------------------

  predicate ZeroFree(s: seq<Char16>) {
    forall c :: c in s ==> c != 0
  }

  /** The name in the long-name entries right before position `k`, nearest first. */
  function NameBefore(d: seq<Entry>, k: nat): (s: seq<Char16>)
    requires k <= |d|
    decreases k
  {
    if k == 0 || KindOf(d[k - 1]) != Lfn then []
    else
      var chars := EntryChars(d[k - 1], 0);
      if |chars| < 13 then chars else chars + NameBefore(d, k - 1)
  }

  function NumLfnEntries(len: nat): (n: nat)
    ensures 13 * n >= len && (n > 0 ==> 13 * (n - 1) < len)
    ensures len <= MAX_NAME ==> n <= MAX_LFN_ENTRIES
  {
    len / 13 + if len % 13 == 0 then 0 else 1
  }

  /** The order byte of the `k`-th of `n` long-name entries, counted from the short-name entry. */
  function OrderByte(k: nat, n: nat): (b: Byte)
    requires k < n <= MAX_LFN_ENTRIES
    ensures b != TERMINATOR && b != UNUSED
    ensures (b as int / 64 % 2 == 1) <==> k == n - 1
  {
    if k == n - 1 then 0x40 + k + 1 else k + 1
  }

  /** `e` holds the `k`-th part of `name`, padded with zeros. */
  ghost predicate HoldsPart(e: Entry, name: seq<Char16>, k: nat) {
    && KindOf(e) == Lfn
    && forall i :: 0 <= i < 13 ==> CharAt(e, i) == if 13 * k + i < |name| then name[13 * k + i] else 0
  }

  /** The long-name entries of `name` lie before position `k`. */
  ghost predicate NameLies(d: seq<Entry>, k: nat, name: seq<Char16>) {
    var n := NumLfnEntries(|name|);
    && n <= k <= |d|
    && (k > n ==> KindOf(d[k - n - 1]) != Lfn)
    && forall p :: k - n <= p < k ==> HoldsPart(d[p], name, k - 1 - p)
  }

  /** The end of the `part`-th part of a name. */
  function PartEnd(len: nat, part: nat): (e: nat)
    requires 13 * part <= len
    ensures 13 * part <= e <= len
  {
    if 13 * part + 13 <= len then 13 * part + 13 else len
  }

  lemma {:induction false} EntryCharsAre(e: Entry, name: seq<Char16>, part: nat, i: nat)
    requires HoldsPart(e, name, part) && ZeroFree(name) && 13 * part <= |name| && 13 * part + i <= PartEnd(|name|, part)
    ensures EntryChars(e, i) == name[13 * part + i..PartEnd(|name|, part)]
    decreases 13 - i
  {
    var at, end := 13 * part + i, PartEnd(|name|, part);
    if at < end {
      assert CharAt(e, i) == name[at] && name[at] in name;
      EntryCharsAre(e, name, part, i + 1);
      assert name[at..end] == [name[at]] + name[at + 1..end];
    }
  }

  /** What is written as a name is read back as that name, whatever its length. */
  lemma {:induction false} NameReadsBack(d: seq<Entry>, k: nat, name: seq<Char16>)
    requires NameLies(d, k, name) && ZeroFree(name)
    ensures NameBefore(d, k) == name
  {
    hide NumLfnEntries, HoldsPart, EntryChars, ZeroFree, NameBefore;
    assert name[0..] == name;
    PartsReadBack(d, k, name, 0);
  }

  lemma {:induction false} PartsReadBack(d: seq<Entry>, k: nat, name: seq<Char16>, part: nat)
    requires NameLies(d, k, name) && ZeroFree(name) && part <= NumLfnEntries(|name|)
    ensures 13 * part <= |name| ==> NameBefore(d, k - part) == name[13 * part..]
    decreases NumLfnEntries(|name|) - part
  {
    hide NumLfnEntries, HoldsPart, EntryChars, ZeroFree;
    var n := NumLfnEntries(|name|);
    var p := k - 1 - part;
    if part < n {
      var end := PartEnd(|name|, part);
      assert HoldsPart(d[p], name, part);
      NameStep(d, p, name, part);
      if end == 13 * part + 13 {
        PartsReadBack(d, k, name, part + 1);
        assert name[13 * part..] == name[13 * part..end] + name[end..];
      } else {
        assert name[13 * part..end] == name[13 * part..];
      }
    } else {
      NoMoreParts(d, k, name);
    }
  }

  lemma NameStep(d: seq<Entry>, p: nat, name: seq<Char16>, part: nat)
    requires p < |d| && HoldsPart(d[p], name, part) && ZeroFree(name) && 13 * part < |name|
    ensures var end := PartEnd(|name|, part);
      NameBefore(d, p + 1) == name[13 * part..end] + if end == 13 * part + 13 then NameBefore(d, p) else []
  {
    EntryCharsAre(d[p], name, part, 0);
  }

  lemma NoMoreParts(d: seq<Entry>, k: nat, name: seq<Char16>)
    requires NameLies(d, k, name)
    ensures NameBefore(d, k - NumLfnEntries(|name|)) == []
  {
  }
}
