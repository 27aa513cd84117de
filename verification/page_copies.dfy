/**
  Deep copies of ranges of an address space.
 */
module PageCopies {
  import opened PageEntries
  import opened PageRoles
  import opened PageRanges
  import opened PageViews

  /**
    Page `pi` of `d`, not mapped before, is a copy of that of `src`: a unique page has a frame that was
    free, with the same bytes; a shared or identity entry is the same; what is absent stays absent.
   */
  ghost predicate CopiedAt(m0: Phys, role0: Roles, m: Phys, d: Addr, src: Addr, pi: nat) {
    && d in m0.mem && d in m.mem && src in m0.mem && pi < 0x10_0000 && !Present(Lookup(m0, d, pi))
    && var w0, w := Lookup(m0, src, pi), Lookup(m, d, pi);
       if !Present(w0) then !Present(w)
       else if !IsUnique(w0) then w == w0
       else
         && IsUnique(w) && User(w) == User(w0) && Writable(w) == Writable(w0)
         && Base(w) in role0 && role0[Base(w)] == Free
         && Base(w) in m.mem && Base(w0) in m0.mem && m.mem[Base(w)] == m0.mem[Base(w0)]
  }

  /** Pages [s, i) of `d` are copies of those of `src`, and no other page is affected. */
  ghost predicate DirCopied(m0: Phys, role0: Roles, m: Phys, role: Roles, d: Addr, src: Addr, s: nat, i: nat) {
    && Inv(m, role) && DirKept(m0, role0, m, role, d) && s <= i <= 0x10_0000
    && (forall pi {:trigger CopiedAt(m0, role0, m, d, src, pi)} :: s <= pi < i ==> CopiedAt(m0, role0, m, d, src, pi))
    && (forall pi {:trigger SameAt(m0, m, d, pi)} :: 0 <= pi < 0x10_0000 && !(s <= pi < i) ==> SameAt(m0, m, d, pi))
    && (forall x {:trigger TakenForDir(role0, role, d, false, x)} :: x in role0 ==>
        TakenForDir(role0, role, d, false, x))
  }

  /** The table of entry `k` of `src` needs one in `d`. */
  ghost predicate TableMissing(m: Phys, d: Addr, src: Addr, k: nat)
    requires d in m.mem && src in m.mem && k < 1024
  {
    Present(Entry(m.mem[src], k)) && !Present(Entry(m.mem[d], k))
  }

  /** The frames that copying pages [s, i) takes: one for each unique page and for each table that is missing. */
  ghost function Frames(m: Phys, d: Addr, src: Addr, s: nat, i: nat): nat
    requires d in m.mem && src in m.mem && i <= 0x10_0000
  {
    if i <= s then 0
    else
      Frames(m, d, src, s, i - 1) + (if IsUnique(Lookup(m, src, i - 1)) then 1 else 0)
        + if (i - 1 == s || (i - 1) % 1024 == 0) && TableMissing(m, d, src, (i - 1) / 1024) then 1 else 0
  }

  lemma {:induction false} MoreFrames(m: Phys, d: Addr, src: Addr, s: nat, i: nat, e: nat)
    requires d in m.mem && src in m.mem && i <= e <= 0x10_0000
    ensures Frames(m, d, src, s, i) <= Frames(m, d, src, s, e)
    decreases e
  {
    hide Lookup, TableMissing;
    if i < e { MoreFrames(m, d, src, s, i, e - 1); }
  }

  /** The frames for the part [a, j) of one table, which starts the range or the table. */
  lemma {:induction false} ChunkFrames(m: Phys, d: Addr, src: Addr, s: nat, k: nat, a: nat, j: nat, t: Addr)
    requires d in m.mem && src in m.mem && t in m.mem && k < 1024 && a <= j <= 1024 && s <= 1024 * k + a
    requires a == 0 || s == 1024 * k + a
    requires Present(Entry(m.mem[src], k))
    requires forall pi {:trigger Lookup(m, src, pi)} :: 0 <= pi < 0x10_0000 && pi / 1024 == k ==>
      Lookup(m, src, pi) == Entry(m.mem[t], pi % 1024)
    ensures Frames(m, d, src, s, 1024 * k + j) ==
      Frames(m, d, src, s, 1024 * k + a) + Uniques(m.mem[t], a, j)
        + if a < j && TableMissing(m, d, src, k) then 1 else 0
    decreases j
  {
    hide Lookup, Entry, IsUnique, TableMissing;
    if a < j {
      ChunkFrames(m, d, src, s, k, a, j - 1, t);
      var pi := 1024 * k + j - 1;
      assert pi / 1024 == k && pi % 1024 == j - 1;
      assert Lookup(m, src, pi) == Entry(m.mem[t], j - 1);
    }
  }

  /** Where the source has no table nothing is taken. */
  lemma {:induction false} NoFrames(m: Phys, d: Addr, src: Addr, s: nat, k: nat, a: nat, j: nat)
    requires d in m.mem && src in m.mem && k < 1024 && a <= j <= 1024 && s <= 1024 * k + a
    requires !Present(Entry(m.mem[src], k))
    ensures Frames(m, d, src, s, 1024 * k + j) == Frames(m, d, src, s, 1024 * k + a)
    decreases j
  {
    hide Entry;
    ZeroNotShared();
    if a < j {
      NoFrames(m, d, src, s, k, a, j - 1);
      var pi := 1024 * k + j - 1;
      assert pi / 1024 == k && pi % 1024 == j - 1;
    }
  }

  /**
    A page that is in the way of a copy of [s, i): one of these pages, or any page in a table where the source
    has none.
   */
  ghost predicate Clash(m: Phys, d: Addr, src: Addr, s: nat, i: nat, pi: nat) {
    && d in m.mem && src in m.mem && pi < 0x10_0000 && Present(Lookup(m, d, pi)) && s < i
    && (s <= pi < i || (s / 1024 <= pi / 1024 <= (i - 1) / 1024 && !Present(Entry(m.mem[src], pi / 1024))))
  }

  ghost predicate NoClash(m: Phys, d: Addr, src: Addr, s: nat, i: nat) {
    forall pi: nat {:trigger Clash(m, d, src, s, i, pi)} :: !Clash(m, d, src, s, i, pi)
  }

  /** Pages [s, i) have cost what they should, and nothing was in the way. */
  ghost predicate Paid(m0: Phys, m: Phys, d: Addr, src: Addr, s: nat, i: nat) {
    && d in m0.mem && src in m0.mem && i <= 0x10_0000
    && |m.free| + Frames(m0, d, src, s, i) == |m0.free| && NoClash(m0, d, src, s, i)
  }

  /** The entries of a directory for tables that begin or end at `i` or later. */
  ghost predicate Untouched(m0: Phys, m: Phys, d: Addr, i: nat) {
    && d in m0.mem && d in m.mem
    && forall k :: 0 <= k < 1024 && 1024 * k + 1024 > i ==> Entry(m.mem[d], k) == Entry(m0.mem[d], k)
  }

  /** Why a copy of [s, e) fails. */
  ghost predicate Refused(m: Phys, d: Addr, src: Addr, s: nat, e: nat, noMem: bool) {
    && d in m.mem && src in m.mem && e <= 0x10_0000
    && if noMem then |m.free| < Frames(m, d, src, s, e) else !NoClash(m, d, src, s, e)
  }

  lemma NothingPaid(m: Phys, d: Addr, src: Addr, s: nat)
    requires d in m.mem && src in m.mem && s <= 0x10_0000
    ensures Paid(m, m, d, src, s, s) && Untouched(m, m, d, s)
  {
  }

  /** A part without a table in the source is free of charge, when the destination maps nothing there. */
  lemma PaidNothing(m0: Phys, m: Phys, d: Addr, src: Addr, s: nat, k: nat, a: nat, b: nat)
    requires Paid(m0, m, d, src, s, 1024 * k + a) && k < 1024 && a < b <= 1024 && s <= 1024 * k + a
    requires a == 0 || s == 1024 * k + a
    requires !Present(Entry(m0.mem[src], k))
    requires forall pi {:trigger Lookup(m0, d, pi)} :: 0 <= pi < 0x10_0000 && pi / 1024 == k ==>
      !Present(Lookup(m0, d, pi))
    ensures Paid(m0, m, d, src, s, 1024 * k + b)
  {
    hide Lookup, Entry;
    NoFrames(m0, d, src, s, k, a, b);
    NoClashNext(m0, d, src, s, k, a, b);
  }

  lemma NoClashNext(m0: Phys, d: Addr, src: Addr, s: nat, k: nat, a: nat, b: nat)
    requires d in m0.mem && src in m0.mem && NoClash(m0, d, src, s, 1024 * k + a)
    requires k < 1024 && a < b <= 1024 && s <= 1024 * k + a && (a == 0 || s == 1024 * k + a)
    requires forall pi {:trigger Lookup(m0, d, pi)} ::
      0 <= pi < 0x10_0000 && pi / 1024 == k && (a <= pi % 1024 < b || !Present(Entry(m0.mem[src], k))) ==>
        !Present(Lookup(m0, d, pi))
    ensures NoClash(m0, d, src, s, 1024 * k + b)
  {
    hide Lookup, Entry;
    var i, e := 1024 * k + a, 1024 * k + b;
    assert (e - 1) / 1024 == k && i / 1024 == k;
    forall pi: nat {:trigger Clash(m0, d, src, s, e, pi)}
      ensures !Clash(m0, d, src, s, e, pi)
    {
      assert pi < 0x10_0000 && pi / 1024 == k ==> pi == 1024 * k + pi % 1024;
      assert !Clash(m0, d, src, s, i, pi);
    }
  }

  /** The frames are too few for the next part, whether for its table or for its pages. */
  lemma TooFew(
      m0: Phys, m: Phys, d: Addr, src: Addr, s: nat, k: nat, a: nat, b: nat, e: nat, t: Addr, taken: nat)
    requires Paid(m0, m, d, src, s, 1024 * k + a) && k < 1024 && a < b <= 1024 && s <= 1024 * k + a
    requires (a == 0 || s == 1024 * k + a) && 1024 * k + b <= e <= 0x10_0000 && t in m0.mem
    requires Present(Entry(m0.mem[src], k))
    requires forall pi {:trigger Lookup(m0, src, pi)} :: 0 <= pi < 0x10_0000 && pi / 1024 == k ==>
      Lookup(m0, src, pi) == Entry(m0.mem[t], pi % 1024)
    requires |m.free| < taken <= Uniques(m0.mem[t], a, b) + if TableMissing(m0, d, src, k) then 1 else 0
    ensures Refused(m0, d, src, s, e, true)
  {
    hide Lookup, Entry, TableMissing, NoClash;
    ChunkFrames(m0, d, src, s, k, a, b, t);
    MoreFrames(m0, d, src, s, 1024 * k + b, e);
  }

  /** The next part is paid for. */
  lemma PaidMore(m0: Phys, m: Phys, m': Phys, d: Addr, src: Addr, s: nat, k: nat, a: nat, b: nat, t: Addr)
    requires Paid(m0, m, d, src, s, 1024 * k + a) && k < 1024 && a < b <= 1024 && s <= 1024 * k + a
    requires (a == 0 || s == 1024 * k + a) && t in m0.mem
    requires Present(Entry(m0.mem[src], k))
    requires forall pi {:trigger Lookup(m0, src, pi)} :: 0 <= pi < 0x10_0000 && pi / 1024 == k ==>
      Lookup(m0, src, pi) == Entry(m0.mem[t], pi % 1024)
    requires |m'.free| + Uniques(m0.mem[t], a, b) + (if TableMissing(m0, d, src, k) then 1 else 0) == |m.free|
    requires forall pi {:trigger Lookup(m0, d, pi)} :: 0 <= pi < 0x10_0000 && pi / 1024 == k && a <= pi % 1024 < b ==>
      !Present(Lookup(m0, d, pi))
    ensures Paid(m0, m', d, src, s, 1024 * k + b)
  {
    hide Lookup, Entry, TableMissing;
    ChunkFrames(m0, d, src, s, k, a, b, t);
    NoClashNext(m0, d, src, s, k, a, b);
  }

  /** A page in the way. */
  lemma InTheWay(m0: Phys, d: Addr, src: Addr, s: nat, k: nat, a: nat, b: nat, e: nat, pi: nat)
    requires d in m0.mem && src in m0.mem && pi < 0x10_0000 && pi / 1024 == k && Present(Lookup(m0, d, pi))
    requires a < b <= 1024 && s <= 1024 * k + a && (a == 0 || s == 1024 * k + a) && 1024 * k + b <= e <= 0x10_0000
    requires a <= pi % 1024 < b || !Present(Entry(m0.mem[src], k))
    ensures Refused(m0, d, src, s, e, false)
  {
    hide Lookup, Entry;
    assert Clash(m0, d, src, s, e, pi);
  }

  lemma NoneDirCopied(m: Phys, role: Roles, d: Addr, src: Addr, s: nat)
    requires Inv(m, role) && d in role && role[d] == Dir && s <= 0x10_0000
    ensures DirCopied(m, role, m, role, d, src, s, s)
  {
    hide Lookup;
    forall x | x in role
      ensures DirFrameKept(m, role, m, role, d, x)
    {
    }
  }

  /** The page behind a present, unique entry. */
  lemma PageBehind(m: Phys, role: Roles, d: Addr, pi: nat)
    requires Inv(m, role) && d in role && role[d] == Dir && pi < 0x10_0000 && IsUnique(Lookup(m, d, pi))
    ensures var x := Base(Lookup(m, d, pi)); x in role && x in m.mem && role[x].Page? && x != d
    ensures var k := pi / 1024;
      Present(Entry(m.mem[d], k)) && role[Base(Lookup(m, d, pi))] == Page(Base(Entry(m.mem[d], k)), pi % 1024)
  {
    hide Entry, Base, Avail, FreeListOk;
    ZeroNotShared();
    TableAt(m, role, d, pi / 1024);
    var t := Base(Entry(m.mem[d], pi / 1024));
    assert RoleOk(m, role, t) && TableEntryOk(m, role, t, pi % 1024);
  }

  /** The page a frame holds is where its role says. */
  lemma PageLookup(m: Phys, role: Roles, d: Addr, x: Addr)
    requires Inv(m, role) && d in role && role[d] == Dir && x in role && role[x].Page?
    requires IsTableOf(role, d, role[x].table)
    ensures var pi := 1024 * role[role[x].table].pdi + role[x].pti;
      pi < 0x10_0000 && d in m.mem && IsUnique(Lookup(m, d, pi)) && Base(Lookup(m, d, pi)) == x
  {
    hide Entry, Base, Avail, FreeListOk;
    assert RoleOk(m, role, x);
    var t := role[x].table;
    DirectoryOf(m, role, d, role[t].pdi, t);
    TableAt(m, role, d, role[t].pdi);
    var pi := 1024 * role[t].pdi + role[x].pti;
    assert pi / 1024 == role[t].pdi && pi % 1024 == role[x].pti;
  }

  /** A step that changes no mapping and no page: a table was added, or a part of a copy undone. */
  lemma CopiedSame(
      m0: Phys, role0: Roles, m1: Phys, role1: Roles, m2: Phys, role2: Roles, d: Addr, src: Addr, s: nat, i: nat)
    requires DirCopied(m0, role0, m1, role1, d, src, s, i) && Inv(m2, role2) && DirKept(m1, role1, m2, role2, d)
    requires forall pi {:trigger SameAt(m1, m2, d, pi)} :: 0 <= pi < 0x10_0000 ==> SameAt(m1, m2, d, pi)
    requires forall x :: x in role1 && role2[x] != role1[x] ==> role1[x] == Free && IsTableOf(role2, d, x)
    ensures DirCopied(m0, role0, m2, role2, d, src, s, i)
  {
    hide Lookup, Entry, Base, Avail, Inv, User, Writable;
    DirKeptTwice(m0, role0, m1, role1, m2, role2, d);
    assert DirFrameKept(m0, role0, m1, role1, d, d);
    forall pi | 0 <= pi < 0x10_0000
      ensures if s <= pi < i then CopiedAt(m0, role0, m2, d, src, pi) else SameAt(m0, m2, d, pi)
    {
      assert SameAt(m1, m2, d, pi);
      if s <= pi < i {
        assert CopiedAt(m0, role0, m1, d, src, pi);
        if Present(Lookup(m0, src, pi)) && IsUnique(Lookup(m0, src, pi)) {
          PageBehind(m1, role1, d, pi);
          assert DirFrameKept(m1, role1, m2, role2, d, Base(Lookup(m1, d, pi)));
        }
      } else {
        assert SameAt(m0, m1, d, pi);
      }
    }
    forall y | y in role0
      ensures TakenForDir(role0, role2, d, false, y)
    {
      assert TakenForDir(role0, role1, d, false, y) && DirFrameKept(m1, role1, m2, role2, d, y);
      if role1[y].Page? && role1[y].table in role1 { assert DirFrameKept(m1, role1, m2, role2, d, role1[y].table); }
    }
  }

  /** Where neither address space has a mapping there is nothing to copy. */
  lemma CopiedNothing(m0: Phys, role0: Roles, m1: Phys, role1: Roles, d: Addr, src: Addr, s: nat, i: nat, e: nat)
    requires DirCopied(m0, role0, m1, role1, d, src, s, i) && i <= e <= 0x10_0000 && src in m0.mem && d in m1.mem
    requires forall pi {:trigger Lookup(m1, d, pi)} :: i <= pi < e ==> !Present(Lookup(m1, d, pi))
    requires forall pi {:trigger Lookup(m0, src, pi)} :: i <= pi < e ==> !Present(Lookup(m0, src, pi))
    ensures DirCopied(m0, role0, m1, role1, d, src, s, e)
  {
    hide Lookup, Entry, Base, Avail, Inv;
    forall pi | s <= pi < e
      ensures CopiedAt(m0, role0, m1, d, src, pi)
    {
      if pi < i { assert CopiedAt(m0, role0, m1, d, src, pi); } else { assert SameAt(m0, m1, d, pi); }
    }
  }

  /** Entries [a, b) of the destination's table are copies of those of the source's. */
  lemma CopiedMore(
      m0: Phys, role0: Roles, m1: Phys, role1: Roles, m2: Phys, role2: Roles, d: Addr, src: Addr, s: nat, k: nat,
      t: Addr, u: Addr, a: nat, b: nat)
    requires Inv(m0, role0) && src in role0 && role0[src] == Dir && src != d
    requires k < 1024 && a <= b <= 1024 && DirCopied(m0, role0, m1, role1, d, src, s, 1024 * k + a)
    requires t in role1 && role1[t] == Table(d, k) && u in role1 && role1[u] == Table(src, k)
    requires Copied(m1, role1, m2, role2, t, u, a, b)
    ensures DirCopied(m0, role0, m2, role2, d, src, s, 1024 * k + b)
  {
    hide Lookup, Entry, Base, Avail, RoleOk, FreeListOk, User, Writable;
    assert DirFrameKept(m0, role0, m1, role1, d, d) && DirFrameKept(m0, role0, m1, role1, d, src);
    TableChanged(m1, role1, m2, role2, d, k, t);
    DirectoryOf(m1, role1, src, k, u);
    TableAt(m1, role1, src, k);
    DirKeptTwice(m0, role0, m1, role1, m2, role2, d);
    forall pi | 0 <= pi < 0x10_0000
      ensures if s <= pi < 1024 * k + b then CopiedAt(m0, role0, m2, d, src, pi) else SameAt(m0, m2, d, pi)
    {
      var i, j := pi / 1024, pi % 1024;
      if i == k && a <= j < b {
        assert CopyOf(m1, role1, m2, t, u, j) && SameAt(m0, m1, d, pi);
        OtherViewsKept(m0, role0, m1, role1, d, src, pi);
        NewCopy(m0, role0, m1, role1, m2, d, src, t, u, k, pi);
      } else {
        if i == k { assert SameEntry(m1, m2, t, j); }
        if s <= pi < 1024 * k + a {
          assert CopiedAt(m0, role0, m1, d, src, pi);
          OldCopy(m0, role0, m1, role1, m2, role2, d, src, t, pi);
        } else {
          assert SameAt(m0, m1, d, pi);
        }
      }
    }
    forall y | y in role0
      ensures TakenForDir(role0, role2, d, false, y)
    {
      assert TakenForDir(role0, role1, d, false, y) && TakenFor(role1, role2, t, false, a, b, y);
      assert DirFrameKept(m1, role1, m2, role2, d, y);
      if role1[y].Page? && role1[y].table in role1 { assert DirFrameKept(m1, role1, m2, role2, d, role1[y].table); }
    }
  }

  lemma NewCopy(
      m0: Phys, role0: Roles, m1: Phys, role1: Roles, m2: Phys, d: Addr, src: Addr, t: Addr, u: Addr, k: nat, pi: nat)
    requires Inv(m0, role0) && DirKept(m0, role0, m1, role1, d) && src in role0 && role0[src] == Dir && src != d
    requires pi < 0x10_0000 && pi / 1024 == k && CopyOf(m1, role1, m2, t, u, pi % 1024)
    requires src in m0.mem && d in m0.mem && d in m1.mem && d in m2.mem && src in m1.mem && !Present(Lookup(m1, d, pi))
    requires Present(Lookup(m1, d, pi)) <==> Present(Lookup(m0, d, pi))
    requires Lookup(m2, d, pi) == Entry(m2.mem[t], pi % 1024) && Lookup(m1, d, pi) == Entry(m1.mem[t], pi % 1024)
    requires Lookup(m1, src, pi) == Entry(m1.mem[u], pi % 1024) && Lookup(m1, src, pi) == Lookup(m0, src, pi)
    ensures CopiedAt(m0, role0, m2, d, src, pi)
  {
    hide Lookup, Entry, Base, Avail, RoleOk, FreeListOk, User, Writable;
    var w0 := Lookup(m0, src, pi);
    if Present(w0) && IsUnique(w0) {
      PageBehind(m0, role0, src, pi);
      assert DirFrameKept(m0, role0, m1, role1, d, Base(w0));
      assert DirFrameKept(m0, role0, m1, role1, d, Base(Lookup(m2, d, pi)));
    }
  }

  lemma OldCopy(
      m0: Phys, role0: Roles, m1: Phys, role1: Roles, m2: Phys, role2: Roles, d: Addr, src: Addr, t: Addr, pi: nat)
    requires CopiedAt(m0, role0, m1, d, src, pi) && Inv(m1, role1) && d in role1 && role1[d] == Dir && d in m2.mem
    requires OthersKept(m1, role1, m2, role2, t) && pi < 0x10_0000 && Lookup(m2, d, pi) == Lookup(m1, d, pi)
    requires t in role1 && role1[t].Table?
    ensures CopiedAt(m0, role0, m2, d, src, pi)
  {
    hide Lookup, Entry, Base, Avail, RoleOk, FreeListOk, User, Writable;
    if IsUnique(Lookup(m1, d, pi)) {
      PageBehind(m1, role1, d, pi);
      assert FrameKept(m1, role1, m2, role2, Base(Lookup(m1, d, pi)));
    }
  }

  /** After a failed copy into table `t` its mapping is as before. */
  lemma FailedCopySame(m1: Phys, role: Roles, m2: Phys, d: Addr, k: nat, t: Addr)
    requires Inv(m1, role) && Inv(m2, role) && d in role && role[d] == Dir && t in role && role[t] == Table(d, k)
    requires SameMapping(m1, m2, t)
    requires forall x {:trigger ContentKept(m1, m2, role, t, x)} :: x in role ==> ContentKept(m1, m2, role, t, x)
    ensures DirKept(m1, role, m2, role, d)
    ensures forall pi {:trigger SameAt(m1, m2, d, pi)} :: 0 <= pi < 0x10_0000 ==> SameAt(m1, m2, d, pi)
  {
    hide Entry, Base, Avail, RoleOk, FreeListOk;
    forall x | x in role
      ensures DirFrameKept(m1, role, m2, role, d, x)
    {
      assert ContentKept(m1, m2, role, t, x);
    }
    DirectoryOf(m1, role, d, k, t);
    assert ContentKept(m1, m2, role, t, d);
    forall pi | 0 <= pi < 0x10_0000
      ensures SameAt(m1, m2, d, pi)
    {
      if Present(Entry(m1.mem[d], pi / 1024)) {
        TableAt(m1, role, d, pi / 1024);
        assert ContentKept(m1, m2, role, t, Base(Entry(m1.mem[d], pi / 1024)));
      }
    }
  }
}
