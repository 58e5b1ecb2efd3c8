/**
 The documented loop over READDIR_MULTIPLE buffers: what it lists of any directory, for
 any buffer, and when that is the whole directory.
 */
module DirectoryListing {
  import opened Wrappers
  import opened DirectoryRecords
  import opened DirectoryStream

  // ------------------------------------------------- the entries behind the special ones

  lemma ReadEntry(dir: Directory, pos: nat, left: nat)
    requires ProperDirectory(dir) && 2 <= pos <= |dir.entries| + 2
    ensures var one := ReadOne(dir, pos, left, Default, false);
            if pos == |dir.entries| + 2 then one == One(0, pos, None)
            else
              var e := dir.entries[pos - 2];
              Proper(e) && one == One(RecordSize(e), if left >= RecordSize(e) then pos + 1 else pos, Some(e))
  {
  }

  lemma ReadSpecial(dir: Directory, left: nat)
    requires ProperDirectory(dir)
    ensures ReadOne(dir, 0, left, Default, false) == One(NAME_OFFSET + 2, 1, Some(dir.self))
    ensures dir.parent.Some? ==> ReadOne(dir, 1, left, Default, false) == One(NAME_OFFSET + 3, 2, dir.parent)
    ensures dir.parent.None? && left < NAME_OFFSET ==>
              ReadOne(dir, 1, left, Default, false) == One(NAME_OFFSET + 3, 2, None)
  {
  }

  lemma {:induction false} FillEntries(dir: Directory, pos: nat, mem: seq<Byte>, base: int, at: nat, wantEof: bool)
    requires ProperDirectory(dir) && at <= |mem| && 2 <= pos <= |dir.entries| + 2
    ensures var f := Fill(dir, pos, mem, base, at, wantEof);
            && pos <= f.next <= |dir.entries| + 2
            && f.entries == dir.entries[pos - 2..f.next - 2]
            && (forall e <- f.entries :: RecordSize(e) <= |mem|)
            && (f.eof ==> f.next == |dir.entries| + 2)
    decreases |dir.entries| + 2 - pos, |mem| - at
  {
    hide Fill, Emit, Padding, ReadOne;
    var one := ReadOne(dir, pos, |mem| - at, Default, false);
    ReadEntry(dir, pos, |mem| - at);
    if 0 < one.size <= |mem| - at {
      FillFits(dir, pos, mem, base, at, wantEof, one);
      var end := at + one.size;
      if |mem| - end >= Padding(base + end) {
        FillEntries(dir, pos + 1, Emit(mem, at, |mem| - at, one.entry), base, end + Padding(base + end), wantEof);
      }
    } else {
      FillStops(dir, pos, mem, base, at, wantEof, one);
    }
  }

  // The result of a call tells the end of the directory, an entry that is too large, and
  // progress apart.
  lemma FillStart(dir: Directory, pos: nat, mem: seq<Byte>, base: int, wantEof: bool)
    requires ProperDirectory(dir) && 2 <= pos <= |dir.entries| + 2
    ensures var f := Fill(dir, pos, mem, base, 0, wantEof);
            && (f.result == 0 <==> pos == |dir.entries| + 2)
            && (f.result > |mem| <==> pos < |dir.entries| + 2 && RecordSize(dir.entries[pos - 2]) > |mem|)
            && (0 < f.result <= |mem| ==> pos < f.next)
  {
    hide Put, Emit, Padding, ReadOne, PutEof;
    var one := ReadOne(dir, pos, |mem|, Default, false);
    ReadEntry(dir, pos, |mem|);
    if 0 < one.size <= |mem| {
      var mem', pad := Emit(mem, 0, |mem|, one.entry), Padding(base + one.size);
      if |mem| - one.size >= pad {
        FillEntries(dir, pos + 1, mem', base, one.size + pad, wantEof);
        FillKeeps(dir, pos + 1, mem', base, one.size + pad, wantEof);
      }
    }
  }

  // Reading at least one entry moves the stream on.
  lemma FillAdvances(dir: Directory, pos: nat, mem: seq<Byte>, base: int, wantEof: bool)
    requires ProperDirectory(dir) && pos <= |dir.entries| + 2
    ensures var f := Fill(dir, pos, mem, base, 0, wantEof);
            0 < f.result <= |mem| ==> pos < f.next <= |dir.entries| + 2
  {
    if pos >= 2 {
      FillEntries(dir, pos, mem, base, 0, wantEof);
      FillStart(dir, pos, mem, base, wantEof);
    } else {
      FillNext(dir, pos, mem, base, 0, wantEof);
    }
  }

  lemma {:induction false} FillNext(dir: Directory, pos: nat, mem: seq<Byte>, base: int, at: nat, wantEof: bool)
    requires ProperDirectory(dir) && at <= |mem| && pos <= |dir.entries| + 2
    ensures var f := Fill(dir, pos, mem, base, at, wantEof);
            && pos <= f.next <= |dir.entries| + 2
            && (pos < 2 ==> pos < f.next)
    decreases |dir.entries| + 2 - pos, |mem| - at
  {
    hide Fill, Emit, Padding, ReadOne, PutEof;
    var left := |mem| - at;
    var one := ReadOne(dir, pos, left, Default, false);
    ReadProper(dir, pos, left);
    ReadMoves(dir, pos, left);
    if 0 < one.size <= left {
      FillFits(dir, pos, mem, base, at, wantEof, one);
      var mem', end := Emit(mem, at, left, one.entry), at + one.size;
      if |mem| - end >= Padding(base + end) {
        FillNext(dir, one.next, mem', base, end + Padding(base + end), wantEof);
      }
    } else {
      FillStops(dir, pos, mem, base, at, wantEof, one);
    }
  }

  // Reading never goes back, and always passes the special entries.
  lemma ReadMoves(dir: Directory, pos: nat, left: nat)
    requires pos <= |dir.entries| + 2
    ensures var one := ReadOne(dir, pos, left, Default, false);
            pos <= one.next <= |dir.entries| + 2 && (pos < 2 ==> pos < one.next)
  {
    if pos == 1 {
      assert ReadOne(dir, 2, left, Default, false).next <= |dir.entries| + 2;
    }
  }

  /* The documented double loop: fill, walk, and go on until the directory ends, an entry
     is too large, or an end record is seen. */
  function Enumerate(dir: Directory, pos: nat, mem: seq<Byte>, base: int, wantEof: bool): seq<Dirent>
    requires ProperDirectory(dir) && pos <= |dir.entries| + 2
    decreases |dir.entries| + 2 - pos
  {
    var f := Fill(dir, pos, mem, base, 0, wantEof);
    FillAdvances(dir, pos, mem, base, wantEof);
    if f.result == 0 || f.result > |mem| then
      []
    else
      var w := Walk(f.mem, base, 0, f.result);
      if w.eof then w.entries else w.entries + Enumerate(dir, f.next, f.mem, base, wantEof)
  }

  // How many leading entries fit a buffer.
  function Fitting(es: seq<Dirent>, size: nat): nat {
    if es == [] || RecordSize(es[0]) > size then 0 else 1 + Fitting(es[1..], size)
  }

  lemma {:induction false} FittingPrefix(es: seq<Dirent>, size: nat, k: nat)
    requires k <= |es| && forall e <- es[..k] :: RecordSize(e) <= size
    ensures Fitting(es, size) == k + Fitting(es[k..], size)
  {
    if k > 0 {
      assert es[..k][0] == es[0] && es[..k][1..] == es[1..][..k - 1] && es[1..][k - 1..] == es[k..];
      FittingPrefix(es[1..], size, k - 1);
    }
  }

  lemma {:induction false} FittingBound(es: seq<Dirent>, size: nat)
    ensures Fitting(es, size) <= |es|
    ensures Fitting(es, size) == |es| <==> forall e <- es :: RecordSize(e) <= size
  {
    if es != [] {
      FittingBound(es[1..], size);
      assert es == [es[0]] + es[1..];
    }
  }

  // The listing of a tail of the entries.
  function Tail(dir: Directory, pos: nat, size: nat): seq<Dirent>
    requires 2 <= pos <= |dir.entries| + 2
  {
    var es := dir.entries[pos - 2..];
    FittingBound(es, size);
    es[..Fitting(es, size)]
  }

  lemma TailSplit(dir: Directory, pos: nat, size: nat, next: nat)
    requires 2 <= pos <= next <= |dir.entries| + 2
    requires forall e <- dir.entries[pos - 2..next - 2] :: RecordSize(e) <= size
    ensures Tail(dir, pos, size) == dir.entries[pos - 2..next - 2] + Tail(dir, next, size)
  {
    hide Fitting, RecordSize;
    var es, k := dir.entries[pos - 2..], next - pos;
    assert es[..k] == dir.entries[pos - 2..next - 2] && es[k..] == dir.entries[next - 2..];
    FittingPrefix(es, size, k);
    FittingBound(es[k..], size);
    assert es[..k] + es[k..][..Fitting(es[k..], size)] == es[..k + Fitting(es[k..], size)];
  }

  lemma {:induction false} EnumerateTail(dir: Directory, pos: nat, mem: seq<Byte>, base: int, wantEof: bool)
    requires ProperDirectory(dir) && 2 <= pos <= |dir.entries| + 2
    ensures Enumerate(dir, pos, mem, base, wantEof) == Tail(dir, pos, |mem|)
    decreases |dir.entries| + 2 - pos
  {
    hide Fill, Walk, Tail;
    var f := Fill(dir, pos, mem, base, 0, wantEof);
    FillAdvances(dir, pos, mem, base, wantEof);
    FillEntries(dir, pos, mem, base, 0, wantEof);
    FillStart(dir, pos, mem, base, wantEof);
    WalkOfFill(dir, pos, mem, base, 0, wantEof);
    if 0 < f.result <= |mem| {
      TailSplit(dir, pos, |mem|, f.next);
      EnumerateTail(dir, f.next, f.mem, base, wantEof);
      if f.eof {
        TailEnd(dir, |mem|);
      }
    } else {
      TailStops(dir, pos, |mem|);
    }
  }

  lemma TailEnd(dir: Directory, size: nat)
    ensures Tail(dir, |dir.entries| + 2, size) == []
  {
  }

  lemma TailStops(dir: Directory, pos: nat, size: nat)
    requires 2 <= pos <= |dir.entries| + 2
    requires pos < |dir.entries| + 2 ==> RecordSize(dir.entries[pos - 2]) > size
    ensures Tail(dir, pos, size) == []
  {
  }

  // --------------------------------------------------------------- the whole directory

  // The entry of the parent is passed over when it is reached in the first buffer with
  // too little room behind the entry of the directory itself.
  predicate ParentLost(base: int, size: nat) {
    var end := NAME_OFFSET + 2;
    size >= end + Padding(base + end) && size - end - Padding(base + end) < NAME_OFFSET + 3
  }

  // What the loop lists of a directory with a buffer of the given address and size.
  function Listing(dir: Directory, base: int, size: nat): seq<Dirent> {
    if size < NAME_OFFSET + 2 then []
    else if dir.parent.None? || ParentLost(base, size) then [dir.self] + Tail(dir, 2, size)
    else if size < NAME_OFFSET + 3 then [dir.self]
    else [dir.self, dir.parent.value] + Tail(dir, 2, size)
  }

  // From the second special entry on, at any place in the buffer.
  lemma FillParent(dir: Directory, mem: seq<Byte>, base: int, at: nat, wantEof: bool)
    requires ProperDirectory(dir) && at <= |mem|
    ensures var f, left := Fill(dir, 1, mem, base, at, wantEof), |mem| - at;
            && 2 <= f.next <= |dir.entries| + 2
            && (forall e <- dir.entries[..f.next - 2] :: RecordSize(e) <= |mem|)
            && (f.eof ==> f.next == |dir.entries| + 2)
            && (if dir.parent.None? then f.entries == dir.entries[..f.next - 2]
                else if left < NAME_OFFSET + 3 then f.next == 2 && f.entries == []
                else f.entries == [dir.parent.value] + dir.entries[..f.next - 2])
  {
    hide Fill, Emit, Padding, ReadOne, PutEof, RecordSize;
    var one := ReadOne(dir, 1, |mem| - at, Default, false);
    ReadSpecial(dir, |mem| - at);
    if dir.parent.Some? && |mem| - at >= NAME_OFFSET + 3 {
      FillFromParent(dir, mem, base, at, wantEof);
    } else if dir.parent.Some? || |mem| - at < NAME_OFFSET {
      FillStops(dir, 1, mem, base, at, wantEof, one);
    } else {
      SkipsHidden(dir, mem, base, at, wantEof);
      FillEntries(dir, 2, mem, base, at, wantEof);
    }
  }

  lemma FillFromParent(dir: Directory, mem: seq<Byte>, base: int, at: nat, wantEof: bool)
    requires ProperDirectory(dir) && dir.parent.Some? && at + NAME_OFFSET + 3 <= |mem|
    ensures var f := Fill(dir, 1, mem, base, at, wantEof);
            && 2 <= f.next <= |dir.entries| + 2
            && (forall e <- dir.entries[..f.next - 2] :: RecordSize(e) <= |mem|)
            && (f.eof ==> f.next == |dir.entries| + 2)
            && f.entries == [dir.parent.value] + dir.entries[..f.next - 2]
  {
    hide Fill, Emit, Padding, ReadOne, PutEof;
    var one := ReadOne(dir, 1, |mem| - at, Default, false);
    ReadSpecial(dir, |mem| - at);
    FillFits(dir, 1, mem, base, at, wantEof, one);
    var end := at + one.size;
    if |mem| - end >= Padding(base + end) {
      FillEntries(dir, 2, Emit(mem, at, |mem| - at, one.entry), base, end + Padding(base + end), wantEof);
    }
  }

  // A parent that is hidden from view is skipped at once.
  lemma SkipsHidden(dir: Directory, mem: seq<Byte>, base: int, at: nat, wantEof: bool)
    requires ProperDirectory(dir) && dir.parent.None? && at + NAME_OFFSET <= |mem|
    ensures Fill(dir, 1, mem, base, at, wantEof) == Fill(dir, 2, mem, base, at, wantEof)
  {
    hide Emit, Padding, PutEof;
    assert ReadOne(dir, 1, |mem| - at, Default, false) == ReadOne(dir, 2, |mem| - at, Default, false);
  }

  // One round of the outer loop.
  lemma EnumerateRound(dir: Directory, pos: nat, mem: seq<Byte>, base: int, wantEof: bool)
    requires ProperDirectory(dir) && pos <= |dir.entries| + 2
    ensures var f := Fill(dir, pos, mem, base, 0, wantEof);
            && (0 < f.result <= |mem| ==> pos < f.next <= |dir.entries| + 2)
            && Enumerate(dir, pos, mem, base, wantEof)
            == if f.result == 0 || f.result > |mem| then []
               else if f.eof then f.entries
               else f.entries + Enumerate(dir, f.next, f.mem, base, wantEof)
  {
    hide Fill, Walk;
    FillAdvances(dir, pos, mem, base, wantEof);
    WalkOfFill(dir, pos, mem, base, 0, wantEof);
  }

  // Once the special entries are behind, the rest of the listing follows.
  lemma EnumerateRest(dir: Directory, f: Filled, base: int, wantEof: bool)
    requires ProperDirectory(dir) && 2 <= f.next <= |dir.entries| + 2
    requires forall e <- dir.entries[..f.next - 2] :: RecordSize(e) <= |f.mem|
    requires f.eof ==> f.next == |dir.entries| + 2
    ensures dir.entries[..f.next - 2] + (if f.eof then [] else Enumerate(dir, f.next, f.mem, base, wantEof))
         == Tail(dir, 2, |f.mem|)
  {
    hide Enumerate, Tail;
    EnumerateTail(dir, f.next, f.mem, base, wantEof);
    assert dir.entries[2 - 2..f.next - 2] == dir.entries[..f.next - 2];
    TailSplit(dir, 2, |f.mem|, f.next);
    TailEnd(dir, |f.mem|);
  }

  lemma EnumerateFromParent(dir: Directory, mem: seq<Byte>, base: int, wantEof: bool)
    requires ProperDirectory(dir) && |mem| >= NAME_OFFSET + 2
    ensures Enumerate(dir, 1, mem, base, wantEof)
         == if dir.parent.None? then Tail(dir, 2, |mem|)
            else if |mem| < NAME_OFFSET + 3 then []
            else [dir.parent.value] + Tail(dir, 2, |mem|)
  {
    hide Enumerate, Tail, Fill, ReadOne, Emit, PutEof;
    EnumerateRound(dir, 1, mem, base, wantEof);
    ReadSpecial(dir, |mem|);
    if dir.parent.None? {
      SkipsHidden(dir, mem, base, 0, wantEof);
      EnumerateRound(dir, 2, mem, base, wantEof);
      EnumerateTail(dir, 2, mem, base, wantEof);
    } else {
      var one := ReadOne(dir, 1, |mem|, Default, false);
      var f := Fill(dir, 1, mem, base, 0, wantEof);
      if |mem| < NAME_OFFSET + 3 {
        FillStops(dir, 1, mem, base, 0, wantEof, one);
      } else {
        FillParent(dir, mem, base, 0, wantEof);
        FirstFits(dir, 1, mem, base, wantEof, one);
        EnumerateRest(dir, f, base, wantEof);
      }
    }
  }

  // A call whose first entry fits returns a size that fits.
  lemma FirstFits(dir: Directory, pos: nat, mem: seq<Byte>, base: int, wantEof: bool, one: One)
    requires ProperDirectory(dir) && one == ReadOne(dir, pos, |mem|, Default, false) && 0 < one.size <= |mem|
    ensures var f := Fill(dir, pos, mem, base, 0, wantEof); 0 < f.result <= |mem|
  {
    hide Fill, Emit, Padding, ReadOne;
    FillFits(dir, pos, mem, base, 0, wantEof, one);
    if |mem| - one.size >= Padding(base + one.size) {
      FillKeeps(dir, one.next, Emit(mem, 0, |mem|, one.entry), base, one.size + Padding(base + one.size), wantEof);
    }
  }

  // The entry of the directory itself fits, with its padding.
  lemma EnumerateTogether(dir: Directory, mem: seq<Byte>, base: int, wantEof: bool, at: nat)
    requires ProperDirectory(dir) && at == NAME_OFFSET + 2 + Padding(base + NAME_OFFSET + 2) <= |mem|
    ensures Enumerate(dir, 0, mem, base, wantEof)
         == [dir.self]
            + (if dir.parent.None? || |mem| - at < NAME_OFFSET + 3 then [] else [dir.parent.value])
            + Tail(dir, 2, |mem|)
  {
    hide Enumerate, Tail, Fill, Padding, ReadOne, Emit, PutEof, ProperDirectory, RecordSize;
    EnumerateRound(dir, 0, mem, base, wantEof);
    FillTogether(dir, mem, base, wantEof, at);
    var f := Fill(dir, 0, mem, base, 0, wantEof);
    EnumerateRest(dir, f, base, wantEof);
    var parent := if dir.parent.None? || |mem| - at < NAME_OFFSET + 3 then [] else [dir.parent.value];
    var rest := if f.eof then [] else Enumerate(dir, f.next, f.mem, base, wantEof);
    Together([dir.self], parent, dir.entries[..f.next - 2], rest);
  }

  lemma Together(x: seq<Dirent>, y: seq<Dirent>, z: seq<Dirent>, rest: seq<Dirent>)
    ensures x + (y + z) + rest == x + y + (z + rest)
  {
  }

  // What the first call delivers when both special entries are met in it.
  lemma FillTogether(dir: Directory, mem: seq<Byte>, base: int, wantEof: bool, at: nat)
    requires ProperDirectory(dir) && at == NAME_OFFSET + 2 + Padding(base + NAME_OFFSET + 2) <= |mem|
    ensures var f := Fill(dir, 0, mem, base, 0, wantEof);
            && 0 < f.result <= |mem| && 2 <= f.next <= |dir.entries| + 2 && |f.mem| == |mem|
            && (forall e <- dir.entries[..f.next - 2] :: RecordSize(e) <= |mem|)
            && (f.eof ==> f.next == |dir.entries| + 2)
            && f.entries
               == [dir.self]
                  + ((if dir.parent.None? || |mem| - at < NAME_OFFSET + 3 then [] else [dir.parent.value])
                     + dir.entries[..f.next - 2])
  {
    hide Fill, Padding, ReadOne, Emit, PutEof, ProperDirectory, RecordSize;
    ReadSpecial(dir, |mem|);
    var one := ReadOne(dir, 0, |mem|, Default, false);
    FirstFits(dir, 0, mem, base, wantEof, one);
    FillFits(dir, 0, mem, base, 0, wantEof, one);
    FillParent(dir, Emit(mem, 0, |mem|, one.entry), base, at, wantEof);
  }

  // It fits, but its padding does not.
  lemma EnumerateApart(dir: Directory, mem: seq<Byte>, base: int, wantEof: bool)
    requires ProperDirectory(dir)
    requires NAME_OFFSET + 2 <= |mem| < NAME_OFFSET + 2 + Padding(base + NAME_OFFSET + 2)
    ensures Enumerate(dir, 0, mem, base, wantEof)
         == [dir.self]
            + (if dir.parent.None? then Tail(dir, 2, |mem|)
               else if |mem| < NAME_OFFSET + 3 then []
               else [dir.parent.value] + Tail(dir, 2, |mem|))
  {
    hide Enumerate, Tail, Fill, Padding, ReadOne, Emit, PutEof;
    EnumerateRound(dir, 0, mem, base, wantEof);
    ReadSpecial(dir, |mem|);
    var one, f := ReadOne(dir, 0, |mem|, Default, false), Fill(dir, 0, mem, base, 0, wantEof);
    FillFits(dir, 0, mem, base, 0, wantEof, one);
    EnumerateFromParent(dir, f.mem, base, wantEof);
  }

  /* What the documented loop lists, for every directory, buffer and choice of flag. */
  lemma EnumerateLists(dir: Directory, mem: seq<Byte>, base: int, wantEof: bool)
    requires ProperDirectory(dir)
    ensures Enumerate(dir, 0, mem, base, wantEof) == Listing(dir, base, |mem|)
  {
    hide Enumerate, Tail, Fill, Padding, ReadOne, Emit, PutEof;
    var end := NAME_OFFSET + 2;
    if |mem| < end {
      EnumerateRound(dir, 0, mem, base, wantEof);
      ReadSpecial(dir, |mem|);
      FillStops(dir, 0, mem, base, 0, wantEof, ReadOne(dir, 0, |mem|, Default, false));
    } else if |mem| < end + Padding(base + end) {
      EnumerateApart(dir, mem, base, wantEof);
    } else {
      EnumerateTogether(dir, mem, base, wantEof, end + Padding(base + end));
    }
  }

  // Every record fits the buffer, and the parent is not passed over.
  ghost predicate Adequate(dir: Directory, base: int, size: nat) {
    && (forall e <- Contents(dir) :: RecordSize(e) <= size)
    && (dir.parent.Some? ==> !ParentLost(base, size))
  }

  /* The documented loop lists every entry exactly once and in order, with or without the
     end record, exactly when the buffer is adequate. */
  lemma ListsEverythingIff(dir: Directory, mem: seq<Byte>, base: int, wantEof: bool)
    requires ProperDirectory(dir)
    ensures Enumerate(dir, 0, mem, base, wantEof) == Contents(dir) <==> Adequate(dir, base, |mem|)
  {
    hide Enumerate;
    EnumerateLists(dir, mem, base, wantEof);
    var size := |mem|;
    FittingBound(dir.entries, size);
    assert dir.entries[2 - 2..] == dir.entries;
    if Adequate(dir, base, size) {
      assert dir.self in Contents(dir) && (dir.parent.Some? ==> dir.parent.value in Contents(dir));
      assert forall e <- dir.entries :: e in Contents(dir);
    } else {
      var listing := Listing(dir, base, size);
      if |listing| == |Contents(dir)| {
        assert Fitting(dir.entries, size) == |dir.entries|;
      }
    }
  }

  /* Without the special entries the address of the buffer and the choice of flag do not
     matter: the loop lists every other entry once and in order exactly when their records
     fit.  This holds at any point before the others are reached. */
  lemma SkipRelListsIff(dir: Directory, pos: nat, mem: seq<Byte>, base: int, wantEof: bool)
    requires ProperDirectory(dir) && pos <= 2
    ensures Enumerate(dir, Start(pos, true), mem, base, wantEof) == dir.entries
       <==> forall e <- dir.entries :: RecordSize(e) <= |mem|
  {
    hide Enumerate;
    EnumerateTail(dir, 2, mem, base, wantEof);
    FittingBound(dir.entries, |mem|);
    assert dir.entries[2 - 2..] == dir.entries;
  }

  /* A buffer of 36 bytes is large enough for the special entries wherever it lies, so the
     streams of the C library, whose buffers have room for a name of 511 bytes, can only
     miss longer names. */
  lemma LargeBuffers(dir: Directory, base: int, size: nat)
    requires ProperDirectory(dir) && size >= 36
    ensures Adequate(dir, base, size) <==> forall e <- dir.entries :: RecordSize(e) <= size
  {
    assert forall e <- dir.entries :: e in Contents(dir);
  }

  /* The defect made concrete: at an aligned address, 30 bytes hold the entry of the
     directory itself with its padding and 14 more bytes.  The parent needs 15, is not
     delivered, and is not delivered later either. */
  lemma ParentLostExample(dir: Directory, mem: seq<Byte>, wantEof: bool)
    requires ProperDirectory(dir) && dir.parent.Some? && dir.entries == [] && |mem| == 30
    ensures Enumerate(dir, 0, mem, 0, wantEof) == [dir.self]
  {
    hide Enumerate;
    EnumerateLists(dir, mem, 0, wantEof);
  }
}
