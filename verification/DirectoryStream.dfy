/**
 The kernel side of directory enumeration: one entry at a time, and as many entries as
 fit into a buffer.
 */
module DirectoryStream {
  import opened Wrappers
  import opened DirectoryRecords

  // A directory: its own entry, that of its parent unless that is hidden from view, and
  // its contents in reading order.
  datatype Directory = Directory(self: Dirent, parent: Option<Dirent>, entries: seq<Dirent>)

  const DOT: seq<Byte> := [46]
  const DOT_DOT: seq<Byte> := [46, 46]

  ghost predicate ProperDirectory(dir: Directory) {
    && Proper(dir.self) && dir.self.name == DOT
    && (dir.parent.Some? ==> Proper(dir.parent.value) && dir.parent.value.name == DOT_DOT)
    && forall e <- dir.entries :: Proper(e)
  }

  // Everything there is to enumerate.
  function Contents(dir: Directory): seq<Dirent> {
    [dir.self] + (if dir.parent.Some? then [dir.parent.value] else []) + dir.entries
  }

  datatype Mode = Default | Continue | Peek

  // The size of the next entry (zero at the end), the stream position afterwards, and
  // the entry itself; a parent hidden from view has a size but no entry.
  datatype One = One(size: nat, next: nat, entry: Option<Dirent>)

  /* StandardFile_ReadDir.  The two special entries always advance the stream, whatever
     the mode and the size of the buffer. */
  function ReadOne(dir: Directory, pos: nat, left: nat, mode: Mode, skipRel: bool): One
    decreases if pos < 2 then 2 - pos else 0
  {
    if pos < 2 && skipRel then
      ReadOne(dir, 2, left, mode, skipRel)
    else if pos == 0 then
      One(NAME_OFFSET + 2, 1, Some(dir.self))
    else if pos == 1 && dir.parent.Some? then
      One(NAME_OFFSET + 3, 2, dir.parent)
    else if pos == 1 && left >= NAME_OFFSET then
      ReadOne(dir, 2, left, mode, skipRel)
    else if pos == 1 then
      One(NAME_OFFSET + 3, 2, None)
    else if pos - 2 >= |dir.entries| then
      One(0, pos, None)
    else
      var e := dir.entries[pos - 2];
      var next := match mode
        case Default => if left >= RecordSize(e) then pos + 1 else pos
        case Continue => pos + 1
        case Peek => pos;
      One(RecordSize(e), next, Some(e))
  }

  /* READDIR_PEEK never yields to the next entry, except at the special entries, where it
     always does. */
  lemma PeekStays(dir: Directory, pos: nat, left: nat, skipRel: bool)
    ensures ReadOne(dir, pos, left, Peek, skipRel).next == pos <==> pos >= 2
  {
    assert ReadOne(dir, 2, left, Peek, skipRel).next == 2;
  }

  /* The modes.  Past the special entries every mode reports the entry at the position and the
     size of its record; the stream moves on in mode Continue, and in mode Default if there is
     room for the record, and stays otherwise. */
  lemma ReadModes(dir: Directory, pos: nat, left: nat, mode: Mode, skipRel: bool)
    requires 2 <= pos < |dir.entries| + 2
    ensures var one, e := ReadOne(dir, pos, left, mode, skipRel), dir.entries[pos - 2];
            && one.entry == Some(e) && one.size == 12 + |e.name| + 1
            && (one.next == pos + 1 <==> mode == Continue || (mode == Default && left >= 12 + |e.name| + 1))
            && (one.next == pos + 1 || one.next == pos)
  {
  }

  /* The special entries have records of 14 and 15 bytes.  They are passed over in every mode,
     with READDIR_SKIPREL without being reported; a parent that is hidden from view is skipped,
     unless there is no room for the header of a record. */
  lemma ReadSpecials(dir: Directory, left: nat, mode: Mode)
    ensures ReadOne(dir, 0, left, mode, false) == One(14, 1, Some(dir.self))
    ensures dir.parent.Some? ==> ReadOne(dir, 1, left, mode, false) == One(15, 2, dir.parent)
    ensures dir.parent.None? && left < 12 ==> ReadOne(dir, 1, left, mode, false) == One(15, 2, None)
    ensures dir.parent.None? && left >= 12 ==>
              ReadOne(dir, 1, left, mode, false) == ReadOne(dir, 2, left, mode, false)
    ensures forall pos: nat | pos < 2 ::
              ReadOne(dir, pos, left, mode, true) == ReadOne(dir, 2, left, mode, false)
  {
    assert ReadOne(dir, 2, left, mode, true) == ReadOne(dir, 2, left, mode, false);
  }

  /* At the end nothing is reported and the stream stays. */
  lemma ReadEnd(dir: Directory, pos: nat, left: nat, mode: Mode, skipRel: bool)
    requires pos >= |dir.entries| + 2
    ensures ReadOne(dir, pos, left, mode, skipRel) == One(0, pos, None)
  {
  }

  // Where a call with or without READDIR_SKIPREL starts to read.
  function Start(pos: nat, skipRel: bool): nat {
    if skipRel && pos < 2 then 2 else pos
  }

  lemma ReadFromStart(dir: Directory, pos: nat, left: nat, mode: Mode, skipRel: bool)
    ensures ReadOne(dir, pos, left, mode, skipRel) == ReadOne(dir, Start(pos, skipRel), left, mode, false)
  {
    assert ReadOne(dir, 2, left, mode, true) == ReadOne(dir, 2, left, mode, false);
  }

  // The bytes that reading an entry leaves in the buffer.
  function Emit(mem: seq<Byte>, at: nat, left: nat, e: Option<Dirent>): (mem': seq<Byte>)
    requires (e.Some? ==> Proper(e.value)) && at + left <= |mem|
    ensures |mem'| == |mem|
  {
    if e.Some? && left >= NAME_OFFSET then
      var room, want := left - NAME_OFFSET, |e.value.name| + 1;
      Put(mem, at, e.value, if room >= want then want else room)
    else
      mem
  }

  /* With room for the header of a record, that is written, with as much of the name and its
     NUL as fits behind it, and nothing else; with less room nothing is written. */
  lemma EmitWrites(mem: seq<Byte>, at: nat, left: nat, e: Dirent)
    requires Proper(e) && at + left <= |mem|
    ensures left < 12 ==> Emit(mem, at, left, Some(e)) == mem
    ensures left >= 12 ==>
              var m, n := Emit(mem, at, left, Some(e)), if left - 12 < |e.name| + 1 then left - 12 else |e.name| + 1;
              && m[at..at + 8] == e.ino && m[at + 8] == e.kind
              && m[at + 10] == |e.name| % 256 && m[at + 11] == |e.name| / 256
              && (forall i | at + 12 <= i < at + 12 + n ::
                    m[i] == if i < at + 12 + |e.name| then e.name[i - at - 12] else 0)
              && (forall i | 0 <= i < |mem| && (i < at || i == at + 9 || at + 12 + n <= i) :: m[i] == mem[i])
  {
    hide Put;
    if left >= 12 {
      PutWrites(mem, at, e, if left - 12 < |e.name| + 1 then left - 12 else |e.name| + 1);
    }
  }

  datatype Filled = Filled(result: nat, next: nat, mem: seq<Byte>, entries: seq<Dirent>, eof: bool)

  /* xreaddir with READDIR_MULTIPLE, from `at` in the buffer on.  `entries` and `eof` say
     what was put into the buffer; the caller sees the other three.  A call with
     READDIR_SKIPREL fills the buffer from `Start` on. */
  function Fill(dir: Directory, pos: nat, mem: seq<Byte>, base: int, at: nat, wantEof: bool): (f: Filled)
    requires ProperDirectory(dir) && at <= |mem|
    ensures |f.mem| == |mem|
    decreases |dir.entries| + 2 - pos, |mem| - at
  {
    var left := |mem| - at;
    var one := ReadOne(dir, pos, left, Default, false);
    ReadProper(dir, pos, left);
    if one.size == 0 then
      if wantEof && at != 0 && left >= NAME_OFFSET + 1 then
        Filled(at + NAME_OFFSET + 1, one.next, PutEof(mem, at), [], true)
      else
        Filled(at, one.next, mem, [], false)
    else if one.size > left then
      Filled(if at == 0 then one.size else at, one.next, Emit(mem, at, left, one.entry), [], false)
    else
      var mem', end := Emit(mem, at, left, one.entry), at + one.size;
      var pad := Padding(base + end);
      if |mem| - end < pad then
        Filled(end, one.next, mem', [one.entry.value], false)
      else
        var rest := Fill(dir, one.next, mem', base, end + pad, wantEof);
        rest.(entries := [one.entry.value] + rest.entries)
  }

  // What is read has the size of its record, and moves the stream on when it fits.
  lemma ReadProper(dir: Directory, pos: nat, left: nat)
    requires ProperDirectory(dir)
    ensures var one := ReadOne(dir, pos, left, Default, false);
            && (one.entry.Some? ==> Proper(one.entry.value) && one.size == RecordSize(one.entry.value))
            && (0 < one.size <= left ==> one.entry.Some? && pos < one.next <= |dir.entries| + 2)
            && (one.size == 0 ==> one.next >= |dir.entries| + 2 && one.entry.None?)
  {
    if pos == 1 {
      assert ReadOne(dir, 2, left, Default, false).next <= 3;
    }
  }

  // One turn of the filling loop, with an entry that fits.
  lemma FillFits(dir: Directory, pos: nat, mem: seq<Byte>, base: int, at: nat, wantEof: bool, one: One)
    requires ProperDirectory(dir) && at <= |mem|
    requires one == ReadOne(dir, pos, |mem| - at, Default, false) && 0 < one.size <= |mem| - at
    ensures one.entry.Some? && Proper(one.entry.value)
    ensures var f, end := Fill(dir, pos, mem, base, at, wantEof), at + one.size;
            var mem' := Emit(mem, at, |mem| - at, one.entry);
            if |mem| - end < Padding(base + end) then
              f == Filled(end, one.next, mem', [one.entry.value], false)
            else
              var rest := Fill(dir, one.next, mem', base, end + Padding(base + end), wantEof);
              f == rest.(entries := [one.entry.value] + rest.entries)
  {
    hide Put, Emit, Padding, PutEof;
    ReadProper(dir, pos, |mem| - at);
  }

  // The last turn, with an entry that does not fit, or none.
  lemma FillStops(dir: Directory, pos: nat, mem: seq<Byte>, base: int, at: nat, wantEof: bool, one: One)
    requires ProperDirectory(dir) && at <= |mem|
    requires one == ReadOne(dir, pos, |mem| - at, Default, false) && (one.size == 0 || one.size > |mem| - at)
    ensures one.entry.Some? ==> Proper(one.entry.value)
    ensures Fill(dir, pos, mem, base, at, wantEof)
         == if one.size > 0 then
              Filled(if at == 0 then one.size else at, one.next, Emit(mem, at, |mem| - at, one.entry), [], false)
            else if wantEof && at != 0 && |mem| - at >= NAME_OFFSET + 1 then
              Filled(at + NAME_OFFSET + 1, one.next, PutEof(mem, at), [], true)
            else
              Filled(at, one.next, mem, [], false)
  {
    hide Put, Emit, Padding, PutEof;
    ReadProper(dir, pos, |mem| - at);
  }

  // -------------------------------------------------------------- what a call leaves

  lemma EmitNothing(mem: seq<Byte>, at: nat, left: nat)
    requires at + left <= |mem|
    ensures Emit(mem, at, left, None) == mem
  {
  }

  lemma EmitKeeps(mem: seq<Byte>, at: nat, left: nat, e: Option<Dirent>)
    requires (e.Some? ==> Proper(e.value)) && at + left <= |mem|
    ensures forall i | 0 <= i < at :: Emit(mem, at, left, e)[i] == mem[i]
  {
  }

  // Nothing before `at` is touched, and the result only grows.
  lemma {:induction false} FillKeeps(dir: Directory, pos: nat, mem: seq<Byte>, base: int, at: nat, wantEof: bool)
    requires ProperDirectory(dir) && at <= |mem|
    ensures var f := Fill(dir, pos, mem, base, at, wantEof);
            && (forall i | 0 <= i < at :: f.mem[i] == mem[i])
            && at <= f.result && (at > 0 ==> f.result <= |mem|)
    decreases |dir.entries| + 2 - pos, |mem| - at
  {
    hide Put, Emit, ReadOne;
    var left := |mem| - at;
    var one := ReadOne(dir, pos, left, Default, false);
    ReadProper(dir, pos, left);
    EmitKeeps(mem, at, left, one.entry);
    if 0 < one.size <= left {
      var end := at + one.size;
      var pad := Padding(base + end);
      if |mem| - end >= pad {
        FillKeeps(dir, one.next, Emit(mem, at, left, one.entry), base, end + pad, wantEof);
      }
    }
  }

  // A record that was emitted whole is read back, as long as its bytes stay.
  lemma EmitThenGet(mem: seq<Byte>, at: nat, left: nat, one: One, mem': seq<Byte>)
    requires one.entry.Some? && Proper(one.entry.value) && one.size == RecordSize(one.entry.value) <= left
    requires at + left <= |mem| == |mem'|
    requires forall i | 0 <= i < at + one.size :: mem'[i] == Emit(mem, at, left, one.entry)[i]
    ensures NameLength(mem', at) == |one.entry.value.name|
    ensures Get(mem', at) == one.entry.value
  {
    var e := one.entry.value;
    PutThenGet(mem, at, e);
    var whole := Put(mem, at, e, |e.name| + 1);
    assert Emit(mem, at, left, one.entry) == whole;
    GetFrame(whole, mem', at, e);
  }

  /* Pack and walk: what the macros walk in a filled buffer, up to the returned size, is
     exactly what was put there, with the end record noticed when there is one. */
  lemma {:induction false} WalkOfFill(dir: Directory, pos: nat, mem: seq<Byte>, base: int, at: nat, wantEof: bool)
    requires ProperDirectory(dir) && at <= |mem|
    ensures var f := Fill(dir, pos, mem, base, at, wantEof);
            f.result <= |mem| ==> Walk(f.mem, base, at, f.result) == Walked(f.entries, f.eof)
    decreases |dir.entries| + 2 - pos, |mem| - at
  {
    hide Fill, Emit, ReadOne, Get, Walk, Padding, NameLength, PutEof, ProperDirectory;
    var f := Fill(dir, pos, mem, base, at, wantEof);
    var left := |mem| - at;
    var one := ReadOne(dir, pos, left, Default, false);
    ReadProper(dir, pos, left);
    if one.size == 0 || one.size > left {
      FillStops(dir, pos, mem, base, at, wantEof, one);
      if f.eof {
        WalkEof(mem, base, at);
      } else if f.result <= |mem| {
        WalkBeyond(f.mem, base, at, f.result);
      }
    } else {
      FillFits(dir, pos, mem, base, at, wantEof, one);
      var mem', end := Emit(mem, at, left, one.entry), at + one.size;
      var next := end + Padding(base + end);
      if next <= |mem| {
        FillKeeps(dir, one.next, mem', base, next, wantEof);
        WalkOfFill(dir, one.next, mem', base, next, wantEof);
      } else {
        WalkBeyond(f.mem, base, next, f.result);
      }
      EmitThenGet(mem, at, left, one, f.mem);
      WalkOne(f.mem, base, at, f.result, one.entry.value);
    }
  }

  lemma WalkEof(mem: seq<Byte>, base: int, at: nat)
    requires at + NAME_OFFSET + 1 <= |mem|
    ensures Walk(PutEof(mem, at), base, at, at + NAME_OFFSET + 1) == Walked([], true)
  {
  }

  /* Where a call has put its records: the walk finds each of them, behind its name is a NUL,
     and all but the first are aligned, the end record too, which takes up 13 bytes. */
  lemma FillEnds(dir: Directory, pos: nat, mem: seq<Byte>, base: int, at: nat, wantEof: bool)
    requires ProperDirectory(dir) && at <= |mem| && (at == 0 || (base + at) % 8 == 0)
    ensures var f := Fill(dir, pos, mem, base, at, wantEof);
            f.result <= |mem| ==>
              var spots := Spots(f.mem, base, at, f.result);
              && |spots| == |f.entries|
              && forall i | 0 <= i < |f.entries| ::
                   && spots[i] + 12 + |f.entries[i].name| < f.result
                   && f.mem[spots[i] + 12 + |f.entries[i].name|] == 0
                   && (i > 0 ==> (base + spots[i]) % 8 == 0)
    ensures var f := Fill(dir, pos, mem, base, at, wantEof);
            f.eof ==>
              && 13 <= f.result <= |mem| && (base + f.result - 13) % 8 == 0
              && f.mem[f.result - 3] == 0 && f.mem[f.result - 2] == 0 && f.mem[f.result - 1] == 0
  {
    hide Fill, Spots, ProperDirectory;
    FillEnded(dir, pos, mem, base, at, wantEof);
  }

  lemma {:induction false} FillEnded(dir: Directory, pos: nat, mem: seq<Byte>, base: int, at: nat, wantEof: bool)
    requires ProperDirectory(dir) && at <= |mem| && (at == 0 || (base + at) % 8 == 0)
    ensures var f := Fill(dir, pos, mem, base, at, wantEof);
            (f.result <= |mem| ==> Ended(f, base, at)) && (f.eof ==> EofEnds(f, base))
    decreases |dir.entries| + 2 - pos, |mem| - at
  {
    hide Fill, Emit, ReadOne, Padding, ProperDirectory, RecordSize, Ended, EofEnds;
    var left := |mem| - at;
    var one := ReadOne(dir, pos, left, Default, false);
    ReadProper(dir, pos, left);
    if one.size == 0 || one.size > left {
      FillStopsEnds(dir, pos, mem, base, at, wantEof, one);
    } else {
      var mem', end := Emit(mem, at, left, one.entry), at + one.size;
      var next := end + Padding(base + end);
      PaddingAligns(base + end);
      if next <= |mem| {
        FillEnded(dir, one.next, mem', base, next, wantEof);
      }
      FillFitsEnds(dir, pos, mem, base, at, wantEof, one);
    }
  }

  // Every record that was put there has a NUL behind its name, and is aligned unless it is
  // the first.
  ghost predicate Ended(f: Filled, base: int, at: nat)
    requires f.result <= |f.mem|
  {
    var spots := Spots(f.mem, base, at, f.result);
    && |spots| == |f.entries|
    && forall i | 0 <= i < |f.entries| ::
         && spots[i] + 12 + |f.entries[i].name| < f.result
         && f.mem[spots[i] + 12 + |f.entries[i].name|] == 0
         && (i > 0 ==> (base + spots[i]) % 8 == 0)
  }

  ghost predicate EofEnds(f: Filled, base: int) {
    && 13 <= f.result <= |f.mem| && (base + f.result - 13) % 8 == 0
    && f.mem[f.result - 3] == 0 && f.mem[f.result - 2] == 0 && f.mem[f.result - 1] == 0
  }

  lemma FillStopsEnds(dir: Directory, pos: nat, mem: seq<Byte>, base: int, at: nat, wantEof: bool, one: One)
    requires ProperDirectory(dir) && at <= |mem| && (at == 0 || (base + at) % 8 == 0)
    requires one == ReadOne(dir, pos, |mem| - at, Default, false) && (one.size == 0 || one.size > |mem| - at)
    ensures var f := Fill(dir, pos, mem, base, at, wantEof);
            (f.result <= |mem| ==> Ended(f, base, at)) && (f.eof ==> EofEnds(f, base))
  {
    hide Fill, Emit, ReadOne, Spots, PutEof, ProperDirectory;
    var f := Fill(dir, pos, mem, base, at, wantEof);
    FillStops(dir, pos, mem, base, at, wantEof, one);
    if f.eof {
      PutEofWrites(mem, at);
      SpotsEof(mem, base, at);
    } else if f.result <= |mem| {
      SpotsBeyond(f.mem, base, at, f.result);
    }
  }

  lemma FillFitsEnds(dir: Directory, pos: nat, mem: seq<Byte>, base: int, at: nat, wantEof: bool, one: One)
    requires ProperDirectory(dir) && at <= |mem|
    requires one == ReadOne(dir, pos, |mem| - at, Default, false) && 0 < one.size <= |mem| - at
    requires one.entry.Some? && Proper(one.entry.value) && one.size == RecordSize(one.entry.value)
    requires var end := at + one.size;
             var next := end + Padding(base + end);
             && (base + next) % 8 == 0
             && (next <= |mem| ==>
                   var f := Fill(dir, one.next, Emit(mem, at, |mem| - at, one.entry), base, next, wantEof);
                   (f.result <= |mem| ==> Ended(f, base, next)) && (f.eof ==> EofEnds(f, base)))
    ensures var f := Fill(dir, pos, mem, base, at, wantEof);
            (f.result <= |mem| ==> Ended(f, base, at)) && (f.eof ==> EofEnds(f, base))
  {
    hide Fill, Emit, ReadOne, Get, Spots, Padding, NameLength, ProperDirectory, Ended, EofEnds;
    var f := Fill(dir, pos, mem, base, at, wantEof);
    FillFits(dir, pos, mem, base, at, wantEof, one);
    var e, mem', end := one.entry.value, Emit(mem, at, |mem| - at, one.entry), at + one.size;
    var next := end + Padding(base + end);
    EmitWrites(mem, at, |mem| - at, e);
    if next <= |mem| {
      FillKeeps(dir, one.next, mem', base, next, wantEof);
    }
    EmitThenGet(mem, at, |mem| - at, one, f.mem);
    EofEndsOne(f, f.(entries := f.entries[1..]), base);
    if f.result <= |mem| {
      SpotsOne(f.mem, base, at, f.result, e);
      if next > |mem| {
        NoneEnded(f.(entries := []), base, next);
      }
      EndedOne(f, f.(entries := f.entries[1..]), base, at, next, e);
    }
  }

  lemma NoneEnded(f: Filled, base: int, at: nat)
    requires f.entries == [] && f.result <= |f.mem| && f.result <= at + NAME_OFFSET
    ensures Ended(f, base, at)
  {
    SpotsBeyond(f.mem, base, at, f.result);
  }

  lemma EofEndsOne(f: Filled, rest: Filled, base: int)
    requires f.result == rest.result && f.mem == rest.mem
    ensures EofEnds(f, base) <==> EofEnds(rest, base)
  {
  }

  lemma EndedOne(f: Filled, rest: Filled, base: int, at: nat, next: nat, e: Dirent)
    requires f == rest.(entries := [e] + rest.entries) && f.result <= |f.mem| && Ended(rest, base, next)
    requires Spots(f.mem, base, at, f.result) == [at] + Spots(f.mem, base, next, f.result)
    requires at + 12 + |e.name| < f.result && f.mem[at + 12 + |e.name|] == 0 && (base + next) % 8 == 0
    ensures Ended(f, base, at)
  {
    hide Spots;
    FirstSpot(f.mem, base, next, f.result);
  }

  lemma SpotsEof(mem: seq<Byte>, base: int, at: nat)
    requires at + NAME_OFFSET + 1 <= |mem|
    ensures Spots(PutEof(mem, at), base, at, at + NAME_OFFSET + 1) == []
  {
  }

  lemma FirstSpot(mem: seq<Byte>, base: int, at: nat, size: nat)
    requires size <= |mem|
    ensures var spots := Spots(mem, base, at, size); spots != [] ==> spots[0] == at
  {
  }
}
