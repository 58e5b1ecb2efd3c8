/**
 The directory streams of the C library: `readdir` serves records from a buffer that
 it refills with READDIR_MULTIPLE and READDIR_WANTEOF.
 */
module LibcDirectory {
  import opened Wrappers
  import opened DirectoryRecords
  import opened DirectoryStream
  import opened DirectoryListing

  // A stream over a directory: the position of its file handle, the buffer and its
  // address, the next record, and how much of the buffer is loaded.
  datatype Stream = Stream(pos: nat, mem: seq<Byte>, base: int, next: nat, loaded: nat)

  // What a newly allocated buffer of a given size happens to hold.
  type Garbage = nat -> seq<Byte>

  ghost predicate Sized(garbage: Garbage) {
    forall n :: |garbage(n)| == n
  }

  datatype Served = Served(entry: Option<Dirent>, stream: Stream)

  ghost predicate Good(dir: Directory, s: Stream) {
    && ProperDirectory(dir) && |s.mem| >= 36
    && s.loaded <= |s.mem| && s.pos <= |dir.entries| + 2
  }

  // A stream that was just opened.
  function Opened(mem: seq<Byte>, base: int): Stream {
    Stream(0, mem, base, 0, 0)
  }

  function Serve(s: Stream): Served
    requires s.loaded <= |s.mem| && IsValid(s.mem, s.next, s.loaded)
  {
    if IsEof(s.mem, s.next) then Served(None, s)
    else Served(Some(Get(s.mem, s.next)), s.(next := Next(s.mem, s.base, s.next)))
  }

  // How many more rounds a call takes.
  ghost function Rounds(dir: Directory, s: Stream): nat
    requires Good(dir, s)
  {
    if IsValid(s.mem, s.next, s.loaded) then 0
    else if Fill(dir, s.pos, s.mem, s.base, 0, true).result <= |s.mem| then 1
    else 2
  }

  // The stream after loading its buffer, and after putting a larger one in its place.
  function Reloaded(s: Stream, f: Filled): Stream {
    Stream(f.next, f.mem, s.base, 0, f.result)
  }

  function Grown(f: Filled, garbage: Garbage, newBase: int): Stream {
    Stream(f.next, garbage(2 * f.result), newBase, 0, f.result)
  }

  /* libc_readdir.  When the next entry is too large for the buffer, a new buffer of twice
     its size is installed and searched as if it had been loaded. */
  function Read(dir: Directory, s: Stream, garbage: Garbage, newBase: int): Served
    requires Good(dir, s) && Sized(garbage)
    decreases Rounds(dir, s)
  {
    if IsValid(s.mem, s.next, s.loaded) then Serve(s)
    else
      var f := Fill(dir, s.pos, s.mem, s.base, 0, true);
      RoundsShrink(dir, s, garbage, newBase);
      if f.result == 0 then Served(None, s.(pos := f.next, mem := f.mem))
      else if f.result <= |s.mem| then Read(dir, Reloaded(s, f), garbage, newBase)
      else Read(dir, Grown(f, garbage, newBase), garbage, newBase)
  }

  // A reloaded buffer has a record, and a grown one has room for it.
  lemma RoundsShrink(dir: Directory, s: Stream, garbage: Garbage, newBase: int)
    requires Good(dir, s) && Sized(garbage) && !IsValid(s.mem, s.next, s.loaded)
    ensures var f := Fill(dir, s.pos, s.mem, s.base, 0, true);
            && f.next <= |dir.entries| + 2
            && (0 < f.result <= |s.mem| ==>
                  Good(dir, Reloaded(s, f)) && Rounds(dir, Reloaded(s, f)) < Rounds(dir, s))
            && (f.result > |s.mem| ==>
                  Good(dir, Grown(f, garbage, newBase)) && Rounds(dir, Grown(f, garbage, newBase)) < Rounds(dir, s))
  {
    hide Fill, NameLength;
    var f := Fill(dir, s.pos, s.mem, s.base, 0, true);
    FillDelivers(dir, s.pos, s.mem, s.base, true);
    FillNext(dir, s.pos, s.mem, s.base, 0, true);
    if f.result > |s.mem| {
      TooLarge(dir, s.pos, s.mem, s.base);
      FillStart(dir, f.next, garbage(2 * f.result), newBase, true);
    }
  }

  lemma ReadRound(dir: Directory, s: Stream, garbage: Garbage, newBase: int)
    requires Good(dir, s) && Sized(garbage) && !IsValid(s.mem, s.next, s.loaded)
    ensures var f := Fill(dir, s.pos, s.mem, s.base, 0, true);
            if f.result == 0 then
              && Read(dir, s, garbage, newBase) == Served(None, s.(pos := f.next, mem := f.mem))
              && f.next <= |dir.entries| + 2
            else
              var s' := if f.result <= |s.mem| then Reloaded(s, f) else Grown(f, garbage, newBase);
              && Good(dir, s') && Rounds(dir, s') < Rounds(dir, s)
              && Read(dir, s, garbage, newBase) == Read(dir, s', garbage, newBase)
              && s'.pos == f.next && s'.next == 0 && s'.loaded == f.result
              && (if f.result <= |s.mem| then s'.mem == f.mem && s'.base == s.base
                  else s'.mem == garbage(2 * f.result) && s'.base == newBase)
  {
    hide Fill, Rounds;
    RoundsShrink(dir, s, garbage, newBase);
  }

  // Only an entry of the directory can be too large, and the stream stays on it.
  lemma TooLarge(dir: Directory, pos: nat, mem: seq<Byte>, base: int)
    requires ProperDirectory(dir) && pos <= |dir.entries| + 2 && |mem| >= 36
    ensures var f := Fill(dir, pos, mem, base, 0, true);
            f.result > |mem| ==>
              2 <= f.next < |dir.entries| + 2 && f.result == RecordSize(dir.entries[f.next - 2])
  {
    hide Fill, Padding;
    var one := ReadOne(dir, pos, |mem|, Default, false);
    ReadSpecial(dir, |mem|);
    if 0 < one.size <= |mem| {
      FirstFits(dir, pos, mem, base, true, one);
    } else {
      FillStops(dir, pos, mem, base, 0, true, one);
      ReadEntry(dir, if pos < 2 then 2 else pos, |mem|);
    }
  }

  // ------------------------------------------------------------------ what is to come

  // What a stream still has to deliver before an entry that is too large, or the end.
  ghost function Pending(dir: Directory, s: Stream): seq<Dirent>
    requires Good(dir, s)
  {
    var w := Walk(s.mem, s.base, s.next, s.loaded);
    if w.eof then w.entries else w.entries + Enumerate(dir, s.pos, s.mem, s.base, true)
  }

  // A call that returns a size that fits has put at least one record into the buffer.
  lemma FillDelivers(dir: Directory, pos: nat, mem: seq<Byte>, base: int, wantEof: bool)
    requires ProperDirectory(dir)
    ensures var f := Fill(dir, pos, mem, base, 0, wantEof);
            0 < f.result <= |mem| ==> f.entries != [] && IsValid(f.mem, 0, f.result)
  {
    hide Fill, Emit, Padding, ReadOne;
    var f, one := Fill(dir, pos, mem, base, 0, wantEof), ReadOne(dir, pos, |mem|, Default, false);
    if 0 < one.size <= |mem| {
      FillFits(dir, pos, mem, base, 0, wantEof, one);
    } else {
      FillStops(dir, pos, mem, base, 0, wantEof, one);
    }
    WalkOfFill(dir, pos, mem, base, 0, wantEof);
  }

  // At the end of the directory a call changes nothing that matters.
  lemma EndStays(dir: Directory, pos: nat, mem: seq<Byte>, base: int)
    requires ProperDirectory(dir) && pos <= |dir.entries| + 2
    ensures var f := Fill(dir, pos, mem, base, 0, true);
            f.result == 0 ==>
              f.mem == mem && f.next == |dir.entries| + 2 && Enumerate(dir, f.next, mem, base, true) == []
  {
    hide Emit, Padding, ReadOne, Enumerate;
    var f, one := Fill(dir, pos, mem, base, 0, true), ReadOne(dir, pos, |mem|, Default, false);
    ReadProper(dir, pos, |mem|);
    FillNext(dir, pos, mem, base, 0, true);
    if f.result == 0 {
      if 0 < one.size <= |mem| {
        FillKeeps(dir, pos, mem, base, 0, true);
        FillDelivers(dir, pos, mem, base, true);
        FirstFits(dir, pos, mem, base, true, one);
      }
      EnumerateTail(dir, f.next, mem, base, true);
      TailEnd(dir, |mem|);
    }
  }

  // The walk from the next record, and what it says about the next call.
  lemma PendingStep(dir: Directory, s: Stream, garbage: Garbage, newBase: int)
    requires Good(dir, s) && Sized(garbage)
    requires IsValid(s.mem, s.next, s.loaded) || Fill(dir, s.pos, s.mem, s.base, 0, true).result <= |s.mem|
    ensures var r := Read(dir, s, garbage, newBase);
            && Good(dir, r.stream)
            && (if Pending(dir, s) == [] then r.entry == None && Pending(dir, r.stream) == []
                else r.entry == Some(Pending(dir, s)[0]) && Pending(dir, r.stream) == Pending(dir, s)[1..])
  {
    hide Enumerate, Fill, Walk, Get, Next, NameLength;
    WalkInvalid(s.mem, s.base, s.next, s.loaded);
    if IsValid(s.mem, s.next, s.loaded) {
      ServePending(dir, s);
    } else {
      var f := Fill(dir, s.pos, s.mem, s.base, 0, true);
      EnumerateRound(dir, s.pos, s.mem, s.base, true);
      if f.result == 0 {
        EndStays(dir, s.pos, s.mem, s.base);
      } else {
        var s' := Reloaded(s, f);
        WalkOfFill(dir, s.pos, s.mem, s.base, 0, true);
        FillDelivers(dir, s.pos, s.mem, s.base, true);
        ServePending(dir, s');
      }
    }
  }

  lemma ServePending(dir: Directory, s: Stream)
    requires Good(dir, s) && IsValid(s.mem, s.next, s.loaded)
    ensures var r := Serve(s);
            && Good(dir, r.stream)
            && (if Pending(dir, s) == [] then r.entry == None && Pending(dir, r.stream) == []
                else r.entry == Some(Pending(dir, s)[0]) && Pending(dir, r.stream) == Pending(dir, s)[1..])
  {
    hide Enumerate, Get, Next, NameLength;
  }

  lemma WalkInvalid(mem: seq<Byte>, base: int, at: nat, size: nat)
    requires size <= |mem|
    ensures !IsValid(mem, at, size) ==> Walk(mem, base, at, size) == Walked([], false)
  {
  }

  // ------------------------------------------------------------------- whole readings

  // The results of `n` calls in a row.
  ghost function ReadMany(dir: Directory, s: Stream, garbage: Garbage, newBase: int, n: nat): seq<Option<Dirent>>
    requires Good(dir, s) && Sized(garbage)
    decreases n
  {
    if n == 0 then []
    else
      var r := Read(dir, s, garbage, newBase);
      ReadKeepsGood(dir, s, garbage, newBase);
      [r.entry] + ReadMany(dir, r.stream, garbage, newBase, n - 1)
  }

  lemma {:induction false} ReadKeepsGood(dir: Directory, s: Stream, garbage: Garbage, newBase: int)
    requires Good(dir, s) && Sized(garbage)
    ensures Good(dir, Read(dir, s, garbage, newBase).stream)
    decreases Rounds(dir, s)
  {
    hide Fill, Get, Next, NameLength, Rounds;
    if !IsValid(s.mem, s.next, s.loaded) {
      var f := Fill(dir, s.pos, s.mem, s.base, 0, true);
      RoundsShrink(dir, s, garbage, newBase);
      if 0 < f.result <= |s.mem| {
        ReadKeepsGood(dir, Reloaded(s, f), garbage, newBase);
      } else if f.result > |s.mem| {
        ReadKeepsGood(dir, Grown(f, garbage, newBase), garbage, newBase);
      }
    }
  }

  // `es`, and then nothing, for `n` calls in all.
  function Expected(es: seq<Dirent>, n: nat): seq<Option<Dirent>> {
    if n == 0 then []
    else if es == [] then [None] + Expected([], n - 1)
    else [Some(es[0])] + Expected(es[1..], n - 1)
  }

  ghost predicate AllFit(dir: Directory, size: nat) {
    forall e <- dir.entries :: RecordSize(e) <= size
  }

  lemma NoGrowth(dir: Directory, pos: nat, mem: seq<Byte>, base: int)
    requires ProperDirectory(dir) && pos <= |dir.entries| + 2 && |mem| >= 36 && AllFit(dir, |mem|)
    ensures Fill(dir, pos, mem, base, 0, true).result <= |mem|
  {
    hide Fill;
    if pos >= 2 {
      FillStart(dir, pos, mem, base, true);
    } else {
      var one := ReadOne(dir, pos, |mem|, Default, false);
      if one.size == 0 || one.size > |mem| {
        FillStops(dir, pos, mem, base, 0, true, one);
      } else {
        FirstFits(dir, pos, mem, base, true, one);
      }
    }
  }

  lemma {:induction false} ReadManyPending(dir: Directory, s: Stream, garbage: Garbage, newBase: int, n: nat)
    requires Good(dir, s) && Sized(garbage) && AllFit(dir, |s.mem|)
    ensures ReadMany(dir, s, garbage, newBase, n) == Expected(Pending(dir, s), n)
    decreases n
  {
    hide Read, Fill, Pending;
    if n > 0 {
      NoGrowth(dir, s.pos, s.mem, s.base);
      PendingStep(dir, s, garbage, newBase);
      SameBuffer(dir, s, garbage, newBase);
      ReadManyPending(dir, Read(dir, s, garbage, newBase).stream, garbage, newBase, n - 1);
    }
  }

  lemma SameBuffer(dir: Directory, s: Stream, garbage: Garbage, newBase: int)
    requires Good(dir, s) && Sized(garbage)
    requires Fill(dir, s.pos, s.mem, s.base, 0, true).result <= |s.mem|
    ensures |Read(dir, s, garbage, newBase).stream.mem| == |s.mem|
  {
    hide Fill, Get, Next, NameLength;
    FillDelivers(dir, s.pos, s.mem, s.base, true);
  }

  lemma OpenedPending(dir: Directory, mem: seq<Byte>, base: int)
    requires ProperDirectory(dir) && |mem| >= 36
    ensures Good(dir, Opened(mem, base))
    ensures Pending(dir, Opened(mem, base)) == Listing(dir, base, |mem|)
  {
    hide Enumerate, Listing;
    EnumerateLists(dir, mem, base, true);
  }

  /* `readdir` on a fresh stream delivers every entry once, in order, and then nothing for
     ever, when every record fits the buffer. */
  lemma ReadsEverything(dir: Directory, mem: seq<Byte>, base: int, garbage: Garbage, newBase: int, n: nat)
    requires ProperDirectory(dir) && |mem| >= 36 && Sized(garbage) && AllFit(dir, |mem|)
    ensures ReadMany(dir, Opened(mem, base), garbage, newBase, n) == Expected(Contents(dir), n)
  {
    hide ReadMany, Expected, Pending, Enumerate, Listing;
    OpenedPending(dir, mem, base);
    LargeBuffers(dir, base, |mem|);
    EnumerateLists(dir, mem, base, true);
    ListsEverythingIff(dir, mem, base, true);
    ReadManyPending(dir, Opened(mem, base), garbage, newBase, n);
  }

  // libc_rewinddir: the file position and the loaded size are reset, the next-pointer is not.
  function Rewound(s: Stream): Stream {
    s.(pos := 0, loaded := 0)
  }

  /* After a rewind, at any point of a reading, the whole directory is delivered again. */
  lemma RewindRestarts(dir: Directory, s: Stream, garbage: Garbage, newBase: int, n: nat)
    requires Good(dir, s) && Sized(garbage) && AllFit(dir, |s.mem|)
    ensures ReadMany(dir, Rewound(s), garbage, newBase, n) == Expected(Contents(dir), n)
  {
    hide ReadMany, Expected, Enumerate, Listing;
    WalkInvalid(s.mem, s.base, s.next, 0);
    assert Pending(dir, Rewound(s)) == Enumerate(dir, 0, s.mem, s.base, true);
    LargeBuffers(dir, s.base, |s.mem|);
    ListsEverythingIff(dir, s.mem, s.base, true);
    ReadManyPending(dir, Rewound(s), garbage, newBase, n);
  }

  // ---------------------------------------------------------------- names that are too long

  // A heap that hands out zeroed memory.
  function Zeroed(): Garbage {
    (n: nat) => seq(n, (i: nat) => NUL)
  }

  // An entry that is too large makes the stream end there: the new buffer, taken for a
  // loaded one, starts with what looks like an end record.
  lemma GrowthEnds(dir: Directory, s: Stream, newBase: int)
    requires Good(dir, s) && !IsValid(s.mem, s.next, s.loaded)
    requires Fill(dir, s.pos, s.mem, s.base, 0, true).result > |s.mem|
    ensures Read(dir, s, Zeroed(), newBase).entry == None
  {
    hide Fill;
    var f := Fill(dir, s.pos, s.mem, s.base, 0, true);
    var s' := Grown(f, Zeroed(), newBase);
    assert NameLength(s'.mem, 0) == 0;
    assert IsValid(s'.mem, s'.next, s'.loaded);
  }

  lemma {:induction false} ReadManyStops(dir: Directory, s: Stream, newBase: int, n: nat)
    requires Good(dir, s) && n > |Pending(dir, s)|
    ensures var rs := ReadMany(dir, s, Zeroed(), newBase, n);
            |rs| == n && rs[|Pending(dir, s)|] == None
    decreases n
  {
    hide Read, Fill, Enumerate, Walk, Zeroed, Pending, ReadMany, IsValid;
    ZeroedSized();
    ReadManyRound(dir, s, newBase, n);
    if IsValid(s.mem, s.next, s.loaded) || Fill(dir, s.pos, s.mem, s.base, 0, true).result <= |s.mem| {
      PendingStep(dir, s, Zeroed(), newBase);
      if Pending(dir, s) != [] {
        ReadManyStops(dir, Read(dir, s, Zeroed(), newBase).stream, newBase, n - 1);
      }
    } else {
      GrowthEnds(dir, s, newBase);
      PendingTooLarge(dir, s);
    }
  }

  // The first of several calls, and the others.
  lemma ReadManyRound(dir: Directory, s: Stream, newBase: int, n: nat)
    requires Good(dir, s) && Sized(Zeroed()) && n > 0
    ensures var r := Read(dir, s, Zeroed(), newBase);
            && Good(dir, r.stream)
            && ReadMany(dir, s, Zeroed(), newBase, n) == [r.entry] + ReadMany(dir, r.stream, Zeroed(), newBase, n - 1)
            && |ReadMany(dir, s, Zeroed(), newBase, n)| == n
  {
    hide Read, Zeroed, Good;
    ReadKeepsGood(dir, s, Zeroed(), newBase);
    ReadManySize(dir, Read(dir, s, Zeroed(), newBase).stream, newBase, n - 1);
  }

  // Nothing is to come when the next entry is too large.
  lemma PendingTooLarge(dir: Directory, s: Stream)
    requires Good(dir, s) && !IsValid(s.mem, s.next, s.loaded)
    requires Fill(dir, s.pos, s.mem, s.base, 0, true).result > |s.mem|
    ensures Pending(dir, s) == []
  {
    hide Fill, Enumerate, Walk, IsValid;
    WalkInvalid(s.mem, s.base, s.next, s.loaded);
    EnumerateRound(dir, s.pos, s.mem, s.base, true);
  }

  lemma ZeroedSized()
    ensures Sized(Zeroed())
  {
  }

  lemma {:induction false} ReadManySize(dir: Directory, s: Stream, newBase: int, n: nat)
    requires Good(dir, s) && Sized(Zeroed())
    ensures |ReadMany(dir, s, Zeroed(), newBase, n)| == n
    decreases n
  {
    hide Read, Zeroed;
    if n > 0 {
      ReadKeepsGood(dir, s, Zeroed(), newBase);
      ReadManySize(dir, Read(dir, s, Zeroed(), newBase).stream, newBase, n - 1);
    }
  }

  lemma {:induction false} ExpectedSome(es: seq<Dirent>, n: nat, i: nat)
    requires i < |es| && i < n
    ensures |Expected(es, n)| > i && Expected(es, n)[i] == Some(es[i])
  {
    if i > 0 {
      ExpectedSome(es[1..], n - 1, i - 1);
    }
  }

  lemma ListingShort(dir: Directory, base: int, size: nat)
    requires ProperDirectory(dir) && size >= 36 && !AllFit(dir, size)
    ensures |Listing(dir, base, size)| < |Contents(dir)|
  {
    assert dir.entries[2 - 2..] == dir.entries;
    FittingBound(dir.entries, size);
  }

  /* Whatever a new buffer may hold, `readdir` delivers the whole directory exactly when no
     record is larger than the buffer the stream starts with. */
  lemma ReadsEverythingIff(dir: Directory, mem: seq<Byte>, base: int, newBase: int)
    requires ProperDirectory(dir) && |mem| >= 36
    ensures (forall garbage | Sized(garbage) ::
               ReadMany(dir, Opened(mem, base), garbage, newBase, |Contents(dir)|)
               == Expected(Contents(dir), |Contents(dir)|))
       <==> AllFit(dir, |mem|)
  {
    hide ReadMany, Expected, Pending, Enumerate, Listing, Zeroed;
    var n := |Contents(dir)|;
    if AllFit(dir, |mem|) {
      forall garbage | Sized(garbage)
        ensures ReadMany(dir, Opened(mem, base), garbage, newBase, n) == Expected(Contents(dir), n)
      {
        ReadsEverything(dir, mem, base, garbage, newBase, n);
      }
    } else {
      ZeroedSized();
      OpenedPending(dir, mem, base);
      ListingShort(dir, base, |mem|);
      ReadManyStops(dir, Opened(mem, base), newBase, n);
      ExpectedSome(Contents(dir), n, |Listing(dir, base, |mem|)|);
    }
  }
}
