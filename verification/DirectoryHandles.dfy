/**
 Directory enumeration as it works in place: the file handle whose position moves, the
 buffer that is written and walked, and the stream object of the C library.
 */
module DirectoryHandles {
  import opened Wrappers
  import opened DirectoryRecords
  import opened DirectoryStream
  import opened DirectoryListing
  import opened LibcDirectory

  method Copy(buf: array<Byte>, at: nat, bytes: seq<Byte>)
    requires at + |bytes| <= buf.Length
    modifies buf
    ensures buf[..] == Splice(old(buf[..]), at, bytes)
  {
    ghost var mem := buf[..];
    var i := 0;
    while i < |bytes|
      invariant 0 <= i <= |bytes|
      invariant forall j | 0 <= j < buf.Length :: buf[j] == if at <= j < at + i then bytes[j - at] else mem[j]
    {
      buf[at + i] := bytes[i];
      i := i + 1;
    }
    assert buf[..] == Splice(mem, at, bytes);
  }

  /* Writes a record into a buffer, with `n` bytes of name and NUL. */
  method Store(buf: array<Byte>, at: nat, e: Dirent, n: nat)
    requires Proper(e) && n <= |e.name| + 1 && at + NAME_OFFSET + n <= buf.Length
    modifies buf
    ensures buf[..] == Put(old(buf[..]), at, e, n)
  {
    Copy(buf, at, e.ino);
    Copy(buf, at + TYPE_OFFSET, [e.kind]);
    Copy(buf, at + NAMLEN_OFFSET, LengthBytes(|e.name|));
    Copy(buf, at + NAME_OFFSET, (e.name + [NUL])[..n]);
  }

  method StoreEof(buf: array<Byte>, at: nat)
    requires at + NAME_OFFSET + 1 <= buf.Length
    modifies buf
    ensures buf[..] == PutEof(old(buf[..]), at)
  {
    buf[at + NAMLEN_OFFSET], buf[at + NAMLEN_OFFSET + 1], buf[at + NAME_OFFSET] := 0, 0, 0;
  }

  /* As much of a record as there is room for, once the header fits. */
  method Write(buf: array<Byte>, at: nat, left: nat, e: Dirent) returns (fits: bool)
    requires Proper(e) && at + left <= buf.Length
    modifies buf
    ensures buf[..] == Emit(old(buf[..]), at, left, Some(e))
    ensures fits <==> left >= RecordSize(e)
  {
    hide Put;
    fits := false;
    if left >= NAME_OFFSET {
      var n := left - NAME_OFFSET;
      if n >= |e.name| + 1 {
        n, fits := |e.name| + 1, true;
      }
      Store(buf, at, e, n);
    }
  }

  // An open directory: `f_pos` counts the special entries first.
  class Handle {
    const dir: Directory
    var pos: nat

    constructor (dir: Directory)
      ensures this.dir == dir && pos == 0
    {
      this.dir := dir;
      pos := 0;
    }

    /* StandardFile_ReadDir */
    method ReadDir(buf: array<Byte>, at: nat, left: nat, mode: Mode, skipRel: bool) returns (size: nat)
      requires ProperDirectory(dir) && at + left <= buf.Length
      modifies this, buf
      ensures var one := ReadOne(dir, old(pos), left, mode, skipRel);
              && size == one.size && pos == one.next
              && (one.entry.Some? ==> Proper(one.entry.value))
              && buf[..] == Emit(old(buf[..]), at, left, one.entry)
    {
      hide Put, Splice;
      ghost var one := ReadOne(dir, pos, left, mode, skipRel);
      if pos < 2 && skipRel {
        pos := 2;
      }
      if pos == 1 && dir.parent.None? {
        pos := 2;
        if left < NAME_OFFSET {
          return NAME_OFFSET + 3;
        }
      }
      assert one == ReadOne(dir, pos, left, mode, skipRel);
      if pos >= 2 && pos - 2 >= |dir.entries| {
        return 0;
      }
      var e := if pos == 0 then dir.self else if pos == 1 then dir.parent.value else dir.entries[pos - 2];
      assert Proper(e) && one.entry == Some(e) && one.size == RecordSize(e);
      var fits := Write(buf, at, left, e);
      size := RecordSize(e);
      // The special entries are passed over whatever the mode and the room.
      if pos < 2 || mode == Continue || (mode == Default && fits) {
        pos := pos + 1;
      }
    }

    /* xreaddir with READDIR_MULTIPLE: as many entries as fit into the buffer. */
    method ReadMultiple(buf: array<Byte>, base: int, wantEof: bool, skipRel: bool) returns (result: nat)
      requires ProperDirectory(dir)
      modifies this, buf
      ensures var f := Fill(dir, Start(old(pos), skipRel), old(buf[..]), base, 0, wantEof);
              result == f.result && pos == f.next && buf[..] == f.mem
    {
      hide Fill, ReadOne, Emit, Padding, PutEof;
      var at := 0;
      ghost var f := Fill(dir, Start(pos, skipRel), buf[..], base, 0, wantEof);
      while true
        invariant 0 <= at <= buf.Length
        invariant var g := Fill(dir, Start(pos, skipRel), buf[..], base, at, wantEof);
                  f.result == g.result && f.next == g.next && f.mem == g.mem
        decreases |dir.entries| + 2 - pos, buf.Length - at
      {
        ghost var start := Start(pos, skipRel);
        ghost var one := ReadOne(dir, start, buf.Length - at, Default, false);
        ReadFromStart(dir, pos, buf.Length - at, Default, skipRel);
        ReadProper(dir, start, buf.Length - at);
        EmitNothing(buf[..], at, buf.Length - at);
        if 0 < one.size <= buf.Length - at {
          FillFits(dir, start, buf[..], base, at, wantEof, one);
        } else {
          FillStops(dir, start, buf[..], base, at, wantEof, one);
        }
        var partial := ReadDir(buf, at, buf.Length - at, Default, skipRel);
        if partial == 0 {
          result := at;
          if wantEof && at != 0 && buf.Length - at >= NAME_OFFSET + 1 {
            StoreEof(buf, at);
            result := at + NAME_OFFSET + 1;
          }
          return;
        }
        if partial > buf.Length - at {
          result := if at == 0 then partial else at;
          return;
        }
        at := at + partial;
        var pad := Padding(base + at);
        if buf.Length - at < pad {
          result := at;
          return;
        }
        at := at + pad;
      }
    }
  }

  /* The loop that the header documents: fills the buffer, walks it, and goes on. */
  method List(h: Handle, buf: array<Byte>, base: int, wantEof: bool, skipRel: bool) returns (out: seq<Dirent>)
    requires ProperDirectory(h.dir) && h.pos <= |h.dir.entries| + 2
    modifies h, buf
    ensures out == Enumerate(h.dir, Start(old(h.pos), skipRel), old(buf[..]), base, wantEof)
  {
    hide Fill, Walk, Enumerate;
    out := [];
    while true
      invariant h.pos <= |h.dir.entries| + 2
      invariant out + Enumerate(h.dir, Start(h.pos, skipRel), buf[..], base, wantEof)
             == Enumerate(h.dir, Start(old(h.pos), skipRel), old(buf[..]), base, wantEof)
      decreases |h.dir.entries| + 2 - h.pos
    {
      ghost var start := Start(h.pos, skipRel);
      EnumerateRound(h.dir, start, buf[..], base, wantEof);
      WalkOfFill(h.dir, start, buf[..], base, 0, wantEof);
      FillDelivers(h.dir, start, buf[..], base, wantEof);
      var bufsize := h.ReadMultiple(buf, base, wantEof, skipRel);
      if bufsize == 0 {
        return;
      }
      if bufsize > buf.Length {
        return;
      }
      var some, eof := WalkBuffer(buf, base, bufsize);
      out := out + some;
      if eof {
        return;
      }
    }
  }

  /* The inner loop: the first record is taken to be valid, the others are tested. */
  method WalkBuffer(buf: array<Byte>, base: int, bufsize: nat) returns (out: seq<Dirent>, eof: bool)
    requires bufsize <= buf.Length && IsValid(buf[..], 0, bufsize)
    ensures Walked(out, eof) == Walk(buf[..], base, 0, bufsize)
  {
    hide Get, Walk, NameLength, Next;
    out, eof := [], false;
    var iter := 0;
    while true
      invariant 0 <= iter && IsValid(buf[..], iter, bufsize)
      invariant var rest := Walk(buf[..], base, iter, bufsize);
                Walked(out + rest.entries, rest.eof) == Walk(buf[..], base, 0, bufsize)
      decreases bufsize - iter
    {
      WalkStep(buf[..], base, iter, bufsize);
      if IsEof(buf[..], iter) {
        return out, true;
      }
      var next := Next(buf[..], base, iter);
      WalkInvalid(buf[..], base, next, bufsize);
      out := out + [Get(buf[..], iter)];
      iter := next;
      if !IsValid(buf[..], iter, bufsize) {
        return;
      }
    }
  }

  // A new buffer, with what the heap happens to hold.
  method Allocate(heap: seq<Byte>) returns (buf: array<Byte>)
    ensures fresh(buf) && buf[..] == heap
  {
    buf := new Byte[|heap|](i requires 0 <= i < |heap| => heap[i]);
    assert buf[..] == heap;
  }

  // A directory stream of the C library.
  class DIR {
    const handle: Handle
    var buf: array<Byte>
    var base: int
    var next: nat
    var loaded: nat

    constructor (handle: Handle, base: int)
      requires ProperDirectory(handle.dir) && handle.pos == 0
      ensures this.handle == handle && fresh(buf) && Open()
      ensures Model() == Opened(buf[..], base) && buf.Length == 12 + 512
    {
      this.handle, this.base := handle, base;
      buf := new Byte[NAME_OFFSET + 512];
      next, loaded := 0, 0;
      new;
    }

    ghost predicate Open()
      reads this, handle, buf
    {
      Good(handle.dir, Model())
    }

    ghost function Model(): Stream
      reads this, handle, buf
    {
      Stream(handle.pos, buf[..], base, next, loaded)
    }

    // Loads the buffer; when the next entry is too large for it, a larger one is installed.
    method Load(garbage: Garbage, newBase: int) returns (more: bool)
      requires Open() && Sized(garbage) && !IsValid(buf[..], next, loaded)
      modifies this, handle, buf
      ensures Open() && (buf == old(buf) || fresh(buf))
      ensures more ==> Rounds(handle.dir, Model()) < old(Rounds(handle.dir, Model()))
      ensures (if more then LibcDirectory.Read(handle.dir, Model(), garbage, newBase) else Served(None, Model()))
           == LibcDirectory.Read(handle.dir, old(Model()), garbage, newBase)
    {
      hide Fill, LibcDirectory.Read, IsValid, Rounds, ProperDirectory, Reloaded, Grown;
      ghost var s := Model();
      ghost var f := Fill(handle.dir, s.pos, s.mem, s.base, 0, true);
      ReadRound(handle.dir, s, garbage, newBase);
      var load := handle.ReadMultiple(buf, base, true, false);
      if load == 0 {
        return false;
      }
      if load > buf.Length {
        buf := Allocate(garbage(2 * load));
        base := newBase;
      }
      next, loaded := 0, load;
      more := true;
      assert Model() == if f.result <= |s.mem| then Reloaded(s, f) else Grown(f, garbage, newBase);
    }

    /* libc_readdir.  `garbage` is what the heap holds where a new buffer is allocated, and
       `newBase` the address of that buffer. */
    method Read(garbage: Garbage, newBase: int) returns (r: Option<Dirent>)
      requires Open() && Sized(garbage)
      modifies this, handle, buf
      ensures Open() && (buf == old(buf) || fresh(buf))
      ensures Served(r, Model()) == LibcDirectory.Read(handle.dir, old(Model()), garbage, newBase)
    {
      hide Fill, Get, Next, NameLength, Rounds;
      while !IsValid(buf[..], next, loaded)
        invariant Open() && (buf == old(buf) || fresh(buf))
        invariant LibcDirectory.Read(handle.dir, Model(), garbage, newBase)
               == LibcDirectory.Read(handle.dir, old(Model()), garbage, newBase)
        decreases Rounds(handle.dir, Model())
      {
        var more := Load(garbage, newBase);
        if !more {
          return None;
        }
      }
      if IsEof(buf[..], next) {
        return None;
      }
      r := Some(Get(buf[..], next));
      next := Next(buf[..], base, next);
    }

    /* libc_rewinddir */
    method Rewind()
      requires Open()
      modifies this, handle
      ensures Open() && Model() == Rewound(old(Model()))
      ensures handle.pos == 0 && loaded == 0
      ensures next == old(next) && base == old(base) && buf == old(buf) && buf[..] == old(buf[..])
    {
      handle.pos := 0;
      loaded := 0;
    }
  }
}
