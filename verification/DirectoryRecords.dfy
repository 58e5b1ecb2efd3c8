/**
 Directory records as `xreaddir` packs them into a buffer and the macros
 READDIR_MULTIPLE_GETNEXT, _ISVALID and _ISEOF walk them.

 A record is `struct dirent` of the generic headers: eight bytes of inode number, a
 type byte, one byte of padding, a 16-bit name length, and the name with its NUL.
 Buffers are byte sequences; `base` is the address of their first byte, on which the
 alignment of records depends.
 */
module DirectoryRecords {

  type Byte = b: nat | b < 256

  const NUL: Byte := 0

  const TYPE_OFFSET := 8
  const NAMLEN_OFFSET := 10
  const NAME_OFFSET := 12
  const ALIGNMENT := 8

  datatype Dirent = Dirent(ino: seq<Byte>, kind: Byte, name: seq<Byte>)

  // What a directory can hold: names of at least one byte, of a 16-bit length.
  predicate Proper(e: Dirent) {
    |e.ino| == 8 && 0 < |e.name| < 65536
  }

  function RecordSize(e: Dirent): nat {
    NAME_OFFSET + |e.name| + 1
  }

  // ------------------------------------------------------------------- alignment

  // The bytes from an address to the next multiple of the alignment.
  function Padding(address: int): nat {
    (ALIGNMENT - address % ALIGNMENT) % ALIGNMENT
  }

  /* Records start at multiples of eight, the size of an inode number. */
  lemma PaddingAligns(address: int)
    ensures 0 <= Padding(address) < 8 && (address + Padding(address)) % 8 == 0
  {
  }

  // ---------------------------------------------------------------- writing records

  function LengthBytes(n: nat): (s: seq<Byte>)
    requires n < 65536
    ensures |s| == 2
  {
    var lo: Byte := n % 256;
    assert n / 256 < 256;
    var hi: Byte := n / 256;
    [lo, hi]
  }

  // `mem` with the bytes from `at` on replaced.
  function Splice(mem: seq<Byte>, at: nat, bytes: seq<Byte>): (mem': seq<Byte>)
    requires at + |bytes| <= |mem|
    ensures |mem'| == |mem|
  {
    mem[..at] + bytes + mem[at + |bytes|..]
  }

  /* A record at `at`, of which `n` bytes of name and NUL are copied.  The padding byte
     of the structure is not written. */
  function Put(mem: seq<Byte>, at: nat, e: Dirent, n: nat): (mem': seq<Byte>)
    requires Proper(e) && n <= |e.name| + 1 && at + NAME_OFFSET + n <= |mem|
    ensures |mem'| == |mem|
  {
    var m0 := Splice(mem, at, e.ino);
    var m1 := Splice(m0, at + TYPE_OFFSET, [e.kind]);
    var m2 := Splice(m1, at + NAMLEN_OFFSET, LengthBytes(|e.name|));
    Splice(m2, at + NAME_OFFSET, (e.name + [NUL])[..n])
  }

  // The end-of-directory record: an empty name; the other fields are left as they are.
  function PutEof(mem: seq<Byte>, at: nat): (mem': seq<Byte>)
    requires at + NAME_OFFSET + 1 <= |mem|
    ensures |mem'| == |mem|
  {
    mem[at + NAMLEN_OFFSET := 0][at + NAMLEN_OFFSET + 1 := 0][at + NAME_OFFSET := 0]
  }

  /* The layout of a record: inode number, type, length of the name with the low byte first,
     and as much as was asked for of the name and its NUL.  The byte behind the type, and
     everything around the record, is left as it was. */
  lemma PutWrites(mem: seq<Byte>, at: nat, e: Dirent, n: nat)
    requires Proper(e) && n <= |e.name| + 1 && at + 12 + n <= |mem|
    ensures var m := Put(mem, at, e, n);
            && m[at..at + 8] == e.ino && m[at + 8] == e.kind
            && m[at + 10] == |e.name| % 256 && m[at + 11] == |e.name| / 256
            && (forall i | at + 12 <= i < at + 12 + n ::
                  m[i] == if i < at + 12 + |e.name| then e.name[i - at - 12] else 0)
            && (forall i | 0 <= i < |mem| && (i < at || i == at + 9 || at + 12 + n <= i) :: m[i] == mem[i])
  {
    hide Splice;
    var m0 := Splice(mem, at, e.ino);
    var m1 := Splice(m0, at + 8, [e.kind]);
    var m2 := Splice(m1, at + 10, LengthBytes(|e.name|));
    var name := (e.name + [NUL])[..n];
    SpliceAt(mem, at, e.ino);
    SpliceAt(m0, at + 8, [e.kind]);
    SpliceAt(m1, at + 10, LengthBytes(|e.name|));
    SpliceAt(m2, at + 12, name);
    assert forall i | 0 <= i < n :: name[i] == if i < |e.name| then e.name[i] else 0;
  }

  lemma SpliceAt(mem: seq<Byte>, at: nat, bytes: seq<Byte>)
    requires at + |bytes| <= |mem|
    ensures forall i | 0 <= i < |mem| ::
              Splice(mem, at, bytes)[i] == if at <= i < at + |bytes| then bytes[i - at] else mem[i]
  {
  }

  /* A whole record ends with the NUL of its name. */
  lemma PutEnds(mem: seq<Byte>, at: nat, e: Dirent)
    requires Proper(e) && at + 12 + |e.name| + 1 <= |mem|
    ensures var m := Put(mem, at, e, |e.name| + 1);
            m[at + 12..at + 12 + |e.name|] == e.name && m[at + 12 + |e.name|] == 0
  {
    hide Put;
    PutWrites(mem, at, e, |e.name| + 1);
  }

  /* The end record has a name of no length, whose NUL is written as well. */
  lemma PutEofWrites(mem: seq<Byte>, at: nat)
    requires at + 13 <= |mem|
    ensures var m := PutEof(mem, at);
            && m[at + 10] == 0 && m[at + 11] == 0 && m[at + 12] == 0
            && forall i | 0 <= i < |mem| && !(at + 10 <= i <= at + 12) :: m[i] == mem[i]
  {
  }

  // ---------------------------------------------------------------- reading records

  function NameLength(mem: seq<Byte>, at: nat): nat
    requires at + NAME_OFFSET <= |mem|
  {
    var lo: nat, hi: nat := mem[at + NAMLEN_OFFSET], mem[at + NAMLEN_OFFSET + 1];
    lo + 256 * hi
  }

  function Get(mem: seq<Byte>, at: nat): Dirent
    requires at + NAME_OFFSET <= |mem| && at + NAME_OFFSET + NameLength(mem, at) <= |mem|
  {
    var name := at + NAME_OFFSET;
    Dirent(mem[at..at + 8], mem[at + TYPE_OFFSET], mem[name..name + NameLength(mem, at)])
  }

  // READDIR_MULTIPLE_GETNEXT
  function Next(mem: seq<Byte>, base: int, at: nat): nat
    requires at + NAME_OFFSET <= |mem|
  {
    var end := at + NAME_OFFSET + NameLength(mem, at) + 1;
    end + Padding(base + end)
  }

  /* The next record starts at the least multiple of eight behind the NUL of this one. */
  lemma NextIsAligned(mem: seq<Byte>, base: int, at: nat)
    requires at + 12 <= |mem|
    ensures var low: nat, high: nat := mem[at + 10], mem[at + 11];
            var end, next := base + at + 12 + low + 256 * high + 1, base + Next(mem, base, at);
            next % 8 == 0 && end <= next < end + 8
  {
    PaddingAligns(base + at + 12 + NameLength(mem, at) + 1);
  }

  // READDIR_MULTIPLE_ISVALID: the name length is read only when the whole header is
  // inside the reported size.
  predicate IsValid(mem: seq<Byte>, at: nat, size: nat)
    requires size <= |mem|
  {
    at + NAME_OFFSET < size && at + NAME_OFFSET + NameLength(mem, at) < size
  }

  // READDIR_MULTIPLE_ISEOF
  predicate IsEof(mem: seq<Byte>, at: nat)
    requires at + NAME_OFFSET <= |mem|
  {
    NameLength(mem, at) == 0
  }

  lemma PutThenGet(mem: seq<Byte>, at: nat, e: Dirent)
    requires Proper(e) && at + RecordSize(e) <= |mem|
    ensures var mem' := Put(mem, at, e, |e.name| + 1);
            NameLength(mem', at) == |e.name| && Get(mem', at) == e
    ensures var mem' := Put(mem, at, e, |e.name| + 1);
            forall i | 0 <= i < |mem| && (i < at || at + RecordSize(e) <= i) :: mem'[i] == mem[i]
  {
    hide Put;
    PutWrites(mem, at, e, |e.name| + 1);
    PutEnds(mem, at, e);
  }

  // --------------------------------------------------------------------- the walk

  datatype Walked = Walked(entries: seq<Dirent>, eof: bool)

  /* The entries from `at` on, up to the end of the reported size or an end record, on
     arbitrary bytes.  Every access is inside the buffer. */
  function Walk(mem: seq<Byte>, base: int, at: nat, size: nat): Walked
    requires size <= |mem|
    decreases size - at
  {
    if !IsValid(mem, at, size) then Walked([], false)
    else if IsEof(mem, at) then Walked([], true)
    else
      var rest := Walk(mem, base, Next(mem, base, at), size);
      Walked([Get(mem, at)] + rest.entries, rest.eof)
  }

  // Where the records of a walk lie.
  function Spots(mem: seq<Byte>, base: int, at: nat, size: nat): seq<nat>
    requires size <= |mem|
    decreases size - at
  {
    if !IsValid(mem, at, size) || IsEof(mem, at) then []
    else [at] + Spots(mem, base, Next(mem, base, at), size)
  }

  /* On any bytes, every record that the walk yields lies inside the reported size, with the
     byte after its name, and behind the record before it; there are no more records than
     headers fit. */
  lemma {:induction false} WalkInside(mem: seq<Byte>, base: int, at: nat, size: nat)
    requires size <= |mem|
    ensures var es, spots := Walk(mem, base, at, size).entries, Spots(mem, base, at, size);
            && |es| == |spots|
            && (at <= size ==> (NAME_OFFSET + 2) * |es| <= size - at)
            && (forall i | 0 <= i < |es| ::
                  && at <= spots[i] && IsValid(mem, spots[i], size) && es[i] == Get(mem, spots[i])
                  && spots[i] + RecordSize(es[i]) <= size && es[i].name != [])
            && (forall i | 0 < i < |es| :: spots[i - 1] + RecordSize(es[i - 1]) <= spots[i])
    decreases size - at
  {
    hide Get;
    if IsValid(mem, at, size) && !IsEof(mem, at) {
      var next := Next(mem, base, at);
      WalkInside(mem, base, next, size);
      GetSize(mem, at);
      var es, spots := Walk(mem, base, next, size).entries, Spots(mem, base, next, size);
      assert Walk(mem, base, at, size).entries == [Get(mem, at)] + es && Spots(mem, base, at, size) == [at] + spots;
    }
  }

  /* On any bytes, every record of a walk but the first is aligned. */
  lemma {:induction false} WalkAligned(mem: seq<Byte>, base: int, at: nat, size: nat)
    requires size <= |mem|
    ensures var spots := Spots(mem, base, at, size);
            && (spots != [] ==> spots[0] == at)
            && forall i | 0 < i < |spots| :: (base + spots[i]) % 8 == 0
    decreases size - at
  {
    hide Next;
    if IsValid(mem, at, size) && !IsEof(mem, at) {
      NextIsAligned(mem, base, at);
      var next := Next(mem, base, at);
      WalkAligned(mem, base, next, size);
      assert Spots(mem, base, at, size) == [at] + Spots(mem, base, next, size);
    }
  }

  lemma GetSize(mem: seq<Byte>, at: nat)
    requires at + NAME_OFFSET <= |mem| && at + NAME_OFFSET + NameLength(mem, at) <= |mem|
    ensures RecordSize(Get(mem, at)) == NAME_OFFSET + NameLength(mem, at) + 1
  {
  }

  // One round of the loop over a buffer.
  lemma WalkStep(mem: seq<Byte>, base: int, at: nat, size: nat)
    requires size <= |mem| && IsValid(mem, at, size)
    ensures Next(mem, base, at) > at
    ensures var rest := Walk(mem, base, Next(mem, base, at), size);
            Walk(mem, base, at, size) ==
            if IsEof(mem, at) then Walked([], true) else Walked([Get(mem, at)] + rest.entries, rest.eof)
  {
  }

  // -------------------------------------------------------------------- round trip

  // Where a list of records, each at the aligned end of the one before, ends.
  function End(base: int, at: nat, es: seq<Dirent>): (end: nat)
    ensures at <= end
    decreases |es|
  {
    if es == [] then at
    else
      var end := at + RecordSize(es[0]);
      if |es| == 1 then end else End(base, end + Padding(base + end), es[1..])
  }

  lemma EndBeyond(base: int, at: nat, es: seq<Dirent>)
    requires es != []
    ensures at + RecordSize(es[0]) <= End(base, at, es)
  {
  }

  // The records of `es`, laid out from `at` on.
  function Pack(mem: seq<Byte>, base: int, at: nat, es: seq<Dirent>): (mem': seq<Byte>)
    requires End(base, at, es) <= |mem| && forall e <- es :: Proper(e)
    ensures |mem'| == |mem|
    decreases |es|
  {
    if es == [] then mem
    else
      EndBeyond(base, at, es);
      var end := at + RecordSize(es[0]);
      var first := Put(mem, at, es[0], |es[0].name| + 1);
      if |es| == 1 then first else Pack(first, base, end + Padding(base + end), es[1..])
  }

  lemma {:induction false} PackKeeps(mem: seq<Byte>, base: int, at: nat, es: seq<Dirent>)
    requires End(base, at, es) <= |mem| && forall e <- es :: Proper(e)
    ensures forall i | 0 <= i < at :: Pack(mem, base, at, es)[i] == mem[i]
    decreases |es|
  {
    hide Put, Padding;
    if es != [] {
      EndBeyond(base, at, es);
      PutThenGet(mem, at, es[0]);
      if |es| > 1 {
        var end := at + RecordSize(es[0]);
        PackKeeps(Put(mem, at, es[0], |es[0].name| + 1), base, end + Padding(base + end), es[1..]);
      }
    }
  }

  /* Pack and walk.  Walking a packed list returns exactly that list, for every base
     address and every reported size from the last NUL up to a whole header after the
     next aligned record start. */
  lemma {:induction false} PackThenWalk(mem: seq<Byte>, base: int, at: nat, es: seq<Dirent>, size: nat)
    requires es != [] && (forall e <- es :: Proper(e)) && End(base, at, es) <= size <= |mem|
    requires var end := End(base, at, es); size <= end + Padding(base + end) + NAME_OFFSET
    ensures Walk(Pack(mem, base, at, es), base, at, size) == Walked(es, false)
    decreases |es|
  {
    hide Put, Padding, Get, NameLength, Walk;
    var e, mem' := es[0], Pack(mem, base, at, es);
    EndBeyond(base, at, es);
    var first, end := Put(mem, at, e, |e.name| + 1), at + RecordSize(e);
    var next := end + Padding(base + end);
    PutThenGet(mem, at, e);
    if |es| > 1 {
      PackKeeps(first, base, next, es[1..]);
      PackThenWalk(first, base, next, es[1..], size);
    } else {
      WalkBeyond(mem', base, next, size);
    }
    GetFrame(first, mem', at, e);
    WalkOne(mem', base, at, size, e);
    assert es == [e] + es[1..];
  }

  /* In a packed list every record lies where the walk finds it, with a NUL behind its name. */
  lemma {:induction false} PackEnds(mem: seq<Byte>, base: int, at: nat, es: seq<Dirent>, size: nat)
    requires es != [] && (forall e <- es :: Proper(e)) && End(base, at, es) <= size <= |mem|
    requires var end := End(base, at, es); size <= end + Padding(base + end) + NAME_OFFSET
    ensures var m := Pack(mem, base, at, es);
            var spots := Spots(m, base, at, size);
            && |spots| == |es|
            && forall i | 0 <= i < |es| ::
                 spots[i] + 12 + |es[i].name| < |m| && m[spots[i] + 12 + |es[i].name|] == 0
    decreases |es|
  {
    hide Put, Padding, Get, NameLength, Spots;
    var e, m := es[0], Pack(mem, base, at, es);
    EndBeyond(base, at, es);
    var first, end := Put(mem, at, e, |e.name| + 1), at + RecordSize(e);
    var next := end + Padding(base + end);
    PutThenGet(mem, at, e);
    PutEnds(mem, at, e);
    if |es| > 1 {
      PackKeeps(first, base, next, es[1..]);
      PackEnds(first, base, next, es[1..], size);
    } else {
      SpotsBeyond(m, base, next, size);
    }
    GetFrame(first, m, at, e);
    SpotsOne(m, base, at, size, e);
  }

  lemma SpotsBeyond(mem: seq<Byte>, base: int, at: nat, size: nat)
    requires size <= at + NAME_OFFSET && size <= |mem|
    ensures Spots(mem, base, at, size) == []
  {
  }

  lemma SpotsOne(mem: seq<Byte>, base: int, at: nat, size: nat, e: Dirent)
    requires Proper(e) && at + RecordSize(e) <= size <= |mem| && NameLength(mem, at) == |e.name|
    ensures var end := at + RecordSize(e);
            Spots(mem, base, at, size) == [at] + Spots(mem, base, end + Padding(base + end), size)
  {
  }

  lemma GetFrame(mem: seq<Byte>, mem': seq<Byte>, at: nat, e: Dirent)
    requires at + RecordSize(e) <= |mem| == |mem'| && NameLength(mem, at) == |e.name| && Get(mem, at) == e
    requires forall i | 0 <= i < at + RecordSize(e) :: mem[i] == mem'[i]
    ensures NameLength(mem', at) == |e.name| && Get(mem', at) == e
  {
    assert mem[at..at + 8] == mem'[at..at + 8];
    var name := at + NAME_OFFSET;
    assert mem[name..name + |e.name|] == mem'[name..name + |e.name|];
  }

  lemma WalkBeyond(mem: seq<Byte>, base: int, at: nat, size: nat)
    requires size <= at + NAME_OFFSET && size <= |mem|
    ensures Walk(mem, base, at, size) == Walked([], false)
  {
  }

  lemma WalkOne(mem: seq<Byte>, base: int, at: nat, size: nat, e: Dirent)
    requires Proper(e) && at + RecordSize(e) <= size <= |mem|
    requires NameLength(mem, at) == |e.name| && Get(mem, at) == e
    ensures var end := at + RecordSize(e);
            var rest := Walk(mem, base, end + Padding(base + end), size);
            Walk(mem, base, at, size) == Walked([e] + rest.entries, rest.eof)
  {
  }
}
