/**
 The kernel objects behind the functions of the other modules: the exception cache
 of a loaded module, and the thread whose context the unwinder moves from frame to
 frame.
 */
module Unwinder {
  import opened Wrappers
  import opened HandlerTable
  import opened AddressTree
  import opened HandlerCache
  import opened CachedLookup
  import opened Structured
  import opened Expansion
  import opened Machine
  import opened Correctness
  import opened CachedMachine

  /* The first stored handler that takes the code. */
  method Pick(stored: seq<Info>, code: Code) returns (r: Option<Info>)
    ensures r == FirstTaken(stored, code)
  {
    var i := 0;
    while i < |stored|
      invariant 0 <= i <= |stored|
      invariant FirstTaken(stored, code) == FirstTaken(stored[i..], code)
    {
      if stored[i].row.flags.hasMask && stored[i].row.mask != code {
        i := i + 1;
        continue;
      }
      return Some(stored[i]);
    }
    return None;
  }

  /* The centre bit of the smallest aligned block around an image: the highest bit in which
     two addresses differ, or bit zero. */
  method FirstUncommonBit(min: int, max: int, width: nat) returns (bit: nat)
    requires width > 0
    ensures bit == UncommonBit(min, max, width - 1)
    ensures bit < width && (bit != 0 ==> Bit(min, bit) != Bit(max, bit))
    ensures forall i | bit < i < width :: Bit(min, i) == Bit(max, i)
  {
    bit := width - 1;
    while bit != 0 && Bit(min, bit) == Bit(max, bit)
      invariant bit < width && forall i | bit < i < width :: Bit(min, i) == Bit(max, i)
      invariant UncommonBit(min, max, bit) == UncommonBit(min, max, width - 1)
    {
      bit := bit - 1;
    }
  }

  // The exception cache of a module (`struct except_cache`), with its handler table.
  class ExceptCache {
    const table: seq<Handler>
    const img: Image
    const width: nat
    var tree: Tree<seq<Info>>
    var base: int
    var bits: nat

    constructor (table: seq<Handler>, img: Image, width: nat)
      requires Addressable(img, width)
      ensures Ready() && Model() == Cold
      ensures this.table == table && this.img == img && this.width == width
    {
      this.table, this.img, this.width := table, img, width;
      tree, base, bits := Empty, 0, 0;
    }

    ghost predicate Ready()
      reads this
    {
      && Addressable(img, width)
      && (tree.Node? ==> base == Base(img, width) && bits == Bits(img, width) && Valid(tree, base, bits))
    }

    ghost function Model(): Cache
      reads this
    {
      if tree.Empty? then Cold else Warm(tree)
    }

    /* except_cache_lookup: answers from the cache, or builds an entry and keeps it
       unless it would meet an existing one. */
    method Find(ip: int, code: Code, canAllocate: bool) returns (r: Option<Info>)
      requires Ready() && img.min <= ip < img.end
      modifies this
      ensures Ready()
      ensures SoundTable(table, img) ==>
                Answer(Model(), r) == Lookup(old(Model()), table, img, width, ip, code, canAllocate)
    {
      hide Insert, Build;
      BlockSpansImage(img, width);
      if tree.Node? {
        var found := LocateAt(tree, ip, base, bits);
        if found.At? {
          r := Pick(found.item.val, code);
          return;
        }
      }
      if !canAllocate {
        r := LookupWithoutCache(table, img, ip, code);
        return;
      }
      var info := AllocateInfo(table, img, ip);
      if info.Corrupt? {
        return None;
      }
      r := Pick(info.entry.val, code);
      Keep(info.entry);
    }

    // Keeps a new entry, unless it would meet an existing one.
    method Keep(entry: Entry)
      requires Ready() && img.min <= entry.lo <= entry.hi < img.end
      modifies this
      ensures Ready() && Model() == Insert(old(Model()), entry, img, width)
    {
      BlockSpansImage(img, width);
      if tree.Empty? {
        var bit := FirstUncommonBit(img.min, img.end - 1, width);
        base, bits := img.min - Low(img.min, bit + 1), bit + 1;
      } else if ExistsAt(tree, entry.lo, entry.hi, base, bits) {
        return;
      }
      assert forall a <- Items(tree) :: !Overlap(entry, a);
      tree := InsertAt(tree, entry, base, bits);
    }

    /* except_cache_clear */
    method Clear()
      requires Ready()
      modifies this
      ensures Ready() && Model() == Cold
    {
      tree := Empty;
    }
  }

  /* The table that the macros emit has no corrupt row, wherever it is loaded. */
  lemma ProgramRowsSound(prog: Program, at: Placement)
    ensures SoundTable(Table(prog, at), ImageOf(prog, at))
  {
    RowsUpToWithin(prog, |prog|);
    RowsAreFlat(prog, |prog|);
    var rows, t := ProgramRows(prog), Table(prog, at);
    PlacedAt(rows, at);
    forall h | h in t ensures Sound(h, ImageOf(prog, at)) {
      var k :| 0 <= k < |t| && t[k] == h;
      assert rows[k] in rows;
      PlacedRow(rows[k], at);
    }
  }

  lemma {:induction false} RowsUpToWithin(prog: Program, n: nat)
    requires n <= |prog|
    ensures forall h <- RowsUpTo(prog, n) :: Within(h, 0, Offset(prog, n))
  {
    if n > 0 {
      RowsUpToWithin(prog, n - 1);
      RowsWithin(prog[n - 1], Offset(prog, n - 1));
      OffsetBound(prog, n);
    }
  }

  lemma {:induction false} OffsetBound(prog: Program, n: nat)
    requires n <= |prog|
    ensures Offset(prog, n) <= |ProgramCode(prog)|
  {
    if n < |prog| {
      OffsetsGrow(prog, n, |prog|);
    }
  }

  // A thread of a program: its registers and stack, and the exception cache of the image.
  class Thread {
    const prog: Program
    const at: Placement
    const cache: ExceptCache
    var pc: int
    var locals: Locals
    var stack: seq<Frame>
    var world: World

    constructor (prog: Program, at: Placement, cache: ExceptCache, w: World)
      requires cache.table == Table(prog, at) && cache.img == ImageOf(prog, at) && cache.Ready()
      ensures Loaded() && fresh(this) && this.cache == cache && this.prog == prog && this.at == at
      ensures Running(pc, locals, stack, world) == Start(w)
    {
      this.prog, this.at, this.cache := prog, at, cache;
      pc, locals, stack, world := 0, map[], [], w;
    }

    ghost predicate Loaded()
      reads this, cache
    {
      cache.table == Table(prog, at) && cache.img == ImageOf(prog, at) && cache.Ready()
    }

    /* error_rethrow: searches for a handler at the current instruction, then frame by
       frame at the call that led into it.  Without one the exception is unhandled. */
    method Rethrow(alloc: Allocator) returns (handled: bool)
      requires Loaded()
      modifies this, cache
      ensures Loaded() && world == old(world)
      ensures Configuration(if handled then Running(pc, locals, stack, world) else Halted(Exc, world), cache.Model())
           == CachedUnwind(prog, at, cache.width, alloc, old(cache.Model()),
                           old(pc), old(locals), old(stack), old(world))
    {
      hide Table, ImageOf, Lookup, SearchAt, ProgramCode;
      ProgramRowsSound(prog, at);
      var ip := pc;
      while true
        invariant Loaded() && world == old(world)
        invariant CachedUnwind(prog, at, cache.width, alloc, cache.Model(), ip, locals, stack, world)
               == CachedUnwind(prog, at, cache.width, alloc, old(cache.Model()), old(pc), old(locals), old(stack),
                               old(world))
        decreases |stack|
      {
        var h := Search(ip, alloc);
        if h.Some? {
          pc := h.value.entry;
          return true;
        }
        if stack == [] {
          return false;
        }
        var n := |stack| - 1;
        ip, locals, stack := stack[n].ret - 1, stack[n].locals, stack[..n];
      }
    }

    /* except_findexcept: the search at one address. */
    method Search(ip: int, alloc: Allocator) returns (h: Option<Info>)
      requires Loaded()
      modifies cache
      ensures Loaded()
      ensures Answer(cache.Model(), h) == SearchAt(prog, at, cache.width, alloc, old(cache.Model()), ip, world)
    {
      hide Table, Lookup, ProgramCode;
      ProgramRowsSound(prog, at);
      if !InCode(prog, ip) {
        return None;
      }
      h := cache.Find(ip, world.cur, alloc(world.trace, ip));
    }

    /* error_throw: sets the exception code and searches for a handler. */
    method Throw(c: Code, alloc: Allocator) returns (handled: bool)
      requires Loaded()
      modifies this, cache
      ensures Loaded() && world == old(world).Raise(c)
      ensures Configuration(if handled then Running(pc, locals, stack, world) else Halted(Exc, world), cache.Model())
           == CachedUnwind(prog, at, cache.width, alloc, old(cache.Model()), old(pc), old(locals), old(stack),
                           old(world).Raise(c))
    {
      world := world.Raise(c);
      handled := Rethrow(alloc);
    }
  }
}
