/**
 Lookup through the cache, over whole runs of queries: which sequences of queries
 are answered as the plain search through the table would answer them.
 */
module CachedLookup {
  import opened Wrappers
  import opened HandlerTable
  import opened AddressTree
  import opened HandlerCache

  // ------------------------------------------------- the block that spans an image

  // `n` without its low `i` bits.
  function Shift(n: int, i: nat): int {
    if i == 0 then n else Shift(n, i - 1) / 2
  }

  function Bit(n: int, i: nat): int {
    Shift(n, i) % 2
  }

  // The value of the low `i` bits of `n`.
  function Low(n: int, i: nat): int {
    if i == 0 then 0 else Low(n, i - 1) + if Bit(n, i - 1) == 1 then Pow2(i - 1) else 0
  }

  // `q` with `i` zero bits appended.
  function Grow(q: int, i: nat): int
    decreases i
  {
    if i == 0 then q else Grow(2 * q, i - 1)
  }

  lemma {:induction false} LowRange(n: int, i: nat)
    ensures 0 <= Low(n, i) < Pow2(i)
  {
    if i != 0 {
      LowRange(n, i - 1);
    }
  }

  lemma {:induction false} GrowNext(q: int, i: nat)
    ensures Grow(q + 1, i) == Grow(q, i) + Pow2(i)
    decreases i
  {
    if i != 0 {
      GrowNext(2 * q, i - 1);
      GrowNext(2 * q + 1, i - 1);
    }
  }

  lemma {:induction false} HighBits(n: int, i: nat)
    ensures n - Low(n, i) == Grow(Shift(n, i), i)
  {
    if i != 0 {
      HighBits(n, i - 1);
      GrowNext(2 * Shift(n, i), i - 1);
    }
  }

  lemma {:induction false} ShiftRange(n: int, i: nat, width: nat)
    requires 0 <= n < Pow2(width) && i <= width
    ensures 0 <= Shift(n, i) < Pow2(width - i)
  {
    if i != 0 {
      ShiftRange(n, i - 1, width);
    }
  }

  // The highest bit in which two addresses differ, looking down from bit `i`;
  // bit 0 when they agree in all of them.
  function UncommonBit(a: int, b: int, i: nat): nat {
    if i == 0 || Bit(a, i) != Bit(b, i) then i else UncommonBit(a, b, i - 1)
  }

  lemma {:induction false} UncommonBitAgrees(a: int, b: int, i: nat)
    requires Shift(a, i + 1) == Shift(b, i + 1)
    ensures var n := UncommonBit(a, b, i); Shift(a, n + 1) == Shift(b, n + 1)
  {
    if i != 0 && Bit(a, i) == Bit(b, i) {
      UncommonBitAgrees(a, b, i - 1);
    }
  }

  lemma {:induction false} UncommonBitDiffers(a: int, b: int, i: nat)
    ensures var n := UncommonBit(a, b, i); n == 0 || Bit(a, n) != Bit(b, n)
  {
    if i != 0 && Bit(a, i) == Bit(b, i) {
      UncommonBitDiffers(a, b, i - 1);
    }
  }

  // An image that fits the `width` address bits of the machine.
  predicate Addressable(img: Image, width: nat) {
    width > 0 && 0 <= img.min < img.end <= Pow2(width)
  }

  function Bits(img: Image, width: nat): nat
    requires Addressable(img, width)
  {
    UncommonBit(img.min, img.end - 1, width - 1) + 1
  }

  function Base(img: Image, width: nat): int
    requires Addressable(img, width)
  {
    img.min - Low(img.min, Bits(img, width))
  }

  /* The block chosen on first use contains the whole image, which the source
     asserts of its centre point and bit index.  It starts at a multiple of its size, and a
     block of half the size does not do: the image begins and ends on different sides of the
     centre, unless it is a single address. */
  lemma BlockSpansImage(img: Image, width: nat)
    requires Addressable(img, width)
    ensures Base(img, width) <= img.min < img.end <= Base(img, width) + Pow2(Bits(img, width))
    ensures Base(img, width) == Grow(Shift(img.min, Bits(img, width)), Bits(img, width))
    ensures Bits(img, width) == 1 || Bit(img.min, Bits(img, width) - 1) != Bit(img.end - 1, Bits(img, width) - 1)
  {
    var max, bits := img.end - 1, Bits(img, width);
    ShiftRange(img.min, width, width);
    ShiftRange(max, width, width);
    UncommonBitAgrees(img.min, max, width - 1);
    UncommonBitDiffers(img.min, max, width - 1);
    HighBits(img.min, bits);
    HighBits(max, bits);
    LowRange(img.min, bits);
    LowRange(max, bits);
  }

  // --------------------------------------------------------------- one cached query

  datatype Cache = Cold | Warm(tree: Tree<seq<Info>>)

  ghost predicate Shaped(c: Cache, img: Image, width: nat) {
    && Addressable(img, width)
    && (c.Warm? ==> Valid(c.tree, Base(img, width), Bits(img, width)))
  }

  // Every entry answers like the table, for all of its range.
  ghost predicate Faithful(c: Cache, t: seq<Handler>, img: Image) {
    c.Warm? ==> forall e <- Items(c.tree) :: HandlerCache.Faithful(e, t, img)
  }

  datatype Answer = Answer(cache: Cache, handler: Option<Info>)

  // A query at `ip`.  `canAllocate` is false when no memory for an entry can be had,
  // or when an entry is being allocated already.  A failed construction is taken for a
  // corrupt table, and answered by nothing.
  function Lookup(c: Cache, t: seq<Handler>, img: Image, width: nat, ip: int, code: Code,
                  canAllocate: bool): (r: Answer)
    requires Shaped(c, img, width) && img.min <= ip < img.end
    ensures Shaped(r.cache, img, width)
  {
    BlockSpansImage(img, width);
    var base, bits := Base(img, width), Bits(img, width);
    var found := if c.Warm? then Locate(c.tree, ip, base, bits) else Missing;
    if found.At? then
      Answer(c, FirstTaken(found.item.val, code))
    else if !canAllocate then
      Answer(c, PlainSearch(t, img, ip, code))
    else match Build(t, img, ip)
      case None => Answer(c, None)
      case Some(e) => Answer(Insert(c, e, img, width), FirstTaken(e.val, code))
  }

  // Keeps the new entry, unless it meets one that is there already.
  function Insert(c: Cache, e: Entry, img: Image, width: nat): (r: Cache)
    requires Shaped(c, img, width) && img.min <= e.lo <= e.hi < img.end
    ensures Shaped(r, img, width)
    ensures r == c || (r.Warm? && Items(r.tree) == (if c.Warm? then Items(c.tree) else {}) + {e})
    ensures r == c ==> c.Warm? && exists a <- Items(c.tree) :: e.lo <= a.hi && a.lo <= e.hi
  {
    BlockSpansImage(img, width);
    var base, bits := Base(img, width), Bits(img, width);
    if c.Cold? then
      Warm(InsertAt(Empty, e, base, bits))
    else if ExistsAt(c.tree, e.lo, e.hi, base, bits) then
      c
    else
      assert forall a <- Items(c.tree) :: !Overlap(e, a);
      Warm(InsertAt(c.tree, e, base, bits))
  }

  // What a query answers before anything is cached.
  lemma FreshAnswer(t: seq<Handler>, img: Image, width: nat, ip: int, code: Code)
    requires Addressable(img, width) && img.min <= ip < img.end
    ensures Lookup(Cold, t, img, width, ip, code, true).handler == Answered(t, img, ip, code)
  {
  }

  /* With a faithful cache a query is answered like the table, unless a descriptor is read
     at the wrong address, and leaves a faithful cache, unless the address is risky. */
  lemma LookupAnswers(c: Cache, t: seq<Handler>, img: Image, width: nat, ip: int, code: Code, canAllocate: bool)
    requires Shaped(c, img, width) && Faithful(c, t, img) && img.min <= ip < img.end
    ensures var r := Lookup(c, t, img, width, ip, code, canAllocate);
            && (!Misread(t, img, ip) ==> r.handler == PlainSearch(t, img, ip, code))
            && (!Risky(t, img, ip) ==> Faithful(r.cache, t, img))
  {
    hide Misread, Overlooks, PlainSearch, FirstTaken, Build;
    if !Misread(t, img, ip) {
      ReadRight(t, img, ip, code);
    }
    if !Risky(t, img, ip) {
      SafeIsFaithful(t, img, ip);
    }
  }

  // ------------------------------------------------------------------- whole runs

  datatype Event = Query(ip: int, code: Code, canAllocate: bool) | Clear

  ghost predicate InImage(es: seq<Event>, img: Image) {
    forall e <- es :: e.Query? ==> img.min <= e.ip < img.end
  }

  // What a run of queries and cache clears answers, query by query.
  function Answers(c: Cache, t: seq<Handler>, img: Image, width: nat, es: seq<Event>): seq<Option<Info>>
    requires Shaped(c, img, width) && InImage(es, img)
    decreases |es|
  {
    if es == [] then
      []
    else
      assert es[0] in es && forall e <- es[1..] :: e in es;
      match es[0]
      case Clear => Answers(Cold, t, img, width, es[1..])
      case Query(ip, code, canAllocate) =>
        var r := Lookup(c, t, img, width, ip, code, canAllocate);
        [r.handler] + Answers(r.cache, t, img, width, es[1..])
  }

  function PlainAnswers(t: seq<Handler>, img: Image, es: seq<Event>): seq<Option<Info>> {
    if es == [] then []
    else match es[0]
      case Clear => PlainAnswers(t, img, es[1..])
      case Query(ip, code, _) => [PlainSearch(t, img, ip, code)] + PlainAnswers(t, img, es[1..])
  }

  /* A run whose queries all avoid the risky addresses is answered exactly as without
     the cache, whatever allocations fail and whenever the cache is cleared. */
  lemma {:induction false} RunAnswers(c: Cache, t: seq<Handler>, img: Image, width: nat, es: seq<Event>)
    requires Shaped(c, img, width) && Faithful(c, t, img) && InImage(es, img)
    requires forall e <- es :: e.Query? ==> !Risky(t, img, e.ip)
    ensures Answers(c, t, img, width, es) == PlainAnswers(t, img, es)
    decreases |es|
  {
    if es != [] {
      assert es[0] in es && forall e <- es[1..] :: e in es;
      match es[0]
      case Clear =>
        RunAnswers(Cold, t, img, width, es[1..]);
      case Query(ip, code, canAllocate) =>
        LookupAnswers(c, t, img, width, ip, code, canAllocate);
        RunAnswers(Lookup(c, t, img, width, ip, code, canAllocate).cache, t, img, width, es[1..]);
    }
  }

  // On an empty cache, the query at `ip` is answered wrongly, or makes the cache answer one
  // at `other` wrongly; the second may build no entry of its own.
  ghost predicate Misled(t: seq<Handler>, img: Image, width: nat, ip: int, other: int, code: Code)
    requires Addressable(img, width) && img.min <= ip < img.end && img.min <= other < img.end
  {
    var first := Lookup(Cold, t, img, width, ip, code, true);
    || first.handler != PlainSearch(t, img, ip, code)
    || Lookup(first.cache, t, img, width, other, code, false).handler != PlainSearch(t, img, other, code)
  }

  /* The risky addresses are exactly the harmful ones: a query at such an address is, or
     makes a later one be, answered wrongly, and no other query does. */
  lemma RiskyIffMisled(t: seq<Handler>, img: Image, width: nat, ip: int)
    requires Addressable(img, width) && img.min <= ip < img.end && Readable(t, img)
    ensures Risky(t, img, ip)
       <==> exists other, code | img.min <= other < img.end :: Misled(t, img, width, ip, other, code)
  {
    hide Misread, Overlooks, FirstTaken, Build, PlainSearch;
    if Misread(t, img, ip) {
      var code := ReadWrong(t, img, ip);
      FreshAnswer(t, img, width, ip, code);
      assert Misled(t, img, width, ip, ip, code);
    } else if Overlooks(t, img, ip) {
      var code := OverlookedMisleads(t, img, width, ip);
    } else {
      forall other, code | img.min <= other < img.end ensures !Misled(t, img, width, ip, other, code) {
        NotMisled(t, img, width, ip, other, code);
      }
    }
  }

  lemma OverlookedMisleads(t: seq<Handler>, img: Image, width: nat, ip: int) returns (code: Code)
    requires Addressable(img, width) && img.min <= ip < img.end && Readable(t, img)
    requires !Misread(t, img, ip) && Overlooks(t, img, ip)
    ensures img.min <= ip - 1 && Misled(t, img, width, ip, ip - 1, code)
  {
    hide Misread, Overlooks;
    var h: Handler;
    code, h := OverlookedRow(t, img, ip);
    ReadRight(t, img, ip, code);
    RightRow(t, img, ip, code);
    AnsweredBy(t, img, ip, code);
    var e := Build(t, img, ip).value;
    var first := Lookup(Cold, t, img, width, ip, code, true);
    assert Items(first.cache.tree) == {e} && Contains(e, ip - 1);
    var second := Lookup(first.cache, t, img, width, ip - 1, code, false);
    assert second.handler == FirstTaken(e.val, code);
  }

  lemma NotMisled(t: seq<Handler>, img: Image, width: nat, ip: int, other: int, code: Code)
    requires Addressable(img, width) && img.min <= ip < img.end && img.min <= other < img.end && !Risky(t, img, ip)
    ensures !Misled(t, img, width, ip, other, code)
  {
    hide Misread, Overlooks, PlainSearch, FirstTaken, Build;
    LookupAnswers(Cold, t, img, width, ip, code, true);
  }

  /* On a table without corrupt rows the cache can never be told from the plain search, by
     any run of queries and cache clears whatever allocations fail in it, if and only if no
     address of the image is risky. */
  lemma TransparentIff(t: seq<Handler>, img: Image, width: nat)
    requires Addressable(img, width) && SoundTable(t, img)
    ensures (forall es | InImage(es, img) :: Answers(Cold, t, img, width, es) == PlainAnswers(t, img, es))
       <==> (forall ip | img.min <= ip < img.end :: !Risky(t, img, ip))
  {
    hide Risky, PlainSearch, Lookup, SoundTable, Answers, PlainAnswers;
    SoundIsReadable(t, img);
    if ip :| img.min <= ip < img.end && Risky(t, img, ip) {
      RiskyIffMisled(t, img, width, ip);
      var other, code :| img.min <= other < img.end && Misled(t, img, width, ip, other, code);
      MisledRun(t, img, width, ip, other, code);
    } else {
      forall es | InImage(es, img) ensures Answers(Cold, t, img, width, es) == PlainAnswers(t, img, es) {
        RunAnswers(Cold, t, img, width, es);
      }
    }
  }

  // The two queries of a misleading pair make up a run that shows it.
  lemma MisledRun(t: seq<Handler>, img: Image, width: nat, ip: int, other: int, code: Code)
    requires Addressable(img, width) && img.min <= ip < img.end && img.min <= other < img.end
    requires Misled(t, img, width, ip, other, code)
    ensures var es := [Query(ip, code, true), Query(other, code, false)];
            InImage(es, img) && Answers(Cold, t, img, width, es) != PlainAnswers(t, img, es)
  {
    hide PlainSearch, Lookup;
    var es := [Query(ip, code, true), Query(other, code, false)];
    var first := Lookup(Cold, t, img, width, ip, code, true);
    var second := Lookup(first.cache, t, img, width, other, code, false);
    var rest := es[1..];
    assert rest == [es[1]] && rest[1..] == [] && InImage(rest, img);
    assert Answers(first.cache, t, img, width, rest) == [second.handler] + Answers(second.cache, t, img, width, []);
    assert Answers(Cold, t, img, width, es)[0] == first.handler;
    assert Answers(Cold, t, img, width, es)[1] == second.handler;
    assert PlainAnswers(t, img, es)[0] == PlainSearch(t, img, ip, code);
    assert PlainAnswers(t, img, es)[1] == PlainSearch(t, img, other, code);
  }
}
