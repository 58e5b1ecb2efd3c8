/**
 The cache in front of the handler table.  An entry built for one address holds
 the handlers that guard it, in table order, together with the largest range of
 addresses for which that list is meant to be the right one; entries are kept in
 an address tree over the image.
 */
module HandlerCache {
  import opened Wrappers
  import opened HandlerTable
  import opened AddressTree

  // ------------------------------------------------------- the list of an entry

  // The rows that guard `ip`, up to and including the first one with a clear flag
  // word: such a row handles everything, so later rows cannot be reached.
  function Gather(t: seq<Handler>, load: int, ip: int): seq<Handler> {
    if t == [] then []
    else if !Covers(t[0], load, ip) then Gather(t[1..], load, ip)
    else if t[0].flags.AnyKnown() then [t[0]] + Gather(t[1..], load, ip)
    else [t[0]]
  }

  // The stored list.  When the first row has any flag set, the scan for further
  // rows starts at that row again and stores it twice.
  function Stored(t: seq<Handler>, load: int, ip: int): seq<Handler> {
    var g := Gather(t, load, ip);
    if g != [] && g[0].flags.AnyKnown() then [g[0]] + g else g
  }

  function FirstAccept(g: seq<Handler>, code: Code): (r: Option<Handler>)
    ensures r.Some? ==> r.value in g && Accepts(r.value, code)
  {
    if g == [] then None
    else if Accepts(g[0], code) then Some(g[0])
    else FirstAccept(g[1..], code)
  }

  // ------------------------------------------------------ the range of an entry

  // The largest of `acc` and the starts of `g`.
  function MaxBegin(g: seq<Handler>, load: int, acc: int): int {
    if g == [] then acc
    else MaxBegin(g[1..], load, if acc < Begin(g[0], load) then Begin(g[0], load) else acc)
  }

  // The smallest of `acc` and the ends of `g`.
  function MinEnd(g: seq<Handler>, load: int, acc: int): int {
    if g == [] then acc
    else MinEnd(g[1..], load, if End(g[0], load) < acc then End(g[0], load) else acc)
  }

  // `acc` raised to every end in `t` that is below `ip`.
  function RaiseLow(t: seq<Handler>, load: int, ip: int, acc: int): int {
    if t == [] then acc
    else RaiseLow(t[1..], load, ip, if acc < End(t[0], load) < ip then End(t[0], load) else acc)
  }

  // `acc` lowered to every start in `t` that is above `ip`.
  function LowerHigh(t: seq<Handler>, load: int, ip: int, acc: int): int {
    if t == [] then acc
    else LowerHigh(t[1..], load, ip, if ip < Begin(t[0], load) < acc then Begin(t[0], load) else acc)
  }

  lemma {:induction false} GatherCovers(t: seq<Handler>, load: int, ip: int)
    ensures forall h <- Gather(t, load, ip) :: h in t && Covers(h, load, ip)
  {
    if t != [] {
      GatherCovers(t[1..], load, ip);
    }
  }

  /* The collected rows, by their numbers in the table: those that guard the address, in table
     order, and none behind a row that guards it with a clear flag word. */
  lemma {:induction false} GatheredRows(t: seq<Handler>, load: int, ip: int) returns (ks: seq<nat>)
    ensures |ks| == |Gather(t, load, ip)|
    ensures forall i | 0 <= i < |ks| :: ks[i] < |t| && Gather(t, load, ip)[i] == t[ks[i]]
    ensures forall i, j | 0 <= i < j < |ks| :: ks[i] < ks[j]
    ensures forall k | 0 <= k < |t| ::
              k in ks
              <==> && (if t[k].flags.relative then t[k].begin <= ip < t[k].end
                       else t[k].begin <= ip + load < t[k].end)
                   && forall j | 0 <= j < k ::
                        (if t[j].flags.relative then t[j].begin <= ip < t[j].end
                         else t[j].begin <= ip + load < t[j].end)
                        ==> var f := t[j].flags;
                            f.hasMask || f.userFlags || f.isFinally || f.relative || f.descriptor
  {
    hide Gather;
    ks := ReachedRows(t, load, ip);
    assert Selected(t, ks, Gather(t, load, ip));
    assert forall k | 0 <= k < |t| :: k in ks <==> Reached(t, load, ip, k);
  }

  // Row `k` guards the address, and no row before it that does ends the list.
  ghost predicate Reached(t: seq<Handler>, load: int, ip: int, k: int)
    requires 0 <= k < |t|
  {
    Covers(t[k], load, ip) && forall j | 0 <= j < k :: Covers(t[j], load, ip) ==> t[j].flags.AnyKnown()
  }

  lemma ReachedNext(t: seq<Handler>, load: int, ip: int, k: int)
    requires 0 < k < |t|
    ensures Reached(t, load, ip, k)
       <==> (Covers(t[0], load, ip) ==> t[0].flags.AnyKnown()) && Reached(t[1..], load, ip, k - 1)
  {
    hide Covers, Flags.AnyKnown;
    assert forall j | 0 < j < |t| :: t[1..][j - 1] == t[j];
    assert forall j | 0 <= j < |t| - 1 :: t[j + 1] == t[1..][j];
  }

  // `g` are the rows of `t` with the numbers `ks`, which grow.
  ghost predicate Selected(t: seq<Handler>, ks: seq<nat>, g: seq<Handler>) {
    && |ks| == |g| && (forall i | 0 <= i < |ks| :: ks[i] < |t| && g[i] == t[ks[i]])
    && (forall i, j | 0 <= i < j < |ks| :: ks[i] < ks[j])
  }

  lemma SelectedLater(t: seq<Handler>, ls: seq<nat>, ks: seq<nat>, g: seq<Handler>)
    requires t != [] && Selected(t[1..], ls, g)
    requires |ks| == |ls| && forall i | 0 <= i < |ls| :: ks[i] == ls[i] + 1
    ensures Selected(t, ks, g) && Selected(t, [0] + ks, [t[0]] + g)
  {
    forall i | 0 <= i < |ks| ensures ks[i] < |t| && g[i] == t[ks[i]] {
      assert g[i] == t[1..][ls[i]];
    }
  }

  lemma SelectedNone(t: seq<Handler>)
    ensures Selected(t, [], [])
    ensures t != [] ==> Selected(t, [0], [t[0]])
  {
  }

  lemma {:induction false} ReachedRows(t: seq<Handler>, load: int, ip: int) returns (ks: seq<nat>)
    ensures Selected(t, ks, Gather(t, load, ip))
    ensures forall k | 0 <= k < |t| :: k in ks <==> Reached(t, load, ip, k)
  {
    hide Covers, Reached, Flags.AnyKnown, Selected;
    SelectedNone(t);
    ks := [];
    if t == [] {
      return;
    }
    FirstReached(t, load, ip);
    var ls, guards := [], Covers(t[0], load, ip);
    var shifted := [];
    if !guards || t[0].flags.AnyKnown() {
      ls := ReachedRows(t[1..], load, ip);
      shifted := Shifted(ls);
      SelectedLater(t, ls, shifted, Gather(t[1..], load, ip));
    }
    ks := if guards then [0] + shifted else shifted;
    assert guards && !t[0].flags.AnyKnown() ==> ks == [0];
    forall k | 0 <= k < |t| ensures k in ks <==> Reached(t, load, ip, k) {
      assert k in ks <==> (guards && k == 0) || k in shifted;
      if k > 0 {
        ReachedNext(t, load, ip, k);
      }
    }
  }

  lemma FirstReached(t: seq<Handler>, load: int, ip: int)
    requires t != []
    ensures Reached(t, load, ip, 0) <==> Covers(t[0], load, ip)
  {
  }

  lemma Shifted(ls: seq<nat>) returns (ks: seq<nat>)
    ensures |ks| == |ls| && forall i | 0 <= i < |ls| :: ks[i] == ls[i] + 1
    ensures forall k: nat :: k in ks <==> k > 0 && k - 1 in ls
  {
    ks := seq(|ls|, (i: nat) requires i < |ls| => ls[i] + 1);
    forall k: nat | k > 0 && k - 1 in ls ensures k in ks {
      var i :| 0 <= i < |ls| && ls[i] == k - 1;
      assert ks[i] == k;
    }
  }

  // The bounds are taken from the rows.
  lemma {:induction false} Attained(g: seq<Handler>, load: int, lo: int, hi: int)
    ensures MaxBegin(g, load, lo) == lo || exists h <- g :: Begin(h, load) == MaxBegin(g, load, lo)
    ensures MinEnd(g, load, hi) == hi || exists h <- g :: End(h, load) == MinEnd(g, load, hi)
  {
    if g != [] {
      assert g[0] in g;
      Attained(g[1..], load, if lo < Begin(g[0], load) then Begin(g[0], load) else lo,
                             if End(g[0], load) < hi then End(g[0], load) else hi);
    }
  }

  lemma {:induction false} TrimAttained(t: seq<Handler>, load: int, ip: int, lo: int, hi: int)
    ensures RaiseLow(t, load, ip, lo) == lo || exists h <- t :: End(h, load) == RaiseLow(t, load, ip, lo) < ip
    ensures LowerHigh(t, load, ip, hi) == hi || exists h <- t :: ip < Begin(h, load) == LowerHigh(t, load, ip, hi)
  {
    if t != [] {
      assert t[0] in t;
      TrimAttained(t[1..], load, ip, if lo < End(t[0], load) < ip then End(t[0], load) else lo,
                                     if ip < Begin(t[0], load) < hi then Begin(t[0], load) else hi);
    }
  }

  // `MaxBegin` and `MinEnd` are bounds of rows that all guard `ip`, and stay around it.
  lemma {:induction false} Intersection(g: seq<Handler>, load: int, ip: int, lo: int, hi: int)
    requires lo <= ip < hi && forall h <- g :: Covers(h, load, ip)
    ensures lo <= MaxBegin(g, load, lo) <= ip < MinEnd(g, load, hi) <= hi
    ensures forall h <- g :: Begin(h, load) <= MaxBegin(g, load, lo) && MinEnd(g, load, hi) <= End(h, load)
  {
    if g != [] {
      var lo' := if lo < Begin(g[0], load) then Begin(g[0], load) else lo;
      var hi' := if End(g[0], load) < hi then End(g[0], load) else hi;
      assert g[0] in g;
      Intersection(g[1..], load, ip, lo', hi');
    }
  }

  // Trimming keeps `ip`, and leaves out all rows that end below it or start above it.
  lemma {:induction false} Trimmed(t: seq<Handler>, load: int, ip: int, lo: int, hi: int)
    requires lo <= ip < hi
    ensures lo <= RaiseLow(t, load, ip, lo) <= ip < LowerHigh(t, load, ip, hi) <= hi
    ensures forall h <- t :: End(h, load) < ip ==> End(h, load) <= RaiseLow(t, load, ip, lo)
    ensures forall h <- t :: ip < Begin(h, load) ==> LowerHigh(t, load, ip, hi) <= Begin(h, load)
  {
    if t != [] {
      Trimmed(t[1..], load, ip, if lo < End(t[0], load) < ip then End(t[0], load) else lo,
                                if ip < Begin(t[0], load) < hi then Begin(t[0], load) else hi);
    }
  }

  // The rows of an entry, with its range.
  function EntryFor(t: seq<Handler>, img: Image, ip: int): (e: Item<seq<Handler>>)
    requires img.min <= ip < img.end
    ensures img.min <= e.lo <= ip <= e.hi < img.end
  {
    var g := Gather(t, img.load, ip);
    GatherCovers(t, img.load, ip);
    Intersection(g, img.load, ip, img.min, img.end);
    Trimmed(t, img.load, ip, MaxBegin(g, img.load, img.min), MinEnd(g, img.load, img.end));
    Item(RaiseLow(t, img.load, ip, MaxBegin(g, img.load, img.min)),
         LowerHigh(t, img.load, ip, MinEnd(g, img.load, img.end)) - 1,
         Stored(t, img.load, ip))
  }

  // ------------------------------------------------------- the entry that is stored

  function FirstTaken(g: seq<Info>, code: Code): Option<Info> {
    if g == [] then None
    else if Accepts(g[0].row, code) then Some(g[0])
    else FirstTaken(g[1..], code)
  }

  // The rows with all descriptors read at the same address; fails when one is needed
  // and there is none.
  function ReadAll(g: seq<Handler>, img: Image, at: int): Option<seq<Info>> {
    if g == [] then Some([])
    else
      var first, rest := InfoAt(g[0], img, at), ReadAll(g[1..], img, at);
      if first.Some? && rest.Some? then Some([first.value] + rest.value) else None
  }

  type Entry = Item<seq<Info>>

  // Where the descriptors of an entry are read: at the entry of its first row, also for
  // the other rows.
  function ReadAt(g: seq<Handler>, load: int): int {
    if g == [] then 0 else HandlerTable.Entry(g[0], load)
  }

  /* The entry built for an address, if that succeeds. */
  function Build(t: seq<Handler>, img: Image, ip: int): (r: Option<Entry>)
    requires img.min <= ip < img.end
    ensures r.Some? ==> img.min <= r.value.lo <= ip <= r.value.hi < img.end
  {
    var e := EntryFor(t, img, ip);
    match ReadAll(e.val, img, ReadAt(e.val, img.load))
    case None => None
    case Some(infos) => Some(Item(e.lo, e.hi, infos))
  }

  // What a query at `ip` answers when an entry is built for it.
  function Answered(t: seq<Handler>, img: Image, ip: int, code: Code): Option<Info>
    requires img.min <= ip < img.end
  {
    match Build(t, img, ip)
    case None => None
    case Some(e) => FirstTaken(e.val, code)
  }

  lemma ReadOne(h: Handler, img: Image, at: int)
    ensures ReadAll([h], img, at) == if InfoAt(h, img, at).None? then None else Some([InfoAt(h, img, at).value])
  {
    var first := InfoAt(h, img, at);
    assert [h][1..] == [] && ReadAll([], img, at) == Some([]);
    if first.Some? {
      assert [first.value] + [] == [first.value];
    }
  }

  lemma {:induction false} ReadAllFails(g: seq<Handler>, img: Image, at: int)
    ensures ReadAll(g, img, at).None? <==> Load(img, at).None? && exists h <- g :: h.flags.descriptor
  {
    if g != [] {
      ReadAllFails(g[1..], img, at);
      assert g == [g[0]] + g[1..];
    }
  }

  // The infos answer like the rows.
  lemma {:induction false} ReadAllAnswers(g: seq<Handler>, img: Image, at: int, code: Code)
    requires ReadAll(g, img, at).Some?
    ensures FirstTaken(ReadAll(g, img, at).value, code)
         == match FirstAccept(g, code)
            case None => None
            case Some(h) => InfoAt(h, img, at)
  {
    if g != [] {
      ReadAllAnswers(g[1..], img, at, code);
      var infos := ReadAll(g, img, at).value;
      assert infos[1..] == ReadAll(g[1..], img, at).value;
    }
  }

  // --------------------------------------------------- when an entry is correct

  // The entry answers every exception at every address of its range as the plain
  // search would.  Another row counts as another answer, whatever it leads to.
  ghost predicate Faithful(e: Entry, t: seq<Handler>, img: Image) {
    forall ip, code | e.lo <= ip <= e.hi :: FirstTaken(e.val, code) == PlainSearch(t, img, ip, code)
  }

  ghost predicate FaithfulRows(e: Item<seq<Handler>>, t: seq<Handler>, load: int) {
    forall ip, code | e.lo <= ip <= e.hi :: FirstAccept(e.val, code) == FirstMatch(t, load, ip, code)
  }

  // Row `a` takes every exception that row `b` takes.
  predicate Outranks(a: Handler, b: Handler) {
    a.flags.hasMask ==> b.flags.hasMask && a.mask == b.mask
  }

  // No earlier row that guards `ip` outranks row `k`.
  ghost predicate Visible(t: seq<Handler>, load: int, ip: int, k: int)
    requires 0 <= k < |t|
  {
    forall j | 0 <= j < k && Covers(t[j], load, ip) :: !Outranks(t[j], t[k])
  }

  ghost predicate VisibleFor(t: seq<Handler>, load: int, ip: int, k: int, code: Code)
    requires 0 <= k < |t|
  {
    Accepts(t[k], code) && forall j | 0 <= j < k :: !Selects(t[j], load, ip, code)
  }

  // A code that no mask of the table names.
  function Unmasked(t: seq<Handler>): (c: Code)
    ensures forall h <- t :: h.mask < c
  {
    if t == [] then 0
    else
      var c := Unmasked(t[1..]);
      if t[0].mask < c then c else t[0].mask + 1
  }

  /* A row is visible exactly when it is, for some code, the first to take it. */
  lemma VisibleIff(t: seq<Handler>, load: int, ip: int, k: int)
    requires 0 <= k < |t|
    ensures Visible(t, load, ip, k) <==> exists code :: VisibleFor(t, load, ip, k, code)
  {
    var code := if t[k].flags.hasMask then t[k].mask else Unmasked(t);
    if Visible(t, load, ip, k) {
      forall j | 0 <= j < k ensures !Selects(t[j], load, ip, code) {
        assert t[j] in t;
      }
      assert VisibleFor(t, load, ip, k, code);
    }
  }

  // Row `k` ends exactly at `ip`, and no earlier row that guards `ip` outranks it.  The
  // bound on ranges looks for ends strictly below the address, so it goes unnoticed.
  ghost predicate AbutsAt(t: seq<Handler>, load: int, ip: int, k: int)
    requires 0 <= k < |t|
  {
    Begin(t[k], load) < End(t[k], load) == ip && Visible(t, load, ip, k)
  }

  /* A row that abuts is overlooked, when all rows around the address start below it. */
  ghost predicate Overlooks(t: seq<Handler>, img: Image, ip: int) {
    && img.min < ip
    && (forall h <- Gather(t, img.load, ip) :: Begin(h, img.load) < ip)
    && (exists k | 0 <= k < |t| :: AbutsAt(t, img.load, ip, k))
  }

  // What `AbutsAt` rules out, for one other address and one code.
  ghost predicate Hidden(t: seq<Handler>, load: int, ip: int, other: int, code: Code) {
    forall k | 0 <= k < |t| && Selects(t[k], load, other, code) && !Covers(t[k], load, ip) ::
      exists j | 0 <= j < k :: Selects(t[j], load, ip, code)
  }

  lemma {:induction false} GatherAnswers(t: seq<Handler>, load: int, ip: int, other: int, code: Code)
    requires forall h <- Gather(t, load, ip) :: Covers(h, load, other)
    requires Hidden(t, load, ip, other, code)
    ensures FirstAccept(Gather(t, load, ip), code) == FirstMatch(t, load, other, code)
  {
    if t != [] {
      var h, rest := t[0], t[1..];
      if Covers(h, load, ip) && Accepts(h, code) {
        assert h in Gather(t, load, ip);
      } else {
        assert !Selects(h, load, ip, code);
        assert Hidden(rest, load, ip, other, code) by {
          forall k | 0 <= k < |rest| && Selects(rest[k], load, other, code) && !Covers(rest[k], load, ip)
            ensures exists j | 0 <= j < k :: Selects(rest[j], load, ip, code)
          {
            assert t[k + 1] == rest[k];
            var j :| 0 <= j < k + 1 && Selects(t[j], load, ip, code);
            assert rest[j - 1] == t[j];
          }
        }
        GatherAnswers(rest, load, ip, other, code);
      }
    }
  }

  // The stored list answers like the gathered one: the repeated first row is idle.
  lemma StoredAnswers(t: seq<Handler>, load: int, ip: int, code: Code)
    ensures FirstAccept(Stored(t, load, ip), code) == FirstAccept(Gather(t, load, ip), code)
  {
    var g := Gather(t, load, ip);
    if g != [] && g[0].flags.AnyKnown() {
      assert ([g[0]] + g)[1..] == g;
    }
  }

  // The rows of an entry guard its whole range, which meets no row that ends below
  // `ip` or starts above it; and the range is as large as that and the image allow.
  lemma EntryRange(t: seq<Handler>, img: Image, ip: int)
    requires img.min <= ip < img.end
    ensures var e := EntryFor(t, img, ip);
            && (forall h <- Gather(t, img.load, ip) :: Begin(h, img.load) <= e.lo && e.hi < End(h, img.load))
            && (forall h <- t :: End(h, img.load) < ip ==> End(h, img.load) <= e.lo)
            && (forall h <- t :: ip < Begin(h, img.load) ==> e.hi < Begin(h, img.load))
    ensures var e, g := EntryFor(t, img, ip), Gather(t, img.load, ip);
            && (|| e.lo == img.min
                || (exists h <- g :: Begin(h, img.load) == e.lo)
                || (exists h <- t :: End(h, img.load) == e.lo < ip))
            && (|| e.hi + 1 == img.end
                || (exists h <- g :: End(h, img.load) == e.hi + 1)
                || (exists h <- t :: ip < Begin(h, img.load) == e.hi + 1))
  {
    var g := Gather(t, img.load, ip);
    Attained(g, img.load, img.min, img.end);
    TrimAttained(t, img.load, ip, MaxBegin(g, img.load, img.min), MinEnd(g, img.load, img.end));
    GatherCovers(t, img.load, ip);
    Intersection(g, img.load, ip, img.min, img.end);
    Trimmed(t, img.load, ip, MaxBegin(g, img.load, img.min), MinEnd(g, img.load, img.end));
  }

  // Within the range of an entry, a row that guards another address but not `ip`
  // can only be one that ends at `ip`.
  lemma OnlyAbutting(t: seq<Handler>, img: Image, ip: int, other: int, h: Handler)
    requires img.min <= ip < img.end && h in t
    requires var e := EntryFor(t, img, ip); e.lo <= other <= e.hi
    requires Covers(h, img.load, other) && !Covers(h, img.load, ip)
    ensures other < ip == End(h, img.load)
  {
    EntryRange(t, img, ip);
  }

  // The range of an entry reaches below its address exactly when all rows around the
  // address start below it.
  lemma StartsBelow(t: seq<Handler>, img: Image, ip: int)
    requires img.min <= ip < img.end
    ensures EntryFor(t, img, ip).lo < ip
       <==> img.min < ip && forall h <- Gather(t, img.load, ip) :: Begin(h, img.load) < ip
  {
    var g := Gather(t, img.load, ip);
    GatherCovers(t, img.load, ip);
    Intersection(g, img.load, ip, img.min, img.end);
    MaxBeginBelow(g, img.load, img.min, ip);
    RaisedBelow(t, img.load, ip, MaxBegin(g, img.load, img.min));
  }

  lemma {:induction false} MaxBeginBelow(g: seq<Handler>, load: int, acc: int, ip: int)
    ensures MaxBegin(g, load, acc) < ip <==> acc < ip && forall h <- g :: Begin(h, load) < ip
  {
    if g != [] {
      MaxBeginBelow(g[1..], load, if acc < Begin(g[0], load) then Begin(g[0], load) else acc, ip);
      assert g == [g[0]] + g[1..];
    }
  }

  lemma {:induction false} RaisedBelow(t: seq<Handler>, load: int, ip: int, acc: int)
    ensures RaiseLow(t, load, ip, acc) < ip <==> acc < ip
  {
    if t != [] {
      RaisedBelow(t[1..], load, ip, if acc < End(t[0], load) < ip then End(t[0], load) else acc);
    }
  }

  lemma RowsAreFaithful(t: seq<Handler>, img: Image, ip: int)
    requires img.min <= ip < img.end && !Overlooks(t, img, ip)
    ensures FaithfulRows(EntryFor(t, img, ip), t, img.load)
  {
    var e, load := EntryFor(t, img, ip), img.load;
    StartsBelow(t, img, ip);
    EntryRange(t, img, ip);
    forall other, code | e.lo <= other <= e.hi
      ensures FirstAccept(e.val, code) == FirstMatch(t, load, other, code)
    {
      forall k | 0 <= k < |t| && Selects(t[k], load, other, code) && !Covers(t[k], load, ip)
        ensures exists j | 0 <= j < k :: Selects(t[j], load, ip, code)
      {
        OnlyAbutting(t, img, ip, other, t[k]);
        assert !AbutsAt(t, load, ip, k);
        VisibleIff(t, load, ip, k);
        assert !VisibleFor(t, load, ip, k, code);
      }
      GatherAnswers(t, load, ip, other, code);
      StoredAnswers(t, load, ip, code);
    }
  }

  // The first match comes no later in the table than any given match.
  lemma {:induction false} FirstMatchIndex(t: seq<Handler>, load: int, ip: int, code: Code, k: nat)
    returns (j: nat)
    requires k < |t| && Selects(t[k], load, ip, code)
    ensures j <= k && FirstMatch(t, load, ip, code) == Some(t[j])
  {
    if Selects(t[0], load, ip, code) {
      j := 0;
    } else {
      var i := FirstMatchIndex(t[1..], load, ip, code, k - 1);
      j := i + 1;
    }
  }

  // The entry claims the address below for rows that guard `ip`, though one that does
  // not comes first there.
  lemma OverlookedRow(t: seq<Handler>, img: Image, ip: int) returns (code: Code, h: Handler)
    requires img.min <= ip < img.end && Overlooks(t, img, ip)
    ensures EntryFor(t, img, ip).lo <= ip - 1
    ensures h in t && FirstMatch(t, img.load, ip - 1, code) == Some(h)
    ensures FirstAccept(EntryFor(t, img, ip).val, code) != Some(h)
  {
    StartsBelow(t, img, ip);
    var k :| 0 <= k < |t| && AbutsAt(t, img.load, ip, k);
    VisibleIff(t, img.load, ip, k);
    code :| VisibleFor(t, img.load, ip, k, code);
    var j := FirstMatchIndex(t, img.load, ip - 1, code, k);
    h := t[j];
    FirstMatchSelects(t, img.load, ip - 1, code);
    GatherCovers(t, img.load, ip);
    if FirstAccept(Stored(t, img.load, ip), code) == Some(h) {
      assert false;
    }
  }

  // ------------------------------------------------------- descriptors of other rows

  /* A descriptor is read at the wrong address: there is none, which makes the whole
     construction fail, or it is another one, for a row that is the first for some code. */
  ghost predicate Misread(t: seq<Handler>, img: Image, ip: int) {
    var g := Gather(t, img.load, ip);
    var read := Load(img, ReadAt(g, img.load));
    || (read.None? && exists h <- g :: h.flags.descriptor)
    || (exists k | 0 <= k < |t| :: MisreadAt(t, img, ip, k, read))
  }

  ghost predicate MisreadAt(t: seq<Handler>, img: Image, ip: int, k: int, read: Option<Descriptor>)
    requires 0 <= k < |t|
  {
    && t[k].flags.descriptor && Covers(t[k], img.load, ip) && Visible(t, img.load, ip, k)
    && Load(img, HandlerTable.Entry(t[k], img.load)) != read
  }

  // An entry always has the right row at the address it was built for.
  lemma RightRow(t: seq<Handler>, img: Image, ip: int, code: Code)
    requires img.min <= ip < img.end
    ensures FirstAccept(EntryFor(t, img, ip).val, code) == FirstMatch(t, img.load, ip, code)
  {
    GatherCovers(t, img.load, ip);
    GatherAnswers(t, img.load, ip, ip, code);
    StoredAnswers(t, img.load, ip, code);
  }

  lemma BuildFails(t: seq<Handler>, img: Image, ip: int)
    requires img.min <= ip < img.end
    ensures var g := Gather(t, img.load, ip);
            && ReadAt(EntryFor(t, img, ip).val, img.load) == ReadAt(g, img.load)
            && (Build(t, img, ip).None?
                <==> Load(img, ReadAt(g, img.load)).None? && exists h <- g :: h.flags.descriptor)
  {
    var g, e := Gather(t, img.load, ip), EntryFor(t, img, ip);
    ReadAllFails(e.val, img, ReadAt(e.val, img.load));
    assert forall h :: h in e.val <==> h in g;
  }

  // The row that is first at `ip` for a code, by its number.
  lemma FirstIsVisible(t: seq<Handler>, load: int, ip: int, code: Code, h: Handler) returns (k: nat)
    requires FirstMatch(t, load, ip, code) == Some(h)
    ensures k < |t| && t[k] == h && Covers(h, load, ip) && Visible(t, load, ip, k)
  {
    k := FirstMatchAt(t, load, ip, code);
    assert VisibleFor(t, load, ip, k, code);
    VisibleIff(t, load, ip, k);
  }

  lemma {:induction false} FirstMatchAt(t: seq<Handler>, load: int, ip: int, code: Code) returns (k: nat)
    requires FirstMatch(t, load, ip, code).Some?
    ensures k < |t| && FirstMatch(t, load, ip, code) == Some(t[k]) && Selects(t[k], load, ip, code)
    ensures forall j | 0 <= j < k :: !Selects(t[j], load, ip, code)
  {
    if Selects(t[0], load, ip, code) {
      k := 0;
    } else {
      var i := FirstMatchAt(t[1..], load, ip, code);
      k := i + 1;
      forall j | 0 <= j < k ensures !Selects(t[j], load, ip, code) {
        if j > 0 {
          assert t[j] == t[1..][j - 1];
        }
      }
    }
  }

  // Whatever was built answers by the right row, read at the common address.
  lemma AnsweredBy(t: seq<Handler>, img: Image, ip: int, code: Code)
    requires img.min <= ip < img.end
    ensures Build(t, img, ip).Some? ==>
              Answered(t, img, ip, code)
              == match FirstMatch(t, img.load, ip, code)
                 case None => None
                 case Some(h) => InfoAt(h, img, ReadAt(Gather(t, img.load, ip), img.load))
  {
    var e := EntryFor(t, img, ip);
    RightRow(t, img, ip, code);
    BuildFails(t, img, ip);
    if Build(t, img, ip).Some? {
      ReadAllAnswers(e.val, img, ReadAt(e.val, img.load), code);
    }
  }

  lemma ReadRight(t: seq<Handler>, img: Image, ip: int, code: Code)
    requires img.min <= ip < img.end && !Misread(t, img, ip)
    ensures Build(t, img, ip).Some? && Answered(t, img, ip, code) == PlainSearch(t, img, ip, code)
  {
    var read := Load(img, ReadAt(Gather(t, img.load, ip), img.load));
    BuildFails(t, img, ip);
    AnsweredBy(t, img, ip, code);
    match FirstMatch(t, img.load, ip, code)
    case None =>
    case Some(h) =>
      var k := FirstIsVisible(t, img.load, ip, code, h);
      assert !MisreadAt(t, img, ip, k, read);
  }

  lemma ReadWrong(t: seq<Handler>, img: Image, ip: int) returns (code: Code)
    requires img.min <= ip < img.end && Misread(t, img, ip) && Readable(t, img)
    ensures Answered(t, img, ip, code) != PlainSearch(t, img, ip, code)
  {
    var g := Gather(t, img.load, ip);
    var read := Load(img, ReadAt(g, img.load));
    BuildFails(t, img, ip);
    if read.None? && exists h <- g :: h.flags.descriptor {
      code := FirstRowTakes(t, img.load, ip);
      FirstMatchSelects(t, img.load, ip, code);
    } else {
      var k :| 0 <= k < |t| && MisreadAt(t, img, ip, k, read);
      VisibleIff(t, img.load, ip, k);
      code :| VisibleFor(t, img.load, ip, k, code);
      var j := FirstMatchIndex(t, img.load, ip, code, k);
      assert !(j < k && Selects(t[j], img.load, ip, code));
      FirstMatchSelects(t, img.load, ip, code);
      AnsweredBy(t, img, ip, code);
    }
  }

  lemma {:induction false} FirstRowTakes(t: seq<Handler>, load: int, ip: int) returns (code: Code)
    requires Gather(t, load, ip) != []
    ensures FirstMatch(t, load, ip, code).Some?
  {
    if Covers(t[0], load, ip) {
      code := t[0].mask;
    } else {
      code := FirstRowTakes(t[1..], load, ip);
    }
  }

  // ------------------------------------------------------------- the exact condition

  // A query at this address is answered wrongly, or leaves an entry behind that is wrong
  // for another address.
  ghost predicate Risky(t: seq<Handler>, img: Image, ip: int) {
    Misread(t, img, ip) || Overlooks(t, img, ip)
  }

  lemma SafeIsFaithful(t: seq<Handler>, img: Image, ip: int)
    requires img.min <= ip < img.end && !Risky(t, img, ip)
    ensures Build(t, img, ip).Some? && Faithful(Build(t, img, ip).value, t, img)
  {
    RowsAreFaithful(t, img, ip);
    BuildFails(t, img, ip);
    var e := EntryFor(t, img, ip);
    forall other, code | e.lo <= other <= e.hi
      ensures FirstTaken(Build(t, img, ip).value.val, code) == PlainSearch(t, img, other, code)
    {
      ReadRight(t, img, ip, code);
      RightRow(t, img, ip, code);
    }
  }

  lemma RiskyIsNotFaithful(t: seq<Handler>, img: Image, ip: int)
    requires img.min <= ip < img.end && Risky(t, img, ip) && Readable(t, img)
    ensures Build(t, img, ip).Some? ==> !Faithful(Build(t, img, ip).value, t, img)
  {
    if Build(t, img, ip).Some? {
      var e := Build(t, img, ip).value;
      if Misread(t, img, ip) {
        var code := ReadWrong(t, img, ip);
        assert FirstTaken(e.val, code) != PlainSearch(t, img, ip, code);
      } else {
        var code, h := OverlookedRow(t, img, ip);
        RightRow(t, img, ip, code);
        AnsweredBy(t, img, ip, code);
        assert FirstTaken(e.val, code) != PlainSearch(t, img, ip - 1, code);
      }
    }
  }

  /* A cache entry can be built and is right for its whole range exactly when the address is
     not risky, which can be told from the table and the descriptors alone. */
  lemma FaithfulIff(t: seq<Handler>, img: Image, ip: int)
    requires img.min <= ip < img.end && Readable(t, img)
    ensures (Build(t, img, ip).Some? && Faithful(Build(t, img, ip).value, t, img)) <==> !Risky(t, img, ip)
  {
    if Risky(t, img, ip) {
      RiskyIsNotFaithful(t, img, ip);
    } else {
      SafeIsFaithful(t, img, ip);
    }
  }

  const NO_FLAGS := Flags(false, false, false, false, false, false)

  /* The first defect made concrete: an inner block guards 10..20 inside an outer block
     that guards 5..30.  The entry built at 20, the first address after the inner
     block, claims the inner block's addresses for the outer handler. */
  lemma AbuttingExample(memory: int -> Option<Descriptor>)
    ensures var inner := Handler(10, 20, 40, NO_FLAGS, 0);
            var outer := Handler(5, 30, 50, NO_FLAGS, 0);
            var img := Image(0, 0, 99, 0, 100, false, memory);
            && SoundTable([inner, outer], img) && !Misread([inner, outer], img, 20)
            && Build([inner, outer], img, 20) == Some(Item(5, 29, [Info(outer, 50, None)]))
            && PlainSearch([inner, outer], img, 15, 1) == Some(Info(inner, 40, None))
  {
    var inner := Handler(10, 20, 40, NO_FLAGS, 0);
    var outer := Handler(5, 30, 50, NO_FLAGS, 0);
    var t, img := [inner, outer], Image(0, 0, 99, 0, 100, false, memory);
    assert t[1..] == [outer] && [outer][1..] == [];
    assert Gather([outer], 0, 20) == [outer];
    assert Gather(t, 0, 20) == [outer];
    assert MaxBegin([], 0, 5) == 5 && MinEnd([], 0, 30) == 30;
    assert MaxBegin([outer], 0, 0) == 5 && MinEnd([outer], 0, 100) == 30;
    assert RaiseLow([], 0, 20, 5) == 5 && LowerHigh([], 0, 20, 30) == 30;
    assert RaiseLow([outer], 0, 20, 5) == 5 && LowerHigh([outer], 0, 20, 30) == 30;
    ReadOne(outer, img, 50);
  }

  /* The second: a CATCH of 7 with entry 40 inside a block with a descriptor at 60.  The
     descriptor is sought at 40, where there is none, and the exception 7 at 10 finds no
     handler at all. */
  lemma DescriptorExample(d: Descriptor)
    requires d.isBypass && !d.unknown && !d.disablesPreemption && d.relative && 0 <= d.handler < 100
    ensures var catch7 := Handler(5, 20, 40, NO_FLAGS.(hasMask := true), 7);
            var guard := Handler(0, 30, 60, NO_FLAGS.(descriptor := true), 0);
            var img := Image(0, 0, 99, 0, 100, false, at => if at == 60 then Some(d) else None);
            && SoundTable([catch7, guard], img) && !Overlooks([catch7, guard], img, 10)
            && Answered([catch7, guard], img, 10, 7) == None
            && PlainSearch([catch7, guard], img, 10, 7) == Some(Info(catch7, 40, None))
  {
    var catch7 := Handler(5, 20, 40, NO_FLAGS.(hasMask := true), 7);
    var guard := Handler(0, 30, 60, NO_FLAGS.(descriptor := true), 0);
    var img := Image(0, 0, 99, 0, 100, false, at => if at == 60 then Some(d) else None);
    var t := [catch7, guard];
    assert Gather([guard], 0, 10) == [guard];
    assert guard in Gather(t, 0, 10);
    BuildFails(t, img, 10);
    assert forall k | 0 <= k < |t| :: !AbutsAt(t, 0, 10, k);
  }

  // ------------------------------------------------------------ building entries

  datatype Built = Corrupt | Made(entry: Entry)

  // Clamping to the image last is the same as starting from its bounds.
  lemma {:induction false} ClampLow(g: seq<Handler>, load: int, acc: int, min: int)
    ensures MaxBegin(g, load, if acc < min then min else acc)
         == if MaxBegin(g, load, acc) < min then min else MaxBegin(g, load, acc)
  {
    if g != [] {
      ClampLow(g[1..], load, if acc < Begin(g[0], load) then Begin(g[0], load) else acc, min);
    }
  }

  lemma {:induction false} ClampHigh(g: seq<Handler>, load: int, acc: int, end: int)
    ensures MinEnd(g, load, if acc > end then end else acc)
         == if MinEnd(g, load, acc) > end then end else MinEnd(g, load, acc)
  {
    if g != [] {
      ClampHigh(g[1..], load, if End(g[0], load) < acc then End(g[0], load) else acc, end);
    }
  }

  lemma {:induction false} ClampRaised(t: seq<Handler>, load: int, ip: int, acc: int, min: int)
    ensures RaiseLow(t, load, ip, if acc < min then min else acc)
         == if RaiseLow(t, load, ip, acc) < min then min else RaiseLow(t, load, ip, acc)
  {
    if t != [] {
      ClampRaised(t[1..], load, ip, if acc < End(t[0], load) < ip then End(t[0], load) else acc, min);
    }
  }

  lemma {:induction false} ClampLowered(t: seq<Handler>, load: int, ip: int, acc: int, end: int)
    ensures LowerHigh(t, load, ip, if acc > end then end else acc)
         == if LowerHigh(t, load, ip, acc) > end then end else LowerHigh(t, load, ip, acc)
  {
    if t != [] {
      ClampLowered(t[1..], load, ip, if ip < Begin(t[0], load) < acc then Begin(t[0], load) else acc, end);
    }
  }

  // The range of an entry whose first row is `h`, by the steps of its construction.
  lemma ClampedEntry(t: seq<Handler>, img: Image, ip: int, h: Handler)
    requires img.min <= ip < img.end && Gather(t, img.load, ip) != [] && Gather(t, img.load, ip)[0] == h
    ensures var e, g := EntryFor(t, img, ip), Gather(t, img.load, ip);
            var lo := RaiseLow(t, img.load, ip, MaxBegin(g, img.load, Begin(h, img.load)));
            var hi := LowerHigh(t, img.load, ip, MinEnd(g, img.load, End(h, img.load)));
            && e.lo == (if lo < img.min then img.min else lo)
            && e.hi == (if hi > img.end then img.end else hi) - 1
  {
    var g := Gather(t, img.load, ip);
    ClampLow(g[1..], img.load, Begin(h, img.load), img.min);
    ClampHigh(g[1..], img.load, End(h, img.load), img.end);
    ClampRaised(t, img.load, ip, MaxBegin(g, img.load, Begin(h, img.load)), img.min);
    ClampLowered(t, img.load, ip, MinEnd(g, img.load, End(h, img.load)), img.end);
  }

  /* C_LOAD_EXCEPTION_DESCRIPTOR, for a row: the row with what is found at `at`.  There has to
     be a descriptor of the bypass type with known flags only, which disables preemption for a
     driver only and leads into the image. */
  method LoadDescriptor(h: Handler, img: Image, at: int) returns (r: Option<Info>)
    requires h.flags.descriptor
    ensures r == InfoAt(h, img, at)
    ensures r.Some? <==>
              && img.memory(at).Some?
              && var d := img.memory(at).value;
                 && d.isBypass && !d.unknown && (d.disablesPreemption ==> img.driver)
                 && img.min <= (if d.relative then d.handler else d.handler - img.load) < img.end
    ensures r.Some? ==>
              var d := img.memory(at).value;
              r.value == Info(h, if d.relative then d.handler else d.handler - img.load, Some(d))
  {
    var read := img.memory(at);
    if read.None? {
      return None;
    }
    var d := read.value;
    var entry := d.handler;
    if !d.relative {
      entry := entry - img.load;
    }
    if entry < img.min || entry >= img.end || !d.isBypass || d.unknown {
      return None;
    }
    if d.disablesPreemption && !img.driver {
      return None;
    }
    return Some(Info(h, entry, Some(d)));
  }

  method ReadRow(h: Handler, img: Image, at: int) returns (r: Option<Info>)
    ensures r == InfoAt(h, img, at)
  {
    if h.flags.descriptor {
      r := LoadDescriptor(h, img, at);
    } else {
      r := Some(Info(h, HandlerTable.Entry(h, img.load), None));
    }
  }

  /* The construction of an entry, as the kernel does it: find the first row that
     guards the address, collect the rows behind it while intersecting their
     ranges, then trim the range by all other rows and clamp it to the image. */
  method AllocateInfo(t: seq<Handler>, img: Image, ip: int) returns (r: Built)
    requires img.min <= ip < img.end
    ensures r.Made? ==> img.min <= r.entry.lo <= ip <= r.entry.hi < img.end
    ensures SoundTable(t, img) ==>
              r == match Build(t, img, ip) case None => Corrupt case Some(e) => Made(e)
  {
    var load := img.load;
    var i := FirstGuarding(t, load, ip);
    if i == |t| || t[i].flags.unknown {
      assert i < |t| ==> t[i] in t;
      var n := i;
      while n < |t| && !t[n].flags.unknown
        invariant i <= n <= |t|
      {
        n := n + 1;
      }
      assert n < |t| ==> t[n] in t;
      assert n == |t| ==> t[..n] == t;
      Trimmed(t[..n], load, ip, img.min, img.end);
      var lo, hi := Trim(t[..n], load, ip, img.min, img.end);
      return Made(Item(lo, hi - 1, []));
    }
    var h, at := t[i], HandlerTable.Entry(t[i], load);
    assert h in t;
    GatheredRange(t, load, ip, h, i);
    StoredRead(t, img, ip, h);
    if at < img.min || at >= img.end {
      return Corrupt;
    }
    var first := ReadRow(h, img, at);
    if first.None? {
      assert !Sound(h, img);
      return Corrupt;
    }
    var lo, hi, stored := Begin(h, load), End(h, load), Some([first.value]);
    ClampedEntry(t, img, ip, h);
    if h.flags.AnyKnown() {
      lo, hi, stored := Collect(t[i..], img, ip, at, lo, hi, [first.value]);
    }
    if stored.None? {
      return Corrupt;
    }
    lo, hi := Trim(t, load, ip, lo, hi);
    if lo < img.min {
      lo := img.min;
    }
    if hi > img.end {
      hi := img.end;
    }
    r := Made(Item(lo, hi - 1, stored.value));
  }

  method FirstGuarding(t: seq<Handler>, load: int, ip: int) returns (i: nat)
    ensures i <= |t| && Gather(t, load, ip) == Gather(t[i..], load, ip)
    ensures i < |t| ==> t[i].flags.unknown || Covers(t[i], load, ip)
  {
    i := 0;
    while i < |t| && !t[i].flags.unknown && !Covers(t[i], load, ip)
      invariant i <= |t| && Gather(t, load, ip) == Gather(t[i..], load, ip)
    {
      assert t[i..][1..] == t[i + 1..];
      i := i + 1;
    }
  }

  // What the rows behind the first one contribute.
  lemma GatheredRange(t: seq<Handler>, load: int, ip: int, h: Handler, i: nat)
    requires i < |t| && t[i] == h && Covers(h, load, ip) && Gather(t, load, ip) == Gather(t[i..], load, ip)
    ensures var g := Gather(t, load, ip); g != [] && g[0] == h && (!h.flags.AnyKnown() ==> g == [h])
  {
    assert t[i..][0] == h;
  }

  // The infos of an entry: those of the first row, and of all rows again when the first
  // has any flag.
  lemma StoredRead(t: seq<Handler>, img: Image, ip: int, h: Handler)
    requires img.min <= ip < img.end
    requires var g := Gather(t, img.load, ip); g != [] && g[0] == h && (!h.flags.AnyKnown() ==> g == [h])
    ensures var e, g, at := EntryFor(t, img, ip), Gather(t, img.load, ip), HandlerTable.Entry(h, img.load);
            var first, all := InfoAt(h, img, at), ReadAll(g, img, at);
            && ReadAt(e.val, img.load) == at
            && ReadAll(e.val, img, at)
               == if first.None? || all.None? then None
                  else Some(if h.flags.AnyKnown() then [first.value] + all.value else [first.value])
  {
    var g, at := Gather(t, img.load, ip), HandlerTable.Entry(h, img.load);
    assert ([h] + g)[1..] == g;
    ReadOne(h, img, at);
  }

  /* The rows from the first one on, with their descriptors read at `at`, and the
     intersection of their ranges. */
  method Collect(t: seq<Handler>, img: Image, ip: int, at: int, lo0: int, hi0: int, stored0: seq<Info>)
    returns (lo: int, hi: int, stored: Option<seq<Info>>)
    ensures var g := Gather(t, img.load, ip);
            match ReadAll(g, img, at)
            case None => stored == None
            case Some(infos) =>
              && stored == Some(stored0 + infos)
              && lo == MaxBegin(g, img.load, lo0) && hi == MinEnd(g, img.load, hi0)
  {
    var load := img.load;
    var infos: seq<Info> := stored0;
    lo, hi := lo0, hi0;
    ghost var g := Gather(t, load, ip);
    ghost var all := ReadAll(g, img, at);
    var j := 0;
    while j < |t|
      invariant 0 <= j <= |t|
      invariant var rest := ReadAll(Gather(t[j..], load, ip), img, at);
                if all.None? then rest.None? else rest.Some? && infos + rest.value == stored0 + all.value
      invariant MaxBegin(Gather(t[j..], load, ip), load, lo) == MaxBegin(g, load, lo0)
      invariant MinEnd(Gather(t[j..], load, ip), load, hi) == MinEnd(g, load, hi0)
    {
      var x := t[j];
      assert t[j..][0] == x && t[j..][1..] == t[j + 1..];
      if Covers(x, load, ip) {
        ghost var here := Gather(t[j..], load, ip);
        assert here[0] == x && here[1..] == if x.flags.AnyKnown() then Gather(t[j + 1..], load, ip) else [];
        var info := ReadRow(x, img, at);
        if info.None? {
          return lo, hi, None;
        }
        infos := infos + [info.value];
        if lo < Begin(x, load) {
          lo := Begin(x, load);
        }
        if hi > End(x, load) {
          hi := End(x, load);
        }
        if !x.flags.AnyKnown() {
          ReadOne(x, img, at);
          assert here == [x];
          return lo, hi, Some(infos);
        }
      }
      j := j + 1;
    }
    assert t[j..] == [] && infos + [] == infos;
    stored := Some(infos);
  }

  /* Trims a range around `ip` by the rows that end below it or start above it. */
  method Trim(t: seq<Handler>, load: int, ip: int, lo0: int, hi0: int) returns (lo: int, hi: int)
    ensures lo == RaiseLow(t, load, ip, lo0)
    ensures hi == LowerHigh(t, load, ip, hi0)
  {
    lo, hi := lo0, hi0;
    var j := 0;
    while j < |t|
      invariant 0 <= j <= |t|
      invariant RaiseLow(t[j..], load, ip, lo) == RaiseLow(t, load, ip, lo0)
      invariant LowerHigh(t[j..], load, ip, hi) == LowerHigh(t, load, ip, hi0)
    {
      assert t[j..][0] == t[j] && t[j..][1..] == t[j + 1..];
      if ip < Begin(t[j], load) < hi {
        hi := Begin(t[j], load);
      }
      if lo < End(t[j], load) < ip {
        lo := End(t[j], load);
      }
      j := j + 1;
    }
  }
}
