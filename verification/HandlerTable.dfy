/**
 The handler table of an image (its `.except` section) and the plain search
 through it: rows are tried in table order, and the first row that guards the
 address and accepts the exception code is the handler.
 */
module HandlerTable {
  import opened Wrappers

  type Code = nat

  // The bits of a row's flag word.  `unknown` stands for any bit outside the mask
  // of known bits.
  datatype Flags =
    Flags(hasMask: bool, userFlags: bool, isFinally: bool, relative: bool, descriptor: bool, unknown: bool)
  {
    // Some bit of the mask of known bits is set.
    predicate AnyKnown() {
      hasMask || userFlags || isFinally || relative || descriptor
    }
  }

  // The entry of a row with the descriptor bit is the address of an exception
  // descriptor.
  datatype Handler = Handler(begin: int, end: int, entry: int, flags: Flags, mask: Code)

  // An exception descriptor as it lies in memory.
  datatype Descriptor =
    Descriptor(handler: int, isBypass: bool, relative: bool, disablesPreemption: bool, unknown: bool, safe: nat)

  // Where the image is loaded, the absolute bounds of the application, the extent of
  // the image relative to the load address, whether it is a driver, and what can be
  // read as a descriptor at an address relative to the load address.
  datatype Image = Image(load: int, boundMin: int, boundMax: int, min: int, end: int, driver: bool,
                         memory: int -> Option<Descriptor>)

  const DESCRIPTOR_SIZE := 12

  // Addresses of a row relative to the load address.
  function Begin(h: Handler, load: int): int {
    if h.flags.relative then h.begin else h.begin - load
  }

  function End(h: Handler, load: int): int {
    if h.flags.relative then h.end else h.end - load
  }

  function Entry(h: Handler, load: int): int {
    if h.flags.relative then h.entry else h.entry - load
  }

  predicate Covers(h: Handler, load: int, ip: int) {
    Begin(h, load) <= ip < End(h, load)
  }

  predicate Accepts(h: Handler, code: Code) {
    h.flags.hasMask ==> h.mask == code
  }

  predicate Selects(h: Handler, load: int, ip: int, code: Code) {
    Covers(h, load, ip) && Accepts(h, code)
  }

  function FirstMatch(t: seq<Handler>, load: int, ip: int, code: Code): Option<Handler> {
    if t == [] then None
    else if Selects(t[0], load, ip, code) then Some(t[0])
    else FirstMatch(t[1..], load, ip, code)
  }

  lemma {:induction false} FirstMatchSelects(t: seq<Handler>, load: int, ip: int, code: Code)
    ensures match FirstMatch(t, load, ip, code)
            case Some(h) => h in t && Selects(h, load, ip, code)
            case None => forall h <- t :: !Selects(h, load, ip, code)
  {
    if t != [] {
      FirstMatchSelects(t[1..], load, ip, code);
    }
  }

  // ------------------------------------------------------------ what a row leads to

  function Target(d: Descriptor, load: int): int {
    if d.relative then d.handler else d.handler - load
  }

  predicate Usable(d: Descriptor, img: Image) {
    && img.min <= Target(d, img.load) < img.end
    && d.isBypass && !d.unknown && (d.disablesPreemption ==> img.driver)
  }

  // The descriptor at an address, when there is one that can be used.
  function Load(img: Image, at: int): Option<Descriptor> {
    match img.memory(at)
    case None => None
    case Some(d) => if Usable(d, img) then Some(d) else None
  }

  // What a search reports: the row, the entry point relative to the load address, and
  // the descriptor of a row that has one.
  datatype Info = Info(row: Handler, entry: int, descriptor: Option<Descriptor>)

  // A row with its descriptor read at `at`.
  function InfoAt(h: Handler, img: Image, at: int): Option<Info> {
    if !h.flags.descriptor then Some(Info(h, Entry(h, img.load), None))
    else match Load(img, at)
      case None => None
      case Some(d) => Some(Info(h, Target(d, img.load), Some(d)))
  }

  function InfoOf(h: Handler, img: Image): Option<Info> {
    InfoAt(h, img, Entry(h, img.load))
  }

  /* What the table says of an exception at an address. */
  function PlainSearch(t: seq<Handler>, img: Image, ip: int, code: Code): Option<Info> {
    match FirstMatch(t, img.load, ip, code)
    case None => None
    case Some(h) => InfoOf(h, img)
  }

  // Every descriptor that a row names can be loaded.
  ghost predicate Readable(t: seq<Handler>, img: Image) {
    forall h <- t :: InfoOf(h, img).Some?
  }

  // A row that is not corrupt: known bits only, a range within the application's
  // bounds, and an entry point, or a descriptor that can be loaded, within the image.
  predicate Sound(h: Handler, img: Image) {
    && !h.flags.unknown
    && Begin(h, img.load) <= End(h, img.load)
    && img.boundMin <= Begin(h, img.load) + img.load
    && End(h, img.load) + img.load <= img.boundMax + 1
    && img.min <= Begin(h, img.load) && End(h, img.load) <= img.end
    && img.min <= Entry(h, img.load) < img.end
    && (h.flags.descriptor ==>
          && img.boundMin <= Entry(h, img.load) + img.load <= img.boundMax + 1 - DESCRIPTOR_SIZE
          && Load(img, Entry(h, img.load)).Some?)
  }

  ghost predicate SoundTable(t: seq<Handler>, img: Image) {
    forall h <- t :: Sound(h, img)
  }

  // What the row that is found leads to, on any table: also a row outside the bounds of the
  // application, or a descriptor that cannot be used, ends the search.
  function Leads(h: Handler, img: Image): Option<Info> {
    var at := Entry(h, img.load) + img.load;
    if h.flags.descriptor && !(img.boundMin <= at <= img.boundMax + 1 - DESCRIPTOR_SIZE) then None
    else if !h.flags.descriptor && !(img.min <= Entry(h, img.load) <= img.end) then None
    else InfoOf(h, img)
  }

  /* The search without a cache.  A corrupt row ends the search; on a table
     without corrupt rows the answer is what the table says. */
  method LookupWithoutCache(t: seq<Handler>, img: Image, relIp: int, code: Code)
    returns (r: Option<Info>)
    ensures r.Some? ==> r == PlainSearch(t, img, relIp, code)
    ensures r.Some? ==> img.min <= r.value.entry <= img.end
    ensures SoundTable(t, img) ==> r == PlainSearch(t, img, relIp, code)
    ensures r == Scan(t, img, relIp, code)
  {
    hide InfoOf, Leads;
    var ip := relIp + img.load;
    var i := 0;
    while i < |t|
      invariant 0 <= i <= |t|
      invariant FirstMatch(t, img.load, relIp, code) == FirstMatch(t[i..], img.load, relIp, code)
      invariant Scan(t, img, relIp, code) == Scan(t[i..], img, relIp, code)
    {
      var h := t[i];
      assert h in t;
      assert t[i..][0] == h && t[i..][1..] == t[i + 1..];
      if h.flags.unknown {
        return None;
      }
      if h.flags.hasMask && h.mask != code {
        i := i + 1;
        continue;
      }
      var begin, end := h.begin, h.end;
      if h.flags.relative {
        begin, end := begin + img.load, end + img.load;
      }
      if ip < begin || ip >= end {
        i := i + 1;
        continue;
      }
      if begin > end || begin < img.boundMin || end > img.boundMax + 1 {
        return None;
      }
      r := Finish(h, img);
      return;
    }
    return None;
  }

  // The search on any table: rows with unknown bits, and rows that are found but do not lie
  // within the application, end it.
  function Scan(t: seq<Handler>, img: Image, ip: int, code: Code): Option<Info> {
    if t == [] || t[0].flags.unknown then None
    else if !Selects(t[0], img.load, ip, code) then Scan(t[1..], img, ip, code)
    else if Begin(t[0], img.load) + img.load < img.boundMin then None
    else if End(t[0], img.load) + img.load > img.boundMax + 1 then None
    else Leads(t[0], img)
  }

  /* Row `k` is where the search ends exactly if no row up to it has an unknown bit, its mask,
     if it has one, is the code, it guards the address, and no earlier row does both. */
  lemma {:induction false} ScanFinds(t: seq<Handler>, img: Image, ip: int, code: Code, k: nat)
    requires k < |t| && (forall j | 0 <= j <= k :: !t[j].flags.unknown)
    requires t[k].flags.hasMask ==> t[k].mask == code
    requires if t[k].flags.relative then t[k].begin <= ip < t[k].end else t[k].begin <= ip + img.load < t[k].end
    requires forall j | 0 <= j < k ::
               || (t[j].flags.hasMask && t[j].mask != code)
               || !(if t[j].flags.relative then t[j].begin <= ip < t[j].end
                    else t[j].begin <= ip + img.load < t[j].end)
    ensures Scan(t, img, ip, code)
         == var shift := if t[k].flags.relative then img.load else 0;
            if img.boundMin <= t[k].begin + shift && t[k].end + shift <= img.boundMax + 1
            then Leads(t[k], img) else None
  {
    hide Leads;
    if k > 0 {
      assert forall j | 0 <= j < k :: t[1..][j] == t[j + 1];
      ScanFinds(t[1..], img, ip, code, k - 1);
    }
  }

  /* Without such a row nothing is found. */
  lemma {:induction false} ScanMisses(t: seq<Handler>, img: Image, ip: int, code: Code)
    ensures Scan(t, img, ip, code).Some? ==>
              exists k ::
                && 0 <= k < |t| && (forall j | 0 <= j <= k :: !t[j].flags.unknown)
                && (t[k].flags.hasMask ==> t[k].mask == code)
                && (if t[k].flags.relative then t[k].begin <= ip < t[k].end
                    else t[k].begin <= ip + img.load < t[k].end)
  {
    hide Leads;
    if Scan(t, img, ip, code).Some? && !Selects(t[0], img.load, ip, code) {
      ScanMisses(t[1..], img, ip, code);
      var i :| && 0 <= i < |t[1..]| && (forall j | 0 <= j <= i :: !t[1..][j].flags.unknown)
               && (t[1..][i].flags.hasMask ==> t[1..][i].mask == code)
               && (if t[1..][i].flags.relative then t[1..][i].begin <= ip < t[1..][i].end
                   else t[1..][i].begin <= ip + img.load < t[1..][i].end);
      var k := i + 1;
      assert t[k] == t[1..][i];
      forall j | 0 <= j <= k ensures !t[j].flags.unknown {
        if j > 0 {
          assert t[j] == t[1..][j - 1];
        }
      }
    }
  }

  /* The entry point of the row that was found: its own, or that of the descriptor it names.
     A descriptor can be used if it is of the bypass type with known flags only, disables
     preemption for a driver only, and leads into the image; its target is relative to the
     image, or absolute. */
  method Finish(h: Handler, img: Image) returns (r: Option<Info>)
    ensures r.Some? ==> r == InfoOf(h, img) && img.min <= r.value.entry <= img.end
    ensures Sound(h, img) ==> r == InfoOf(h, img)
    ensures r == Leads(h, img)
    ensures !h.flags.descriptor ==>
              var entry := if h.flags.relative then h.entry else h.entry - img.load;
              r == if img.min <= entry <= img.end then Some(Info(h, entry, None)) else None
    ensures h.flags.descriptor ==>
              var at := if h.flags.relative then h.entry else h.entry - img.load;
              && (r.Some? <==>
                    && img.boundMin <= at + img.load && at + img.load + 12 <= img.boundMax + 1
                    && img.memory(at).Some?
                    && var d := img.memory(at).value;
                       && d.isBypass && !d.unknown && (d.disablesPreemption ==> img.driver)
                       && img.min <= (if d.relative then d.handler else d.handler - img.load) < img.end)
              && (r.Some? ==>
                    var d := img.memory(at).value;
                    r.value == Info(h, if d.relative then d.handler else d.handler - img.load, Some(d)))
  {
    var entry := h.entry;
    if h.flags.relative {
      entry := entry + img.load;
    }
    if h.flags.descriptor {
      if entry < img.boundMin || entry > img.boundMax + 1 - DESCRIPTOR_SIZE {
        return None;
      }
      var read := img.memory(entry - img.load);
      if read.None? {
        return None;
      }
      var d := read.value;
      if !d.isBypass || d.unknown || (d.disablesPreemption && !img.driver) {
        return None;
      }
      entry := d.handler;
      if d.relative {
        entry := entry + img.load;
      }
      if entry < img.load + img.min || entry >= img.load + img.end {
        return None;
      }
      return Some(Info(h, entry - img.load, Some(d)));
    }
    if entry < img.load + img.min || entry > img.load + img.end {
      return None;
    }
    return Some(Info(h, entry - img.load, None));
  }

  /* A row is corrupt unless it has known bits only, lies within the application and the image,
     and leads into the image, itself or by a descriptor that can be used. */
  lemma SoundMeans(h: Handler, img: Image)
    ensures Sound(h, img)
       <==> var shift := if h.flags.relative then 0 else img.load;
            && !h.flags.unknown && h.begin <= h.end
            && img.boundMin <= h.begin - shift + img.load && h.end - shift + img.load <= img.boundMax + 1
            && img.min <= h.begin - shift && h.end - shift <= img.end
            && img.min <= h.entry - shift < img.end
            && (h.flags.descriptor ==>
                  && img.boundMin <= h.entry - shift + img.load <= img.boundMax + 1 - 12
                  && img.memory(h.entry - shift).Some?
                  && var d := img.memory(h.entry - shift).value;
                     && d.isBypass && !d.unknown && (d.disablesPreemption ==> img.driver)
                     && img.min <= (if d.relative then d.handler else d.handler - img.load) < img.end)
  {
  }

  lemma SoundIsReadable(t: seq<Handler>, img: Image)
    requires SoundTable(t, img)
    ensures Readable(t, img)
  {
  }

  lemma {:induction false} FirstMatchConcat(s: seq<Handler>, t: seq<Handler>, load: int, ip: int, code: Code)
    ensures FirstMatch(s + t, load, ip, code)
         == if FirstMatch(s, load, ip, code).Some? then FirstMatch(s, load, ip, code)
            else FirstMatch(t, load, ip, code)
  {
    if s == [] {
      assert s + t == t;
    } else {
      assert (s + t)[1..] == s[1..] + t;
      FirstMatchConcat(s[1..], t, load, ip, code);
    }
  }
}
