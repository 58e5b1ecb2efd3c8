/**
 The directory streams for a DOS library, `opendir`, `readdir` and `closedir`, written
 over `_findfirst`, `_findnext` and `_findclose`.

 The heap maps the address of each live block to its contents: the buffer of a query, or
 a stream.  A stream pointer is the address of its block, and zero is the null pointer.
 */
module DosDirectory {
  import opened Wrappers

  // What a search reports of a file; the stream adds a number.
  datatype Match = Match(name: string, attributes: nat)
  datatype Entry = Entry(ino: nat, found: Match)

  datatype Block =
    | Raw
    | Query(text: string)
    | Dir(search: nat, isFirst: bool, entry: Entry)

  type Heap = map<nat, Block>
  type Searches = map<nat, seq<Match>>

  const NULL := 0
  const INO_LIMIT := 65536

  // ---------------------------------------------------------------- what streams stand for

  // A stream as a client thinks of it: a list, and how much of it was delivered.
  datatype View = View(matches: seq<Match>, served: nat)

  function Numbered(matches: seq<Match>, k: nat): Entry
    requires k < |matches|
  {
    Entry(k % INO_LIMIT, matches[k])
  }

  // What a stream's search has left: the first match is reported by opening it.
  function Rest(v: View): seq<Match>
    requires 0 < |v.matches| && v.served <= |v.matches|
  {
    v.matches[if v.served == 0 then 1 else v.served..]
  }

  // The block and the search of a stream represent its view.
  ghost predicate Represents(b: Block, searches: Searches, v: View) {
    && b.Dir? && 0 < |v.matches| && v.served <= |v.matches|
    && (b.isFirst <==> v.served == 0)
    && b.entry == Numbered(v.matches, if v.served == 0 then 0 else v.served - 1)
    && b.search in searches && searches[b.search] == Rest(v)
  }

  /* Every live block is an open stream with a search of its own, and there are no other
     searches. */
  ghost predicate Consistent(heap: Heap, searches: Searches, open: map<nat, View>) {
    && heap.Keys == open.Keys && NULL !in heap && |searches| == |open|
    && (forall p <- open :: Represents(heap[p], searches, open[p]))
    && (forall p <- open, q <- open | p != q :: heap[p].search != heap[q].search)
  }

  lemma Known(heap: Heap, searches: Searches, open: map<nat, View>, p: nat)
    requires Consistent(heap, searches, open)
    ensures heap.Keys == open.Keys && NULL !in heap
    ensures p in open ==> Represents(heap[p], searches, open[p])
  {
  }

  // ------------------------------------------------------------------ how it is preserved

  lemma SizeAdd<T>(m: map<nat, T>, k: nat, v: T)
    ensures |m[k := v]| == if k in m then |m| else |m| + 1
  {
    if k in m {
      assert m[k := v].Keys == m.Keys;
    } else {
      assert m[k := v].Keys == m.Keys + {k};
    }
    assert |m.Keys| == |m| && |m[k := v].Keys| == |m[k := v]|;
  }

  lemma SizeRemove<T>(m: map<nat, T>, k: nat)
    requires k in m
    ensures |m - {k}| == |m| - 1
  {
    assert (m - {k}).Keys == m.Keys - {k};
    assert |m.Keys| == |m| && |(m - {k}).Keys| == |m - {k}|;
  }

  // A stream depends on its own search only.
  lemma SameSearch(b: Block, searches: Searches, searches': Searches, v: View)
    requires Represents(b, searches, v) && b.search in searches' && searches'[b.search] == searches[b.search]
    ensures Represents(b, searches', v)
  {
  }

  lemma Alone(heap: Heap, searches: Searches, open: map<nat, View>, p: nat, q: nat)
    requires Consistent(heap, searches, open) && q in open
    ensures heap[q].Dir? && heap[q].search in searches
    ensures p in open && p != q ==> heap[p].Dir? && heap[q].search != heap[p].search
  {
  }

  lemma OpenKeeps(heap: Heap, searches: Searches, open: map<nat, View>, p: nat, id: nat, matches: seq<Match>)
    requires Consistent(heap, searches, open) && p !in heap && p != NULL && id !in searches && matches != []
    ensures Consistent(heap[p := Dir(id, true, Entry(0, matches[0]))], searches[id := matches[1..]],
                       open[p := View(matches, 0)])
  {
    SizeAdd(searches, id, matches[1..]);
    SizeAdd(open, p, View(matches, 0));
    Opened(searches, id, matches);
    hide Represents;
    forall q <- open ensures Represents(heap[q], searches[id := matches[1..]], open[q]) {
      Alone(heap, searches, open, p, q);
      SameSearch(heap[q], searches, searches[id := matches[1..]], open[q]);
    }
  }

  lemma Opened(searches: Searches, id: nat, matches: seq<Match>)
    requires matches != []
    ensures Represents(Dir(id, true, Entry(0, matches[0])), searches[id := matches[1..]], View(matches, 0))
  {
  }

  lemma StepKeeps(heap: Heap, searches: Searches, open: map<nat, View>, p: nat, b: Block, rest: seq<Match>, v: View)
    requires Consistent(heap, searches, open) && p in heap && heap[p].Dir? && b.Dir? && b.search == heap[p].search
    requires Represents(b, searches[b.search := rest], v)
    ensures Consistent(heap[p := b], searches[b.search := rest], open[p := v])
  {
    hide Represents;
    SizeAdd(open, p, v);
    Alone(heap, searches, open, p, p);
    SizeAdd(searches, b.search, rest);
    forall q <- open | q != p ensures Represents(heap[q], searches[b.search := rest], open[q]) {
      Alone(heap, searches, open, p, q);
      SameSearch(heap[q], searches, searches[b.search := rest], open[q]);
    }
  }

  lemma CloseKeeps(heap: Heap, searches: Searches, open: map<nat, View>, p: nat)
    requires Consistent(heap, searches, open) && p in heap && heap[p].Dir?
    ensures Consistent(heap - {p}, searches - {heap[p].search}, open - {p})
  {
    hide Represents;
    var searches' := searches - {heap[p].search};
    Alone(heap, searches, open, p, p);
    SizeRemove(searches, heap[p].search);
    SizeRemove(open, p);
    forall q <- open | q != p ensures Represents(heap[q], searches', open[q]) {
      Alone(heap, searches, open, p, q);
      SameSearch(heap[q], searches, searches', open[q]);
    }
  }

  // Blocks that were allocated and freed again leave no trace.
  lemma OneFreed(heap: Heap, q: nat)
    requires q !in heap
    ensures heap[q := Raw] - {q} == heap
  {
  }

  lemma AllFreed(heap: Heap, q: nat, p: nat, query: Block)
    requires q !in heap && p !in heap && p != q
    ensures heap[q := Raw][p := Raw][q := query] - {p} - {q} == heap
  {
  }

  lemma QueryFreed(heap: Heap, q: nat, p: nat, query: Block, dir: Block)
    requires q !in heap && p !in heap && p != q
    ensures heap[q := Raw][p := Raw][q := query][p := dir] - {q} == heap[p := dir]
  {
  }

  lemma Counts(heap: Heap, searches: Searches, open: map<nat, View>)
    requires Consistent(heap, searches, open)
    ensures |heap| == |open| == |searches|
  {
    assert |heap.Keys| == |heap| && |open.Keys| == |open|;
  }

  // ------------------------------------------------------------------------ the operations

  class Library {
    const files: string -> seq<Match>
    const separator: char
    var heap: Heap
    var searches: Searches
    var invalid: bool
    ghost var open: map<nat, View>

    constructor (files: string -> seq<Match>, separator: char)
      ensures Valid() && open == map[] && !invalid && this.files == files && this.separator == separator
    {
      this.files, this.separator := files, separator;
      heap, searches, open, invalid := map[], map[], map[], false;
    }

    ghost predicate Valid()
      reads this
    {
      Consistent(heap, searches, open)
    }

    // The first match and a search for the others; fails when there is no match.
    method FindFirst(query: string, id: nat, succeeds: bool) returns (first: Option<Match>)
      requires id !in searches
      modifies `searches
      ensures first == if succeeds && files(query) != [] then Some(files(query)[0]) else None
      ensures searches == if first.Some? then old(searches)[id := files(query)[1..]] else old(searches)
    {
      var found := files(query);
      if !succeeds || found == [] {
        return None;
      }
      searches := searches[id := found[1..]];
      first := Some(found[0]);
    }

    method FindNext(id: nat) returns (next: Option<Match>)
      requires id in searches
      modifies `searches
      ensures var left := old(searches[id]);
              if left == [] then next == None && searches == old(searches)
              else next == Some(left[0]) && searches == old(searches)[id := left[1..]]
    {
      var left := searches[id];
      if left == [] {
        return None;
      }
      searches := searches[id := left[1..]];
      next := Some(left[0]);
    }

    /* opendir.  `at` are the addresses that the heap has for the query and the stream, and
       `id` is the handle of a new search; `luck` says which of the three requests succeed.
       A stream over the matches is opened, or nothing has changed. */
    method OpenDir(name: string, at: (nat, nat), id: nat, luck: (bool, bool, bool)) returns (p: nat)
      requires Valid() && at.0 != NULL && at.1 != NULL && at.0 != at.1 && at.0 !in heap && at.1 !in heap
      requires id !in searches
      modifies `heap, `searches, `open
      ensures Valid()
      ensures var matches := files(name + [separator, '*']);
              if luck.0 && luck.1 && luck.2 && matches != []
              then p == at.1 && open == old(open)[p := View(matches, 0)]
              else p == NULL && heap == old(heap) && searches == old(searches) && open == old(open)
      ensures heap.Keys == old(heap.Keys) + (if p == NULL then {} else {p})
      ensures searches.Keys <= old(searches.Keys) + {id}
    {
      hide Consistent;
      ghost var before := heap;
      OneFreed(before, at.0);
      if !luck.0 {
        return NULL;
      }
      heap := heap[at.0 := Raw];
      p := NULL;
      if luck.1 {
        p := at.1;
        heap := heap[p := Raw];
        var query := name + [separator, '*'];
        heap := heap[at.0 := Query(query)];
        var first := FindFirst(query, id, luck.2);
        if first.Some? {
          heap := heap[p := Dir(id, true, Entry(0, first.value))];
          open := open[p := View(files(query), 0)];
          OpenKeeps(before, old(searches), old(open), p, id, files(query));
          QueryFreed(before, at.0, p, Query(query), Dir(id, true, Entry(0, first.value)));
        } else {
          AllFreed(before, at.0, p, Query(query));
          heap := heap - {p};
          p := NULL;
        }
      }
      heap := heap - {at.0};
    }

    /* readdir.  Call number k on a stream delivers match number k; past the last match
       nothing is delivered and nothing changes.  No other stream is disturbed. */
    method ReadDir(p: nat) returns (r: Option<Entry>)
      requires Valid() && (p == NULL || p in open)
      modifies `heap, `searches, `open, `invalid
      ensures Valid() && heap.Keys == old(heap.Keys) && searches.Keys == old(searches.Keys)
      ensures invalid == (old(invalid) || p == NULL)
      ensures if p == NULL || old(open[p].served == |open[p].matches|)
              then r == None && heap == old(heap) && open == old(open)
              else var v := old(open[p]);
                   && r == Some(Entry(v.served % 65536, v.matches[v.served]))
                   && open == old(open)[p := v.(served := v.served + 1)]
    {
      hide Consistent;
      Known(heap, searches, open, p);
      if p == NULL {
        invalid := true;
        return None;
      }
      ghost var v := open[p];
      var Dir(search, isFirst, entry) := heap[p];
      if !isFirst {
        var next := FindNext(search);
        if next.None? {
          return None;
        }
        entry := Entry((entry.ino + 1) % INO_LIMIT, next.value);
      }
      Delivered(old(heap), old(searches), old(open), p, searches, entry);
      heap := heap[p := Dir(search, false, entry)];
      open := open[p := v.(served := v.served + 1)];
      r := Some(entry);
    }

    /* closedir */
    method CloseDir(p: nat) returns (error: int)
      requires Valid() && (p == NULL || p in open)
      modifies `heap, `searches, `open, `invalid
      ensures Valid() && error == (if p == NULL then -1 else 0)
      ensures invalid == (old(invalid) || p == NULL)
      ensures open == old(open) - {p} && heap == old(heap) - {p}
      ensures searches.Keys <= old(searches.Keys)
    {
      hide Consistent;
      Known(heap, searches, open, p);
      if p == NULL {
        invalid := true;
        assert open - {p} == open && heap - {p} == heap;
        return -1;
      }
      CloseKeeps(heap, searches, open, p);
      searches := searches - {heap[p].search};
      heap, open := heap - {p}, open - {p};
      error := 0;
    }
  }

  lemma Delivered(heap: Heap, searches: Searches, open: map<nat, View>, p: nat, searches': Searches, entry: Entry)
    requires Consistent(heap, searches, open) && p in open && Represents(heap[p], searches, open[p])
    requires var b, left := heap[p], searches[heap[p].search];
             if b.isFirst then searches' == searches && entry == b.entry
             else left != [] && searches' == searches[b.search := left[1..]]
                  && entry == Entry((b.entry.ino + 1) % INO_LIMIT, left[0])
    ensures var v := open[p];
            && v.served < |v.matches| && entry == Numbered(v.matches, v.served)
            && searches'.Keys == searches.Keys
            && Consistent(heap[p := Dir(heap[p].search, false, entry)], searches',
                          open[p := v.(served := v.served + 1)])
  {
    hide Consistent;
    Known(heap, searches, open, p);
    var b, v := heap[p], open[p];
    var b', v' := Dir(b.search, false, entry), v.(served := v.served + 1);
    Served(b, searches, v, searches', entry);
    StepKeeps(heap, searches, open, p, b', Rest(v'), v');
  }

  // One step of a stream by itself.
  lemma Served(b: Block, searches: Searches, v: View, searches': Searches, entry: Entry)
    requires Represents(b, searches, v)
    requires var left := searches[b.search];
             if b.isFirst then searches' == searches && entry == b.entry
             else left != [] && searches' == searches[b.search := left[1..]]
                  && entry == Entry((b.entry.ino + 1) % INO_LIMIT, left[0])
    ensures v.served < |v.matches| && entry == Numbered(v.matches, v.served)
    ensures var v' := v.(served := v.served + 1);
            && searches' == searches[b.search := Rest(v')] && searches'.Keys == searches.Keys
            && Represents(Dir(b.search, false, entry), searches', v')
  {
  }

  // ---------------------------------------------------------------------------- whole runs

  /* Any number of calls on a stream that was just opened deliver the matches in order,
     numbered from zero modulo the width of the number, and then nothing for ever. */
  method ReadMany(lib: Library, p: nat, n: nat) returns (out: seq<Option<Entry>>)
    requires lib.Valid() && p in lib.open && lib.open[p].served == 0
    modifies lib
    ensures lib.Valid() && lib.open.Keys == old(lib.open.Keys)
    ensures |out| == n
    ensures var matches := old(lib.open[p].matches);
            forall k | 0 <= k < n :: out[k] == if k < |matches| then Some(Entry(k % 65536, matches[k])) else None
    ensures forall q <- lib.open | q != p :: lib.open[q] == old(lib.open)[q]
  {
    hide Consistent;
    ghost var matches := lib.open[p].matches;
    out := [];
    while |out| < n
      invariant lib.Valid() && lib.open.Keys == old(lib.open.Keys) && |out| <= n
      invariant lib.open[p] == View(matches, if |out| < |matches| then |out| else |matches|)
      invariant forall k | 0 <= k < |out| ::
                  out[k] == if k < |matches| then Some(Entry(k % 65536, matches[k])) else None
      invariant forall q <- lib.open | q != p :: lib.open[q] == old(lib.open)[q]
    {
      Known(lib.heap, lib.searches, lib.open, p);
      var r := lib.ReadDir(p);
      out := out + [r];
    }
  }

  // A client's request; streams are named by the order in which they were asked for.
  datatype Request =
    | Open(name: string, luck: (bool, bool, bool))
    | Read(stream: nat)
    | Close(stream: nat)

  // What a client thinks of: the streams in the order in which they were asked for, with
  // nothing in place of those that were refused or closed.
  function After(files: string -> seq<Match>, separator: char, request: Request, views: seq<Option<View>>)
    : seq<Option<View>>
  {
    match request
    case Open(name, luck) =>
      var matches := files(name + [separator, '*']);
      views + [if luck.0 && luck.1 && luck.2 && matches != [] then Some(View(matches, 0)) else None]
    case Read(k) =>
      if k < |views| && views[k].Some? && views[k].value.served < |views[k].value.matches|
      then views[k := Some(View(views[k].value.matches, views[k].value.served + 1))]
      else views
    case Close(k) => if k < |views| then views[k := None] else views
  }

  // What is delivered: the next match of the stream, and nothing by other requests.
  function Reply(request: Request, views: seq<Option<View>>): Option<Entry> {
    if request.Read? && request.stream < |views| && views[request.stream].Some? then
      var View(matches, served) := views[request.stream].value;
      if served < |matches| then Some(Entry(served % 65536, matches[served])) else None
    else None
  }

  function Views(files: string -> seq<Match>, separator: char, requests: seq<Request>): seq<Option<View>> {
    if requests == [] then []
    else
      var n := |requests| - 1;
      After(files, separator, requests[n], Views(files, separator, requests[..n]))
  }

  function Replies(files: string -> seq<Match>, separator: char, requests: seq<Request>): seq<Option<Entry>> {
    if requests == [] then []
    else
      var n := |requests| - 1;
      Replies(files, separator, requests[..n]) + [Reply(requests[n], Views(files, separator, requests[..n]))]
  }

  // The streams that a client still holds.
  function Held(streams: seq<nat>): set<nat> {
    set p | p in streams && p != NULL
  }

  ghost predicate Distinct(streams: seq<nat>) {
    forall j, k | 0 <= j < k < |streams| && streams[j] != NULL :: streams[j] != streams[k]
  }

  lemma NoneHeld()
    ensures Distinct([]) && Held([]) == {}
  {
  }

  lemma HeldAt(streams: seq<nat>, p: nat)
    ensures p in Held(streams) <==> p in streams && p != NULL
  {
  }

  lemma HeldAdd(streams: seq<nat>, p: nat)
    requires Distinct(streams) && (p == NULL || p !in Held(streams))
    ensures Distinct(streams + [p]) && Held(streams + [p]) == Held(streams) + (if p == NULL then {} else {p})
  {
  }

  lemma HeldClose(streams: seq<nat>, k: nat)
    requires Distinct(streams) && k < |streams|
    ensures Distinct(streams[k := NULL]) && Held(streams[k := NULL]) == Held(streams) - {streams[k]}
  {
    var streams' := streams[k := NULL];
    forall p | p in Held(streams) - {streams[k]}
      ensures p in Held(streams')
    {
      var i :| 0 <= i < |streams| && streams[i] == p;
      assert streams'[i] == p;
    }
  }

  // A library of which a client holds every open stream.
  ghost predicate Tidy(lib: Library, streams: seq<nat>, unused: nat)
    reads lib
  {
    && lib.Valid() && Distinct(streams) && lib.open.Keys == lib.heap.Keys == Held(streams) && unused > NULL
    && (forall p <- lib.heap :: p < unused) && (forall p <- lib.searches :: p < unused)
  }

  // The streams that the client holds are those it thinks of.
  ghost predicate Tracks(open: map<nat, View>, streams: seq<nat>, views: seq<Option<View>>) {
    && |streams| == |views|
    && forall k | 0 <= k < |streams| ::
         if streams[k] == NULL then views[k] == None
         else streams[k] in open && views[k] == Some(open[streams[k]])
  }

  method Answer(lib: Library, request: Request, streams: seq<nat>, unused: nat, ghost views: seq<Option<View>>)
    returns (streams': seq<nat>, r: Option<Entry>)
    requires Tidy(lib, streams, unused) && Tracks(lib.open, streams, views)
    modifies lib
    ensures Tidy(lib, streams', unused + 2)
    ensures Tracks(lib.open, streams', After(lib.files, lib.separator, request, views))
    ensures r == Reply(request, views)
  {
    hide Consistent, Held, Distinct, Tracks;
    streams', r := streams, None;
    ghost var before := lib.open;
    match request {
      case Open(name, luck) =>
        var p := lib.OpenDir(name, (unused, unused + 1), unused, luck);
        HeldAdd(streams, p);
        Known(lib.heap, lib.searches, lib.open, p);
        streams' := streams + [p];
        TracksOpen(before, lib.open, streams, views, p);
      case Read(k) =>
        var p := if k < |streams| then streams[k] else NULL;
        HeldAt(streams, p);
        Known(lib.heap, lib.searches, lib.open, p);
        TracksAt(before, streams, views, k);
        r := lib.ReadDir(p);
        Known(lib.heap, lib.searches, lib.open, p);
        if lib.open != before {
          TracksRead(before, streams, views, k, lib.open[p]);
        }
      case Close(k) =>
        var p := if k < |streams| then streams[k] else NULL;
        HeldAt(streams, p);
        Known(lib.heap, lib.searches, lib.open, p);
        TracksAt(before, streams, views, k);
        var error := lib.CloseDir(p);
        if p != NULL {
          HeldClose(streams, k);
          TracksClose(before, streams, views, k);
          streams' := streams[k := NULL];
        } else {
          assert before - {NULL} == before by { assert NULL !in before; }
          assert k < |views| ==> views[k := None] == views;
        }
    }
  }

  lemma TracksAt(open: map<nat, View>, streams: seq<nat>, views: seq<Option<View>>, k: nat)
    requires Tracks(open, streams, views)
    ensures |streams| == |views|
    ensures k < |streams| ==>
              if streams[k] == NULL then views[k] == None
              else streams[k] in open && views[k] == Some(open[streams[k]])
  {
  }

  lemma TracksOpen(open: map<nat, View>, open': map<nat, View>, streams: seq<nat>, views: seq<Option<View>>, p: nat)
    requires Tracks(open, streams, views)
    requires if p == NULL then open' == open else p !in open && p in open' && open' == open[p := open'[p]]
    ensures Tracks(open', streams + [p], views + [if p == NULL then None else Some(open'[p])])
  {
  }

  lemma TracksRead(open: map<nat, View>, streams: seq<nat>, views: seq<Option<View>>, k: nat, v: View)
    requires Tracks(open, streams, views) && Distinct(streams) && k < |streams| && streams[k] != NULL
    ensures Tracks(open[streams[k] := v], streams, views[k := Some(v)])
  {
  }

  lemma TracksClose(open: map<nat, View>, streams: seq<nat>, views: seq<Option<View>>, k: nat)
    requires Tracks(open, streams, views) && Distinct(streams) && k < |streams| && streams[k] != NULL
    ensures Tracks(open - {streams[k]}, streams[k := NULL], views[k := None])
  {
  }

  /* Over every run, whatever fails, each request is answered as from the lists the client
     thinks of, with which the streams agree; live blocks and open searches each number the
     streams that are still open, and once all are closed nothing is left. */
  method Serve(lib: Library, requests: seq<Request>) returns (streams: seq<nat>, out: seq<Option<Entry>>)
    requires lib.Valid() && lib.open == map[]
    modifies lib
    ensures lib.Valid() && |lib.heap| == |lib.open| == |lib.searches|
    ensures lib.open.Keys == Held(streams)
    ensures Held(streams) == {} ==> lib.heap == map[] && lib.searches == map[]
    ensures out == Replies(lib.files, lib.separator, requests)
    ensures var views := Views(lib.files, lib.separator, requests);
            && |streams| == |views|
            && forall k | 0 <= k < |streams| ::
                 if streams[k] == NULL then views[k] == None
                 else streams[k] in lib.open && views[k] == Some(lib.open[streams[k]])
  {
    hide Consistent, Held, Distinct, After, Reply;
    streams, out := [], [];
    NoneHeld();
    NoneOpen(lib.heap, lib.searches, lib.open);
    var unused := 1;
    for i := 0 to |requests|
      invariant Tidy(lib, streams, unused)
      invariant Tracks(lib.open, streams, Views(lib.files, lib.separator, requests[..i]))
      invariant out == Replies(lib.files, lib.separator, requests[..i])
    {
      assert requests[..i + 1][..i] == requests[..i];
      var r;
      streams, r := Answer(lib, requests[i], streams, unused, Views(lib.files, lib.separator, requests[..i]));
      out := out + [r];
      unused := unused + 2;
    }
    assert requests[..|requests|] == requests;
    Counts(lib.heap, lib.searches, lib.open);
  }

  lemma NoneOpen(heap: Heap, searches: Searches, open: map<nat, View>)
    requires Consistent(heap, searches, open) && open == map[]
    ensures heap == map[] && searches == map[]
  {
  }
}
