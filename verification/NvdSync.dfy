/**
 Reading NVD into year files (`openvibes-feed/src/nvd.rs`): windows of last-modified time,
 read page by page, merged into the years' files and saved one window at a time. Any page,
 merge or save may fail and any run may be cut off; a later run goes on from what was saved.
 */
module NvdSync {
  import opened Basics

  const DAY: int := 86_400
  const MAX_WINDOW_DAYS: int := 120
  const PAGE: nat := 2000

  /** 2010-01-01, where a first read starts. */
  const START: int := 1_262_304_000

  type Id = string

  datatype YearNo = YearNo(number: nat)

  /** A record upstream; without a year it is not kept. */
  datatype Cve = Cve(id: Id, year: Option<YearNo>, modified: int, text: string)

  type Years = map<YearNo, map<Id, Cve>>

  /** What `nvd-state.json` holds, the year files included. */
  datatype State = State(cursor: Option<int>, complete: bool, years: Years)

  datatype Window = Window(from: int, till: int)

  // ---- year files -----------------------------------------------------------------------

  function Year(years: Years, y: YearNo): map<Id, Cve> {
    if y in years then years[y] else map[]
  }

  function Lookup(years: Years, y: YearNo, id: Id): Option<Cve> {
    if id in Year(years, y) then Some(Year(years, y)[id]) else None
  }

  /** The files hold exactly the records `kept` that have a year, each in its year under its id. */
  ghost predicate Mirrors(years: Years, kept: set<Cve>) {
    && (forall y, id :: Lookup(years, y, id).Some? ==>
          var c := Lookup(years, y, id).value; c in kept && c.id == id && c.year == Some(y))
    && (forall c :: c in kept && c.year.Some? ==> Lookup(years, c.year.value, c.id) == Some(c))
  }

  ghost predicate DistinctIds(cs: set<Cve>) {
    forall c, d :: c in cs && d in cs && c.id == d.id ==> c == d
  }

  function Merged(years: Years, found: Years): Years {
    map y | y in years.Keys + found.Keys :: Year(years, y) + Year(found, y)
  }

  lemma MergedLookup(years: Years, found: Years, y: YearNo, id: Id)
    ensures Lookup(Merged(years, found), y, id) == if Lookup(found, y, id).Some? then Lookup(found, y, id)
            else Lookup(years, y, id)
  {
  }

  lemma MergeMirrors(years: Years, found: Years, a: set<Cve>, b: set<Cve>)
    requires Mirrors(years, a) && Mirrors(found, b) && DistinctIds(a + b)
    ensures Mirrors(Merged(years, found), a + b)
  {
    hide Merged, Lookup;
    forall y, id { MergedLookup(years, found, y, id); }
  }

  /** Adds one record, if it has a year. */
  function Added(found: Years, c: Cve): Years {
    if c.year.None? then found else found[c.year.value := Year(found, c.year.value)[c.id := c]]
  }

  lemma AddedLookup(found: Years, c: Cve, y: YearNo, id: Id)
    ensures Lookup(Added(found, c), y, id) == if c.year == Some(y) && id == c.id then Some(c) else Lookup(found, y, id)
  {
  }

  lemma AddMirrors(found: Years, kept: set<Cve>, c: Cve)
    requires Mirrors(found, kept) && DistinctIds(kept + {c})
    ensures Mirrors(Added(found, c), kept + {c})
  {
    hide Added, Lookup;
    forall y, id { AddedLookup(found, c, y, id); }
  }

  /** The records of a list in order. */
  lemma AddListed(found: Years, listing: seq<Cve>, i: nat)
    requires i < |listing| && Mirrors(found, AsSet(listing[..i])) && DistinctIds(AsSet(listing))
    ensures Mirrors(Added(found, listing[i]), AsSet(listing[..i + 1]))
  {
    hide Mirrors, Added;
    var c := listing[i];
    assert listing[..i + 1] == listing[..i] + [c];
    assert AsSet(listing[..i + 1]) == AsSet(listing[..i]) + {c};
    assert AsSet(listing[..i]) + {c} <= AsSet(listing);
    AddMirrors(found, AsSet(listing[..i]), c);
  }

  lemma ListingStarts(upstream: seq<Cve>, low: int, high: int)
    requires DistinctIds(AsSet(upstream))
    ensures DistinctIds(AsSet(Listing(upstream, low, high)))
    ensures Mirrors(map[], AsSet(Listing(upstream, low, high)[..0]))
  {
    hide Listing;
    assert AsSet(Listing(upstream, low, high)) <= AsSet(upstream);
  }

  // ---- the span that was read -------------------------------------------------------------

  ghost function Span(upstream: seq<Cve>, low: int, high: int): set<Cve> {
    set c | c in upstream && low <= c.modified <= high
  }

  /** What a saved state stands for: the records from the start up to its cursor. */
  ghost function Covered(upstream: seq<Cve>, cursor: Option<int>): set<Cve> {
    if cursor.None? then {} else Span(upstream, START, cursor.value)
  }

  /** The windows join up from the start to the cursor, none longer than the service allows. */
  ghost predicate Tiles(windows: seq<Window>, cursor: Option<int>) {
    && (cursor.None? <==> windows == [])
    && (windows != [] ==> windows[0].from == START && windows[|windows| - 1].till == cursor.value)
    && (forall i :: 0 <= i < |windows| ==> windows[i].from < windows[i].till <= windows[i].from + MAX_WINDOW_DAYS * DAY)
    && (forall i :: 0 < i < |windows| ==> windows[i].from == windows[i - 1].till)
  }

  lemma NextWindow(windows: seq<Window>, cursor: Option<int>, upstream: seq<Cve>, till: int)
    requires Tiles(windows, cursor)
    requires At(cursor) < till <= At(cursor) + MAX_WINDOW_DAYS * DAY
    ensures Tiles(windows + [Window(At(cursor), till)], Some(till))
    ensures Covered(upstream, Some(till)) == Covered(upstream, cursor) + Span(upstream, At(cursor), till)
  {
    if cursor.Some? { CursorAfterStart(windows, cursor, |windows|); }
  }

  lemma {:induction false} CursorAfterStart(windows: seq<Window>, cursor: Option<int>, n: nat)
    requires Tiles(windows, cursor) && 1 <= n <= |windows|
    ensures START < windows[n - 1].till
  {
    if n > 1 { CursorAfterStart(windows, cursor, n - 1); }
  }

  /** Where a read goes on. */
  function At(cursor: Option<int>): int {
    if cursor.Some? then cursor.value else START
  }

  /** The records a window asks for, in the service's order. */
  function Listing(upstream: seq<Cve>, low: int, high: int): (list: seq<Cve>)
    ensures forall c :: c in list <==> c in upstream && low <= c.modified <= high
  {
    if upstream == [] then []
    else
      var rest := Listing(upstream[1..], low, high);
      assert upstream == [upstream[0]] + upstream[1..];
      if low <= upstream[0].modified <= high then [upstream[0]] + rest else rest
  }

  ghost function AsSet(list: seq<Cve>): set<Cve> {
    set c | c in list
  }

  /** The same span read in any number of runs gives the same files. */
  lemma ResumedReadIsTheSame(a: Years, b: Years, kept: set<Cve>, y: YearNo, id: Id)
    requires Mirrors(a, kept) && Mirrors(b, kept)
    ensures Lookup(a, y, id) == Lookup(b, y, id)
  {
    hide Lookup;
    var p, q := Lookup(a, y, id), Lookup(b, y, id);
    assert p.Some? ==> Lookup(b, p.value.year.value, p.value.id) == p;
    assert q.Some? ==> Lookup(a, q.value.year.value, q.value.id) == q;
  }

  // ---- the builder's reader ---------------------------------------------------------------

  /**
   A window of which only a front part was read is complete exactly if everything with a year
   behind that part is in it, too.
   */
  lemma CompleteExactly(found: Years, listing: seq<Cve>, read: nat)
    requires read <= |listing| && Mirrors(found, AsSet(listing[..read]))
    ensures Mirrors(found, AsSet(listing)) <==>
            forall i :: read <= i < |listing| && listing[i].year.Some? ==> listing[i] in listing[..read]
  {
    hide Lookup;
    if Mirrors(found, AsSet(listing)) {
      forall i | read <= i < |listing| && listing[i].year.Some? ensures listing[i] in listing[..read] {
        var c := listing[i];
        assert c in AsSet(listing);
        assert Lookup(found, c.year.value, c.id) == Some(c);
        assert c in AsSet(listing[..read]);
      }
    }
    if forall i :: read <= i < |listing| && listing[i].year.Some? ==> listing[i] in listing[..read] {
      forall c | c in AsSet(listing) && c.year.Some? ensures c in AsSet(listing[..read]) {
        var i :| 0 <= i < |listing| && listing[i] == c;
        assert i < read ==> listing[..read][i] == c;
      }
    }
  }

  /**
   NVD as it stands, and the saved state of reading it. An `honest` service tells how many
   records a window has and sends no empty page before the last of them.
   */
  class Reader {
    const upstream: seq<Cve>
    const honest: bool
    var saved: State
    ghost var windows: seq<Window>
    ghost var kept: set<Cve>

    /**
     The saved files are exactly what was read, which is what an honest service holds from the start
     to the cursor.
     */
    ghost predicate Valid()
      reads this
    {
      && DistinctIds(AsSet(upstream))
      && Mirrors(saved.years, kept) && kept <= Covered(upstream, saved.cursor)
      && (honest ==> kept == Covered(upstream, saved.cursor))
      && Tiles(windows, saved.cursor)
    }

    constructor (nvd: seq<Cve>, honest: bool)
      requires DistinctIds(AsSet(nvd))
      ensures Valid() && upstream == nvd && this.honest == honest && saved == State(None, false, map[])
              && windows == [] && kept == {}
    {
      upstream, this.honest := nvd, honest;
      saved, windows, kept := State(None, false, map[]), [], {};
    }

    /** One page: some next records of the listing and a total, or a failure. */
    method Page(listing: seq<Cve>, start: nat) returns (r: Result<seq<Cve>, ()>, total: nat)
      requires start <= |listing|
      ensures r.Ok? ==> start + |r.value| <= |listing| && r.value == listing[start..start + |r.value|]
      ensures honest ==> total == |listing| && (r.Ok? && start < |listing| ==> r.value != [])
    {
      total := *;
      if honest {
        total := |listing|;
      }
      var fails: bool := *;
      if fails {
        return Err(()), total;
      }
      var most := if |listing| - start < PAGE then |listing| - start else PAGE;
      var n :| 0 <= n <= most && (honest && n == 0 ==> most == 0);
      return Ok(listing[start..start + n]), total;
    }

    /** Pages of one window until one is empty or the total is reached; `read` records are in. */
    method ReadWindow(low: int, high: int) returns (r: Result<Years, ()>, read: nat)
      requires Valid()
      ensures read <= |Listing(upstream, low, high)| && (r.Ok? && honest ==> read == |Listing(upstream, low, high)|)
      ensures r.Ok? ==> Mirrors(r.value, AsSet(Listing(upstream, low, high)[..read]))
    {
      hide Mirrors, Added, DistinctIds, Listing, AsSet, Covered, Tiles;
      var listing := Listing(upstream, low, high);
      ListingStarts(upstream, low, high);
      var found: Years := map[];
      read := 0;
      while true
        invariant read <= |listing|
        invariant Mirrors(found, AsSet(listing[..read]))
        decreases |listing| - read
      {
        var page, total := Page(listing, read);
        if page.Err? {
          return Err(()), read;
        }
        var items := page.value;
        for i := 0 to |items|
          invariant Mirrors(found, AsSet(listing[..read + i]))
        {
          assert items[i] == listing[read + i];
          AddListed(found, listing, read + i);
          found := Added(found, items[i]);
        }
        read := read + |items|;
        if items == [] || read >= total {
          break;
        }
      }
      return Ok(found), read;
    }

    /** Merges what a window found year by year; a failure leaves some years merged in memory. */
    method Flush(years: Years, found: Years) returns (merged: Years, ok: bool)
      ensures ok ==> merged == Merged(years, found)
      ensures forall y :: Year(merged, y) == Year(years, y) || Year(merged, y) == Year(years, y) + Year(found, y)
    {
      merged := years;
      var rest := found.Keys;
      while rest != {}
        invariant rest <= found.Keys && merged.Keys == years.Keys + (found.Keys - rest)
        invariant forall y :: Year(merged, y) == if y in rest then Year(years, y) else Year(years, y) + Year(found, y)
      {
        var year :| year in rest;
        var fails: bool := *;
        if fails {
          return merged, false;
        }
        merged := merged[year := Year(merged, year) + found[year]];
        rest := rest - {year};
      }
      MergedIs(years, found, merged);
      return merged, true;
    }

    /**
     Reads on to `now`, window by window, and gives the files to publish. However it ends, the
     saved files mirror what was read and the windows tile the span from the start to the saved
     cursor; an honest service was read completely. A run that reaches the end leaves a cursor
     at `now` or later.
     */
    method Sync(now: int) returns (reached: bool, files: Years)
      requires Valid()
      modifies this`saved, this`windows, this`kept
      ensures Valid() && old(kept) <= kept
      ensures old(windows) <= windows && At(old(saved.cursor)) <= At(saved.cursor)
      ensures At(saved.cursor) <= now || saved.cursor == old(saved.cursor)
      ensures reached ==> saved.complete && now <= At(saved.cursor)
      ensures reached && START < now && At(old(saved.cursor)) <= now ==> saved.cursor == Some(now)
      ensures saved.complete ==> old(saved.complete) || reached
      ensures !saved.complete ==> files == map[]
      ensures reached ==> files == saved.years
      ensures files != map[] ==> Includes(files, kept) && OnlyFrom(files, AsSet(upstream))
    {
      hide Mirrors, Tiles, Covered, Merged;
      var state := saved;
      var at := At(state.cursor);
      reached := true;
      while at < now
        invariant Valid() && saved == state && at == At(state.cursor) && old(kept) <= kept
        invariant old(windows) <= windows && At(old(saved.cursor)) <= at
        invariant at <= now || state.cursor == old(saved.cursor)
        invariant state.complete == old(saved.complete)
      {
        var till := if at + MAX_WINDOW_DAYS * DAY < now then at + MAX_WINDOW_DAYS * DAY else now;
        var found, read := ReadWindow(at, till);
        if found.Err? {
          reached := false;
          break;
        }
        ghost var more := AsSet(Listing(upstream, at, till)[..read]);
        NextWindow(windows, state.cursor, upstream, till);
        ReadIsInSpan(upstream, at, till, read);
        KeptIsUpstream(upstream, state.cursor, kept, at, till, more);
        MergeMirrors(state.years, found.value, kept, more);
        var merged, ok := Flush(state.years, found.value);
        if !ok {
          PartlyMerged(state.years, found.value, merged, upstream, kept, more);
          return false, if state.complete then merged else map[];
        }
        state := State(Some(till), state.complete, merged);
        var written: bool := *;
        if !written {
          PartlyMerged(saved.years, found.value, merged, upstream, kept, more);
          return false, if state.complete then merged else map[];
        }
        saved, kept := state, kept + more;
        windows := windows + [Window(at, till)];
        at := till;
      }
      MirrorMeans(state.years, upstream, state.cursor, kept);
      if reached {
        var written: bool := *;
        if !written {
          return false, map[];
        }
        state := state.(complete := true);
        saved := state;
      }
      files := if state.complete then state.years else map[];
    }
  }

  lemma MergedIs(years: Years, found: Years, merged: Years)
    requires merged.Keys == years.Keys + found.Keys
    requires forall y :: Year(merged, y) == Year(years, y) + Year(found, y)
    ensures merged == Merged(years, found)
  {
    forall y | y in merged ensures merged[y] == Year(years, y) + Year(found, y) { assert Year(merged, y) == merged[y]; }
  }

  lemma ReadIsInSpan(upstream: seq<Cve>, low: int, high: int, read: nat)
    requires read <= |Listing(upstream, low, high)|
    ensures var more := AsSet(Listing(upstream, low, high)[..read]);
            && more <= Span(upstream, low, high)
            && (read == |Listing(upstream, low, high)| ==> more == Span(upstream, low, high))
  {
    var listing := Listing(upstream, low, high);
    assert forall c :: c in listing[..read] ==> c in listing;
    if read == |listing| { assert listing[..read] == listing; }
  }

  lemma KeptIsUpstream(upstream: seq<Cve>, cursor: Option<int>, kept: set<Cve>, low: int, high: int, more: set<Cve>)
    requires DistinctIds(AsSet(upstream)) && kept <= Covered(upstream, cursor) && more <= Span(upstream, low, high)
    ensures DistinctIds(kept + more) && kept <= AsSet(upstream) && more <= AsSet(upstream)
  {
    assert forall c :: c in upstream ==> c in AsSet(upstream);
  }

  /** Every record with a year is there. */
  ghost predicate Includes(years: Years, kept: set<Cve>) {
    forall c :: c in kept && c.year.Some? ==> Lookup(years, c.year.value, c.id) == Some(c)
  }

  /** Nothing but these records is there. */
  ghost predicate OnlyFrom(years: Years, kept: set<Cve>) {
    forall y, id :: Lookup(years, y, id).Some? ==> Lookup(years, y, id).value in kept
  }

  lemma MirrorMeans(years: Years, upstream: seq<Cve>, cursor: Option<int>, kept: set<Cve>)
    requires Mirrors(years, kept) && kept <= Covered(upstream, cursor)
    ensures Includes(years, kept) && OnlyFrom(years, AsSet(upstream))
  {
    hide Lookup;
  }

  /** A merge cut short loses nothing and adds only records of the window. */
  lemma PartlyMerged(years: Years, found: Years, merged: Years, upstream: seq<Cve>, kept: set<Cve>, more: set<Cve>)
    requires Mirrors(years, kept) && Mirrors(found, more) && DistinctIds(AsSet(upstream))
    requires kept <= AsSet(upstream) && more <= AsSet(upstream)
    requires forall y :: Year(merged, y) == Year(years, y) || Year(merged, y) == Year(years, y) + Year(found, y)
    ensures Includes(merged, kept) && OnlyFrom(merged, AsSet(upstream))
  {
    hide Year;
    forall y, id
      ensures Lookup(merged, y, id) == Lookup(years, y, id) || (Lookup(found, y, id).Some?
              && Lookup(merged, y, id) == Lookup(found, y, id))
    {
      assert Year(merged, y) == Year(years, y) || Year(merged, y) == Year(years, y) + Year(found, y);
    }
    forall c | c in kept && c.year.Some? ensures Lookup(merged, c.year.value, c.id) == Some(c) {
      var other := Lookup(found, c.year.value, c.id);
      assert Lookup(years, c.year.value, c.id) == Some(c);
      assert other.Some? ==> other.value in AsSet(upstream) && c in AsSet(upstream);
    }
  }
}
