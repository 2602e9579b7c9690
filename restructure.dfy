/**
 * Step 5 of scrape_aggregated_showtimes: the per-date dicts
 * (date label -> cinema -> times) are turned inside out into one entry per
 * cinema, `{"cinemaName": c, "showings": [{"date": d, "times": ts}, ...]}`,
 * with the cinemas in the order they were first met and each cinema's
 * showings in the order the dates were visited.
 */
module Restructure {
  import opened OrderedDict
  import opened Showtimes

  datatype Showing = Showing(date: string, times: seq<string>)
  datatype CinemaEntry = CinemaEntry(cinemaName: string, showings: seq<Showing>)

  /** `all_dates_data`: date label -> the page parsed for that date. */
  type DatedShowtimes = ODict<PageShowtimes>

  ghost predicate AllValid(d: DatedShowtimes) {
    d.Valid() && forall date :: date in d.vals ==> d.vals[date].Valid()
  }

  /** One (date, cinema, times) triple, as the nested loops visit them. */
  datatype Slot = Slot(date: string, cinema: string, times: seq<string>)

  /** The inner loop's visits for one date. */
  function PageSlots(date: string, page: PageShowtimes): (r: seq<Slot>)
    requires page.Valid()
    ensures |r| == |page.keys|
  {
    seq(|page.keys|, i requires 0 <= i < |page.keys| => Slot(date, page.keys[i], page.vals[page.keys[i]]))
  }

  /** All visits of the nested loops over the first `n` dates. */
  function Slots(d: DatedShowtimes, n: nat): seq<Slot>
    requires AllValid(d) && n <= |d.keys|
  {
    if n == 0 then []
    else
      var date := d.keys[n - 1];
      Slots(d, n - 1) + PageSlots(date, d.vals[date])
  }

  function Cinemas(slots: seq<Slot>): seq<string> {
    if slots == [] then [] else Cinemas(slots[..|slots| - 1]) + [slots[|slots| - 1].cinema]
  }

  /** The showings recorded for cinema `c`, in visit order. */
  function ShowingsOf(slots: seq<Slot>, c: string): seq<Showing> {
    if slots == [] then []
    else
      var s := slots[|slots| - 1];
      ShowingsOf(slots[..|slots| - 1], c) + (if s.cinema == c then [Showing(s.date, s.times)] else [])
  }

  /** The list of cinema entries built from the visits `slots`. */
  function Regroup(slots: seq<Slot>): (entries: seq<CinemaEntry>)
    ensures forall i :: 0 <= i < |entries| ==> entries[i].cinemaName in Cinemas(slots)
  {
    var names := FirstAppearances(Cinemas(slots));
    seq(|names|, i requires 0 <= i < |names| => CinemaEntry(names[i], ShowingsOf(slots, names[i])))
  }

  /** The state of `cinema_map` after the visits `slots`. */
  ghost predicate Grouped(cinemaMap: ODict<CinemaEntry>, slots: seq<Slot>) {
    && cinemaMap.Valid()
    && cinemaMap.keys == FirstAppearances(Cinemas(slots))
    && forall c :: c in cinemaMap.vals ==> cinemaMap.vals[c] == CinemaEntry(c, ShowingsOf(slots, c))
  }

  lemma GroupedStep(cinemaMap: ODict<CinemaEntry>, slots: seq<Slot>, s: Slot)
    requires Grouped(cinemaMap, slots)
    ensures var seeded := if s.cinema in cinemaMap.vals then cinemaMap else cinemaMap.Put(s.cinema, CinemaEntry(s.cinema, []));
      && s.cinema in seeded.vals
      && var entry := seeded.vals[s.cinema];
         Grouped(seeded.Put(s.cinema, entry.(showings := entry.showings + [Showing(s.date, s.times)])), slots + [s])
  {
    var seeded := if s.cinema in cinemaMap.vals then cinemaMap else cinemaMap.Put(s.cinema, CinemaEntry(s.cinema, []));
    Seeded(cinemaMap, slots, s);
    Appended(seeded, slots, s);
  }

  /** After `cinema_map[c] = {...}` for a new cinema: keys as after the visit, showings as before it. */
  lemma Seeded(cinemaMap: ODict<CinemaEntry>, slots: seq<Slot>, s: Slot)
    requires Grouped(cinemaMap, slots)
    ensures var seeded := if s.cinema in cinemaMap.vals then cinemaMap else cinemaMap.Put(s.cinema, CinemaEntry(s.cinema, []));
      && seeded.Valid()
      && seeded.keys == FirstAppearances(Cinemas(slots + [s]))
      && forall c :: c in seeded.vals ==> seeded.vals[c] == CinemaEntry(c, ShowingsOf(slots, c))
  {
    var slots' := slots + [s];
    assert slots'[..|slots|] == slots;
    assert Cinemas(slots') == Cinemas(slots) + [s.cinema];
    FirstAppearancesStep(Cinemas(slots), s.cinema);
    if s.cinema !in cinemaMap.vals {
      UnseenHasNoShowings(slots, s.cinema);
    }
  }

  /** After appending the showing of visit `s`. */
  lemma Appended(seeded: ODict<CinemaEntry>, slots: seq<Slot>, s: Slot)
    requires seeded.Valid() && seeded.keys == FirstAppearances(Cinemas(slots + [s]))
    requires forall c :: c in seeded.vals ==> seeded.vals[c] == CinemaEntry(c, ShowingsOf(slots, c))
    ensures s.cinema in seeded.vals
    ensures var entry := seeded.vals[s.cinema];
      Grouped(seeded.Put(s.cinema, entry.(showings := entry.showings + [Showing(s.date, s.times)])), slots + [s])
  {
    var slots' := slots + [s];
    assert slots'[..|slots|] == slots;
    assert s.cinema in Cinemas(slots');
    var after := seeded.Put(s.cinema, CinemaEntry(s.cinema, ShowingsOf(slots', s.cinema)));
    assert after == ODict(seeded.keys, seeded.vals[s.cinema := CinemaEntry(s.cinema, ShowingsOf(slots', s.cinema))]);
    forall c | c in after.vals ensures after.vals[c] == CinemaEntry(c, ShowingsOf(slots', c)) {
      if c != s.cinema {
        assert ShowingsOf(slots', c) == ShowingsOf(slots, c) + [];
      }
    }
  }

  lemma {:induction false} UnseenHasNoShowings(slots: seq<Slot>, c: string)
    requires c !in Cinemas(slots)
    ensures ShowingsOf(slots, c) == []
  {
    if slots != [] {
      UnseenHasNoShowings(slots[..|slots| - 1], c);
    }
  }

  lemma SlotsStep(d: DatedShowtimes, i: nat, j: nat)
    requires AllValid(d) && i < |d.keys|
    requires j < |d.vals[d.keys[i]].keys|
    ensures var page := d.vals[d.keys[i]];
      Slots(d, i) + PageSlots(d.keys[i], page)[..j + 1] == Slots(d, i) + PageSlots(d.keys[i], page)[..j] + [Slot(d.keys[i], page.keys[j], page.vals[page.keys[j]])]
  {
  }

  lemma ValuesOfGrouped(cinemaMap: ODict<CinemaEntry>, slots: seq<Slot>)
    requires Grouped(cinemaMap, slots)
    ensures cinemaMap.Values() == Regroup(slots)
  {
  }

  /** Step 5 of scrape_aggregated_showtimes (lines 200-210). */
  method Regrouped(allDates: DatedShowtimes) returns (entries: seq<CinemaEntry>)
    requires AllValid(allDates)
    ensures entries == Regroup(Slots(allDates, |allDates.keys|))
  {
    var cinemaMap: ODict<CinemaEntry> := Empty();
    ghost var visited: seq<Slot> := [];
    for i := 0 to |allDates.keys|
      invariant visited == Slots(allDates, i)
      invariant Grouped(cinemaMap, visited)
    {
      var date := allDates.keys[i];
      var cinemas := allDates.vals[date];
      assert visited + PageSlots(date, cinemas)[..0] == visited;
      for j := 0 to |cinemas.keys|
        invariant visited == Slots(allDates, i) + PageSlots(date, cinemas)[..j]
        invariant Grouped(cinemaMap, visited)
      {
        var cinemaName := cinemas.keys[j];
        var times := cinemas.vals[cinemaName];
        GroupedStep(cinemaMap, visited, Slot(date, cinemaName, times));
        SlotsStep(allDates, i, j);
        if cinemaName !in cinemaMap.vals {
          cinemaMap := cinemaMap.Put(cinemaName, CinemaEntry(cinemaName, []));
        }
        var entry := cinemaMap.vals[cinemaName];
        cinemaMap := cinemaMap.Put(cinemaName, entry.(showings := entry.showings + [Showing(date, times)]));
        visited := visited + [Slot(date, cinemaName, times)];
      }
      assert PageSlots(date, cinemas)[..|cinemas.keys|] == PageSlots(date, cinemas);
    }
    ValuesOfGrouped(cinemaMap, Slots(allDates, |allDates.keys|));
    entries := cinemaMap.Values();
  }
}

/** What the restructured list promises about cinemas, dates and times. */
module RestructureProperties {
  import opened OrderedDict
  import opened OrderedDictProperties
  import opened Showtimes
  import opened Restructure

  /** The showings a cinema gets, read date by date: one per visited date whose page lists it. */
  function ShowingsFor(d: DatedShowtimes, n: nat, c: string): seq<Showing>
    requires AllValid(d) && n <= |d.keys|
  {
    if n == 0 then []
    else
      var date := d.keys[n - 1];
      ShowingsFor(d, n - 1, c) + (if c in d.vals[date].vals then [Showing(date, d.vals[date].vals[c])] else [])
  }

  lemma {:induction false} ShowingsOfAppend(a: seq<Slot>, b: seq<Slot>, c: string)
    ensures ShowingsOf(a + b, c) == ShowingsOf(a, c) + ShowingsOf(b, c)
    decreases |b|
  {
    if b == [] {
      assert a + b == a;
    } else {
      var ab := a + b;
      var b' := b[..|b| - 1];
      assert ab[..|ab| - 1] == a + b';
      ShowingsOfAppend(a, b', c);
    }
  }

  lemma {:induction false} PageShowings(date: string, page: PageShowtimes, k: nat, c: string)
    requires page.Valid() && k <= |page.keys|
    ensures ShowingsOf(PageSlots(date, page)[..k], c) == if c in page.keys[..k] then [Showing(date, page.vals[c])] else []
  {
    if k > 0 {
      var slots := PageSlots(date, page)[..k];
      assert slots[..k - 1] == PageSlots(date, page)[..k - 1];
      PageShowings(date, page, k - 1, c);
      assert page.keys[..k] == page.keys[..k - 1] + [page.keys[k - 1]];
      if page.keys[k - 1] == c {
        assert c !in page.keys[..k - 1];
      }
    }
  }

  lemma {:induction false} ShowingsOfSlots(d: DatedShowtimes, n: nat, c: string)
    requires AllValid(d) && n <= |d.keys|
    ensures ShowingsOf(Slots(d, n), c) == ShowingsFor(d, n, c)
  {
    if n > 0 {
      var date := d.keys[n - 1];
      var page := d.vals[date];
      var visits := PageSlots(date, page);
      assert Slots(d, n) == Slots(d, n - 1) + visits;
      assert ShowingsFor(d, n, c) == ShowingsFor(d, n - 1, c) + (if c in page.vals then [Showing(date, page.vals[c])] else []);
      ShowingsOfSlots(d, n - 1, c);
      ShowingsOfAppend(Slots(d, n - 1), visits, c);
      WholePageShowings(date, page, c);
    }
  }

  lemma WholePageShowings(date: string, page: PageShowtimes, c: string)
    requires page.Valid()
    ensures ShowingsOf(PageSlots(date, page), c) == if c in page.vals then [Showing(date, page.vals[c])] else []
  {
    PageShowings(date, page, |page.keys|, c);
    assert PageSlots(date, page)[..|page.keys|] == PageSlots(date, page);
    assert page.keys[..|page.keys|] == page.keys;
  }

  lemma {:induction false} ListedIffShown(slots: seq<Slot>, c: string)
    ensures c in Cinemas(slots) <==> ShowingsOf(slots, c) != []
  {
    if slots != [] {
      ListedIffShown(slots[..|slots| - 1], c);
    }
  }

  /** A showing (date, times) is listed for cinema `c` exactly when that date's page lists `c` with those times. */
  lemma {:induction false} ShowingsForMembers(d: DatedShowtimes, n: nat, c: string, date: string, times: seq<string>)
    requires AllValid(d) && n <= |d.keys|
    ensures Showing(date, times) in ShowingsFor(d, n, c) <==>
      date in d.keys[..n] && c in d.vals[date].vals && d.vals[date].vals[c] == times
  {
    if n > 0 {
      ShowingsForMembers(d, n - 1, c, date, times);
      assert d.keys[..n] == d.keys[..n - 1] + [d.keys[n - 1]];
    }
  }

  /** Showings follow the order in which the dates were visited. */
  lemma {:induction false} ShowingsForOrdered(d: DatedShowtimes, n: nat, c: string, i: int, j: int)
    requires AllValid(d) && n <= |d.keys|
    requires 0 <= i < j < |ShowingsFor(d, n, c)|
    ensures exists a, b :: 0 <= a < b < n && d.keys[a] == ShowingsFor(d, n, c)[i].date && d.keys[b] == ShowingsFor(d, n, c)[j].date
  {
    var sh := ShowingsFor(d, n, c);
    var prev := ShowingsFor(d, n - 1, c);
    if j < |prev| {
      ShowingsForOrdered(d, n - 1, c, i, j);
      var a, b :| 0 <= a < b < n - 1 && d.keys[a] == prev[i].date && d.keys[b] == prev[j].date;
      assert d.keys[a] == sh[i].date && d.keys[b] == sh[j].date;
    } else {
      var s := prev[i];
      assert s in prev;
      ShowingsForMembers(d, n - 1, c, s.date, s.times);
      var a :| 0 <= a < n - 1 && d.keys[a] == s.date;
      assert d.keys[n - 1] == sh[j].date;
    }
  }

  /** No two entries are for the same cinema. */
  lemma RegroupedDistinct(slots: seq<Slot>, i: int, j: int)
    requires 0 <= i < j < |Regroup(slots)|
    ensures Regroup(slots)[i].cinemaName != Regroup(slots)[j].cinemaName
  {
    var names := FirstAppearances(Cinemas(slots));
    assert Regroup(slots)[i].cinemaName == names[i] && Regroup(slots)[j].cinemaName == names[j];
  }

  /** There is an entry for `c` exactly when some date's page lists `c`. */
  lemma RegroupedCinemas(d: DatedShowtimes, c: string)
    requires AllValid(d)
    ensures (exists i :: 0 <= i < |Regroup(Slots(d, |d.keys|))| && Regroup(Slots(d, |d.keys|))[i].cinemaName == c) <==>
      exists date :: date in d.vals && c in d.vals[date].vals
  {
    var slots := Slots(d, |d.keys|);
    var names := FirstAppearances(Cinemas(slots));
    ListedIffShown(slots, c);
    ShowingsOfSlots(d, |d.keys|, c);
    assert d.keys[..|d.keys|] == d.keys;
    if date :| date in d.vals && c in d.vals[date].vals {
      ShowingsForMembers(d, |d.keys|, c, date, d.vals[date].vals[c]);
      EntryFor(slots, c);
    }
    if i :| 0 <= i < |Regroup(slots)| && Regroup(slots)[i].cinemaName == c {
      assert names[i] == c;
      var sh := ShowingsFor(d, |d.keys|, c);
      assert sh[0] in sh;
      ShowingsForMembers(d, |d.keys|, c, sh[0].date, sh[0].times);
    }
  }

  lemma EntryFor(slots: seq<Slot>, c: string)
    requires c in Cinemas(slots)
    ensures exists i :: 0 <= i < |Regroup(slots)| && Regroup(slots)[i].cinemaName == c
  {
    var names := FirstAppearances(Cinemas(slots));
    var k :| 0 <= k < |names| && names[k] == c;
    assert Regroup(slots)[k].cinemaName == c;
  }

  /** The cinemas come in the order they were first met on the pages, date by date. */
  lemma RegroupedFirstAppearance(d: DatedShowtimes, i: int, j: int, p: int)
    requires AllValid(d)
    requires 0 <= i < j < |Regroup(Slots(d, |d.keys|))|
    requires 0 <= p < |Slots(d, |d.keys|)| && Slots(d, |d.keys|)[p].cinema == Regroup(Slots(d, |d.keys|))[j].cinemaName
    ensures Regroup(Slots(d, |d.keys|))[i].cinemaName in Cinemas(Slots(d, |d.keys|)[..p])
  {
    var slots := Slots(d, |d.keys|);
    CinemasIndex(slots, p);
    FirstAppearancesOrder(Cinemas(slots), i, j, p);
    CinemasPrefix(slots, p);
  }

  lemma {:induction false} CinemasIndex(slots: seq<Slot>, p: int)
    requires 0 <= p < |slots|
    ensures |Cinemas(slots)| == |slots| && Cinemas(slots)[p] == slots[p].cinema
  {
    if p < |slots| - 1 {
      CinemasIndex(slots[..|slots| - 1], p);
    } else if p > 0 {
      CinemasIndex(slots[..|slots| - 1], p - 1);
    }
  }

  lemma {:induction false} CinemasPrefix(slots: seq<Slot>, p: int)
    requires 0 <= p <= |slots|
    ensures |Cinemas(slots)| == |slots| && Cinemas(slots)[..p] == Cinemas(slots[..p])
  {
    if slots != [] {
      var q := slots[..|slots| - 1];
      if p < |slots| {
        CinemasPrefix(q, p);
        assert q[..p] == slots[..p];
      } else {
        CinemasPrefix(q, p - 1);
        assert slots[..p] == slots;
      }
    }
  }

  /** Each cinema's showings are its per-date times, in date-visit order. */
  lemma RegroupedShowings(d: DatedShowtimes, i: int)
    requires AllValid(d)
    requires 0 <= i < |Regroup(Slots(d, |d.keys|))|
    ensures var entry := Regroup(Slots(d, |d.keys|))[i];
      entry.showings == ShowingsFor(d, |d.keys|, entry.cinemaName)
  {
    var entry := Regroup(Slots(d, |d.keys|))[i];
    ShowingsOfSlots(d, |d.keys|, entry.cinemaName);
  }
}
