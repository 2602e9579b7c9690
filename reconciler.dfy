/**
 * merge_data: folds a batch of freshly scraped rows into the persisted
 * collection, keyed by movie title, and returns the rows sorted by title.
 */
module Reconciler {
  import opened Lex
  import opened OrderedDict
  import opened Records

  /** main_scraper always gives a batch row a string title and a scrape date. */
  predicate IsScrapedRow(row: Row) {
    TitleKey in row && row[TitleKey].Text? && ScrapeDateKey in row
  }

  predicate AllScraped(batch: seq<Row>) {
    forall r :: r in batch ==> IsScrapedRow(r)
  }

  /** The collection read_master_sheet builds: every row is stored under its own title. */
  ghost predicate Keyed(store: ODict<Row>) {
    store.Valid() &&
    forall t :: t in store.vals ==> TitleKey in store.vals[t] && store.vals[t][TitleKey] == Text(t)
  }

  function TitlesOf(rows: seq<Row>): set<string> {
    set i | 0 <= i < |rows| :: TitleOf(rows[i])
  }

  lemma TitlesOfSnoc(rows: seq<Row>, r: Row)
    ensures TitlesOf(rows + [r]) == TitlesOf(rows) + {TitleOf(r)}
  {
    var s := rows + [r];
    assert TitleOf(s[|rows|]) == TitleOf(r);
    forall t | t in TitlesOf(rows) ensures t in TitlesOf(s) {
      var i :| 0 <= i < |rows| && TitleOf(rows[i]) == t;
      assert s[i] == rows[i];
    }
  }

  /**
   * An existing row after one scraped row with the same title is folded into
   * it: lines 95-97 of merge_data.
   */
  function Overlay(current: Row, movie: Row): (r: Row)
    requires ScrapeDateKey in movie
    ensures current.Keys <= r.Keys
    ensures ScrapeDateKey in r && r[ScrapeDateKey] == movie[ScrapeDateKey]
  {
    (current + Overriding(movie, movie.Keys))[ScrapeDateKey := movie[ScrapeDateKey]]
  }

  /** The fields among `keys` whose scraped value replaces the stored one. */
  function Overriding(movie: Row, keys: set<string>): Row {
    map k | k in keys && k in movie && Overrides(movie[k]) :: movie[k]
  }

  /** One more field visited by the loop of UpdateFields. */
  lemma OverridingStep(current: Row, movie: Row, done: set<string>, key: string)
    requires key in movie
    ensures current + Overriding(movie, done + {key}) ==
      if Overrides(movie[key]) then (current + Overriding(movie, done))[key := movie[key]] else current + Overriding(movie, done)
  {
  }

  /**
   * The field rule of Overlay: a scraped field that Overrides replaces the
   * stored one, every other stored field is kept, no other field appears, and
   * the scrape date is always the scraped one.
   */
  lemma OverlayFields(current: Row, movie: Row, k: string)
    requires ScrapeDateKey in movie
    ensures k in Overlay(current, movie) <==> k in current || k == ScrapeDateKey || (k in movie && Overrides(movie[k]))
    ensures k == ScrapeDateKey ==> Overlay(current, movie)[k] == movie[ScrapeDateKey]
    ensures k != ScrapeDateKey && k in movie && Overrides(movie[k]) ==> Overlay(current, movie)[k] == movie[k]
    ensures k != ScrapeDateKey && k in current && !(k in movie && Overrides(movie[k])) ==> Overlay(current, movie)[k] == current[k]
  {
  }

  /** The field loop of merge_data for a title that is already present (lines 95-97). */
  method UpdateFields(current: Row, movie: Row) returns (updated: Row)
    requires ScrapeDateKey in movie
    ensures updated == Overlay(current, movie)
  {
    updated := current;
    var pending := movie.Keys;
    assert movie.Keys - pending == {};
    while pending != {}
      invariant pending <= movie.Keys
      invariant updated == current + Overriding(movie, movie.Keys - pending)
      decreases pending
    {
      var key :| key in pending;
      var value := movie[key];
      OverridingStep(current, movie, movie.Keys - pending, key);
      assert movie.Keys - (pending - {key}) == (movie.Keys - pending) + {key};
      if Overrides(value) {
        updated := updated[key := value];
      }
      pending := pending - {key};
    }
    assert movie.Keys - pending == movie.Keys;
    updated := updated[ScrapeDateKey := movie[ScrapeDateKey]];
  }

  /** The collection after one batch row: field-merged when the title is present, inserted otherwise. */
  function MergeRow(store: ODict<Row>, movie: Row): ODict<Row>
    requires store.Valid() && IsScrapedRow(movie)
  {
    var title := movie[TitleKey].s;
    if title in store.vals then store.Put(title, Overlay(store.vals[title], movie))
    else store.Put(title, movie)
  }

  /** The collection after the batch rows, in batch order. */
  function MergedStore(existing: ODict<Row>, batch: seq<Row>): (d: ODict<Row>)
    requires existing.Valid() && AllScraped(batch)
    ensures d.Valid()
  {
    if batch == [] then existing
    else MergeRow(MergedStore(existing, batch[..|batch| - 1]), batch[|batch| - 1])
  }

  /** The rows of `rows` whose title is `t`, in order. */
  function RowsTitled(rows: seq<Row>, t: string): (r: seq<Row>)
    ensures forall x :: x in r ==> x in rows && TitleOf(x) == t
  {
    if rows == [] then []
    else RowsTitled(rows[..|rows| - 1], t) + (if TitleOf(rows[|rows| - 1]) == t then [rows[|rows| - 1]] else [])
  }

  /** Overlays `updates` onto `base`, first to last. */
  function OverlayAll(base: Row, updates: seq<Row>): Row
    requires forall u :: u in updates ==> ScrapeDateKey in u
  {
    if updates == [] then base
    else Overlay(OverlayAll(base, updates[..|updates| - 1]), updates[|updates| - 1])
  }

  /**
   * The merged row of title `t`, title by title: the stored row, or else the
   * first batch row with that title, with every later batch row of that title
   * overlaid on it.
   */
  function MergedRecord(existing: map<string, Row>, batch: seq<Row>, t: string): Row
    requires AllScraped(batch)
  {
    var updates := RowsTitled(batch, t);
    if t in existing then OverlayAll(existing[t], updates)
    else if updates != [] then
      assert forall u :: u in updates[1..] ==> u in updates;
      OverlayAll(updates[0], updates[1..])
    else map[]
  }

  lemma RowsTitledNonEmpty(rows: seq<Row>, t: string)
    requires RowsTitled(rows, t) != []
    ensures t in TitlesOf(rows)
  {
    var x := RowsTitled(rows, t)[0];
    assert x in rows;
    var i :| 0 <= i < |rows| && rows[i] == x;
  }

  lemma {:induction false} RowsTitledHas(rows: seq<Row>, i: int, t: string)
    requires 0 <= i < |rows| && TitleOf(rows[i]) == t
    ensures RowsTitled(rows, t) != []
    decreases |rows|
  {
    if i < |rows| - 1 {
      RowsTitledHas(rows[..|rows| - 1], i, t);
    }
  }

  lemma RowsTitledSnoc(rows: seq<Row>, r: Row, t: string)
    ensures RowsTitled(rows + [r], t) == RowsTitled(rows, t) + (if TitleOf(r) == t then [r] else [])
  {
    assert (rows + [r])[..|rows|] == rows;
  }

  lemma OverlayAllSnoc(base: Row, updates: seq<Row>, movie: Row)
    requires forall u :: u in updates ==> ScrapeDateKey in u
    requires ScrapeDateKey in movie
    ensures OverlayAll(base, updates + [movie]) == Overlay(OverlayAll(base, updates), movie)
  {
    assert (updates + [movie])[..|updates|] == updates;
  }

  lemma FirstThenOverlay(updates: seq<Row>, movie: Row)
    requires updates != [] && (forall u :: u in updates ==> ScrapeDateKey in u) && ScrapeDateKey in movie
    ensures forall u :: u in (updates + [movie])[1..] ==> ScrapeDateKey in u
    ensures forall u :: u in updates[1..] ==> ScrapeDateKey in u
    ensures OverlayAll((updates + [movie])[0], (updates + [movie])[1..]) == Overlay(OverlayAll(updates[0], updates[1..]), movie)
  {
    assert (updates + [movie])[1..] == updates[1..] + [movie];
    assert forall u :: u in updates[1..] ==> u in updates;
    OverlayAllSnoc(updates[0], updates[1..], movie);
  }

  /** One step of MergedStoreRecord: the row of `t` after folding in `movie`. */
  lemma MergeRowRecord(existing: map<string, Row>, prefix: seq<Row>, movie: Row, before: ODict<Row>, t: string)
    requires AllScraped(prefix) && IsScrapedRow(movie) && before.Valid()
    requires t in before.vals <==> t in existing || t in TitlesOf(prefix)
    requires t in before.vals ==> before.vals[t] == MergedRecord(existing, prefix, t)
    requires t in MergeRow(before, movie).vals
    ensures AllScraped(prefix + [movie])
    ensures MergeRow(before, movie).vals[t] == MergedRecord(existing, prefix + [movie], t)
  {
    assert AllScraped(prefix + [movie]);
    RowsTitledSnoc(prefix, movie, t);
    if t != movie[TitleKey].s {
      MergeRowOther(existing, prefix, movie, before, t);
    } else if t !in before.vals {
      MergeRowFirst(existing, prefix, movie, before, t);
    } else {
      MergeRowAgain(existing, prefix, movie, before, t);
    }
  }

  lemma MergeRowOther(existing: map<string, Row>, prefix: seq<Row>, movie: Row, before: ODict<Row>, t: string)
    requires AllScraped(prefix) && IsScrapedRow(movie) && before.Valid() && AllScraped(prefix + [movie])
    requires t != movie[TitleKey].s && t in before.vals
    requires before.vals[t] == MergedRecord(existing, prefix, t)
    requires RowsTitled(prefix + [movie], t) == RowsTitled(prefix, t) + (if TitleOf(movie) == t then [movie] else [])
    ensures t in MergeRow(before, movie).vals
    ensures MergeRow(before, movie).vals[t] == MergedRecord(existing, prefix + [movie], t)
  {
    assert TitleOf(movie) == movie[TitleKey].s;
    assert RowsTitled(prefix + [movie], t) == RowsTitled(prefix, t);
  }

  lemma MergeRowFirst(existing: map<string, Row>, prefix: seq<Row>, movie: Row, before: ODict<Row>, t: string)
    requires AllScraped(prefix) && IsScrapedRow(movie) && before.Valid() && AllScraped(prefix + [movie])
    requires t == movie[TitleKey].s && t !in before.vals
    requires t !in existing && t !in TitlesOf(prefix)
    requires RowsTitled(prefix + [movie], t) == RowsTitled(prefix, t) + (if TitleOf(movie) == t then [movie] else [])
    ensures t in MergeRow(before, movie).vals
    ensures MergeRow(before, movie).vals[t] == MergedRecord(existing, prefix + [movie], t)
  {
    assert TitleOf(movie) == t;
    if RowsTitled(prefix, t) != [] {
      RowsTitledNonEmpty(prefix, t);
    }
    assert RowsTitled(prefix + [movie], t) == [movie];
    assert MergeRow(before, movie).vals[t] == movie;
    assert MergedRecord(existing, prefix + [movie], t) == OverlayAll(movie, []);
  }

  lemma MergeRowAgain(existing: map<string, Row>, prefix: seq<Row>, movie: Row, before: ODict<Row>, t: string)
    requires AllScraped(prefix) && IsScrapedRow(movie) && before.Valid() && AllScraped(prefix + [movie])
    requires t == movie[TitleKey].s && t in before.vals
    requires t in existing || t in TitlesOf(prefix)
    requires before.vals[t] == MergedRecord(existing, prefix, t)
    requires RowsTitled(prefix + [movie], t) == RowsTitled(prefix, t) + (if TitleOf(movie) == t then [movie] else [])
    ensures t in MergeRow(before, movie).vals
    ensures MergeRow(before, movie).vals[t] == MergedRecord(existing, prefix + [movie], t)
  {
    var u0 := RowsTitled(prefix, t);
    assert TitleOf(movie) == t;
    assert MergeRow(before, movie).vals[t] == Overlay(before.vals[t], movie);
    assert RowsTitled(prefix + [movie], t) == u0 + [movie];
    if t in existing {
      OverlayAllSnoc(existing[t], u0, movie);
    } else {
      var i :| 0 <= i < |prefix| && TitleOf(prefix[i]) == t;
      RowsTitledHas(prefix, i, t);
      FirstThenOverlay(u0, movie);
    }
  }

  lemma MergeRowKeyed(store: ODict<Row>, movie: Row)
    requires Keyed(store) && IsScrapedRow(movie)
    ensures Keyed(MergeRow(store, movie))
    ensures MergeRow(store, movie).vals.Keys == store.vals.Keys + {movie[TitleKey].s}
  {
    KeysDiffer();
    var title := movie[TitleKey].s;
    if title in store.vals {
      OverlayFields(store.vals[title], movie, TitleKey);
    }
  }

  /** MergedStore keeps every row under its own title and holds exactly the stored and scraped titles. */
  lemma {:induction false} MergedStoreKeys(existing: ODict<Row>, batch: seq<Row>)
    requires Keyed(existing) && AllScraped(batch)
    ensures Keyed(MergedStore(existing, batch))
    ensures MergedStore(existing, batch).vals.Keys == existing.vals.Keys + TitlesOf(batch)
    decreases |batch|
  {
    if batch == [] {
      assert TitlesOf(batch) == {};
    } else {
      var prefix, movie := batch[..|batch| - 1], batch[|batch| - 1];
      assert batch == prefix + [movie];
      assert AllScraped(prefix) && IsScrapedRow(movie);
      MergedStoreKeys(existing, prefix);
      TitlesOfSnoc(prefix, movie);
      MergeRowKeyed(MergedStore(existing, prefix), movie);
    }
  }

  /** MergedStore agrees, title by title, with MergedRecord. */
  lemma {:induction false} MergedStoreRecord(existing: ODict<Row>, batch: seq<Row>, t: string)
    requires Keyed(existing) && AllScraped(batch)
    requires t in MergedStore(existing, batch).vals
    ensures MergedStore(existing, batch).vals[t] == MergedRecord(existing.vals, batch, t)
    decreases |batch|
  {
    if batch == [] {
      assert RowsTitled(batch, t) == [];
    } else {
      var prefix, movie := batch[..|batch| - 1], batch[|batch| - 1];
      assert batch == prefix + [movie];
      assert AllScraped(prefix) && IsScrapedRow(movie);
      var before := MergedStore(existing, prefix);
      MergedStoreKeys(existing, prefix);
      if t in before.vals {
        MergedStoreRecord(existing, prefix, t);
      }
      MergeRowRecord(existing.vals, prefix, movie, before, t);
    }
  }

  lemma MergedStoreSnoc(existing: ODict<Row>, batch: seq<Row>, i: int)
    requires existing.Valid() && AllScraped(batch) && 0 <= i < |batch|
    ensures batch[i] in batch && AllScraped(batch[..i]) && AllScraped(batch[..i + 1])
    ensures MergedStore(existing, batch[..i + 1]) == MergeRow(MergedStore(existing, batch[..i]), batch[i])
  {
    assert batch[..i + 1][..i] == batch[..i];
    assert forall r :: r in batch[..i + 1] ==> r in batch;
  }

  /** `sorted(store.values(), key=lambda x: x.get('Movie Title', ''))` for a collection keyed by title. */
  function SortedByTitle(store: ODict<Row>): (rows: seq<Row>)
    requires store.Valid()
    ensures forall i :: 0 <= i < |rows| ==> rows[i] in store.vals.Values
  {
    var titles := SortedUnique(store.keys);
    seq(|titles|, k requires 0 <= k < |titles| => store.vals[titles[k]])
  }

  /** A keyed collection sorted by title: strictly ascending titles, one row per key, each the stored row. */
  lemma SortedByTitleRows(store: ODict<Row>)
    requires Keyed(store)
    ensures var rows := SortedByTitle(store);
      && (forall i, j :: 0 <= i < j < |rows| ==> Less(TitleOf(rows[i]), TitleOf(rows[j])))
      && TitlesOf(rows) == store.vals.Keys
      && forall i :: 0 <= i < |rows| ==> TitleOf(rows[i]) in store.vals && rows[i] == store.vals[TitleOf(rows[i])]
  {
    SortedByTitleOrder(store);
    SortedByTitleCovers(store);
    SortedByTitleStored(store);
  }

  lemma SortedByTitleOrder(store: ODict<Row>)
    requires Keyed(store)
    ensures var rows := SortedByTitle(store);
      forall i, j :: 0 <= i < j < |rows| ==> Less(TitleOf(rows[i]), TitleOf(rows[j]))
  {
    var rows := SortedByTitle(store);
    forall i, j | 0 <= i < j < |rows| ensures Less(TitleOf(rows[i]), TitleOf(rows[j])) {
      SortedByTitleAt(store, i);
      SortedByTitleAt(store, j);
    }
  }

  lemma SortedByTitleCovers(store: ODict<Row>)
    requires Keyed(store)
    ensures TitlesOf(SortedByTitle(store)) == store.vals.Keys
  {
    var titles := SortedUnique(store.keys);
    var rows := SortedByTitle(store);
    forall t | t in TitlesOf(rows) ensures t in store.vals {
      var k :| 0 <= k < |rows| && TitleOf(rows[k]) == t;
      SortedByTitleAt(store, k);
    }
    forall t | t in store.vals ensures t in TitlesOf(rows) {
      assert t in store.keys;
      var k :| 0 <= k < |titles| && titles[k] == t;
      SortedByTitleAt(store, k);
    }
  }

  lemma SortedByTitleStored(store: ODict<Row>)
    requires Keyed(store)
    ensures var rows := SortedByTitle(store);
      forall i :: 0 <= i < |rows| ==> TitleOf(rows[i]) in store.vals && rows[i] == store.vals[TitleOf(rows[i])]
  {
    var rows := SortedByTitle(store);
    forall i | 0 <= i < |rows| ensures TitleOf(rows[i]) in store.vals && rows[i] == store.vals[TitleOf(rows[i])] {
      SortedByTitleAt(store, i);
    }
  }

  lemma SortedByTitleAt(store: ODict<Row>, k: int)
    requires Keyed(store) && 0 <= k < |SortedUnique(store.keys)|
    ensures k < |SortedByTitle(store)| && SortedUnique(store.keys)[k] in store.vals
    ensures TitleOf(SortedByTitle(store)[k]) == SortedUnique(store.keys)[k]
    ensures SortedByTitle(store)[k] == store.vals[SortedUnique(store.keys)[k]]
  {
    var title := SortedUnique(store.keys)[k];
    assert title in store.keys;
    assert SortedByTitle(store)[k] == store.vals[title];
  }

  /**
   * merge_data (lines 86-104): one output row per title of the stored and
   * scraped rows, strictly ascending by title, each row being that title's
   * MergedRecord.
   */
  method MergeData(existing: ODict<Row>, batch: seq<Row>) returns (rows: seq<Row>)
    requires Keyed(existing) && AllScraped(batch)
    ensures forall i, j :: 0 <= i < j < |rows| ==> Less(TitleOf(rows[i]), TitleOf(rows[j]))
    ensures TitlesOf(rows) == existing.vals.Keys + TitlesOf(batch)
    ensures forall i :: 0 <= i < |rows| ==> rows[i] == MergedRecord(existing.vals, batch, TitleOf(rows[i]))
  {
    var updated := existing;
    for i := 0 to |batch|
      invariant updated == MergedStore(existing, batch[..i])
    {
      MergedStoreSnoc(existing, batch, i);
      var movie := batch[i];
      var title := movie[TitleKey].s;
      if title in updated.vals {
        var merged := UpdateFields(updated.vals[title], movie);
        updated := updated.Put(title, merged);
      } else {
        updated := updated.Put(title, movie);
      }
    }
    assert batch[..|batch|] == batch;
    MergedStoreKeys(existing, batch);
    rows := SortedByTitle(updated);
    SortedByTitleRows(updated);
    forall i | 0 <= i < |rows| ensures rows[i] == MergedRecord(existing.vals, batch, TitleOf(rows[i])) {
      MergedStoreRecord(existing, batch, TitleOf(rows[i]));
    }
  }
}

/** What merge_data promises about the merged rows, title by title and field by field. */
module ReconcilerProperties {
  import opened Records
  import opened OrderedDict
  import opened Reconciler

  lemma {:induction false} OverlayAllKeeps(base: Row, updates: seq<Row>, k: string)
    requires forall u :: u in updates ==> ScrapeDateKey in u
    requires k != ScrapeDateKey && k in base && Overrides(base[k])
    ensures k in OverlayAll(base, updates) && Overrides(OverlayAll(base, updates)[k])
    decreases |updates|
  {
    if updates != [] {
      var prefix := updates[..|updates| - 1];
      assert forall u :: u in prefix ==> u in updates;
      OverlayAllKeeps(base, prefix, k);
      OverlayFields(OverlayAll(base, prefix), updates[|updates| - 1], k);
    }
  }

  /**
   * Field-level non-regression: a stored field holding a real value (truthy
   * and not "N/A") still holds a real value after the merge, whatever the
   * scraped rows carry; only the scrape date is exempt.
   */
  lemma MergeNeverErases(existing: map<string, Row>, batch: seq<Row>, t: string, k: string)
    requires AllScraped(batch)
    requires t in existing && k in existing[t] && Overrides(existing[t][k]) && k != ScrapeDateKey
    ensures k in MergedRecord(existing, batch, t) && Overrides(MergedRecord(existing, batch, t)[k])
  {
    OverlayAllKeeps(existing[t], RowsTitled(batch, t), k);
  }

  lemma OverlayAllScrapeDate(base: Row, updates: seq<Row>)
    requires updates != [] && forall u :: u in updates ==> ScrapeDateKey in u
    ensures ScrapeDateKey in updates[|updates| - 1]
    ensures ScrapeDateKey in OverlayAll(base, updates)
    ensures OverlayAll(base, updates)[ScrapeDateKey] == updates[|updates| - 1][ScrapeDateKey]
  {
    var prefix := updates[..|updates| - 1];
    assert forall u :: u in prefix ==> u in updates;
    assert updates[|updates| - 1] in updates;
    OverlayFields(OverlayAll(base, prefix), updates[|updates| - 1], ScrapeDateKey);
  }

  /** The scrape date of a title present in the batch is that of its last scraped row. */
  lemma MergeTakesLatestScrapeDate(existing: map<string, Row>, batch: seq<Row>, t: string)
    requires AllScraped(batch) && RowsTitled(batch, t) != []
    ensures var updates := RowsTitled(batch, t);
      ScrapeDateKey in updates[|updates| - 1] &&
      ScrapeDateKey in MergedRecord(existing, batch, t) &&
      MergedRecord(existing, batch, t)[ScrapeDateKey] == updates[|updates| - 1][ScrapeDateKey]
  {
    var updates := RowsTitled(batch, t);
    assert updates[|updates| - 1] in updates;
    if t in existing {
      OverlayAllScrapeDate(existing[t], updates);
    } else if |updates| > 1 {
      var rest := updates[1..];
      assert rest[|rest| - 1] == updates[|updates| - 1];
      assert forall u :: u in rest ==> u in updates;
      OverlayAllScrapeDate(updates[0], rest);
    }
  }

  /** A title only in the stored collection comes through unchanged. */
  lemma MergeKeepsUntouched(existing: map<string, Row>, batch: seq<Row>, t: string)
    requires AllScraped(batch) && t in existing && t !in TitlesOf(batch)
    ensures MergedRecord(existing, batch, t) == existing[t]
  {
    if RowsTitled(batch, t) != [] {
      RowsTitledNonEmpty(batch, t);
    }
  }

  /** A title scraped once and not stored before is the scraped row itself, every field included. */
  lemma MergeInsertsNew(existing: map<string, Row>, batch: seq<Row>, t: string, r: Row)
    requires AllScraped(batch) && t !in existing && RowsTitled(batch, t) == [r]
    ensures MergedRecord(existing, batch, t) == r
  {
  }

  /**
   * A stored title scraped once: each scraped field replaces the stored one
   * exactly when it Overrides, other stored fields stay, and the scrape date
   * is the scraped one.
   */
  lemma MergeUpdatesFields(existing: map<string, Row>, batch: seq<Row>, t: string, r: Row, k: string)
    requires AllScraped(batch) && t in existing && RowsTitled(batch, t) == [r]
    ensures ScrapeDateKey in r
    ensures var m := MergedRecord(existing, batch, t);
      && (k in m <==> k in existing[t] || k == ScrapeDateKey || (k in r && Overrides(r[k])))
      && (k == ScrapeDateKey ==> m[k] == r[ScrapeDateKey])
      && (k != ScrapeDateKey && k in r && Overrides(r[k]) ==> m[k] == r[k])
      && (k != ScrapeDateKey && k in existing[t] && !(k in r && Overrides(r[k])) ==> m[k] == existing[t][k])
  {
    assert r in RowsTitled(batch, t);
    assert [r][..0] == [];
    assert OverlayAll(existing[t], [r]) == Overlay(OverlayAll(existing[t], []), r);
    OverlayFields(existing[t], r, k);
  }

  /**
   * The Action/"N/A" example: a stored "Action" genre survives a scrape that
   * reports "N/A", and the scrape date moves forward.
   */
  lemma MergeExample(stored: Row, scraped: Row)
    requires stored == map[TitleKey := Text("Movie A"), "Genre" := Text("Action"), ScrapeDateKey := Text("2024-01-01")]
    requires scraped == map[TitleKey := Text("Movie A"), "Genre" := Text(Sentinel), ScrapeDateKey := Text("2024-02-01")]
    ensures var m := MergedRecord(map["Movie A" := stored], [scraped], "Movie A");
      "Genre" in m && m["Genre"] == Text("Action") && m[ScrapeDateKey] == Text("2024-02-01")
  {
    var existing := map["Movie A" := stored];
    assert TitleOf(scraped) == "Movie A";
    assert RowsTitled([scraped], "Movie A") == [scraped] by {
      assert [scraped][..0] == [];
    }
    assert "Genre" != ScrapeDateKey;
    assert !Overrides(scraped["Genre"]);
    MergeUpdatesFields(existing, [scraped], "Movie A", scraped, "Genre");
    MergeUpdatesFields(existing, [scraped], "Movie A", scraped, ScrapeDateKey);
  }
}
