/**
 * parse_showtimes_from_html over the children of the showtimes list, with
 * the HTML abstracted away: each child is either a cinema anchor, with the
 * stripped text of its bold element if it has one, or a block holding the
 * stripped texts of its show-time boxes.
 */
module Showtimes {
  import opened Wrappers
  import opened Lex
  import opened OrderedDict

  /** The "no cinema yet" value of `current_cinema`. */
  const NoCinema: string := "N/A"

  datatype Element = Anchor(bold: Option<string>) | Block(labels: seq<string>)

  /** cinema -> show times, in the order the cinemas were first seen. */
  type PageShowtimes = ODict<seq<string>>

  /** `[t for t in labels if t]`. */
  function NonEmpty(labels: seq<string>): (r: seq<string>)
    ensures forall t :: t in r <==> t in labels && t != ""
  {
    if labels == [] then []
    else (if labels[0] != "" then [labels[0]] else []) + NonEmpty(labels[1..])
  }

  /** `current_cinema` after the elements `es`: the bold text of the last bolded anchor. */
  function CurrentCinema(es: seq<Element>): string {
    if es == [] then NoCinema
    else if es[|es| - 1].Anchor? && es[|es| - 1].bold.Some? then es[|es| - 1].bold.value
    else CurrentCinema(es[..|es| - 1])
  }

  /** The bold texts of the bolded anchors, in document order. */
  function BoldNames(es: seq<Element>): seq<string> {
    if es == [] then []
    else BoldNames(es[..|es| - 1]) + (if es[|es| - 1].Anchor? && es[|es| - 1].bold.Some? then [es[|es| - 1].bold.value] else [])
  }

  /** The times appended to cinema `c`'s list, in order, before deduplication. */
  function RawTimes(es: seq<Element>, c: string): seq<string> {
    if es == [] then []
    else
      var p := es[..|es| - 1];
      RawTimes(p, c) + (if es[|es| - 1].Block? && c != NoCinema && CurrentCinema(p) == c then NonEmpty(es[|es| - 1].labels) else [])
  }

  /** The dict parse_showtimes_from_html returns for `es`. */
  function ParsedPage(es: seq<Element>): (page: PageShowtimes)
    ensures page.Valid()
  {
    ODict(FirstAppearances(BoldNames(es)), map c | c in BoldNames(es) :: SortedUnique(RawTimes(es, c)))
  }

  lemma {:induction false} CurrentIsBold(es: seq<Element>)
    ensures CurrentCinema(es) == NoCinema || CurrentCinema(es) in BoldNames(es)
  {
    if es != [] {
      CurrentIsBold(es[..|es| - 1]);
    }
  }

  lemma {:induction false} UnseenHasNoTimes(es: seq<Element>, c: string)
    requires c !in BoldNames(es)
    ensures RawTimes(es, c) == []
  {
    if es != [] {
      var p := es[..|es| - 1];
      assert c !in BoldNames(p);
      UnseenHasNoTimes(p, c);
      CurrentIsBold(p);
    }
  }

  /** The loop state of parse_showtimes_from_html after the elements `es`, before deduplication. */
  ghost predicate Collected(collected: PageShowtimes, es: seq<Element>) {
    && collected.Valid()
    && collected.keys == FirstAppearances(BoldNames(es))
    && forall c :: c in collected.vals ==> collected.vals[c] == RawTimes(es, c)
  }

  lemma StepAnchor(collected: PageShowtimes, es: seq<Element>, name: string)
    requires Collected(collected, es)
    ensures Collected(if name in collected.vals then collected else collected.Put(name, []), es + [Anchor(Some(name))])
  {
    var es' := es + [Anchor(Some(name))];
    assert es'[..|es|] == es;
    FirstAppearancesStep(BoldNames(es), name);
    if name !in collected.vals {
      UnseenHasNoTimes(es, name);
    }
  }

  lemma StepPlainAnchor(collected: PageShowtimes, es: seq<Element>)
    requires Collected(collected, es)
    ensures Collected(collected, es + [Anchor(None)])
  {
    var es' := es + [Anchor(None)];
    assert es'[..|es|] == es;
    assert BoldNames(es') == BoldNames(es);
    forall c | c in collected.vals ensures collected.vals[c] == RawTimes(es', c) {
      assert RawTimes(es', c) == RawTimes(es, c) + [];
    }
  }

  lemma StepBlock(collected: PageShowtimes, es: seq<Element>, labels: seq<string>)
    requires Collected(collected, es)
    ensures var current, times := CurrentCinema(es), NonEmpty(labels);
      && (current != NoCinema ==> current in collected.vals)
      && Collected(if times != [] && current != NoCinema then collected.Put(current, collected.vals[current] + times) else collected,
                   es + [Block(labels)])
  {
    var es' := es + [Block(labels)];
    assert es'[..|es|] == es;
    assert BoldNames(es') == BoldNames(es);
    CurrentIsBold(es);
    var current, times := CurrentCinema(es), NonEmpty(labels);
    var after := if times != [] && current != NoCinema then collected.Put(current, collected.vals[current] + times) else collected;
    forall c | c in after.vals ensures after.vals[c] == RawTimes(es', c) {
      assert RawTimes(es', c) == RawTimes(es, c) + (if c != NoCinema && current == c then times else []);
    }
  }

  /** parse_showtimes_from_html (lines 120-139). */
  method ParseShowtimes(elements: seq<Element>) returns (showtimes: PageShowtimes)
    ensures showtimes == ParsedPage(elements)
  {
    var collected: PageShowtimes := Empty();
    var current := NoCinema;
    for i := 0 to |elements|
      invariant Collected(collected, elements[..i])
      invariant current == CurrentCinema(elements[..i])
    {
      ghost var seen := elements[..i];
      assert elements[..i + 1] == seen + [elements[i]];
      match elements[i] {
        case Anchor(Some(name)) =>
          StepAnchor(collected, seen, name);
          current := name;
          if current !in collected.vals {
            collected := collected.Put(current, []);
          }
        case Anchor(None) =>
          StepPlainAnchor(collected, seen);
        case Block(labels) =>
          StepBlock(collected, seen, labels);
          var times := NonEmpty(labels);
          if times != [] && current != NoCinema {
            collected := collected.Put(current, collected.vals[current] + times);
          }
      }
    }
    assert elements[..|elements|] == elements;
    showtimes := collected;
    for j := 0 to |collected.keys|
      invariant collected.Valid()
      invariant DedupedUpTo(collected, showtimes, j)
    {
      var cinema := collected.keys[j];
      DedupStep(collected, showtimes, j);
      showtimes := showtimes.Put(cinema, SortedUnique(showtimes.vals[cinema]));
    }
    Deduplicated(collected, showtimes, elements);
  }

  /** The second loop's state: the lists of the first `j` cinemas have been sorted and deduplicated. */
  ghost predicate DedupedUpTo(collected: PageShowtimes, showtimes: PageShowtimes, j: nat) {
    && j <= |collected.keys|
    && showtimes.keys == collected.keys
    && showtimes.vals.Keys == collected.vals.Keys
    && forall c :: c in collected.vals ==>
      showtimes.vals[c] == if c in collected.keys[..j] then SortedUnique(collected.vals[c]) else collected.vals[c]
  }

  lemma DedupStep(collected: PageShowtimes, showtimes: PageShowtimes, j: nat)
    requires collected.Valid() && j < |collected.keys|
    requires DedupedUpTo(collected, showtimes, j)
    ensures collected.keys[j] in showtimes.vals
    ensures DedupedUpTo(collected, showtimes.Put(collected.keys[j], SortedUnique(showtimes.vals[collected.keys[j]])), j + 1)
  {
    var c := collected.keys[j];
    assert c in collected.vals;
    assert c !in collected.keys[..j] by {
      forall k | 0 <= k < j ensures collected.keys[k] != c {
        assert collected.keys[k] == collected.keys[..j][k];
      }
    }
    assert collected.keys[..j + 1] == collected.keys[..j] + [c];
    var after := showtimes.Put(c, SortedUnique(showtimes.vals[c]));
    assert after == ODict(showtimes.keys, showtimes.vals[c := SortedUnique(collected.vals[c])]);
  }

  /** Once every cinema has been visited, each list is the sorted, deduplicated list collected for it. */
  lemma DedupedAll(collected: PageShowtimes, showtimes: PageShowtimes, c: string)
    requires DedupedUpTo(collected, showtimes, |collected.keys|)
    requires collected.Valid() && c in collected.vals
    ensures showtimes.vals[c] == SortedUnique(collected.vals[c])
  {
    assert collected.keys[..|collected.keys|] == collected.keys;
  }

  lemma DedupedValue(collected: PageShowtimes, showtimes: PageShowtimes, es: seq<Element>, c: string)
    requires Collected(collected, es)
    requires DedupedUpTo(collected, showtimes, |collected.keys|)
    requires c in showtimes.vals
    ensures c in ParsedPage(es).vals && showtimes.vals[c] == ParsedPage(es).vals[c]
  {
    DedupedAll(collected, showtimes, c);
    assert c in FirstAppearances(BoldNames(es));
  }

  lemma DedupedDomain(collected: PageShowtimes, showtimes: PageShowtimes, es: seq<Element>)
    requires Collected(collected, es)
    requires DedupedUpTo(collected, showtimes, |collected.keys|)
    ensures showtimes.vals.Keys == ParsedPage(es).vals.Keys
  {
    forall c ensures c in showtimes.vals <==> c in ParsedPage(es).vals {
      assert c in ParsedPage(es).vals <==> c in BoldNames(es);
      assert c in showtimes.vals <==> c in FirstAppearances(BoldNames(es));
    }
  }

  lemma DedupedContents(collected: PageShowtimes, showtimes: PageShowtimes, es: seq<Element>)
    requires Collected(collected, es)
    requires DedupedUpTo(collected, showtimes, |collected.keys|)
    ensures showtimes.vals == ParsedPage(es).vals
  {
    var page := ParsedPage(es);
    DedupedDomain(collected, showtimes, es);
    forall c | c in showtimes.vals ensures c in page.vals && showtimes.vals[c] == page.vals[c] {
      DedupedValue(collected, showtimes, es, c);
    }
    SameEntries(showtimes.vals, page.vals);
  }

  lemma SameEntries(m: map<string, seq<string>>, n: map<string, seq<string>>)
    requires m.Keys == n.Keys
    requires forall c :: c in m ==> c in n && m[c] == n[c]
    ensures m == n
  {
  }

  lemma Deduplicated(collected: PageShowtimes, showtimes: PageShowtimes, es: seq<Element>)
    requires Collected(collected, es)
    requires DedupedUpTo(collected, showtimes, |collected.keys|)
    ensures showtimes == ParsedPage(es)
  {
    DedupedContents(collected, showtimes, es);
    assert showtimes.keys == ParsedPage(es).keys;
  }
}

/** What parse_showtimes_from_html promises about the dict it returns. */
module ShowtimesProperties {
  import opened Wrappers
  import opened Lex
  import opened OrderedDict
  import opened Showtimes

  /** Element `j` is a block showing the non-empty time `t` while `c` is the current cinema. */
  predicate ShownUnder(es: seq<Element>, j: int, c: string, t: string)
    requires 0 <= j < |es|
  {
    es[j].Block? && t in es[j].labels && t != "" && c != NoCinema && CurrentCinema(es[..j]) == c
  }

  lemma {:induction false} BoldNamesMembers(es: seq<Element>, c: string)
    ensures c in BoldNames(es) <==> exists j :: 0 <= j < |es| && es[j] == Anchor(Some(c))
  {
    if es != [] {
      var p := es[..|es| - 1];
      BoldNamesMembers(p, c);
      if c in BoldNames(p) {
        var j :| 0 <= j < |p| && p[j] == Anchor(Some(c));
        assert es[j] == Anchor(Some(c));
      }
      if exists j :: 0 <= j < |es| && es[j] == Anchor(Some(c)) {
        var j :| 0 <= j < |es| && es[j] == Anchor(Some(c));
        if j < |p| {
          assert p[j] == Anchor(Some(c));
        }
      }
    }
  }

  lemma {:induction false} RawTimesComplete(es: seq<Element>, c: string, t: string, j: int)
    requires 0 <= j < |es| && ShownUnder(es, j, c, t)
    ensures t in RawTimes(es, c)
  {
    var n := |es| - 1;
    var p := es[..n];
    var last := if es[n].Block? && c != NoCinema && CurrentCinema(p) == c then NonEmpty(es[n].labels) else [];
    assert RawTimes(es, c) == RawTimes(p, c) + last;
    if j < n {
      assert p[..j] == es[..j];
      assert ShownUnder(p, j, c, t);
      RawTimesComplete(p, c, t, j);
    } else {
      assert t in last;
    }
  }

  lemma {:induction false} RawTimesWitness(es: seq<Element>, c: string, t: string) returns (j: int)
    requires t in RawTimes(es, c)
    ensures 0 <= j < |es| && ShownUnder(es, j, c, t)
  {
    var n := |es| - 1;
    var p := es[..n];
    if t in RawTimes(p, c) {
      j := RawTimesWitness(p, c, t);
      assert p[..j] == es[..j];
    } else {
      j := n;
    }
  }

  lemma RawTimesMembers(es: seq<Element>, c: string, t: string)
    ensures t in RawTimes(es, c) <==> exists j :: 0 <= j < |es| && ShownUnder(es, j, c, t)
  {
    if t in RawTimes(es, c) {
      var j := RawTimesWitness(es, c, t);
    }
    if j :| 0 <= j < |es| && ShownUnder(es, j, c, t) {
      RawTimesComplete(es, c, t, j);
    }
  }

  /** One entry per distinct bolded anchor, in first-appearance order, each list strictly ascending. */
  lemma ParsedPageShape(es: seq<Element>)
    ensures ParsedPage(es).Valid()
    ensures Distinct(ParsedPage(es).keys)
    ensures forall c :: c in ParsedPage(es).vals ==> StrictlySorted(ParsedPage(es).vals[c])
  {
  }

  /** Every bolded anchor becomes a key, and nothing else does. */
  lemma ParsedPageKeys(es: seq<Element>, c: string)
    ensures c in ParsedPage(es).vals <==> exists j :: 0 <= j < |es| && es[j] == Anchor(Some(c))
  {
    BoldNamesMembers(es, c);
  }

  /** A cinema's list holds exactly the non-empty times of the blocks seen while it was current. */
  lemma ParsedPageTimes(es: seq<Element>, c: string, t: string)
    requires c in ParsedPage(es).vals
    ensures t in ParsedPage(es).vals[c] <==> exists j :: 0 <= j < |es| && ShownUnder(es, j, c, t)
  {
    RawTimesMembers(es, c, t);
  }

  /** A cinema whose bold text is the "N/A" placeholder gets a key but never any times. */
  lemma PlaceholderCinemaEmpty(es: seq<Element>)
    requires NoCinema in ParsedPage(es).vals
    ensures ParsedPage(es).vals[NoCinema] == []
  {
    var times := ParsedPage(es).vals[NoCinema];
    if times != [] {
      assert times[0] in RawTimes(es, NoCinema);
      var j := RawTimesWitness(es, NoCinema, times[0]);
    }
  }

  lemma {:induction false} BeforeAnyCinema(lead: seq<Element>, rest: seq<Element>)
    requires forall e :: e in lead ==> !(e.Anchor? && e.bold.Some?)
    ensures BoldNames(lead + rest) == BoldNames(rest)
    ensures CurrentCinema(lead + rest) == CurrentCinema(rest)
  {
    if rest == [] {
      assert lead + rest == lead;
      NoBoldInLead(lead);
    } else {
      var r := rest[..|rest| - 1];
      assert (lead + rest)[..|lead + rest| - 1] == lead + r;
      BeforeAnyCinema(lead, r);
    }
  }

  lemma {:induction false} TimesBeforeAnyCinema(lead: seq<Element>, rest: seq<Element>, c: string)
    requires forall e :: e in lead ==> !(e.Anchor? && e.bold.Some?)
    ensures RawTimes(lead + rest, c) == RawTimes(rest, c)
  {
    if rest == [] {
      assert lead + rest == lead;
      NoTimesInLead(lead, c);
    } else {
      var r := rest[..|rest| - 1];
      assert (lead + rest)[..|lead + rest| - 1] == lead + r;
      TimesBeforeAnyCinema(lead, r, c);
      BeforeAnyCinema(lead, r);
    }
  }

  lemma {:induction false} NoBoldInLead(lead: seq<Element>)
    requires forall e :: e in lead ==> !(e.Anchor? && e.bold.Some?)
    ensures BoldNames(lead) == [] && CurrentCinema(lead) == NoCinema
  {
    if lead != [] {
      var p := lead[..|lead| - 1];
      assert lead[|lead| - 1] in lead;
      assert forall e :: e in p ==> e in lead;
      NoBoldInLead(p);
    }
  }

  lemma {:induction false} NoTimesInLead(lead: seq<Element>, c: string)
    requires forall e :: e in lead ==> !(e.Anchor? && e.bold.Some?)
    ensures RawTimes(lead, c) == []
  {
    if lead != [] {
      var p := lead[..|lead| - 1];
      assert forall e :: e in p ==> e in lead;
      NoTimesInLead(p, c);
      NoBoldInLead(p);
    }
  }

  /** Blocks before the first bolded anchor contribute nothing. */
  lemma LeadingBlocksDropped(lead: seq<Element>, rest: seq<Element>)
    requires forall e :: e in lead ==> !(e.Anchor? && e.bold.Some?)
    ensures ParsedPage(lead + rest) == ParsedPage(rest)
  {
    var whole, page := ParsedPage(lead + rest), ParsedPage(rest);
    BeforeAnyCinema(lead, rest);
    assert whole.keys == page.keys;
    assert whole.vals.Keys == page.vals.Keys;
    forall c | c in whole.vals ensures c in page.vals && whole.vals[c] == page.vals[c] {
      TimesBeforeAnyCinema(lead, rest, c);
    }
    SameEntries(whole.vals, page.vals);
  }
}
