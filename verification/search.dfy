/**
 * The country filter and reporter: two linear scans, first over the botnet
 * C2 IP blocklist and then over the recent C2 indicator list, emitting
 * every record whose `country` field equals the target code.
 *
 * Printing a record is modelled as appending it to the `emitted` output;
 * how it is formatted is not modelled.
 */
module Search {

  /** One IOC record as decoded from a feed. */
  type Record = map<string, string>

  const CountryField := "country"

  /** Which of the two feeds a scan was reading. */
  datatype Feed = Blocklist | C2

  /**
   * How the scan ended: normally, or with the `KeyError` raised by the
   * first record (of the given feed, at the given position) that has no
   * `country` field.
   */
  datatype Outcome = Completed | KeyError(feed: Feed, index: nat)

  /** Every record of `rs` has a `country` field. */
  predicate AllHaveCountry(rs: seq<Record>) {
    forall i :: 0 <= i < |rs| ==> CountryField in rs[i]
  }

  /** Whether the record's country is exactly `country` (case-sensitive). */
  predicate Matches(r: Record, country: string)
    requires CountryField in r
  {
    r[CountryField] == country
  }

  /** Some record of `rs` matches `country`. */
  predicate AnyMatch(rs: seq<Record>, country: string)
    requires AllHaveCountry(rs)
  {
    exists i :: 0 <= i < |rs| && Matches(rs[i], country)
  }

  /** The records of `rs` matching `country`, in input order, duplicates kept. */
  function Filter(rs: seq<Record>, country: string): (r: seq<Record>)
    requires AllHaveCountry(rs)
    ensures |r| <= |rs|
    ensures forall i :: 0 <= i < |r| ==> CountryField in r[i] && Matches(r[i], country)
  {
    if rs == [] then
      []
    else
      (if Matches(rs[0], country) then [rs[0]] else []) + Filter(rs[1..], country)
  }

  /**
   * Position of the first record without a `country` field, or `|rs|` when
   * every record has one.
   */
  function FirstMissing(rs: seq<Record>): (k: nat)
    ensures k <= |rs|
    ensures forall i :: 0 <= i < k ==> CountryField in rs[i]
    ensures k < |rs| ==> CountryField !in rs[k]
  {
    if rs == [] then
      0
    else if CountryField !in rs[0] then
      0
    else
      1 + FirstMissing(rs[1..])
  }

  /** The scan reaches the end of `rs` exactly when every record has a country. */
  lemma FirstMissingIsLength(rs: seq<Record>)
    ensures FirstMissing(rs) == |rs| <==> AllHaveCountry(rs)
  {
  }

  /** A record without a country after a prefix where all have one is the first missing. */
  lemma FirstMissingAt(rs: seq<Record>, i: nat)
    requires i < |rs| && CountryField !in rs[i]
    requires AllHaveCountry(rs[..i])
    ensures FirstMissing(rs) == i
  {
  }

  /** Filtering one more record extends the result by that record exactly when it matches. */
  lemma FilterSnoc(rs: seq<Record>, x: Record, country: string)
    requires AllHaveCountry(rs) && CountryField in x
    ensures AllHaveCountry(rs + [x])
    ensures Filter(rs + [x], country) ==
      Filter(rs, country) + (if Matches(x, country) then [x] else [])
  {
    FilterConcat(rs, [x], country);
  }

  /** Filtering a concatenation filters each part in turn. */
  lemma {:induction false} FilterConcat(a: seq<Record>, b: seq<Record>, country: string)
    requires AllHaveCountry(a) && AllHaveCountry(b)
    ensures AllHaveCountry(a + b)
    ensures Filter(a + b, country) == Filter(a, country) + Filter(b, country)
  {
    assert forall i :: 0 <= i < |a + b| ==>
      (a + b)[i] == if i < |a| then a[i] else b[i - |a|];
    if a == [] {
      assert a + b == b;
    } else {
      var head := if Matches(a[0], country) then [a[0]] else [];
      assert (a + b)[0] == a[0];
      assert (a + b)[1..] == a[1..] + b;
      FilterConcat(a[1..], b, country);
      calc {
        Filter(a + b, country);
        head + Filter(a[1..] + b, country);
        head + (Filter(a[1..], country) + Filter(b, country));
        (head + Filter(a[1..], country)) + Filter(b, country);
        Filter(a, country) + Filter(b, country);
      }
    }
  }

  /** A record is emitted exactly when it occurs in the input and matches. */
  lemma {:induction false} FilterMembers(rs: seq<Record>, country: string, x: Record)
    requires AllHaveCountry(rs)
    ensures x in Filter(rs, country) <==> x in rs && CountryField in x && Matches(x, country)
  {
    if rs != [] {
      FilterMembers(rs[1..], country, x);
      assert rs == [rs[0]] + rs[1..];
    }
  }

  /**
   * No deduplication: a record is emitted as many times as it occurs, if it
   * matches, and never otherwise.
   */
  lemma {:induction false} FilterCount(rs: seq<Record>, country: string, x: Record)
    requires AllHaveCountry(rs)
    ensures multiset(Filter(rs, country))[x] ==
      if CountryField in x && Matches(x, country) then multiset(rs)[x] else 0
  {
    if rs != [] {
      FilterCount(rs[1..], country, x);
      assert rs == [rs[0]] + rs[1..];
    }
  }

  /** Nothing is filtered out of `rs` exactly when no record of `rs` matches. */
  lemma {:induction false} FilterEmptyIff(rs: seq<Record>, country: string)
    requires AllHaveCountry(rs)
    ensures Filter(rs, country) == [] <==> !AnyMatch(rs, country)
  {
    if rs != [] {
      FilterEmptyIff(rs[1..], country);
      if AnyMatch(rs[1..], country) {
        var i :| 0 <= i < |rs[1..]| && Matches(rs[1..][i], country);
        assert Matches(rs[i + 1], country);
      }
      if AnyMatch(rs, country) && !Matches(rs[0], country) {
        var i :| 0 <= i < |rs| && Matches(rs[i], country);
        assert Matches(rs[1..][i - 1], country);
      }
    }
  }

  /** Scenario: one US and one DE record in the blocklist, an empty C2 list. */
  lemma ScenarioOneMatch()
    ensures var us := map["ip" := "1.2.3.4", "country" := "US"];
            var de := map["ip" := "5.6.7.8", "country" := "DE"];
            Filter([us, de], "US") == [us] && Filter([us, de], "us") == []
  {
  }

  /** What a run of the scans shows the user, and how it ends. */
  datatype Report = Report(emitted: seq<Record>, noMatchNotice: bool, outcome: Outcome)

  /**
   * The report the two scans produce: the matches of the blocklist, then
   * those of the C2 list, stopping at the first record without a country;
   * the notice is given only when both scans end without a match.
   */
  function ScanReport(blocklist: seq<Record>, c2: seq<Record>, country: string): (rep: Report)
    ensures rep.outcome.Completed? <==> AllHaveCountry(blocklist) && AllHaveCountry(c2)
    ensures rep.outcome.Completed? ==> rep.emitted == Filter(blocklist + c2, country)
    ensures rep.noMatchNotice ==> rep.outcome.Completed? && rep.emitted == []
    ensures rep.outcome.Completed? ==> (rep.noMatchNotice <==> rep.emitted == [])
  {
    FirstMissingIsLength(blocklist);
    FirstMissingIsLength(c2);
    var kb := FirstMissing(blocklist);
    if kb < |blocklist| then
      Report(Filter(blocklist[..kb], country), false, KeyError(Blocklist, kb))
    else
      var kc := FirstMissing(c2);
      if kc < |c2| then
        Report(Filter(blocklist, country) + Filter(c2[..kc], country), false, KeyError(C2, kc))
      else
        var emitted := Filter(blocklist, country) + Filter(c2, country);
        FilterConcat(blocklist, c2, country);
        Report(emitted, emitted == [], Completed)
  }

  /**
   * The "No matches were found" notice is given exactly when both feeds
   * are scanned to the end and neither holds a matching record.
   */
  lemma NoMatchNoticeIff(blocklist: seq<Record>, c2: seq<Record>, country: string)
    ensures ScanReport(blocklist, c2, country).noMatchNotice <==>
      && AllHaveCountry(blocklist) && AllHaveCountry(c2)
      && !AnyMatch(blocklist, country) && !AnyMatch(c2, country)
  {
    if AllHaveCountry(blocklist) && AllHaveCountry(c2) {
      FilterEmptyIff(blocklist, country);
      FilterEmptyIff(c2, country);
    }
  }

  /**
   * A record without a country ends the scan: nothing at or after it is
   * emitted, and whatever matched before it was emitted. Every emitted
   * record comes from the part of the blocklist before it.
   */
  lemma KeyErrorKeepsEarlierMatches(blocklist: seq<Record>, c2: seq<Record>, country: string)
    requires !AllHaveCountry(blocklist)
    ensures var k := FirstMissing(blocklist);
      && ScanReport(blocklist, c2, country).outcome == KeyError(Blocklist, k)
      && ScanReport(blocklist, c2, country).emitted == Filter(blocklist[..k], country)
      && !ScanReport(blocklist, c2, country).noMatchNotice
    ensures forall x :: x in ScanReport(blocklist, c2, country).emitted ==>
      x in blocklist[..FirstMissing(blocklist)]
  {
    FirstMissingIsLength(blocklist);
    var k := FirstMissing(blocklist);
    forall x | x in ScanReport(blocklist, c2, country).emitted
      ensures x in blocklist[..k]
    {
      FilterMembers(blocklist[..k], country, x);
    }
  }

  /**
   * A C2 record without a country ends the second scan: every blocklist
   * match and the C2 matches before it were emitted, and no notice is given.
   * Every emitted record comes from the blocklist or from the part of the
   * C2 list before the failing record.
   */
  lemma C2KeyErrorKeepsEarlierMatches(blocklist: seq<Record>, c2: seq<Record>, country: string)
    requires AllHaveCountry(blocklist) && !AllHaveCountry(c2)
    ensures var k := FirstMissing(c2);
      && ScanReport(blocklist, c2, country).outcome == KeyError(C2, k)
      && ScanReport(blocklist, c2, country).emitted ==
           Filter(blocklist, country) + Filter(c2[..k], country)
      && !ScanReport(blocklist, c2, country).noMatchNotice
    ensures forall x :: x in ScanReport(blocklist, c2, country).emitted ==>
      x in blocklist || x in c2[..FirstMissing(c2)]
  {
    FirstMissingIsLength(blocklist);
    FirstMissingIsLength(c2);
    var k := FirstMissing(c2);
    forall x | x in ScanReport(blocklist, c2, country).emitted
      ensures x in blocklist || x in c2[..k]
    {
      FilterMembers(blocklist, country, x);
      FilterMembers(c2[..k], country, x);
    }
  }

  /**
   * `search`: scan the blocklist, then the C2 list; emit each record whose
   * country is `country`; set `status` on every match; emit the "No matches
   * were found" notice when both scans end without one. A record without a
   * `country` field raises `KeyError`, which ends the scan at once: the
   * records emitted before it stay emitted, and no notice is given.
   */
  method SearchFeeds(blocklist: seq<Record>, c2: seq<Record>, country: string)
    returns (emitted: seq<Record>, status: bool, noMatchNotice: bool, outcome: Outcome)
    ensures Report(emitted, noMatchNotice, outcome) == ScanReport(blocklist, c2, country)
    ensures status <==> |emitted| > 0
  {
    emitted, status, noMatchNotice := [], false, false;

    var i := 0;
    while i < |blocklist|
      invariant 0 <= i <= |blocklist|
      invariant AllHaveCountry(blocklist[..i])
      invariant emitted == Filter(blocklist[..i], country)
      invariant status <==> |emitted| > 0
    {
      var entry := blocklist[i];
      if CountryField !in entry {
        FirstMissingAt(blocklist, i);
        outcome := KeyError(Blocklist, i);
        return;
      }
      if entry[CountryField] == country {
        emitted := emitted + [entry];
        status := true;
      }
      assert blocklist[..i + 1] == blocklist[..i] + [entry];
      FilterSnoc(blocklist[..i], entry, country);
      i := i + 1;
    }
    assert blocklist[..i] == blocklist;
    FirstMissingIsLength(blocklist);
    ghost var fromBlocklist := emitted;

    var j := 0;
    while j < |c2|
      invariant 0 <= j <= |c2|
      invariant AllHaveCountry(c2[..j])
      invariant emitted == fromBlocklist + Filter(c2[..j], country)
      invariant status <==> |emitted| > 0
    {
      var entry := c2[j];
      if CountryField !in entry {
        FirstMissingAt(c2, j);
        outcome := KeyError(C2, j);
        return;
      }
      ghost var before := emitted;
      if entry[CountryField] == country {
        emitted := emitted + [entry];
        status := true;
      }
      assert emitted == before + (if Matches(entry, country) then [entry] else []);
      assert c2[..j + 1] == c2[..j] + [entry];
      FilterSnoc(c2[..j], entry, country);
      j := j + 1;
    }
    assert c2[..j] == c2;
    FirstMissingIsLength(c2);

    outcome := Completed;
    if !status {
      noMatchNotice := true;
    }
  }
}
