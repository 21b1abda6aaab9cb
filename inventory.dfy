/** The inventory script's catalogs and its send schedule: `main` posts
    every threat entry once (bootstrap), then cycles through the software
    catalog one entry per request; `print_eol_bulk` lays the threat documents
    out ten seconds apart. */
module Inventory {
  import opened Bulk

  /** `software_list`: the software catalog, in order. */
  const SoftwareList: seq<Document> := [
    map["software" := Str("python"), "version" := Str("3.10")],
    map["software" := Str("python"), "version" := Str("2.7")],
    map["software" := Str("python"), "version" := Str("3.8")],
    map["software" := Str("node.js"), "version" := Str("18.17")],
    map["software" := Str("node.js"), "version" := Str("16.15")],
    map["software" := Str("node.js"), "version" := Str("20.5")]
  ]

  /** `threat_list`: the end-of-life indicators, in order. */
  const ThreatList: seq<Document> := [
    map["threat.indicator.software" := Str("python"), "threat.indicator.version" := Str("3.10")],
    map["threat.indicator.software" := Str("node.js"), "threat.indicator.version" := Str("18.17")]
  ]

  /** Pairwise distinct catalog entries. */
  predicate Distinct(entries: seq<Document>)
  {
    forall a, b :: 0 <= a < b < |entries| ==> entries[a] != entries[b]
  }

  /** No entry of the catalogs uses a key the payload builder adds. */
  lemma CatalogFacts()
    ensures |SoftwareList| == 6 && |ThreatList| == 2
    ensures forall j :: 0 <= j < |SoftwareList| ==> FreeOfAddedKeys(SoftwareList[j])
    ensures forall j :: 0 <= j < |ThreatList| ==> FreeOfAddedKeys(ThreatList[j])
  {
  }

  /** The six software entries differ pairwise (each in its version). */
  lemma SoftwareListDistinct()
    ensures Distinct(SoftwareList)
  {
    var versions := seq(6, j requires 0 <= j < 6 => SoftwareList[j]["version"]);
    assert versions == [Str("3.10"), Str("2.7"), Str("3.8"), Str("18.17"), Str("16.15"), Str("20.5")];
    forall a, b | 0 <= a < b < 6
      ensures SoftwareList[a] != SoftwareList[b]
    {
      assert versions[a] != versions[b];
    }
  }

  /** Every end-of-life indicator names a software and version that the
      software catalog also ships. */
  lemma ThreatsMatchInventory()
    ensures forall t :: 0 <= t < |ThreatList| ==>
      exists j :: 0 <= j < |SoftwareList| &&
        SoftwareList[j]["software"] == ThreatList[t]["threat.indicator.software"] &&
        SoftwareList[j]["version"] == ThreatList[t]["threat.indicator.version"]
  {
    assert SoftwareList[0]["software"] == ThreatList[0]["threat.indicator.software"];
    assert SoftwareList[3]["version"] == ThreatList[1]["threat.indicator.version"];
  }

  /** One POST: the bulk URL, the index named by its action line, and its document. */
  datatype Request = Request(url: string, index: string, doc: Document)

  /** The request that posts one catalog entry built at instant `now`. */
  function Send(url: string, entry: Document, now: int, isThreat: bool): (r: Request)
    ensures r.url == url
    ensures r.index == (if isThreat then ThreatIndex else SoftwareIndex)
    ensures TimestampKey in r.doc && r.doc[TimestampKey] == Time(now)
    ensures FreeOfAddedKeys(entry) ==> EntryOf(r.doc, isThreat) == entry
  {
    var p := MakeBulkPayload(entry, now, isThreat);
    Request(url, p.index, p.doc)
  }

  /** The requests `main` issues, up to `steps` steady sends: one per threat
      entry in catalog order, then the k-th steady send carrying software
      entry k mod |software|. The n-th payload is built at instant clock(n). */
  ghost predicate ShipsAsScheduled(log: seq<Request>, url: string, threats: seq<Document>,
                                   software: seq<Document>, clock: nat -> int, steps: nat)
    requires |software| > 0
  {
    && |log| == |threats| + steps
    && (forall n :: 0 <= n < |threats| ==> log[n] == Send(url, threats[n], clock(n), true))
    && (forall n :: |threats| <= n < |log| ==>
          log[n] == Send(url, software[(n - |threats|) % |software|], clock(n), false))
  }

  /** `main` up to its `steps`-th steady send: the bulk URL is built once,
      the bootstrap loop posts each threat entry, then the counter `i` picks
      the software entry for each steady send and rises by one. Each POST is
      recorded in the returned log; the 30-second sleep is left out. */
  method Ship(endpoint: string, threats: seq<Document>, software: seq<Document>,
              clock: nat -> int, steps: nat) returns (log: seq<Request>)
    requires |software| > 0
    ensures ShipsAsScheduled(log, BulkUrl(endpoint), threats, software, clock, steps)
  {
    var url := BulkUrl(endpoint);
    log := [];
    for t := 0 to |threats|
      invariant |log| == t
      invariant forall n :: 0 <= n < t ==> log[n] == Send(url, threats[n], clock(n), true)
    {
      var payload := MakeBulkPayload(threats[t], clock(|log|), true);
      log := log + [Request(url, payload.index, payload.doc)];
    }
    var i := 0;
    while i < steps
      invariant i <= steps
      invariant |log| == |threats| + i
      invariant forall n :: 0 <= n < |threats| ==> log[n] == Send(url, threats[n], clock(n), true)
      invariant forall n :: |threats| <= n < |log| ==>
        log[n] == Send(url, software[(n - |threats|) % |software|], clock(n), false)
    {
      var entry := software[i % |software|];
      var payload := MakeBulkPayload(entry, clock(|log|), false);
      log := log + [Request(url, payload.index, payload.doc)];
      i := i + 1;
    }
  }

  /** Bootstrap comes first: exactly the first |threats| requests go to
      `eol-versions`, every later one to `software`, all to the same URL. */
  lemma BootstrapBeforeSoftware(log: seq<Request>, url: string, threats: seq<Document>,
                                software: seq<Document>, clock: nat -> int, steps: nat)
    requires |software| > 0
    requires ShipsAsScheduled(log, url, threats, software, clock, steps)
    ensures forall n :: 0 <= n < |log| ==> log[n].url == url
    ensures forall n :: 0 <= n < |log| ==> (log[n].index == ThreatIndex <==> n < |threats|)
    ensures forall n :: 0 <= n < |log| ==> (log[n].index == SoftwareIndex <==> n >= |threats|)
  {
  }

  /** The j-th bootstrap request carries threat entry j. */
  lemma BootstrapCarriesThreats(log: seq<Request>, url: string, threats: seq<Document>,
                                software: seq<Document>, clock: nat -> int, steps: nat)
    requires |software| > 0
    requires ShipsAsScheduled(log, url, threats, software, clock, steps)
    requires forall j :: 0 <= j < |threats| ==> FreeOfAddedKeys(threats[j])
    ensures forall j :: 0 <= j < |threats| ==> EntryOf(log[j].doc, true) == threats[j]
  {
  }

  /** The k-th steady request (request |threats| + k) carries software entry
      k mod |software|. */
  lemma SteadyCarriesSoftware(log: seq<Request>, url: string, threats: seq<Document>,
                              software: seq<Document>, clock: nat -> int, steps: nat)
    requires |software| > 0
    requires ShipsAsScheduled(log, url, threats, software, clock, steps)
    requires forall j :: 0 <= j < |software| ==> FreeOfAddedKeys(software[j])
    ensures CarriesCyclically(log, |threats|, software)
  {
  }

  /** A positive multiple of a positive number is at least that number. */
  lemma MulAtLeast(a: int, m: int)
    requires a >= 1 && m > 0
    ensures a * m >= m
  {
  }

  /** x == q * m + r with 0 <= r < m leaves remainder r. */
  lemma ModOfDecomposition(x: int, q: int, r: int, m: int)
    requires m > 0 && 0 <= r < m && x == q * m + r
    ensures x % m == r
  {
    var q', r' := x / m, x % m;
    assert x == q' * m + r';
    if q > q' {
      assert q * m - q' * m == (q - q') * m;
      MulAtLeast(q - q', m);
    } else if q < q' {
      assert q' * m - q * m == (q' - q) * m;
      MulAtLeast(q' - q, m);
    }
  }

  /** Two offsets within one window of length m with equal remainders are equal. */
  lemma SameRemainderInWindow(start: nat, t1: nat, t2: nat, m: nat)
    requires m > 0 && t1 < m && t2 < m
    requires (start + t1) % m == (start + t2) % m
    ensures t1 == t2
  {
    var q1, q2 := (start + t1) / m, (start + t2) / m;
    assert start + t1 == q1 * m + (start + t1) % m;
    assert start + t2 == q2 * m + (start + t2) % m;
    if q1 > q2 {
      assert q1 * m - q2 * m == (q1 - q2) * m;
      MulAtLeast(q1 - q2, m);
    } else if q1 < q2 {
      assert q2 * m - q1 * m == (q2 - q1) * m;
      MulAtLeast(q2 - q1, m);
    }
  }

  /** The steady schedule is periodic: steady sends k and k + |software|
      carry the same software entry. */
  lemma SteadyIsPeriodic(log: seq<Request>, first: nat, software: seq<Document>, n: nat)
    requires |software| > 0
    requires CarriesCyclically(log, first, software)
    requires first <= n && n + |software| < |log|
    ensures EntryOf(log[n + |software|].doc, false) == EntryOf(log[n].doc, false)
  {
    var m, k := |software|, n - first;
    ModOfDecomposition(k, k / m, k % m, m);
    assert (k / m + 1) * m == (k / m) * m + m;
    ModOfDecomposition(k + m, k / m + 1, k % m, m);
    assert n + m - first == k + m;
  }

  /** Every remainder j < m is met within m steps from any k. */
  lemma ResidueInWindow(k: nat, m: nat, j: nat) returns (t: nat)
    requires m > 0 && j < m
    ensures t < m && (k + t) % m == j
  {
    var r := k % m;
    assert k == (k / m) * m + r;
    if r <= j {
      t := j - r;
      ModOfDecomposition(k + t, k / m, j, m);
    } else {
      t := j - r + m;
      assert (k / m + 1) * m == (k / m) * m + m;
      ModOfDecomposition(k + t, k / m + 1, j, m);
    }
  }

  /** Requests from `first` on carry the software entries cyclically. */
  ghost predicate CarriesCyclically(log: seq<Request>, first: nat, software: seq<Document>)
    requires |software| > 0
  {
    forall n :: first <= n < |log| ==> EntryOf(log[n].doc, false) == software[(n - first) % |software|]
  }

  /** In any window of |software| consecutive steady sends, each software
      entry is carried by some send. */
  lemma EachEntryInEveryPeriod(log: seq<Request>, first: nat, software: seq<Document>,
                               start: nat, j: nat)
    requires |software| > 0
    requires CarriesCyclically(log, first, software)
    requires first <= start && start + |software| <= |log| && j < |software|
    ensures exists n ::
      (start <= n < start + |software| && EntryOf(log[n].doc, false) == software[j])
  {
    var t := ResidueInWindow(start - first, |software|, j);
    assert start + t - first == start - first + t;
    assert EntryOf(log[start + t].doc, false) == software[j];
  }

  /** With pairwise distinct entries, no software entry is carried twice in
      one window of |software| consecutive steady sends. */
  lemma NoEntryTwiceInPeriod(log: seq<Request>, first: nat, software: seq<Document>,
                             start: nat, n1: nat, n2: nat)
    requires |software| > 0
    requires CarriesCyclically(log, first, software)
    requires Distinct(software)
    requires first <= start && start <= n1 < start + |software| && start <= n2 < start + |software|
    requires n2 < |log| && n1 < |log|
    requires EntryOf(log[n1].doc, false) == EntryOf(log[n2].doc, false)
    ensures n1 == n2
  {
    var m := |software|;
    var p1, p2 := (n1 - first) % m, (n2 - first) % m;
    assert software[p1] == software[p2];
    assert p1 == p2;
    assert n1 - first == (start - first) + (n1 - start);
    assert n2 - first == (start - first) + (n2 - start);
    SameRemainderInWindow(start - first, n1 - start, n2 - start, m);
  }

  /** `print_eol_bulk` from start instant `start`: a copy of each threat entry
      with `@timestamp` set to start + 10 * i seconds for the i-th entry.
      The printed action line is always that of `eol-versions`. */
  method EolBulk(threats: seq<Document>, start: int) returns (docs: seq<Document>)
    ensures |docs| == |threats|
    ensures forall i :: 0 <= i < |threats| ==>
      docs[i] == MakeBulkPayload(threats[i], start + 10 * i, true).doc
    ensures forall i :: 0 <= i < |docs| ==>
      TimestampKey in docs[i] && docs[i][TimestampKey] == Time(start + 10 * i)
    ensures forall i, j :: 0 <= i < j < |docs| ==>
      docs[i][TimestampKey].seconds < docs[j][TimestampKey].seconds
  {
    docs := [];
    for i := 0 to |threats|
      invariant |docs| == i
      invariant forall n :: 0 <= n < i ==>
        docs[n] == MakeBulkPayload(threats[n], start + 10 * n, true).doc
    {
      var doc := threats[i];
      doc := doc[TimestampKey := Time(start + 10 * i)];
      assert doc == threats[i] + map[TimestampKey := Time(start + 10 * i)];
      docs := docs + [doc];
    }
  }

  /** The script's own run: bootstrap posts the two indicators, then the
      k-th steady request carries software_list[k mod 6]. */
  lemma ScriptSchedule(log: seq<Request>, endpoint: string, clock: nat -> int, steps: nat, k: nat)
    requires ShipsAsScheduled(log, BulkUrl(endpoint), ThreatList, SoftwareList, clock, steps)
    requires k < steps
    ensures EntryOf(log[0].doc, true) == ThreatList[0] && log[0].index == ThreatIndex
    ensures EntryOf(log[1].doc, true) == ThreatList[1] && log[1].index == ThreatIndex
    ensures EntryOf(log[2 + k].doc, false) == SoftwareList[k % 6] && log[2 + k].index == SoftwareIndex
  {
    CatalogFacts();
    BootstrapCarriesThreats(log, BulkUrl(endpoint), ThreatList, SoftwareList, clock, steps);
    SteadyCarriesSoftware(log, BulkUrl(endpoint), ThreatList, SoftwareList, clock, steps);
    assert 2 + k - |ThreatList| == k;
    BootstrapBeforeSoftware(log, BulkUrl(endpoint), ThreatList, SoftwareList, clock, steps);
  }

  /** The script's own run: within any six consecutive steady requests each
      software entry is posted exactly once. */
  lemma ScriptOncePerWindow(log: seq<Request>, endpoint: string, clock: nat -> int, steps: nat,
                            start: nat, n1: nat, n2: nat)
    requires ShipsAsScheduled(log, BulkUrl(endpoint), ThreatList, SoftwareList, clock, steps)
    requires 2 <= start && start + 6 <= |log|
    requires start <= n1 < start + 6 && start <= n2 < start + 6
    requires EntryOf(log[n1].doc, false) == EntryOf(log[n2].doc, false)
    ensures n1 == n2
  {
    CatalogFacts();
    SoftwareListDistinct();
    SteadyCarriesSoftware(log, BulkUrl(endpoint), ThreatList, SoftwareList, clock, steps);
    NoEntryTwiceInPeriod(log, |ThreatList|, SoftwareList, start, n1, n2);
  }
}
