/** The crawler object and its `crawl` loop: topics, candidate ids, the
    counters in `stats`, and the records handed to the CSV writer. */
module Crawling {
  import opened Wrappers
  import opened Text
  import opened Extraction

  /** The 25 search topics, in the order they are crawled. */
  const Diseases: seq<string> := [
    "breast cancer", "lung cancer", "colon cancer", "prostate cancer", "gastric cancer",
    "liver cancer", "pancreatic cancer", "ovarian cancer", "cervical cancer", "thyroid cancer",
    "tuberculosis", "pneumonia", "sepsis", "meningitis", "covid-19",
    "diabetes mellitus", "hypertension", "heart failure", "stroke", "chronic kidney disease",
    "myocardial infarction", "pulmonary embolism", "acute respiratory failure",
    "asthma", "epilepsy"]

  /** Lower-case letters, digits, hyphens and spaces only. */
  predicate PlainTopic(d: string) {
    forall k :: 0 <= k < |d| ==> 'a' <= d[k] <= 'z' || '0' <= d[k] <= '9' || d[k] == '-' || d[k] == ' '
  }

  lemma PlainTopicsFirst()
    ensures forall i :: 0 <= i < 5 ==> PlainTopic(Diseases[i])
  {
  }

  lemma PlainTopicsSecond()
    ensures forall i :: 5 <= i < 10 ==> PlainTopic(Diseases[i])
  {
  }

  lemma PlainTopicsThird()
    ensures forall i :: 10 <= i < 15 ==> PlainTopic(Diseases[i])
  {
  }

  lemma PlainTopicsFourth()
    ensures forall i :: 15 <= i < 20 ==> PlainTopic(Diseases[i])
  {
  }

  lemma PlainTopicsFifth()
    ensures forall i :: 20 <= i < 25 ==> PlainTopic(Diseases[i])
  {
  }

  lemma PlainTopicName(d: string)
    requires PlainTopic(d)
    ensures TopicName(d)
  {
  }

  /** Each of the 25 topics is a topic name in the sense of the case ids:
      no underscore, no whitespace but the space. */
  lemma DiseasesAreTopicNames()
    ensures forall i :: 0 <= i < |Diseases| ==> TopicName(Diseases[i])
  {
    PlainTopicsFirst();
    PlainTopicsSecond();
    PlainTopicsThird();
    PlainTopicsFourth();
    PlainTopicsFifth();
    forall i | 0 <= i < |Diseases|
      ensures TopicName(Diseases[i])
    {
      PlainTopicName(Diseases[i]);
    }
  }

  /** No topic is listed twice. */
  lemma DiseasesDistinct()
    ensures forall i, j :: 0 <= i < j < |Diseases| ==> Diseases[i] != Diseases[j]
  {
  }

  /** Every topic of the crawl gives an article its own cleaned case id. */
  lemma CrawlCaseIdsDiffer(i: nat, j: nat, pmcid: string)
    requires i < |Diseases| && j < |Diseases| && i != j && NoSpace(pmcid)
    ensures Normalize(CaseId(Diseases[i], pmcid)) != Normalize(CaseId(Diseases[j], pmcid))
  {
    DiseasesAreTopicNames();
    DiseasesDistinct();
    CleanCaseIdSeparatesTopics(Diseases[i], Diseases[j], pmcid);
  }

  /** The PubMed query for a topic. */
  function SearchQuery(disease: string): string {
    disease + " case report"
  }

  /** Two topics never share a query. */
  lemma SearchQueryInjective(d1: string, d2: string)
    ensures SearchQuery(d1) == SearchQuery(d2) ==> d1 == d2
  {
    if SearchQuery(d1) == SearchQuery(d2) {
      assert d1 == SearchQuery(d1)[..|d1|];
      assert d2 == SearchQuery(d2)[..|d2|];
    }
  }

  /** No two topics of the crawl send the same search request. */
  lemma CrawlSearchesDiffer(i: nat, j: nat)
    requires i < |Diseases| && j < |Diseases| && i != j
    ensures SearchQuery(Diseases[i]) != SearchQuery(Diseases[j])
  {
    DiseasesDistinct();
    SearchQueryInjective(Diseases[i], Diseases[j]);
  }

  /** What `fetch_pmc_xml` hands back: nothing (a failed or empty response),
      or a document, which `ET.fromstring` may fail to parse. */
  datatype FetchResult = NoDocument | Document(article: Option<Article>)

  /** The `stats` counters. */
  datatype Stats = Stats(searched: nat, found: nat, noPmc: nat, noText: nat, saved: nat)

  /** The three web services, as functions of the request: the PubMed
      search (`search_case_reports`: query and `retmax` to candidate ids),
      the id converter (`get_pmc_id`: candidate id to full-text id, `None`
      when there is none) and the full-text fetch (`fetch_pmc_xml`). */
  datatype Services = Services(search: (string, int) -> seq<string>,
                               resolve: string -> Option<string>,
                               fetch: string -> FetchResult)

  /** `max(x, 0)`: a bound that is zero or negative lets nothing through. */
  function Cap(x: int): nat {
    if x > 0 then x else 0
  }

  /** How one candidate id ends: without a full-text id, without a document,
      without enough clinical text, or saved as `record`. */
  datatype Outcome = Unresolved | Unfetched | NoText | Saved(record: CaseRecord)

  /** The body of the candidate loop as a value: the full-text id (`if not
      pmcid` rejects `None` and `''`), then what its document gives. */
  function CandidateOutcome(pmid: string, disease: string, web: Services): Outcome
  {
    var pmcid := web.resolve(pmid);
    if pmcid.None? || pmcid.value == "" then Unresolved
    else DocumentOutcome(web.fetch(pmcid.value), pmid, pmcid.value, disease)
  }

  /** What a fetched document gives: nothing without a document, else the
      extraction's verdict. */
  function DocumentOutcome(xml: FetchResult, pmid: string, pmcid: string, disease: string): Outcome {
    match xml
    case NoDocument => Unfetched
    case Document(article) =>
      match Extract(article, pmid, pmcid, disease)
      case None => NoText
      case Some(r) => Saved(r)
  }

  /** The outcome of every candidate id of a topic, in order. */
  function Outcomes(pmids: seq<string>, disease: string, web: Services): (os: seq<Outcome>)
    ensures |os| == |pmids|
    decreases |pmids|
  {
    if pmids == [] then []
    else Outcomes(pmids[..|pmids| - 1], disease, web) + [CandidateOutcome(pmids[|pmids| - 1], disease, web)]
  }

  /** The outcome at index `i` is the outcome of the `i`-th id. */
  lemma {:induction false} OutcomeAt(pmids: seq<string>, disease: string, web: Services, i: nat)
    requires i < |pmids|
    ensures Outcomes(pmids, disease, web)[i] == CandidateOutcome(pmids[i], disease, web)
    decreases |pmids|
  {
    if i < |pmids| - 1 {
      OutcomeAt(pmids[..|pmids| - 1], disease, web, i);
    }
  }

  /** The candidate ids the search for a topic returns. */
  function TopicIds(disease: string, maxPerDisease: int, web: Services): seq<string> {
    web.search(SearchQuery(disease), maxPerDisease)
  }

  function TopicOutcomes(disease: string, maxPerDisease: int, web: Services): seq<Outcome> {
    Outcomes(TopicIds(disease, maxPerDisease, web), disease, web)
  }

  /** The number of candidate ids the searches for `topics` return. */
  function Searched(web: Services, maxPerDisease: int, topics: seq<string>): nat
    decreases |topics|
  {
    if topics == [] then 0
    else
      Searched(web, maxPerDisease, topics[..|topics| - 1]) + |TopicIds(topics[|topics| - 1], maxPerDisease, web)|
  }

  /** The records that a run of outcomes saves, in order. */
  function SavedRows(os: seq<Outcome>): seq<CaseRecord>
    decreases |os|
  {
    if os == [] then []
    else SavedRows(os[..|os| - 1]) + (if os[|os| - 1].Saved? then [os[|os| - 1].record] else [])
  }

  /** The counters after one candidate: `no_pmc` for an unresolved id,
      otherwise `found`, and then `no_text` or `saved` after an extraction. */
  function Tally(s: Stats, o: Outcome): Stats {
    match o
    case Unresolved => s.(noPmc := s.noPmc + 1)
    case Unfetched => s.(found := s.found + 1)
    case NoText => s.(found := s.found + 1, noText := s.noText + 1)
    case Saved(_) => s.(found := s.found + 1, saved := s.saved + 1)
  }

  /** The counters after a run of candidates, one `Tally` each, in order. */
  function TallyAll(s: Stats, os: seq<Outcome>): Stats
    decreases |os|
  {
    if os == [] then s else Tally(TallyAll(s, os[..|os| - 1]), os[|os| - 1])
  }

  /** The candidate loop's exit test `total_saved >= target or
      disease_saved >= max_per_disease`. */
  predicate Full(target: int, maxPerDisease: int, totalSaved: int, diseaseSaved: int) {
    totalSaved >= target || diseaseSaved >= maxPerDisease
  }

  /** The index, from `i` on, of the first candidate before which the exit
      test holds for a topic entered with `alreadySaved` records saved, or
      the number of candidates. */
  function CutFrom(os: seq<Outcome>, target: int, maxPerDisease: int, alreadySaved: int, i: nat): (r: nat)
    requires i <= |os|
    ensures i <= r <= |os|
    decreases |os| - i
  {
    if i == |os| || Full(target, maxPerDisease, alreadySaved + |SavedRows(os[..i])|, |SavedRows(os[..i])|) then i
    else CutFrom(os, target, maxPerDisease, alreadySaved, i + 1)
  }

  /** How many candidates of a topic the loop looks at: up to the first exit. */
  function Cut(os: seq<Outcome>, target: int, maxPerDisease: int, alreadySaved: int): nat {
    CutFrom(os, target, maxPerDisease, alreadySaved, 0)
  }

  /** The outcomes the loop looks at for topic `disease`, after the
      outcomes `before` of the topics crawled earlier. */
  function TopicPart(before: seq<Outcome>, disease: string, target: int, maxPerDisease: int,
                     web: Services): seq<Outcome>
  {
    var os := TopicOutcomes(disease, maxPerDisease, web);
    os[..Cut(os, target, maxPerDisease, |SavedRows(before)|)]
  }

  /** The outcomes of a crawl over `topics`, topic after topic. */
  function CrawlOutcomes(topics: seq<string>, target: int, maxPerDisease: int, web: Services): seq<Outcome>
    decreases |topics|
  {
    if topics == [] then []
    else
      var before := CrawlOutcomes(topics[..|topics| - 1], target, maxPerDisease, web);
      before + TopicPart(before, topics[|topics| - 1], target, maxPerDisease, web)
  }

  /** The index, from `t` on, of the first topic before which the outer
      loop's exit test `total_saved >= target` holds, or the number of topics. */
  function TopicsFrom(diseases: seq<string>, target: int, maxPerDisease: int, web: Services, t: nat): (r: nat)
    requires t <= |diseases|
    ensures t <= r <= |diseases|
    decreases |diseases| - t
  {
    if t == |diseases| || |SavedRows(CrawlOutcomes(diseases[..t], target, maxPerDisease, web))| >= target then t
    else TopicsFrom(diseases, target, maxPerDisease, web, t + 1)
  }

  /** How many topics the crawl searches: up to the first exit. */
  function TopicsCrawled(diseases: seq<string>, target: int, maxPerDisease: int, web: Services): nat {
    TopicsFrom(diseases, target, maxPerDisease, web, 0)
  }

  // ---------------------------------------------------------------------------
  // Properties of the crawl's outcomes and counters
  // ---------------------------------------------------------------------------

  /** Every row passed the validation, as a fold over the rows. */
  predicate AllAccepted(rows: seq<CaseRecord>)
    decreases |rows|
  {
    rows == [] || (AllAccepted(rows[..|rows| - 1]) && Accepted(rows[|rows| - 1]))
  }

  lemma {:induction false} AllAcceptedMeans(rows: seq<CaseRecord>)
    ensures AllAccepted(rows) <==> forall k :: 0 <= k < |rows| ==> Accepted(rows[k])
    decreases |rows|
  {
    if rows != [] {
      var init := rows[..|rows| - 1];
      AllAcceptedMeans(init);
      assert forall k :: 0 <= k < |init| ==> init[k] == rows[k];
    }
  }

  lemma AllAcceptedAppend(rows: seq<CaseRecord>, r: CaseRecord)
    requires AllAccepted(rows) && Accepted(r)
    ensures AllAccepted(rows + [r])
  {
    assert (rows + [r])[..|rows|] == rows;
  }

  /** A saved candidate is a record that passed the validation. */
  lemma SavedAccepted(pmid: string, disease: string, web: Services)
    ensures var o := CandidateOutcome(pmid, disease, web);
      o.Saved? ==> Accepted(o.record)
  {
    var pmcid := web.resolve(pmid);
    if pmcid.Some? && pmcid.value != "" {
      DocumentSavedAccepted(web.fetch(pmcid.value), pmid, pmcid.value, disease);
    }
  }

  lemma DocumentSavedAccepted(xml: FetchResult, pmid: string, pmcid: string, disease: string)
    ensures var o := DocumentOutcome(xml, pmid, pmcid, disease);
      o.Saved? ==> Accepted(o.record)
  {
    if xml.Document? && Extract(xml.article, pmid, pmcid, disease).Some? {
      ExtractedRecord(xml.article, pmid, pmcid, disease);
    }
  }

  /** Every saved outcome in a run carries a validated record. */
  predicate SavedOk(os: seq<Outcome>) {
    forall k :: 0 <= k < |os| && os[k].Saved? ==> Accepted(os[k].record)
  }

  lemma AllAcceptedConcat(a: seq<CaseRecord>, b: seq<CaseRecord>)
    requires AllAccepted(a) && AllAccepted(b)
    ensures AllAccepted(a + b)
  {
    AllAcceptedMeans(a);
    AllAcceptedMeans(b);
    AllAcceptedMeans(a + b);
  }

  /** The records a run of such outcomes saves are all validated. */
  lemma {:induction false} SavedOkRows(os: seq<Outcome>)
    requires SavedOk(os)
    ensures AllAccepted(SavedRows(os))
    decreases |os|
  {
    if os != [] {
      var init, o := os[..|os| - 1], os[|os| - 1];
      assert forall k :: 0 <= k < |init| ==> init[k] == os[k];
      SavedOkRows(init);
      if o.Saved? {
        assert Accepted(o.record);
        AllAcceptedAppend(SavedRows(init), o.record);
      } else {
        assert SavedRows(os) == SavedRows(init);
      }
    }
  }

  /** Every verdict on a topic's ids saves only validated records. */
  lemma OutcomesSavedOk(pmids: seq<string>, disease: string, web: Services)
    ensures SavedOk(Outcomes(pmids, disease, web))
  {
    var os := Outcomes(pmids, disease, web);
    forall k | 0 <= k < |os| && os[k].Saved?
      ensures Accepted(os[k].record)
    {
      OutcomeAt(pmids, disease, web, k);
      SavedAccepted(pmids[k], disease, web);
    }
  }

  lemma SavedOkPart(before: seq<Outcome>, part: seq<Outcome>, os: seq<Outcome>, n: nat)
    requires SavedOk(before) && SavedOk(os) && n <= |os| && part == os[..n]
    ensures SavedOk(before + part)
  {
    assert forall k :: 0 <= k < |part| ==> part[k] == os[k];
    assert forall k :: 0 <= k < |before + part| ==>
      (before + part)[k] == if k < |before| then before[k] else part[k - |before|];
  }

  /** The whole crawl saves only validated records. */
  lemma {:induction false} CrawlSavedOk(topics: seq<string>, target: int, maxPerDisease: int, web: Services)
    ensures SavedOk(CrawlOutcomes(topics, target, maxPerDisease, web))
    decreases |topics|
  {
    if topics != [] {
      var last := topics[|topics| - 1];
      var before := CrawlOutcomes(topics[..|topics| - 1], target, maxPerDisease, web);
      var os := TopicOutcomes(last, maxPerDisease, web);
      CrawlSavedOk(topics[..|topics| - 1], target, maxPerDisease, web);
      OutcomesSavedOk(TopicIds(last, maxPerDisease, web), last, web);
      SavedOkPart(before, TopicPart(before, last, target, maxPerDisease, web), os,
                  Cut(os, target, maxPerDisease, |SavedRows(before)|));
    }
  }

  /** How the candidate counters move from `s0` to `s` over `processed`
      candidates of which `kept` were saved: each candidate moves exactly one
      of `found` and `no_pmc`, each saved or textless one was found, and none
      of them goes down. */
  predicate Counted(s0: Stats, s: Stats, processed: nat, kept: nat) {
    s0.found <= s.found && s0.noPmc <= s.noPmc && s0.noText <= s.noText &&
    s.found + s.noPmc == s0.found + s0.noPmc + processed &&
    s.saved == s0.saved + kept &&
    s0.found + kept + s.noText <= s.found + s0.noText
  }

  /** One candidate is one processed candidate, saved or not, and no search. */
  lemma TallyCounted(s: Stats, o: Outcome)
    ensures Counted(s, Tally(s, o), 1, if o.Saved? then 1 else 0)
    ensures Tally(s, o).searched == s.searched
  {
  }

  /** Counter movements add up. */
  lemma CountedTrans(s0: Stats, s1: Stats, s2: Stats, p1: nat, k1: nat, p2: nat, k2: nat)
    requires Counted(s0, s1, p1, k1)
    requires Counted(s1, s2, p2, k2)
    ensures Counted(s0, s2, p1 + p2, k1 + k2)
  {
  }

  /** A run of candidates moves the counters as `Counted` says, saves one
      record per `saved`, and searches nothing. */
  lemma {:induction false} TallyAllCounted(s: Stats, os: seq<Outcome>)
    ensures Counted(s, TallyAll(s, os), |os|, |SavedRows(os)|)
    ensures TallyAll(s, os).searched == s.searched
    decreases |os|
  {
    if os != [] {
      var init, o := os[..|os| - 1], os[|os| - 1];
      TallyAllCounted(s, init);
      TallyCounted(TallyAll(s, init), o);
      CountedTrans(s, TallyAll(s, init), TallyAll(s, os), |init|, |SavedRows(init)|,
                   1, if o.Saved? then 1 else 0);
    }
  }

  /** The `searched` counter passes through a run of candidates untouched. */
  lemma {:induction false} TallyAllSearched(s: Stats, os: seq<Outcome>, n: nat)
    ensures TallyAll(s.(searched := n), os) == TallyAll(s, os).(searched := n)
    decreases |os|
  {
    if os != [] {
      TallyAllSearched(s, os[..|os| - 1], n);
    }
  }

  lemma {:induction false} TallyAllAppend(s: Stats, a: seq<Outcome>, b: seq<Outcome>)
    ensures TallyAll(s, a + b) == TallyAll(TallyAll(s, a), b)
    decreases |b|
  {
    if b == [] {
      assert a + b == a;
    } else {
      assert (a + b)[..|a + b| - 1] == a + b[..|b| - 1];
      TallyAllAppend(s, a, b[..|b| - 1]);
    }
  }

  lemma {:induction false} SavedRowsAppend(a: seq<Outcome>, b: seq<Outcome>)
    ensures SavedRows(a + b) == SavedRows(a) + SavedRows(b)
    decreases |b|
  {
    if b == [] {
      assert a + b == a;
    } else {
      assert (a + b)[..|a + b| - 1] == a + b[..|b| - 1];
      SavedRowsAppend(a, b[..|b| - 1]);
    }
  }

  lemma AppendAssociative(a: seq<CaseRecord>, b: seq<CaseRecord>, c: seq<CaseRecord>)
    ensures a + b + c == a + (b + c)
  {
  }

  /** One more outcome: one more `Tally`, and its record if it was saved. */
  lemma CandidateStep(os: seq<Outcome>, o: Outcome)
    ensures forall s :: TallyAll(s, os + [o]) == Tally(TallyAll(s, os), o)
    ensures SavedRows(os + [o]) == SavedRows(os) + (if o.Saved? then [o.record] else [])
  {
    assert (os + [o])[..|os|] == os;
  }

  /** One more outcome saves at most one more record. */
  lemma SavedRowsStep(os: seq<Outcome>, j: nat)
    requires j < |os|
    ensures |SavedRows(os[..j + 1])| == |SavedRows(os[..j])| + (if os[j].Saved? then 1 else 0)
  {
    assert os[..j + 1][..j] == os[..j];
  }

  lemma {:induction false} CutFromIsFirst(os: seq<Outcome>, target: int, maxPerDisease: int, alreadySaved: int, i: nat)
    requires i <= |os|
    ensures var k := CutFrom(os, target, maxPerDisease, alreadySaved, i);
      (k < |os| ==> Full(target, maxPerDisease, alreadySaved + |SavedRows(os[..k])|, |SavedRows(os[..k])|)) &&
      forall j :: i <= j < k ==>
        !Full(target, maxPerDisease, alreadySaved + |SavedRows(os[..j])|, |SavedRows(os[..j])|)
    decreases |os| - i
  {
    if i < |os| && !Full(target, maxPerDisease, alreadySaved + |SavedRows(os[..i])|, |SavedRows(os[..i])|) {
      CutFromIsFirst(os, target, maxPerDisease, alreadySaved, i + 1);
    }
  }

  /** The candidate loop stops at the first candidate before which the
      target or the topic's share is reached, and at the end of the ids
      otherwise. */
  lemma CutIsFirst(os: seq<Outcome>, target: int, maxPerDisease: int, alreadySaved: int)
    ensures var k := Cut(os, target, maxPerDisease, alreadySaved);
      k <= |os| &&
      (k < |os| ==> Full(target, maxPerDisease, alreadySaved + |SavedRows(os[..k])|, |SavedRows(os[..k])|)) &&
      forall j :: 0 <= j < k ==>
        !Full(target, maxPerDisease, alreadySaved + |SavedRows(os[..j])|, |SavedRows(os[..j])|)
  {
    CutFromIsFirst(os, target, maxPerDisease, alreadySaved, 0);
  }

  /** A topic saves at most `max(max_per_disease, 0)` records and does not
      take the total past `max(target, 0)`. */
  lemma CutBounds(os: seq<Outcome>, target: int, maxPerDisease: int, alreadySaved: int)
    ensures var n := |SavedRows(os[..Cut(os, target, maxPerDisease, alreadySaved)])|;
      n <= Cap(maxPerDisease) && (0 <= alreadySaved <= Cap(target) ==> alreadySaved + n <= Cap(target))
  {
    var k := Cut(os, target, maxPerDisease, alreadySaved);
    CutIsFirst(os, target, maxPerDisease, alreadySaved);
    if k > 0 {
      SavedRowsStep(os, k - 1);
    }
  }

  /** A crawl saves at most `max(target, 0)` records in all. */
  lemma {:induction false} CrawlSavedBound(topics: seq<string>, target: int, maxPerDisease: int, web: Services)
    ensures |SavedRows(CrawlOutcomes(topics, target, maxPerDisease, web))| <= Cap(target)
    decreases |topics|
  {
    if topics != [] {
      var before := CrawlOutcomes(topics[..|topics| - 1], target, maxPerDisease, web);
      var os := TopicOutcomes(topics[|topics| - 1], maxPerDisease, web);
      CrawlSavedBound(topics[..|topics| - 1], target, maxPerDisease, web);
      CutBounds(os, target, maxPerDisease, |SavedRows(before)|);
      SavedRowsAppend(before, TopicPart(before, topics[|topics| - 1], target, maxPerDisease, web));
    }
  }

  /** Each topic saves at most `max(max_per_disease, 0)` records. */
  lemma TopicSavedBound(before: seq<Outcome>, disease: string, target: int, maxPerDisease: int, web: Services)
    ensures |SavedRows(TopicPart(before, disease, target, maxPerDisease, web))| <= Cap(maxPerDisease)
  {
    CutBounds(TopicOutcomes(disease, maxPerDisease, web), target, maxPerDisease, |SavedRows(before)|);
  }

  /** Where the topic scan stops short of the end, the target is met. */
  lemma {:induction false} TopicsFromStopsAtMet(diseases: seq<string>, target: int, maxPerDisease: int,
                                                web: Services, t: nat)
    requires t <= |diseases|
    ensures var r := TopicsFrom(diseases, target, maxPerDisease, web, t);
      r < |diseases| ==> |SavedRows(CrawlOutcomes(diseases[..r], target, maxPerDisease, web))| >= target
    decreases |diseases| - t
  {
    if t < |diseases| && |SavedRows(CrawlOutcomes(diseases[..t], target, maxPerDisease, web))| < target {
      TopicsFromStopsAtMet(diseases, target, maxPerDisease, web, t + 1);
    }
  }

  /** Every topic the scan passes over found the target unmet. */
  lemma {:induction false} TopicsFromPassesUnmet(diseases: seq<string>, target: int, maxPerDisease: int,
                                                 web: Services, t: nat)
    requires t <= |diseases|
    ensures var r := TopicsFrom(diseases, target, maxPerDisease, web, t);
      forall u :: t <= u < r ==> |SavedRows(CrawlOutcomes(diseases[..u], target, maxPerDisease, web))| < target
    decreases |diseases| - t
  {
    if t < |diseases| && |SavedRows(CrawlOutcomes(diseases[..t], target, maxPerDisease, web))| < target {
      TopicsFromPassesUnmet(diseases, target, maxPerDisease, web, t + 1);
    }
  }

  /** The outer loop stops before a topic once the target is reached ... */
  lemma TopicsFromStops(diseases: seq<string>, target: int, maxPerDisease: int, web: Services, t: nat)
    requires t <= |diseases|
    requires |SavedRows(CrawlOutcomes(diseases[..t], target, maxPerDisease, web))| >= target
    ensures TopicsFrom(diseases, target, maxPerDisease, web, t) == t
  {
  }

  /** ... and goes on to the next topic otherwise. */
  lemma TopicsFromGoesOn(diseases: seq<string>, target: int, maxPerDisease: int, web: Services, t: nat)
    requires t < |diseases|
    requires |SavedRows(CrawlOutcomes(diseases[..t], target, maxPerDisease, web))| < target
    ensures TopicsFrom(diseases, target, maxPerDisease, web, t) == TopicsFrom(diseases, target, maxPerDisease, web, t + 1)
  {
  }

  /** The crawl visits topics until the target is reached: every topic
      before the last one searched found the target unmet, and it stops
      before the end of the list only once the target is met. */
  lemma CrawlStopsAtTarget(diseases: seq<string>, target: int, maxPerDisease: int, web: Services)
    ensures var t := TopicsCrawled(diseases, target, maxPerDisease, web);
      t <= |diseases| &&
      (t < |diseases| ==> |SavedRows(CrawlOutcomes(diseases[..t], target, maxPerDisease, web))| >= target) &&
      forall u :: 0 <= u < t ==> |SavedRows(CrawlOutcomes(diseases[..u], target, maxPerDisease, web))| < target
  {
    TopicsFromStopsAtMet(diseases, target, maxPerDisease, web, 0);
    TopicsFromPassesUnmet(diseases, target, maxPerDisease, web, 0);
  }

  /** A target of zero or less searches no topic at all. */
  lemma NoTargetNoCrawl(diseases: seq<string>, target: int, maxPerDisease: int, web: Services)
    requires target <= 0
    ensures TopicsCrawled(diseases, target, maxPerDisease, web) == 0
  {
    assert diseases[..0] == [];
  }

  /** No more candidates are looked at than the searches returned. */
  lemma {:induction false} CrawlOutcomesSearched(topics: seq<string>, target: int, maxPerDisease: int, web: Services)
    ensures |CrawlOutcomes(topics, target, maxPerDisease, web)| <= Searched(web, maxPerDisease, topics)
    decreases |topics|
  {
    if topics != [] {
      CrawlOutcomesSearched(topics[..|topics| - 1], target, maxPerDisease, web);
    }
  }

  /** One more topic: its part of the outcomes, its search and its rows. */
  lemma CrawlStep(diseases: seq<string>, t: nat, target: int, maxPerDisease: int, web: Services)
    requires t < |diseases|
    ensures var before := CrawlOutcomes(diseases[..t], target, maxPerDisease, web);
      CrawlOutcomes(diseases[..t + 1], target, maxPerDisease, web) ==
        before + TopicPart(before, diseases[t], target, maxPerDisease, web) &&
      Searched(web, maxPerDisease, diseases[..t + 1]) ==
        Searched(web, maxPerDisease, diseases[..t]) + |TopicIds(diseases[t], maxPerDisease, web)|
  {
    assert diseases[..t + 1][..t] == diseases[..t];
  }

  /** A topic's candidates, tallied after the earlier topics' and after its
      search was counted, are the earlier and its own tallied together. */
  lemma TopicAdds(s0: Stats, before: seq<Outcome>, part: seq<Outcome>, n: nat, m: nat)
    ensures TallyAll(TallyAll(s0, before).(searched := n).(searched := n + m), part) ==
      TallyAll(s0, before + part).(searched := n + m)
  {
    TallyAllSearched(TallyAll(s0, before), part, n + m);
    TallyAllAppend(s0, before, part);
  }

  /** The counters agree with the rows: one saved row per `saved`, every
      saved or textless candidate was found, every found or unresolved
      candidate was searched, and every row passed the validation. */
  predicate Consistent(s: Stats, rows: seq<CaseRecord>) {
    s.saved == |rows| &&
    s.saved + s.noText <= s.found &&
    s.found + s.noPmc <= s.searched &&
    AllAccepted(rows)
  }

  /** The crawl's counters and rows, as `CrawlOutcomes` gives them, keep the
      crawler consistent. */
  lemma CrawlKeepsConsistent(s0: Stats, rows0: seq<CaseRecord>, topics: seq<string>,
                             target: int, maxPerDisease: int, web: Services)
    requires Consistent(s0, rows0)
    ensures var os := CrawlOutcomes(topics, target, maxPerDisease, web);
      Consistent(TallyAll(s0, os).(searched := s0.searched + Searched(web, maxPerDisease, topics)),
                 rows0 + SavedRows(os))
  {
    var os := CrawlOutcomes(topics, target, maxPerDisease, web);
    TallyAllCounted(s0, os);
    CrawlOutcomesSearched(topics, target, maxPerDisease, web);
    CrawlSavedOk(topics, target, maxPerDisease, web);
    SavedOkRows(os);
    AllAcceptedConcat(rows0, SavedRows(os));
  }

  /** One pass of the outer loop, on values: the topic's counters and rows
      as `CrawlTopic` leaves them extend those of the earlier topics to
      those of one more topic. */
  lemma {:induction false} CrawlAdvances(diseases: seq<string>, t: nat, target: int, maxPerDisease: int, web: Services,
                      s0: Stats, rows0: seq<CaseRecord>, done: seq<Outcome>, searched: nat,
                      s1: Stats, rows1: seq<CaseRecord>, s2: Stats, rows2: seq<CaseRecord>, diseaseSaved: nat)
    requires t < |diseases|
    requires done == CrawlOutcomes(diseases[..t], target, maxPerDisease, web)
    requires searched == Searched(web, maxPerDisease, diseases[..t])
    requires rows1 == rows0 + SavedRows(done)
    requires s1 == TallyAll(s0, done).(searched := s0.searched + searched)
    requires var os := TopicOutcomes(diseases[t], maxPerDisease, web);
      var part := os[..Cut(os, target, maxPerDisease, |SavedRows(done)|)];
      diseaseSaved == |SavedRows(part)| && rows2 == rows1 + SavedRows(part) &&
      s2 == TallyAll(s1.(searched := s1.searched + |os|), part)
    ensures var part := TopicPart(done, diseases[t], target, maxPerDisease, web);
      done + part == CrawlOutcomes(diseases[..t + 1], target, maxPerDisease, web) &&
      searched + |TopicIds(diseases[t], maxPerDisease, web)| == Searched(web, maxPerDisease, diseases[..t + 1]) &&
      |SavedRows(done)| + diseaseSaved == |SavedRows(done + part)| &&
      rows2 == rows0 + SavedRows(done + part) &&
      s2 == TallyAll(s0, done + part).(searched := s0.searched + searched + |TopicIds(diseases[t], maxPerDisease, web)|)
  {
    var part := TopicPart(done, diseases[t], target, maxPerDisease, web);
    CrawlStep(diseases, t, target, maxPerDisease, web);
    TopicAdds(s0, done, part, s0.searched + searched, |TopicIds(diseases[t], maxPerDisease, web)|);
    SavedRowsAppend(done, part);
    AppendAssociative(rows0, SavedRows(done), SavedRows(part));
  }

  class Crawler {
    const diseases: seq<string>
    var stats: Stats
    /** The records passed to `save_to_csv`, in order. */
    var rows: seq<CaseRecord>

    /** What every crawl keeps: the counters agree with the rows. */
    predicate Valid()
      reads this
    {
      Consistent(stats, rows)
    }

    constructor()
      ensures diseases == Diseases
      ensures stats == Stats(0, 0, 0, 0, 0) && rows == []
      ensures Valid()
    {
      diseases := Diseases;
      stats := Stats(0, 0, 0, 0, 0);
      rows := [];
    }

    /** `crawl(target, max_per_disease)`, with the web services `web`.
        Returns `total_saved`; `topics` is how many topics were searched.
        The new counters and rows are those of `CrawlOutcomes`, the
        candidates' outcomes topic after topic: one `Tally` per candidate
        looked at, one row per saved record, and every search counted. */
    method Crawl(target: int, maxPerDisease: int, web: Services)
      returns (totalSaved: int, ghost topics: nat)
      requires Valid()
      modifies this
      ensures Valid()
      ensures topics == TopicsCrawled(diseases, target, maxPerDisease, web)
      ensures var os := CrawlOutcomes(diseases[..topics], target, maxPerDisease, web);
        totalSaved == |SavedRows(os)| && rows == old(rows) + SavedRows(os) &&
        stats == TallyAll(old(stats), os).(searched := old(stats).searched +
                                                        Searched(web, maxPerDisease, diseases[..topics]))
    {
      totalSaved := 0;
      var idx: nat := 0;
      ghost var stats0, rows0 := stats, rows;
      ghost var done: seq<Outcome> := [];
      ghost var searched: nat := 0;
      while idx < |diseases|
        invariant idx <= |diseases|
        invariant TopicsCrawled(diseases, target, maxPerDisease, web) ==
          TopicsFrom(diseases, target, maxPerDisease, web, idx)
        invariant done == CrawlOutcomes(diseases[..idx], target, maxPerDisease, web)
        invariant searched == Searched(web, maxPerDisease, diseases[..idx])
        invariant totalSaved == |SavedRows(done)| && rows == rows0 + SavedRows(done)
        invariant stats == TallyAll(stats0, done).(searched := stats0.searched + searched)
        invariant AllAccepted(rows)
      {
        if totalSaved >= target {
          TopicsFromStops(diseases, target, maxPerDisease, web, idx);
          break;
        }
        TopicsFromGoesOn(diseases, target, maxPerDisease, web, idx);
        var diseaseSaved, part, found := VisitTopic(diseases, idx, target, maxPerDisease, web,
                                                    totalSaved, stats0, rows0, done, searched);
        done := done + part;
        searched := searched + found;
        totalSaved := totalSaved + diseaseSaved;
        idx := idx + 1;
      }
      topics := idx;
      CrawlKeepsConsistent(stats0, rows0, diseases[..topics], target, maxPerDisease, web);
    }

    /** One topic of the outer loop: its candidates are crawled from
        `totalSaved` rows on, and the counters and rows go from those of
        the topics before `idx` to those of the topics up to `idx`. */
    method VisitTopic(topics: seq<string>, idx: nat, target: int, maxPerDisease: int, web: Services,
                      totalSaved: int, ghost stats0: Stats, ghost rows0: seq<CaseRecord>,
                      ghost done: seq<Outcome>, ghost searched: nat)
      returns (diseaseSaved: nat, ghost part: seq<Outcome>, ghost found: nat)
      requires idx < |topics|
      requires done == CrawlOutcomes(topics[..idx], target, maxPerDisease, web)
      requires searched == Searched(web, maxPerDisease, topics[..idx])
      requires totalSaved == |SavedRows(done)| && rows == rows0 + SavedRows(done)
      requires stats == TallyAll(stats0, done).(searched := stats0.searched + searched)
      requires AllAccepted(rows)
      modifies this
      ensures done + part == CrawlOutcomes(topics[..idx + 1], target, maxPerDisease, web)
      ensures searched + found == Searched(web, maxPerDisease, topics[..idx + 1])
      ensures totalSaved + diseaseSaved == |SavedRows(done + part)| && rows == rows0 + SavedRows(done + part)
      ensures stats == TallyAll(stats0, done + part).(searched := stats0.searched + (searched + found))
      ensures AllAccepted(rows)
    {
      ghost var stats1, rows1 := stats, rows;
      diseaseSaved := CrawlTopic(topics[idx], target, maxPerDisease, totalSaved, web);
      part := TopicPart(done, topics[idx], target, maxPerDisease, web);
      found := |TopicIds(topics[idx], maxPerDisease, web)|;
      CrawlAdvances(topics, idx, target, maxPerDisease, web, stats0, rows0, done, searched,
                    stats1, rows1, stats, rows, diseaseSaved);
    }

    /** One topic of the outer loop: the search, its count in `searched`,
        and the candidate loop unless the search came back empty. */
    method CrawlTopic(disease: string, target: int, maxPerDisease: int, alreadySaved: int, web: Services)
      returns (diseaseSaved: nat)
      requires AllAccepted(rows)
      modifies this
      ensures var os := TopicOutcomes(disease, maxPerDisease, web);
        var part := os[..Cut(os, target, maxPerDisease, alreadySaved)];
        diseaseSaved == |SavedRows(part)| && rows == old(rows) + SavedRows(part) &&
        stats == TallyAll(old(stats).(searched := old(stats).searched + |os|), part)
      ensures AllAccepted(rows)
    {
      var pmids := web.search(SearchQuery(disease), maxPerDisease);
      stats := stats.(searched := stats.searched + |pmids|);
      if pmids == [] {
        return 0;
      }
      diseaseSaved := CrawlCandidates(disease, pmids, target, maxPerDisease, alreadySaved, web);
    }

    /** The candidate loop of one topic, entered with `alreadySaved` records
        saved so far; returns `disease_saved`. It looks at the candidates up
        to the first one before which the target or the topic's share is
        reached, and tallies each. */
    method CrawlCandidates(disease: string, pmids: seq<string>, target: int, maxPerDisease: int,
                           alreadySaved: int, web: Services)
      returns (diseaseSaved: nat)
      requires AllAccepted(rows)
      modifies this
      ensures var os := Outcomes(pmids, disease, web);
        var part := os[..Cut(os, target, maxPerDisease, alreadySaved)];
        diseaseSaved == |SavedRows(part)| && rows == old(rows) + SavedRows(part) &&
        stats == TallyAll(old(stats), part)
      ensures AllAccepted(rows)
    {
      diseaseSaved := 0;
      var totalSaved := alreadySaved;
      ghost var os := Outcomes(pmids, disease, web);
      ghost var stats1, rows1 := stats, rows;
      var i: nat := 0;
      while i < |pmids|
        invariant i <= |pmids|
        invariant Cut(os, target, maxPerDisease, alreadySaved) == CutFrom(os, target, maxPerDisease, alreadySaved, i)
        invariant diseaseSaved == |SavedRows(os[..i])| && totalSaved == alreadySaved + diseaseSaved
        invariant rows == rows1 + SavedRows(os[..i]) && stats == TallyAll(stats1, os[..i])
        invariant AllAccepted(rows)
      {
        if totalSaved >= target || diseaseSaved >= maxPerDisease {
          break;
        }
        var saved := VisitCandidate(disease, pmids, i, web, os, stats1, rows1);
        SavedRowsStep(os, i);
        if saved {
          diseaseSaved := diseaseSaved + 1;
          totalSaved := totalSaved + 1;
        }
        i := i + 1;
      }
    }

    /** One candidate of the inner loop: the `i`-th, after those whose
        outcomes are `os[..i]`. */
    method VisitCandidate(disease: string, pmids: seq<string>, i: nat, web: Services,
                          ghost os: seq<Outcome>, ghost stats1: Stats, ghost rows1: seq<CaseRecord>)
      returns (saved: bool)
      requires i < |pmids| && os == Outcomes(pmids, disease, web)
      requires rows == rows1 + SavedRows(os[..i]) && stats == TallyAll(stats1, os[..i])
      requires AllAccepted(rows)
      modifies this
      ensures saved == os[i].Saved?
      ensures rows == rows1 + SavedRows(os[..i + 1]) && stats == TallyAll(stats1, os[..i + 1])
      ensures AllAccepted(rows)
    {
      saved := ProcessCandidate(pmids[i], disease, web);
      OutcomeAt(pmids, disease, web, i);
      assert os[..i + 1] == os[..i] + [os[i]];
      CandidateStep(os[..i], os[i]);
    }

    /** One pass of the candidate loop: resolve the id, count it, and hand
        its document on. Returns whether a record was saved. */
    method ProcessCandidate(pmid: string, disease: string, web: Services)
      returns (saved: bool)
      requires AllAccepted(rows)
      modifies this
      ensures var o := CandidateOutcome(pmid, disease, web);
        saved == o.Saved? && stats == Tally(old(stats), o) &&
        rows == old(rows) + (if saved then [o.record] else [])
      ensures AllAccepted(rows)
    {
      ghost var o := CandidateOutcome(pmid, disease, web);
      var pmcid := web.resolve(pmid);
      if pmcid.None? || pmcid.value == "" {
        assert o == Unresolved;
        stats := stats.(noPmc := stats.noPmc + 1);
        return false;
      }
      assert o == DocumentOutcome(web.fetch(pmcid.value), pmid, pmcid.value, disease);
      stats := stats.(found := stats.found + 1);
      var xml := web.fetch(pmcid.value);
      saved := SaveDocument(xml, pmid, pmcid.value, disease);
    }

    /** The rest of the pass, once the id was found: without a document
        nothing is counted; otherwise the extraction, then `no_text` or the
        saved row and `saved`. */
    method SaveDocument(xml: FetchResult, pmid: string, pmcid: string, disease: string)
      returns (saved: bool)
      requires AllAccepted(rows)
      modifies this
      ensures var o := DocumentOutcome(xml, pmid, pmcid, disease);
        saved == o.Saved? &&
        stats == (if o.NoText? then old(stats).(noText := old(stats).noText + 1)
                  else if o.Saved? then old(stats).(saved := old(stats).saved + 1)
                  else old(stats)) &&
        rows == old(rows) + (if saved then [o.record] else [])
      ensures AllAccepted(rows)
    {
      if xml.NoDocument? {
        return false;
      }
      var caseData := ExtractRawClinicalData(xml.article, pmid, pmcid, disease);
      if caseData.None? {
        stats := stats.(noText := stats.noText + 1);
        return false;
      }
      AllAcceptedAppend(rows, caseData.value);
      rows := rows + [caseData.value];
      stats := stats.(saved := stats.saved + 1);
      saved := true;
    }
  }
}
