/** `extract_raw_clinical_data`: one parsed full-text article becomes one
    normalised case record, or nothing. */
module Extraction {
  import opened Wrappers
  import opened Text
  import opened ElementTree
  import opened FieldHeuristics

  // ---------------------------------------------------------------------------
  // The parsed article, as the extractor's lookups see it
  // ---------------------------------------------------------------------------

  /** The result of one `root.find(path)` together with the found element's `.text`. */
  datatype Found = Missing | Present(text: Option<string>)

  /** One author `contrib`: its `surname` and `given-names` lookups. */
  datatype Author = Author(surname: Found, givenNames: Found)

  /** One `sec` of the body: its `title` element and its `p` elements, in document order. */
  datatype Section = Section(title: Option<Elem>, paragraphs: seq<Elem>)

  /** What the extractor reads from a parsed article: the `article-title`
      element, the `pub-date` year, the `journal-title`, the author contribs,
      the DOI `article-id`, and the sections of the `body` when there is one. */
  datatype Article = Article(
    articleTitle: Option<Elem>,
    pubYear: Found,
    journalTitle: Found,
    authors: seq<Author>,
    doi: Found,
    body: Option<seq<Section>>)

  /** One output row (the `case_data` dictionary). Year, journal and DOI are
      an element's `.text`, which can be `None`. */
  datatype CaseRecord = CaseRecord(
    caseId: string, pmid: string, pmcid: string, disease: string, url: string,
    title: string, publicationYear: PyStr, journal: PyStr, authors: string, doi: PyStr,
    age: string, gender: string, chiefComplaint: string,
    symptoms: string, physicalExam: string, labResults: string, imaging: string,
    diagnosis: string, treatment: string, outcome: string,
    fullClinicalText: string)

  // ---------------------------------------------------------------------------
  // Identifiers and metadata
  // ---------------------------------------------------------------------------

  /** The case id: the topic with spaces made underscores, then the content id.
      The search id plays no part in it. */
  function CaseId(disease: string, pmcid: string): string {
    ReplaceChar(disease, ' ', '_') + "_" + pmcid
  }

  function PmcLabel(pmcid: string): string {
    "PMC" + pmcid
  }

  const UrlPrefix := "https://www.ncbi.nlm.nih.gov/pmc/articles/PMC"

  function ArticleUrl(pmcid: string): string {
    UrlPrefix + pmcid + "/"
  }

  /** `elem.text if elem is not None else ''`. */
  function FoundText(f: Found): PyStr {
    match f
    case Missing => Str("")
    case Present(None) => PyNone
    case Present(Some(t)) => Str(t)
  }

  /** The same article under two different topics gets two different case
      ids, as long as neither topic contains an underscore. */
  lemma CaseIdSeparatesTopics(d1: string, d2: string, pmcid: string)
    requires d1 != d2
    requires forall k :: 0 <= k < |d1| ==> d1[k] != '_'
    requires forall k :: 0 <= k < |d2| ==> d2[k] != '_'
    ensures CaseId(d1, pmcid) != CaseId(d2, pmcid)
  {
    var r1, r2 := ReplaceChar(d1, ' ', '_'), ReplaceChar(d2, ' ', '_');
    if |d1| == |d2| {
      var k :| 0 <= k < |d1| && d1[k] != d2[k];
      assert CaseId(d1, pmcid)[k] == r1[k];
      assert CaseId(d2, pmcid)[k] == r2[k];
    } else {
      assert |CaseId(d1, pmcid)| != |CaseId(d2, pmcid)|;
    }
  }

  /** A topic name as the crawl uses them: no underscore, and no whitespace
      but the plain space. */
  predicate TopicName(d: string) {
    forall k :: 0 <= k < |d| ==> d[k] != '_' && (IsSpace(d[k]) ==> d[k] == ' ')
  }

  /** Such a topic and a content id without whitespace give a case id
      that the clean-up leaves as it is. */
  lemma CaseIdIsClean(d: string, pmcid: string)
    requires TopicName(d) && NoSpace(pmcid)
    ensures Normalize(CaseId(d, pmcid)) == CaseId(d, pmcid)
  {
    var r := ReplaceChar(d, ' ', '_');
    assert NoSpace(r);
    assert NoSpace("_");
    NoSpaceAppend(r, "_");
    NoSpaceAppend(r + "_", pmcid);
    assert CaseId(d, pmcid)[|r|] == '_';
    NormalizeWord(CaseId(d, pmcid));
  }

  /** The case ids a record carries, after the clean-up, still tell two
      topics apart. */
  lemma CleanCaseIdSeparatesTopics(d1: string, d2: string, pmcid: string)
    requires d1 != d2 && TopicName(d1) && TopicName(d2) && NoSpace(pmcid)
    ensures Normalize(CaseId(d1, pmcid)) != Normalize(CaseId(d2, pmcid))
  {
    CaseIdIsClean(d1, pmcid);
    CaseIdIsClean(d2, pmcid);
    CaseIdSeparatesTopics(d1, d2, pmcid);
  }

  /** One author's name: `surname.text`, then `' ' + given.text` when there is
      a given-names element. `None` when that concatenation raises (the
      surname element has no text but a given-names element exists);
      `Some(PyNone)` when the name is the surname's missing text itself. */
  function AuthorName(a: Author): Option<PyStr>
    requires a.surname.Present?
  {
    match (a.surname.text, a.givenNames)
    case (None, Present(_)) => None
    case (None, Missing) => Some(PyNone)
    case (Some(sn), Missing) => Some(Str(sn))
    case (Some(sn), Present(g)) =>
      // an f-string renders a missing given name as 'None'
      Some(Str(sn + " " + (if g.Some? then g.value else "None")))
  }

  /** The `authors` list after the first `k` author contribs, or `None` once a
      name has raised. Contribs without a surname are skipped. */
  function AuthorNames(authors: seq<Author>): Option<seq<PyStr>>
    decreases |authors|
  {
    if authors == [] then Some([])
    else
      match AuthorNames(authors[..|authors| - 1])
      case None => None
      case Some(names) =>
        var a := authors[|authors| - 1];
        if a.surname.Missing? then Some(names)
        else match AuthorName(a)
          case None => None
          case Some(n) => Some(names + [n])
  }

  predicate AllStr(names: seq<PyStr>) {
    forall i :: 0 <= i < |names| ==> names[i].Str?
  }

  function Strs(names: seq<PyStr>): (r: seq<string>)
    requires AllStr(names)
    ensures |r| == |names| && forall i :: 0 <= i < |names| ==> r[i] == names[i].s
  {
    if names == [] then [] else [names[0].s] + Strs(names[1..])
  }

  /** `'; '.join(authors[:5]) if authors else ''`: `None` when one of the first
      five names is `None` (the join raises). */
  function AuthorsField(names: seq<PyStr>): Option<string> {
    var first := Take5(names);
    if names == [] then Some("")
    else if AllStr(first) then Some(Join(Strs(first), "; "))
    else None
  }

  function Take5(names: seq<PyStr>): (r: seq<PyStr>)
    ensures |r| == if |names| < 5 then |names| else 5
    ensures r == names[..|r|]
  {
    if |names| <= 5 then names else names[..5]
  }

  // ---------------------------------------------------------------------------
  // Section classification
  // ---------------------------------------------------------------------------

  datatype Category =
    Presentation | Symptoms | PhysicalExam | Labs | Imaging | Diagnosis | Treatment | Outcome

  /** The keyword list of each category (the lists overlap in what they can match). */
  function Keywords(c: Category): seq<string> {
    match c
    case Presentation => ["case", "patient", "presentation", "history"]
    case Symptoms => ["symptom", "sign", "clinical feature", "manifestation"]
    case PhysicalExam => ["physical exam", "examination"]
    case Labs => ["lab", "laboratory", "blood test", "investigation"]
    case Imaging => ["imaging", "radiology", "x-ray", "ct", "mri"]
    case Diagnosis => ["diagnosis", "diagnostic"]
    case Treatment => ["treatment", "management", "therapy"]
    case Outcome => ["outcome", "follow", "recovery", "prognosis"]
  }

  /** `any(kw in title for kw in kws)`. */
  predicate AnyIn(title: string, kws: seq<string>)
    decreases |kws|
  {
    kws != [] && (Contains(title, kws[0]) || AnyIn(title, kws[1..]))
  }

  lemma {:induction false} AnyInIff(title: string, kws: seq<string>)
    ensures AnyIn(title, kws) <==> exists i :: 0 <= i < |kws| && Contains(title, kws[i])
    decreases |kws|
  {
    if kws != [] {
      AnyInIff(title, kws[1..]);
      if AnyIn(title, kws[1..]) {
        var i :| 0 <= i < |kws[1..]| && Contains(title, kws[1..][i]);
        assert kws[i + 1] == kws[1..][i];
      }
      if exists i :: 0 <= i < |kws| && Contains(title, kws[i]) {
        var i :| 0 <= i < |kws| && Contains(title, kws[i]);
        if i > 0 {
          assert kws[1..][i - 1] == kws[i];
        }
      }
    }
  }

  /** The keyword test of category `c`. */
  predicate Matches(title: string, c: Category) {
    AnyIn(title, Keywords(c))
  }

  /** A title passes a category's test exactly when one of its keywords occurs in it. */
  lemma MatchesIff(title: string, c: Category)
    ensures Matches(title, c) <==> exists i :: 0 <= i < |Keywords(c)| && Contains(title, Keywords(c)[i])
  {
    AnyInIff(title, Keywords(c));
  }

  /** The eight tests in the order the code makes them. */
  const Categories: seq<Category> :=
    [Presentation, Symptoms, PhysicalExam, Labs, Imaging, Diagnosis, Treatment, Outcome]

  function Ordinal(c: Category): (k: nat)
    ensures k < |Categories| && Categories[k] == c
  {
    match c
    case Presentation => 0
    case Symptoms => 1
    case PhysicalExam => 2
    case Labs => 3
    case Imaging => 4
    case Diagnosis => 5
    case Treatment => 6
    case Outcome => 7
  }

  /** The categories of `cats` whose test `title` passes, in the order of `cats`. */
  function Filter(title: string, cats: seq<Category>): seq<Category>
    decreases |cats|
  {
    if cats == [] then []
    else
      var c := cats[|cats| - 1];
      Filter(title, cats[..|cats| - 1]) + (if Matches(title, c) then [c] else [])
  }

  /** The categories a lower-cased section title falls in, in the order the
      code tests them. */
  function Classify(title: string): seq<Category> {
    Filter(title, Categories)
  }

  lemma {:induction false} FilterMembers(title: string, cats: seq<Category>)
    ensures forall c :: c in Filter(title, cats) <==> c in cats && Matches(title, c)
    decreases |cats|
  {
    if cats != [] {
      var init := cats[..|cats| - 1];
      FilterMembers(title, init);
      assert cats == init + [cats[|cats| - 1]];
    }
  }

  /** A title falls in a category exactly when the category's test passes. */
  lemma ClassifyMembers(title: string)
    ensures forall c :: c in Classify(title) <==> Matches(title, c)
  {
    FilterMembers(title, Categories);
    forall c: Category ensures c in Categories {
      assert Categories[Ordinal(c)] == c;
    }
  }

  // ---------------------------------------------------------------------------
  // Per-section work
  // ---------------------------------------------------------------------------

  /** The lower-cased flattened title, `''` when the section has none. */
  function SectionTitle(sec: Section): string {
    if sec.title.Some? then Lower(Flat(sec.title.value)) else ""
  }

  /** The flattened paragraphs, in order. */
  function Flats(ps: seq<Elem>): (ts: seq<string>)
    ensures |ts| == |ps| && forall i :: 0 <= i < |ps| ==> ts[i] == Flat(ps[i])
    decreases |ps|
  {
    if ps == [] then []
    else
      var init := ps[..|ps| - 1];
      assert forall i :: 0 <= i < |init| ==> init[i] == ps[i];
      Flats(init) + [Flat(ps[|ps| - 1])]
  }

  /** The texts longer than 20 characters, in order. */
  function Kept(ts: seq<string>): (r: seq<string>)
    ensures forall i :: 0 <= i < |r| ==> |r[i]| > 20
    decreases |ts|
  {
    if ts == [] then []
    else
      var t := ts[|ts| - 1];
      Kept(ts[..|ts| - 1]) + (if |t| > 20 then [t] else [])
  }

  /** `full_section`: the kept paragraphs joined with single spaces. */
  function SectionText(sec: Section): string {
    Join(Kept(Flats(sec.paragraphs)), " ")
  }

  /** The accumulators of the section loop: the three singular fields, the
      seven category blobs, and `all_clinical_text`. */
  datatype Accum = Accum(
    age: string, gender: string, chief: string,
    symptoms: string, exam: string, labs: string, imaging: string,
    diagnosis: string, treatment: string, outcome: string,
    clinical: seq<string>)

  const Start := Accum("", "", "", "", "", "", "", "", "", "", [])

  /** The blob of a category other than presentation. */
  function Blob(a: Accum, c: Category): string
    requires c != Presentation
  {
    match c
    case Symptoms => a.symptoms
    case PhysicalExam => a.exam
    case Labs => a.labs
    case Imaging => a.imaging
    case Diagnosis => a.diagnosis
    case Treatment => a.treatment
    case Outcome => a.outcome
  }

  /** A presentation section: it joins `all_clinical_text`, and it fills the
      age, the gender and the chief complaint where they are still empty. */
  function FillPresentation(a: Accum, text: string): Accum {
    a.(clinical := a.clinical + [text],
       age := if a.age == "" then Age(text) else a.age,
       gender := if a.gender == "" then FindGender(text) else a.gender,
       chief := if a.chief == "" then Take(text, 5000) else a.chief)
  }

  /** A section of category `c` (not presentation): `blob += ' ' + text`, and
      the text joins `all_clinical_text` once more. */
  function AddTo(a: Accum, c: Category, text: string): Accum
    requires c != Presentation
  {
    var b := Blob(a, c) + " " + text;
    var a' := a.(clinical := a.clinical + [text]);
    match c
    case Symptoms => a'.(symptoms := b)
    case PhysicalExam => a'.(exam := b)
    case Labs => a'.(labs := b)
    case Imaging => a'.(imaging := b)
    case Diagnosis => a'.(diagnosis := b)
    case Treatment => a'.(treatment := b)
    case Outcome => a'.(outcome := b)
  }

  /** The work one test does when it succeeds. */
  function Apply(a: Accum, c: Category, text: string): Accum {
    if c == Presentation then FillPresentation(a, text) else AddTo(a, c, text)
  }

  /** One keyword test: its work when the title matches, nothing otherwise. */
  function Test(a: Accum, title: string, c: Category, text: string): Accum {
    if Matches(title, c) then Apply(a, c, text) else a
  }

  /** One iteration of the section loop: nothing for an empty section text,
      otherwise the eight tests in the code's order. */
  function Step(a: Accum, title: string, text: string): Accum {
    if text == "" then a
    else
      var a1 := Test(a, title, Presentation, text);
      var a2 := Test(a1, title, Symptoms, text);
      var a3 := Test(a2, title, PhysicalExam, text);
      var a4 := Test(a3, title, Labs, text);
      var a5 := Test(a4, title, Imaging, text);
      var a6 := Test(a5, title, Diagnosis, text);
      var a7 := Test(a6, title, Treatment, text);
      Test(a7, title, Outcome, text)
  }

  /** The accumulators after the section loop has run over `secs`. */
  function Fold(secs: seq<Section>): Accum
    decreases |secs|
  {
    if secs == [] then Start
    else
      var last := secs[|secs| - 1];
      Step(Fold(secs[..|secs| - 1]), SectionTitle(last), SectionText(last))
  }

  // ---------------------------------------------------------------------------
  // The record
  // ---------------------------------------------------------------------------

  function NormalizePy(v: PyStr): PyStr {
    match v
    case PyNone => PyNone
    case Str(s) => Str(Normalize(s))
  }

  /** The clean-up loop: `' '.join(v.split())` on every string value. */
  function NormalizeRecord(r: CaseRecord): CaseRecord {
    CaseRecord(
      Normalize(r.caseId), Normalize(r.pmid), Normalize(r.pmcid), Normalize(r.disease), Normalize(r.url),
      Normalize(r.title), NormalizePy(r.publicationYear), NormalizePy(r.journal),
      Normalize(r.authors), NormalizePy(r.doi),
      Normalize(r.age), Normalize(r.gender), Normalize(r.chiefComplaint),
      Normalize(r.symptoms), Normalize(r.physicalExam), Normalize(r.labResults), Normalize(r.imaging),
      Normalize(r.diagnosis), Normalize(r.treatment), Normalize(r.outcome),
      Normalize(r.fullClinicalText))
  }

  /** The accumulators after the section loop; the loop does not run without a body. */
  function BodyAccum(root: Article): Accum {
    if root.body.Some? then Fold(root.body.value) else Start
  }

  /** The record before clean-up. */
  function RawRecord(root: Article, pmid: string, pmcid: string, disease: string, authors: string): CaseRecord {
    var acc := BodyAccum(root);
    CaseRecord(
      CaseId(disease, pmcid), pmid, PmcLabel(pmcid), disease, ArticleUrl(pmcid),
      if root.articleTitle.Some? then Flat(root.articleTitle.value) else "",
      FoundText(root.pubYear), FoundText(root.journalTitle), authors, FoundText(root.doi),
      acc.age, acc.gender, acc.chief,
      acc.symptoms, acc.exam, acc.labs, acc.imaging, acc.diagnosis, acc.treatment, acc.outcome,
      Join(acc.clinical, " "))
  }

  /** `extract_raw_clinical_data(xml, pmid, pmcid, disease)`; `article` is
      `None` when the XML does not parse. The exceptions the model knows of
      (an unparsable document, an author name that cannot be concatenated)
      give `None`, and so does a full clinical text shorter than 100
      characters. */
  function Extract(article: Option<Article>, pmid: string, pmcid: string, disease: string): Option<CaseRecord> {
    if article.None? then None
    else
      var root := article.value;
      match AuthorsOf(root)
      case None => None
      case Some(authors) => Gate(NormalizeRecord(RawRecord(root, pmid, pmcid, disease, authors)))
  }

  /** The `authors` value, or `None` when computing it raises. */
  function AuthorsOf(root: Article): Option<string> {
    match AuthorNames(root.authors)
    case None => None
    case Some(names) => AuthorsField(names)
  }

  /** The final validation: a cleaned record with less than 100 characters of
      clinical text is dropped. */
  function Gate(rec: CaseRecord): Option<CaseRecord> {
    if |rec.fullClinicalText| < 100 then None else Some(rec)
  }

  /** A value's text for the clean-up check: `None` has none. */
  function PyText(v: PyStr): string {
    match v
    case PyNone => ""
    case Str(s) => s
  }

  /** The record's string values, in column order. */
  function Values(r: CaseRecord): seq<string> {
    [r.caseId, r.pmid, r.pmcid, r.disease, r.title, PyText(r.publicationYear), PyText(r.journal),
     r.authors, PyText(r.doi), r.age, r.gender, r.chiefComplaint, r.symptoms, r.physicalExam,
     r.labResults, r.imaging, r.diagnosis, r.treatment, r.outcome, r.fullClinicalText, r.url]
  }

  /** Every string value of the record is whitespace-normalised. */
  predicate AllNormal(r: CaseRecord) {
    forall v :: v in Values(r) ==> Normal(v)
  }

  /** A record the validation lets through: cleaned, with at least 100
      characters of clinical text. */
  predicate Accepted(r: CaseRecord) {
    |r.fullClinicalText| >= 100 && AllNormal(r)
  }

  // ---------------------------------------------------------------------------
  // The extractor as the source writes it
  // ---------------------------------------------------------------------------

  /** `extract_raw_clinical_data(xml, pmid, pmcid, disease)`, as the source
      writes it: the metadata lookups, the author loop, the section loop with
      its paragraph loop and eight keyword tests, the clean-up and the gate.
      `article` is `None` when the XML does not parse. */
  method ExtractRawClinicalData(article: Option<Article>, pmid: string, pmcid: string, disease: string)
    returns (r: Option<CaseRecord>)
    ensures r == Extract(article, pmid, pmcid, disease)
    ensures r.Some? ==> Accepted(r.value)
  {
    if article.None? {
      return None;
    }
    var root := article.value;

    var title := "";
    if root.articleTitle.Some? {
      title := ExtractTextRecursive(root.articleTitle.value);
    }

    var found := CollectAuthors(root.authors);
    if found.None? {
      return None;
    }
    var names := found.value;
    var authors := "";
    if names != [] {
      var first := Take5(names);
      if !AllStr(first) {
        return None;
      }
      authors := Join(Strs(first), "; ");
    }
    assert AuthorsField(names) == Some(authors);

    var acc := Start;
    if root.body.Some? {
      acc := ScanSections(root.body.value);
    }
    assert acc == BodyAccum(root);

    var caseData := CaseRecord(
      CaseId(disease, pmcid), pmid, PmcLabel(pmcid), disease, ArticleUrl(pmcid),
      title, FoundText(root.pubYear), FoundText(root.journalTitle), authors, FoundText(root.doi),
      acc.age, acc.gender, acc.chief,
      acc.symptoms, acc.exam, acc.labs, acc.imaging, acc.diagnosis, acc.treatment, acc.outcome,
      Join(acc.clinical, " "));
    assert caseData == RawRecord(root, pmid, pmcid, disease, authors);
    assert Extract(article, pmid, pmcid, disease) == Gate(NormalizeRecord(caseData));
    CleanRecord(caseData);
    caseData := NormalizeRecord(caseData);
    if |caseData.fullClinicalText| < 100 {
      return None;
    }
    return Some(caseData);
  }

  /** The section loop over `body.findall('.//sec')`. */
  method ScanSections(secs: seq<Section>) returns (acc: Accum)
    ensures acc == Fold(secs)
  {
    acc := Start;
    for s := 0 to |secs|
      invariant acc == Fold(secs[..s])
    {
      assert secs[..s + 1][..s] == secs[..s];
      var sectionTitle, fullSection := ReadSection(secs[s]);
      if fullSection == "" {
        continue;
      }
      acc := ClassifySection(acc, sectionTitle, fullSection);
    }
    assert secs[..|secs|] == secs;
  }

  /** The author loop: `None` when building a name raises. */
  method CollectAuthors(authors: seq<Author>) returns (names: Option<seq<PyStr>>)
    ensures names == AuthorNames(authors)
  {
    var list: seq<PyStr> := [];
    for i := 0 to |authors|
      invariant AuthorNames(authors[..i]) == Some(list)
    {
      var author := authors[i];
      assert authors[..i + 1][..i] == authors[..i];
      if author.surname.Present? {
        var name: PyStr := if author.surname.text.Some? then Str(author.surname.text.value) else PyNone;
        if author.givenNames.Present? {
          if name.PyNone? {
            assert AuthorNames(authors[..i + 1]) == None;
            AuthorNamesFailureSticks(authors, i + 1);
            return None;
          }
          var given := author.givenNames.text;
          name := Str(name.s + " " + (if given.Some? then given.value else "None"));
        }
        list := list + [name];
      }
    }
    assert authors[..|authors|] == authors;
    return Some(list);
  }

  /** A section's lower-cased title and its `full_section` text. */
  method ReadSection(sec: Section) returns (title: string, text: string)
    ensures title == SectionTitle(sec)
    ensures text == SectionText(sec)
  {
    title := "";
    if sec.title.Some? {
      var t := ExtractTextRecursive(sec.title.value);
      title := Lower(t);
    }
    var sectionText: seq<string> := [];
    var ps := sec.paragraphs;
    ghost var texts := Flats(ps);
    for j := 0 to |ps|
      invariant sectionText == Kept(texts[..j])
    {
      assert texts[..j + 1][..j] == texts[..j];
      var pText := ExtractTextRecursive(ps[j]);
      if |pText| > 20 {
        sectionText := sectionText + [pText];
      }
    }
    assert texts[..|ps|] == texts;
    text := Join(sectionText, " ");
  }

  /** The eight keyword tests on a non-empty section text, one after the other. */
  method ClassifySection(acc: Accum, title: string, text: string) returns (r: Accum)
    requires text != ""
    ensures r == Step(acc, title, text)
  {
    r := RunTest(acc, title, Presentation, text);
    r := RunTest(r, title, Symptoms, text);
    r := RunTest(r, title, PhysicalExam, text);
    r := RunTest(r, title, Labs, text);
    r := RunTest(r, title, Imaging, text);
    r := RunTest(r, title, Diagnosis, text);
    r := RunTest(r, title, Treatment, text);
    r := RunTest(r, title, Outcome, text);
  }

  /** `if any(kw in section_title for kw in Keywords(c)): ...` */
  method RunTest(acc: Accum, title: string, c: Category, text: string) returns (r: Accum)
    ensures r == Test(acc, title, c, text)
  {
    r := acc;
    if Matches(title, c) {
      if c == Presentation {
        r := PresentationSection(acc, text);
      } else {
        r := AddTo(acc, c, text);
      }
    }
  }

  /** The presentation test's branch: the text joins `all_clinical_text`, and
      age, gender and chief complaint are filled where still empty. */
  method PresentationSection(acc: Accum, text: string) returns (r: Accum)
    ensures r == FillPresentation(acc, text)
  {
    r := acc.(clinical := acc.clinical + [text]);
    if r.age == "" {
      var age := FindAge(text);
      if age != "" {
        r := r.(age := age);
      }
    }
    if r.gender == "" {
      var gender := FindGender(text);
      if gender != "" {
        r := r.(gender := gender);
      }
    }
    if r.chief == "" {
      r := r.(chief := Take(text, 5000));
    }
  }

  // ---------------------------------------------------------------------------
  // Properties
  // ---------------------------------------------------------------------------

  /** After clean-up every string value of the record is whitespace-normalised,
      and a second clean-up would change nothing. */
  lemma CleanRecord(r: CaseRecord)
    ensures AllNormal(NormalizeRecord(r))
    ensures NormalizeRecord(NormalizeRecord(r)) == NormalizeRecord(r)
  {
    CleanString(r.caseId); CleanString(r.pmid); CleanString(r.pmcid); CleanString(r.disease);
    CleanString(r.url); CleanString(r.title); CleanPy(r.publicationYear); CleanPy(r.journal);
    CleanString(r.authors); CleanPy(r.doi); CleanString(r.age); CleanString(r.gender);
    CleanString(r.chiefComplaint); CleanString(r.symptoms); CleanString(r.physicalExam);
    CleanString(r.labResults); CleanString(r.imaging); CleanString(r.diagnosis);
    CleanString(r.treatment); CleanString(r.outcome); CleanString(r.fullClinicalText);
    AllNormalIntro(NormalizeRecord(r));
  }

  lemma AllNormalIntro(r: CaseRecord)
    requires Normal(r.caseId) && Normal(r.pmid) && Normal(r.pmcid) && Normal(r.disease)
    requires Normal(r.title) && Normal(PyText(r.publicationYear)) && Normal(PyText(r.journal))
    requires Normal(r.authors) && Normal(PyText(r.doi)) && Normal(r.age) && Normal(r.gender)
    requires Normal(r.chiefComplaint) && Normal(r.symptoms) && Normal(r.physicalExam)
    requires Normal(r.labResults) && Normal(r.imaging) && Normal(r.diagnosis)
    requires Normal(r.treatment) && Normal(r.outcome) && Normal(r.fullClinicalText) && Normal(r.url)
    ensures AllNormal(r)
  {
  }

  lemma CleanString(s: string)
    ensures Normal(Normalize(s)) && Normalize(Normalize(s)) == Normalize(s)
  {
    NormalizeIsNormal(s);
    NormalizeIdempotent(s);
  }

  lemma CleanPy(v: PyStr)
    ensures Normal(PyText(NormalizePy(v))) && NormalizePy(NormalizePy(v)) == NormalizePy(v)
  {
    if v.Str? {
      CleanString(v.s);
    }
  }

  /** Once a name has raised, the author loop's outcome stays an exception. */
  lemma {:induction false} AuthorNamesFailureSticks(authors: seq<Author>, i: nat)
    requires i <= |authors|
    requires AuthorNames(authors[..i]) == None
    ensures AuthorNames(authors) == None
    decreases |authors| - i
  {
    if i < |authors| {
      assert authors[..i + 1][..i] == authors[..i];
      AuthorNamesFailureSticks(authors, i + 1);
    } else {
      assert authors[..i] == authors;
    }
  }

  /** An author contrib whose name building raises: a surname element without
      text together with a given-names element. */
  predicate Raises(a: Author) {
    a.surname == Present(None) && a.givenNames.Present?
  }

  /** The author loop raises exactly when some contrib raises. */
  lemma {:induction false} AuthorNamesFailIff(authors: seq<Author>)
    ensures AuthorNames(authors).None? <==> exists i :: 0 <= i < |authors| && Raises(authors[i])
    decreases |authors|
  {
    if authors != [] {
      var init := authors[..|authors| - 1];
      var last := authors[|authors| - 1];
      AuthorNamesFailIff(init);
      if exists i :: 0 <= i < |init| && Raises(init[i]) {
        var i :| 0 <= i < |init| && Raises(init[i]);
        assert authors[i] == init[i];
      }
      if exists i :: 0 <= i < |authors| && Raises(authors[i]) {
        var i :| 0 <= i < |authors| && Raises(authors[i]);
        if i < |init| {
          assert init[i] == authors[i];
        }
      }
    }
  }

  /** The last contrib with a surname contributes the last name; contribs
      without a surname contribute nothing. */
  lemma AuthorNamesSnoc(authors: seq<Author>, a: Author)
    ensures a.surname.Missing? ==> AuthorNames(authors + [a]) == AuthorNames(authors)
    ensures a.surname.Present? && !Raises(a) && AuthorNames(authors).Some? ==>
      AuthorNames(authors + [a]) == Some(AuthorNames(authors).value + [AuthorName(a).value])
  {
    assert (authors + [a])[..|authors|] == authors;
  }

  /** The outcome of the extractor: a record exactly when the XML parsed, the
      authors could be joined, and the cleaned clinical text has at least 100
      characters; the record's identifiers and clinical text are then the
      cleaned forms of those the code builds. */
  lemma ExtractOutcome(article: Option<Article>, pmid: string, pmcid: string, disease: string)
    ensures Extract(article, pmid, pmcid, disease).Some? <==>
      article.Some? && AuthorsOf(article.value).Some? &&
      |Normalize(Join(BodyAccum(article.value).clinical, " "))| >= 100
  {
  }

  /** A record that comes out carries the cleaned identifiers and clinical
      text, passes validation, and is unchanged by a second clean-up. */
  lemma ExtractedRecord(article: Option<Article>, pmid: string, pmcid: string, disease: string)
    requires Extract(article, pmid, pmcid, disease).Some?
    ensures var rec := Extract(article, pmid, pmcid, disease).value;
      rec.caseId == Normalize(CaseId(disease, pmcid)) &&
      rec.pmcid == Normalize(PmcLabel(pmcid)) &&
      rec.url == Normalize(ArticleUrl(pmcid)) &&
      rec.fullClinicalText == Normalize(Join(BodyAccum(article.value).clinical, " ")) &&
      Accepted(rec) && NormalizeRecord(rec) == rec
  {
    var raw := RawRecord(article.value, pmid, pmcid, disease, AuthorsOf(article.value).value);
    assert Extract(article, pmid, pmcid, disease) == Gate(NormalizeRecord(raw));
    CleanRecord(raw);
  }

  /** A record that comes out has an age that is `''` or `str(n)` for some
      `0 < n < 120`, and a gender that is `'Male'`, `'Female'` or `''`. */
  lemma ExtractedAgeGender(article: Option<Article>, pmid: string, pmcid: string, disease: string)
    requires Extract(article, pmid, pmcid, disease).Some?
    ensures var rec := Extract(article, pmid, pmcid, disease).value;
      AgeValue(rec.age) && GenderValue(rec.gender)
  {
    var root := article.value;
    var acc := BodyAccum(root);
    if root.body.Some? {
      FoldSingulars(root.body.value);
      FirstAgeValue(PresentationTexts(root.body.value));
      FirstGenderValue(PresentationTexts(root.body.value));
    }
    AgeValueClean(acc.age);
    GenderValueClean(acc.gender);
    var raw := RawRecord(root, pmid, pmcid, disease, AuthorsOf(root).value);
    assert Extract(article, pmid, pmcid, disease) == Gate(NormalizeRecord(raw));
  }

  /** For a content id without whitespace (the E-utilities ids are digit
      strings) the clean-up leaves the tag and the URL as built. */
  lemma IdentifiersSurviveCleanup(pmcid: string)
    requires NoSpace(pmcid)
    ensures Normalize(PmcLabel(pmcid)) == "PMC" + pmcid
    ensures Normalize(ArticleUrl(pmcid)) == UrlPrefix + pmcid + "/"
  {
    UrlPrefixNoSpace();
    assert NoSpace("/") && NoSpace("PMC");
    NoSpaceAppend(UrlPrefix, pmcid);
    NoSpaceAppend(UrlPrefix + pmcid, "/");
    NoSpaceAppend("PMC", pmcid);
    NormalizeWord(PmcLabel(pmcid));
    NormalizeWord(ArticleUrl(pmcid));
  }

  /** Checked eight characters at a time, which keeps the proof small. */
  lemma UrlPrefixNoSpace()
    ensures NoSpace(UrlPrefix)
  {
    var c1, c2, c3, c4, c5, c6 := "https://", "www.ncbi", ".nlm.nih", ".gov/pmc", "/article", "s/PMC";
    UrlPrefixChunks();
    ChunksNoSpace();
    NoSpaceAppend(c1, c2);
    NoSpaceAppend(c1 + c2, c3);
    NoSpaceAppend(c1 + c2 + c3, c4);
    NoSpaceAppend(c1 + c2 + c3 + c4, c5);
    NoSpaceAppend(c1 + c2 + c3 + c4 + c5, c6);
  }

  lemma UrlPrefixChunks()
    ensures UrlPrefix == "https://" + "www.ncbi" + ".nlm.nih" + ".gov/pmc" + "/article" + "s/PMC"
  {
  }

  lemma ChunksNoSpace()
    ensures NoSpace("https://") && NoSpace("www.ncbi") && NoSpace(".nlm.nih")
    ensures NoSpace(".gov/pmc") && NoSpace("/article") && NoSpace("s/PMC")
  {
  }

  // --- paragraphs ---

  /** A section contributes no text exactly when none of its paragraphs is
      longer than 20 characters once flattened. */
  lemma SectionTextEmptyIff(sec: Section)
    ensures SectionText(sec) == "" <==>
      forall i :: 0 <= i < |sec.paragraphs| ==> |Flat(sec.paragraphs[i])| <= 20
  {
    var kept := Kept(Flats(sec.paragraphs));
    KeptEmptyIff(Flats(sec.paragraphs));
    if kept != [] {
      JoinStartsWithFirst(kept, " ");
    }
  }

  lemma {:induction false} KeptEmptyIff(ts: seq<string>)
    ensures Kept(ts) == [] <==> forall i :: 0 <= i < |ts| ==> |ts[i]| <= 20
    decreases |ts|
  {
    if ts != [] {
      var init := ts[..|ts| - 1];
      KeptEmptyIff(init);
      assert forall i :: 0 <= i < |init| ==> init[i] == ts[i];
    }
  }

  /** The kept texts are exactly the texts longer than 20 characters. */
  lemma {:induction false} KeptMembers(ts: seq<string>)
    ensures forall t :: t in Kept(ts) <==> t in ts && |t| > 20
    decreases |ts|
  {
    if ts != [] {
      var init := ts[..|ts| - 1];
      KeptMembers(init);
      assert ts == init + [ts[|ts| - 1]];
    }
  }

  // --- one iteration of the section loop ---

  lemma TestClinical(a: Accum, title: string, c: Category, text: string)
    ensures Test(a, title, c, text).clinical == a.clinical + (if Matches(title, c) then [text] else [])
  {
  }

  lemma FilterSnoc(title: string, cats: seq<Category>, c: Category)
    ensures |Filter(title, cats + [c])| == |Filter(title, cats)| + Passes(title, c)
  {
    assert (cats + [c])[..|cats|] == cats;
  }

  /** `|Classify(title)|` counts the tests that pass. */
  function Passes(title: string, c: Category): nat {
    if Matches(title, c) then 1 else 0
  }

  lemma ClassifyCount(title: string)
    ensures |Classify(title)| ==
      Passes(title, Presentation) + Passes(title, Symptoms) + Passes(title, PhysicalExam) +
      Passes(title, Labs) + Passes(title, Imaging) + Passes(title, Diagnosis) +
      Passes(title, Treatment) + Passes(title, Outcome)
  {
    var l0: seq<Category> := [];
    var l1 := l0 + [Presentation];
    FilterSnoc(title, l0, Presentation);
    var l2 := l1 + [Symptoms];
    FilterSnoc(title, l1, Symptoms);
    var l3 := l2 + [PhysicalExam];
    FilterSnoc(title, l2, PhysicalExam);
    var l4 := l3 + [Labs];
    FilterSnoc(title, l3, Labs);
    var l5 := l4 + [Imaging];
    FilterSnoc(title, l4, Imaging);
    var l6 := l5 + [Diagnosis];
    FilterSnoc(title, l5, Diagnosis);
    var l7 := l6 + [Treatment];
    FilterSnoc(title, l6, Treatment);
    var l8 := l7 + [Outcome];
    FilterSnoc(title, l7, Outcome);
    assert l8 == Categories;
  }

  /** `after` is `before` followed by copies of `text`. */
  predicate Grows(before: seq<string>, after: seq<string>, text: string) {
    |before| <= |after| && after[..|before|] == before &&
    forall k :: |before| <= k < |after| ==> after[k] == text
  }

  /** A non-empty section text joins `all_clinical_text` once per category its
      title matches, after what was there; an empty one changes nothing. */
  lemma StepClinical(a: Accum, title: string, text: string)
    ensures text == "" ==> Step(a, title, text) == a
    ensures text != "" ==>
      |Step(a, title, text).clinical| == |a.clinical| + |Classify(title)| &&
      Grows(a.clinical, Step(a, title, text).clinical, text)
  {
    if text != "" {
      var a1 := Test(a, title, Presentation, text);
      var a2 := Test(a1, title, Symptoms, text);
      var a3 := Test(a2, title, PhysicalExam, text);
      var a4 := Test(a3, title, Labs, text);
      var a5 := Test(a4, title, Imaging, text);
      var a6 := Test(a5, title, Diagnosis, text);
      var a7 := Test(a6, title, Treatment, text);
      var a8 := Test(a7, title, Outcome, text);
      assert a8 == Step(a, title, text);
      TestGrows(a, title, Presentation, text);
      TestGrows(a1, title, Symptoms, text);
      GrowsTrans(a.clinical, a1.clinical, a2.clinical, text);
      TestGrows(a2, title, PhysicalExam, text);
      GrowsTrans(a.clinical, a2.clinical, a3.clinical, text);
      TestGrows(a3, title, Labs, text);
      GrowsTrans(a.clinical, a3.clinical, a4.clinical, text);
      TestGrows(a4, title, Imaging, text);
      GrowsTrans(a.clinical, a4.clinical, a5.clinical, text);
      TestGrows(a5, title, Diagnosis, text);
      GrowsTrans(a.clinical, a5.clinical, a6.clinical, text);
      TestGrows(a6, title, Treatment, text);
      GrowsTrans(a.clinical, a6.clinical, a7.clinical, text);
      TestGrows(a7, title, Outcome, text);
      GrowsTrans(a.clinical, a7.clinical, a8.clinical, text);
      ClassifyCount(title);
    }
  }

  lemma TestGrows(a: Accum, title: string, c: Category, text: string)
    ensures Grows(a.clinical, Test(a, title, c, text).clinical, text)
    ensures |Test(a, title, c, text).clinical| == |a.clinical| + Passes(title, c)
  {
    TestClinical(a, title, c, text);
  }

  lemma GrowsTrans(x: seq<string>, y: seq<string>, z: seq<string>, text: string)
    requires Grows(x, y, text) && Grows(y, z, text)
    ensures Grows(x, z, text)
  {
    assert z[..|x|] == z[..|y|][..|x|];
    forall k | |x| <= k < |y| ensures z[k] == text {
      assert z[k] == z[..|y|][k];
    }
  }

  /** Tests other than presentation leave age, gender and chief complaint alone. */
  lemma TestSingulars(a: Accum, title: string, c: Category, text: string)
    requires c != Presentation
    ensures var t := Test(a, title, c, text);
      t.age == a.age && t.gender == a.gender && t.chief == a.chief
  {
  }

  /** Each test touches only its own blob. */
  lemma TestBlob(a: Accum, title: string, c: Category, text: string, d: Category)
    requires d != Presentation
    ensures Blob(Test(a, title, c, text), d) ==
      if c == d && Matches(title, c) then Blob(a, d) + " " + text else Blob(a, d)
  {
  }

  /** Age, gender and chief complaint change only in a presentation section,
      and there as `FillPresentation` says. */
  lemma StepSingulars(a: Accum, title: string, text: string)
    ensures var s := Step(a, title, text);
      var p := if text != "" && Matches(title, Presentation) then FillPresentation(a, text) else a;
      s.age == p.age && s.gender == p.gender && s.chief == p.chief
  {
    if text != "" {
      var a1 := Test(a, title, Presentation, text);
      var a2 := Test(a1, title, Symptoms, text);
      var a3 := Test(a2, title, PhysicalExam, text);
      var a4 := Test(a3, title, Labs, text);
      var a5 := Test(a4, title, Imaging, text);
      var a6 := Test(a5, title, Diagnosis, text);
      var a7 := Test(a6, title, Treatment, text);
      TestSingulars(a1, title, Symptoms, text);
      TestSingulars(a2, title, PhysicalExam, text);
      TestSingulars(a3, title, Labs, text);
      TestSingulars(a4, title, Imaging, text);
      TestSingulars(a5, title, Diagnosis, text);
      TestSingulars(a6, title, Treatment, text);
      TestSingulars(a7, title, Outcome, text);
    }
  }

  /** Every category blob other than presentation gets `' ' + text` appended
      exactly when the section has text and its title matches the category. */
  lemma StepBlob(a: Accum, title: string, text: string, c: Category)
    requires c != Presentation
    ensures Blob(Step(a, title, text), c) ==
      if text != "" && Matches(title, c) then Blob(a, c) + " " + text else Blob(a, c)
  {
    if text != "" {
      var a1 := Test(a, title, Presentation, text);
      var a2 := Test(a1, title, Symptoms, text);
      var a3 := Test(a2, title, PhysicalExam, text);
      var a4 := Test(a3, title, Labs, text);
      var a5 := Test(a4, title, Imaging, text);
      var a6 := Test(a5, title, Diagnosis, text);
      var a7 := Test(a6, title, Treatment, text);
      TestBlob(a, title, Presentation, text, c);
      TestBlob(a1, title, Symptoms, text, c);
      TestBlob(a2, title, PhysicalExam, text, c);
      TestBlob(a3, title, Labs, text, c);
      TestBlob(a4, title, Imaging, text, c);
      TestBlob(a5, title, Diagnosis, text, c);
      TestBlob(a6, title, Treatment, text, c);
      TestBlob(a7, title, Outcome, text, c);
    }
  }

  // --- the whole section loop ---

  /** The texts of the presentation sections that have text, in order. */
  function PresentationTexts(secs: seq<Section>): (ts: seq<string>)
    ensures forall i :: 0 <= i < |ts| ==> ts[i] != ""
    decreases |secs|
  {
    if secs == [] then []
    else
      var last := secs[|secs| - 1];
      PresentationTexts(secs[..|secs| - 1]) +
        (if SectionText(last) != "" && Matches(SectionTitle(last), Presentation)
         then [SectionText(last)] else [])
  }

  /** The age of the first text that yields one. */
  function FirstAge(ts: seq<string>): string {
    if ts == [] then "" else if Age(ts[0]) != "" then Age(ts[0]) else FirstAge(ts[1..])
  }

  /** The gender of the first text that yields one. */
  function FirstGender(ts: seq<string>): string {
    if ts == [] then "" else if FindGender(ts[0]) != "" then FindGender(ts[0]) else FirstGender(ts[1..])
  }

  /** What `_find_age` can give: nothing, or `str(n)` for `0 < n < 120`. */
  predicate AgeValue(s: string) {
    s == "" || exists n: nat :: 0 < n < 120 && s == NatToString(n)
  }

  /** What `_find_gender` can give. */
  predicate GenderValue(g: string) {
    g == "Male" || g == "Female" || g == ""
  }

  lemma {:induction false} FirstAgeValue(ts: seq<string>)
    ensures AgeValue(FirstAge(ts))
    decreases |ts|
  {
    if ts != [] {
      AgeIsDecimal(ts[0]);
      FirstAgeValue(ts[1..]);
    }
  }

  lemma {:induction false} FirstGenderValue(ts: seq<string>)
    ensures GenderValue(FirstGender(ts))
    decreases |ts|
  {
    if ts != [] {
      FirstGenderValue(ts[1..]);
    }
  }

  /** Such an age is left as it is by the clean-up. */
  lemma AgeValueClean(s: string)
    requires AgeValue(s)
    ensures Normalize(s) == s
  {
    if s != "" {
      assert IsWord(s);
      NormalizeWord(s);
    }
  }

  /** So is such a gender. */
  lemma GenderValueClean(g: string)
    requires GenderValue(g)
    ensures Normalize(g) == g
  {
    if g != "" {
      assert IsWord(g);
      NormalizeWord(g);
    }
  }

  lemma {:induction false} FirstAgeSnoc(ts: seq<string>, t: string)
    ensures FirstAge(ts + [t]) == if FirstAge(ts) != "" then FirstAge(ts) else Age(t)
    decreases |ts|
  {
    if ts == [] {
      assert [t][1..] == [];
    } else {
      assert (ts + [t])[1..] == ts[1..] + [t];
      FirstAgeSnoc(ts[1..], t);
    }
  }

  lemma {:induction false} FirstGenderSnoc(ts: seq<string>, t: string)
    ensures FirstGender(ts + [t]) == if FirstGender(ts) != "" then FirstGender(ts) else FindGender(t)
    decreases |ts|
  {
    if ts == [] {
      assert [t][1..] == [];
    } else {
      assert (ts + [t])[1..] == ts[1..] + [t];
      FirstGenderSnoc(ts[1..], t);
    }
  }

  /** The chief complaint is the first presentation section's text cut to 5000
      characters; age and gender come from the first presentation section that
      yields one, and later sections never overwrite them. */
  lemma {:induction false} FoldSingulars(secs: seq<Section>)
    ensures var P := PresentationTexts(secs);
      Fold(secs).chief == (if P == [] then "" else Take(P[0], 5000)) &&
      Fold(secs).age == FirstAge(P) &&
      Fold(secs).gender == FirstGender(P)
    decreases |secs|
  {
    if secs != [] {
      var init := secs[..|secs| - 1];
      var last := secs[|secs| - 1];
      var a, title, t := Fold(init), SectionTitle(last), SectionText(last);
      var P0 := PresentationTexts(init);
      var cond := t != "" && Matches(title, Presentation);
      assert Fold(secs) == Step(a, title, t);
      assert PresentationTexts(secs) == P0 + (if cond then [t] else []);
      FoldSingulars(init);
      StepSingulars(a, title, t);
      if cond {
        FirstAgeSnoc(P0, t);
        FirstGenderSnoc(P0, t);
        if P0 != [] {
          assert |Take(P0[0], 5000)| > 0;
          assert (P0 + [t])[0] == P0[0];
        }
      } else {
        assert PresentationTexts(secs) == P0;
      }
    }
  }

  /** An article in which no section with text has a title matching any
      category yields no record. */
  lemma {:induction false} NoClinicalSections(secs: seq<Section>)
    requires forall i :: 0 <= i < |secs| ==>
      SectionText(secs[i]) == "" || forall c :: !Matches(SectionTitle(secs[i]), c)
    ensures Fold(secs).clinical == []
    decreases |secs|
  {
    if secs != [] {
      var init := secs[..|secs| - 1];
      var last := secs[|secs| - 1];
      assert forall i :: 0 <= i < |init| ==> init[i] == secs[i];
      NoClinicalSections(init);
      StepClinical(Fold(init), SectionTitle(last), SectionText(last));
      if SectionText(last) != "" {
        ClassifyMembers(SectionTitle(last));
      }
    }
  }

  lemma NoClinicalNoRecord(root: Article, pmid: string, pmcid: string, disease: string)
    requires root.body.Some? ==> forall i :: 0 <= i < |root.body.value| ==>
      SectionText(root.body.value[i]) == "" || forall c :: !Matches(SectionTitle(root.body.value[i]), c)
    ensures Extract(Some(root), pmid, pmcid, disease) == None
  {
    if root.body.Some? {
      NoClinicalSections(root.body.value);
    }
    assert Join(BodyAccum(root).clinical, " ") == "";
    assert Split("") == [];
  }
}
