# A verified model of the expert clinical case crawler (version 3)

The crawler searches PubMed for case reports on 25 topics. For each candidate
id it asks the PMC id converter for a full-text id and fetches the article's
XML. The extractor then turns the article into one row of clinical text:
- it reads the `sec` elements of the body;
- it keeps paragraphs longer than 20 characters;
- it files each section under eight non-exclusive keyword categories;
- it takes the chief complaint, the age and the gender from the first
  presentation section that yields them;
- it collapses the whitespace of every value;
- it drops the row when less than 100 characters of clinical text remain.

This project models that core in Dafny and proves properties of the model.

- `wrappers.dfy`: `Option`, and `PyStr` for a Python value that is either a
  string or `None`.
- `text.dfy` (module `Text`): the Python string operations the core uses.
  These are `strip`, `split`, `join`, `' '.join(filter(None, …))`, `lower`,
  `in`, `count`, `replace`, slicing, `int` and `str`.
- `element_tree.dfy` (module `ElementTree`): an element of
  `xml.etree.ElementTree` (text, children, tail) and `extract_text_recursive`.
  The recursive method is proved equal to the function `Flat`. `Flat` is proved
  equal to a single join of the subtree's fragments in document order.
- `field_heuristics.dfy` (module `FieldHeuristics`): `_find_age` and
  `_find_gender`.
  - The five age patterns are attempt functions, one per pattern. The leftmost
    scan of `re.search` is a generic `FirstFrom`.
  - `_find_age` is a loop with an early return, proved against `Age`.
  - `_find_gender` is a pure vote between two token counts.
- `extraction.dfy` (module `Extraction`): the parsed article, the output
  record, and `extract_raw_clinical_data`.
  - The method with its author, section, paragraph and keyword loops is
    proved equal to the function `Extract`.
  - `Extract` is built from a fold over the sections (`Fold`/`Step`).
- `crawl.dfy` (module `Crawling`): the crawler object (`class Crawler`, with
  the `stats` counters and the saved rows) and `crawl`.
  - The verdict on one candidate id is `CandidateOutcome`; `Tally` is the
    counter change for a verdict, `TallyAll` its fold over a run of verdicts,
    and `SavedRows` the records of a run.
  - `Cut` is where the candidate loop of a topic stops: before the first
    candidate at which the target or the topic's share is reached.
    `CrawlOutcomes` lists, topic after topic, the verdicts the crawl looks
    at, and `TopicsCrawled` is the number of topics it searches.
  - `Crawl`, `CrawlTopic` and `CrawlCandidates` are proved to leave exactly
    the counters and rows those functions give. The bounds and the stopping
    rule are lemmas about the functions.

The three web services are the fields of a `Services` value passed to `Crawl`:
- `search` maps a query and `retmax` to ids;
- `resolve` maps a PubMed id to an optional PMC id;
- `fetch` maps a PMC id to a document or nothing.

A document is an `Option<Article>`, where `None` means the XML does not parse.
The network itself is not modelled.

Where the crawler's own description and its code disagree, the model
follows the code:
- A section whose title matches several categories is appended to
  `all_clinical_text` once per matching category, not once.
- A row has 21 columns.
- A failed fetch after a successful id lookup increments `found` only (no
  counter records it).

## Model

| member | source | states |
|---|---|---|
| ElementTree.ExtractTextRecursive | expert_case_crawler_v3.py:122-131 | the recursive flattening returns exactly `Flat(e)`: the stripped text, each child's flattening and stripped tail, joined with single spaces after dropping empty entries |
| ElementTree.CollectTexts | expert_case_crawler_v3.py:124-130 | the `texts` list built by appends is the stripped leading text, then for each child its flattening and its stripped tail, in order |
| ElementTree.FlatIsJoinOfLeaves | expert_case_crawler_v3.py:122-131 | flattening equals one single-space join of all non-empty stripped text fragments of the subtree in document order, so nesting leaves no trace |
| ElementTree.FlatEmptyIff | expert_case_crawler_v3.py:122-131 | the flattening is empty exactly when every text fragment of the subtree is blank |
| ElementTree.FlatTrimmed | expert_case_crawler_v3.py:126-131 | the flattening never starts or ends with whitespace |
| Text.StripSpec | expert_case_crawler_v3.py:126 | `strip()` leaves no whitespace at either end, and returns `''` exactly when the string is all whitespace |
| Text.StripIsSlice | expert_case_crawler_v3.py:126 | `strip()` returns one slice `s[i:j]` of the string, with only whitespace before `i` and from `j` on |
| Text.JoinNonEmptyIsJoinOfFilter | expert_case_crawler_v3.py:131 | the entry-by-entry join equals `' '.join(filter(None, xs))` |
| Text.JoinNonEmptyAppend | expert_case_crawler_v3.py:131 | joining a concatenated list is joining the two joins with one space, an empty side adding nothing |
| Text.JoinNonEmptyIsEmpty | expert_case_crawler_v3.py:131 | the filtered join is empty exactly when every entry is empty |
| Text.JoinNonEmptyTrimmed | expert_case_crawler_v3.py:131 | joining trimmed strings yields a trimmed string |
| Text.Split | expert_case_crawler_v3.py:257 | `split()` yields only non-empty pieces without whitespace |
| Text.SplitKeepsText | expert_case_crawler_v3.py:257 | the pieces of `split()` put together with nothing between them are exactly the non-whitespace characters of the string, in order |
| Text.SplitCountsWords | expert_case_crawler_v3.py:257 | `split()` gives exactly as many pieces as there are word starts (a non-whitespace character at the start or after whitespace) |
| Text.SplitWord | expert_case_crawler_v3.py:257 | a string without whitespace splits into itself as the one piece |
| Text.SplitAtSpace | expert_case_crawler_v3.py:257 | splitting `a + c + b` at a whitespace character `c` gives the pieces of `a` followed by those of `b`, so pieces break exactly at whitespace |
| Text.NormalizeIsNormal | expert_case_crawler_v3.py:255-257 | `' '.join(v.split())` yields a string whose only whitespace is single spaces between non-space characters, so it is trimmed |
| Text.SplitJoin | expert_case_crawler_v3.py:257 | splitting a space-joined list of words gives back the words |
| Text.NormalizeIdempotent | expert_case_crawler_v3.py:255-257 | the whitespace clean-up is idempotent |
| Text.NormalizeWord | expert_case_crawler_v3.py:257 | a word without whitespace is unchanged by the clean-up |
| Text.JoinAppend | expert_case_crawler_v3.py:201 | `sep.join(a + b)` is the join of `a`, then `sep`, then the join of `b` when both are non-empty; otherwise it is the join of the non-empty one |
| Text.JoinStartsWithFirst | expert_case_crawler_v3.py:252 | a join of a non-empty list begins with its first entry |
| Text.Lower | expert_case_crawler_v3.py:192 | `lower()` keeps the length and lower-cases each character in place |
| Text.ContainsIffOccurs | expert_case_crawler_v3.py:207 | `p in s` holds exactly when `p` occurs at some index of `s` |
| Text.CountZeroIff | expert_case_crawler_v3.py:289 | `s.count(p)` is zero exactly when `p` is not in `s` |
| Text.CountNonOverlapping | expert_case_crawler_v3.py:289 | the counted occurrences do not overlap: `count * len(p) <= len(s)` |
| Text.ReplaceChar | expert_case_crawler_v3.py:139 | `replace(' ', '_')` keeps the length and swaps exactly the replaced character |
| Text.Take | expert_case_crawler_v3.py:221 | `s[:n]` has length `min(len(s), n)` and is a prefix of `s` |
| Text.NatToString | expert_case_crawler_v3.py:282 | `str(n)` is a non-empty digit string without a leading zero for `n > 0` |
| Text.DecimalRoundTrip | expert_case_crawler_v3.py:280-282 | `int(str(n)) == n` |
| Text.RunEnd | expert_case_crawler_v3.py:271-275 | a greedy character-class run ends at the first character outside the class |
| FieldHeuristics.MatchAt | expert_case_crawler_v3.py:270-276 | an attempt of any of the five patterns captures a non-empty digit string |
| FieldHeuristics.YearOldAt | expert_case_crawler_v3.py:271 | `(\d+)[\s-]year[\s-]old` attempted at one index captures a non-empty digit run |
| FieldHeuristics.AgedAt | expert_case_crawler_v3.py:272 | `aged?\s+(\d+)` attempted at one index captures a non-empty digit run |
| FieldHeuristics.YoAt | expert_case_crawler_v3.py:273 | `(\d+)[\s-]y/?o\b` attempted at one index captures a non-empty digit run |
| FieldHeuristics.AgeColonAt | expert_case_crawler_v3.py:274 | `age[:\s]+(\d+)` attempted at one index captures a non-empty digit run |
| FieldHeuristics.YearsOfAgeAt | expert_case_crawler_v3.py:275 | `\b(\d+)\s*years?\s+of\s+age` attempted at one index captures a non-empty digit run |
| FieldHeuristics.FirstNoneIff | expert_case_crawler_v3.py:278 | the leftmost scan finds nothing exactly when no attempt succeeds |
| FieldHeuristics.FirstIsLeftmost | expert_case_crawler_v3.py:278 | a success of the scan is the attempt at the leftmost index that succeeds |
| FieldHeuristics.Search | expert_case_crawler_v3.py:278-280 | `re.search(...).group(1)` is a non-empty digit string when there is a match |
| FieldHeuristics.SearchIsLeftmost | expert_case_crawler_v3.py:278 | the search fails exactly when the pattern matches nowhere; otherwise it returns the capture at the leftmost index where the pattern matches |
| FieldHeuristics.Candidate | expert_case_crawler_v3.py:278-281 | what one pattern proposes is an integer strictly between 0 and 120 |
| FieldHeuristics.FindAge | expert_case_crawler_v3.py:268-283 | the loop with its early return computes `Age(text)`, which is `''` or `str(n)` for some `0 < n < 120` |
| FieldHeuristics.AgePriority | expert_case_crawler_v3.py:277-283 | the age is `''` exactly when no pattern proposes a value; otherwise it is the value of the first pattern that proposes one, and every earlier pattern proposed nothing |
| FieldHeuristics.AgeIsDecimal | expert_case_crawler_v3.py:280-283 | a non-empty age has one to three digits, no leading zero, and reads back as an integer in `(0, 120)` |
| FieldHeuristics.SmallDecimal | expert_case_crawler_v3.py:282 | `str(n)` for `0 < n < 120` has one to three digits and reads back as `n` |
| FieldHeuristics.FindGender | expert_case_crawler_v3.py:285-306 | the result is `'Male'` exactly when the male count exceeds the female count, `'Female'` exactly for the converse, and `''` exactly on a tie |
| FieldHeuristics.ScoreZeroIff | expert_case_crawler_v3.py:288-301 | a score is zero exactly when none of its tokens occurs in the lower-cased text |
| FieldHeuristics.GenderNeedsEvidence | expert_case_crawler_v3.py:302-306 | a label is given only when some token of its own list occurs in the lower-cased text |
| FieldHeuristics.FemalePatientIsAlsoMale | expert_case_crawler_v3.py:288-301 | every occurrence of `female patient` also contains `male patient`, so that token raises both scores |
| Extraction.ExtractRawClinicalData | expert_case_crawler_v3.py:133-266 | the method with its loops returns exactly `Extract(...)`, and any record it returns has at least 100 characters of clinical text and all values cleaned |
| Extraction.ScanSections | expert_case_crawler_v3.py:189-249 | the section loop computes the fold `Fold(secs)` of `Step` over the sections |
| Extraction.ReadSection | expert_case_crawler_v3.py:191-201 | the lower-cased title and the joined paragraphs longer than 20 characters are `SectionTitle` and `SectionText` |
| Extraction.ClassifySection | expert_case_crawler_v3.py:206-249 | the eight keyword tests run one after another compute `Step` |
| Extraction.RunTest | expert_case_crawler_v3.py:223-249 | one keyword test does its work when the title matches and nothing otherwise |
| Extraction.PresentationSection | expert_case_crawler_v3.py:207-221 | the presentation branch appends the text and fills age, gender and chief complaint only where still empty |
| Extraction.CollectAuthors | expert_case_crawler_v3.py:157-165 | the author loop computes `AuthorNames`, which is `None` once a name raises |
| Extraction.AuthorNamesFailIff | expert_case_crawler_v3.py:158-165 | the author loop raises exactly when some contrib has a surname element without text and a given-names element |
| Extraction.AuthorNamesFailureSticks | expert_case_crawler_v3.py:158-165 | once a name has raised, the loop's outcome stays an exception |
| Extraction.AuthorNamesSnoc | expert_case_crawler_v3.py:159-165 | a contrib without a surname adds nothing; one with a surname that does not raise adds its name at the end |
| Extraction.Take5 | expert_case_crawler_v3.py:166 | `authors[:5]` is the prefix of length `min(len, 5)` |
| Extraction.Strs | expert_case_crawler_v3.py:166 | the names as strings, one for one |
| Extraction.AuthorsField | expert_case_crawler_v3.py:166 | `'; '.join(authors[:5])` is `''` for no authors and `None` when one of the first five names is `None` |
| Extraction.CaseIdSeparatesTopics | expert_case_crawler_v3.py:139 | one article under two different topics, neither containing `_`, gets two different case ids |
| Extraction.CaseIdIsClean | expert_case_crawler_v3.py:255-257 | for a topic without underscores whose only whitespace is the space, and an id without whitespace, the clean-up leaves the case id as built |
| Extraction.CleanCaseIdSeparatesTopics | expert_case_crawler_v3.py:139 | under the same conditions, the cleaned case ids of one article under two different topics differ |
| Extraction.UrlPrefixNoSpace | expert_case_crawler_v3.py:143 | the URL prefix has no whitespace |
| Extraction.IdentifiersSurviveCleanup | expert_case_crawler_v3.py:141-143 | for an id without whitespace the clean-up leaves `PMC<id>` and the article URL as built |
| Extraction.AnyInIff | expert_case_crawler_v3.py:207 | `any(kw in title for kw in kws)` holds exactly when some keyword occurs in the title |
| Extraction.MatchesIff | expert_case_crawler_v3.py:207-247 | a title passes a category's test exactly when one of that category's keywords occurs in it |
| Extraction.ClassifyMembers | expert_case_crawler_v3.py:207-247 | the categories a title falls in are exactly those whose test passes, so the categories are not exclusive |
| Extraction.ClassifyCount | expert_case_crawler_v3.py:207-247 | the number of categories a title falls in is the number of tests that pass |
| Extraction.Flats | expert_case_crawler_v3.py:196-197 | every paragraph is flattened, one for one |
| Extraction.Kept | expert_case_crawler_v3.py:198-199 | kept paragraph texts are longer than 20 characters |
| Extraction.KeptMembers | expert_case_crawler_v3.py:196-199 | the kept texts are exactly the flattened paragraphs longer than 20 characters |
| Extraction.KeptEmptyIff | expert_case_crawler_v3.py:196-204 | nothing is kept exactly when no text is longer than 20 characters |
| Extraction.SectionTextEmptyIff | expert_case_crawler_v3.py:195-204 | a section is skipped exactly when none of its paragraphs is longer than 20 characters once flattened |
| Extraction.StepClinical | expert_case_crawler_v3.py:203-249 | a skipped section changes nothing; otherwise the text is appended to `all_clinical_text` once for each category its title matches |
| Extraction.StepBlob | expert_case_crawler_v3.py:223-249 | each non-presentation field gets `' ' + text` appended exactly when the section has text and its title matches that category |
| Extraction.StepSingulars | expert_case_crawler_v3.py:207-221 | age, gender and chief complaint change only in a presentation section with text |
| Extraction.TestBlob | expert_case_crawler_v3.py:223-249 | each keyword test touches only its own field |
| Extraction.TestSingulars | expert_case_crawler_v3.py:223-249 | the non-presentation tests leave age, gender and chief complaint alone |
| Extraction.TestGrows | expert_case_crawler_v3.py:207-249 | one test appends the text to `all_clinical_text` once if it passes and not at all otherwise |
| Extraction.FoldSingulars | expert_case_crawler_v3.py:207-221 | the chief complaint is the first presentation section's text cut to 5000 characters; age and gender come from the first presentation section that yields one, and later sections never overwrite them |
| Extraction.FirstAgeSnoc | expert_case_crawler_v3.py:210-213 | a later section's age is used only while no age has been found |
| Extraction.FirstGenderSnoc | expert_case_crawler_v3.py:215-218 | a later section's gender is used only while no gender has been found |
| Extraction.FirstAgeValue | expert_case_crawler_v3.py:268-283 | the age the sections yield is `""` or the decimal form of some `n` with `0 < n < 120` |
| Extraction.FirstGenderValue | expert_case_crawler_v3.py:285-306 | the gender the sections yield is `"Male"`, `"Female"` or `""` |
| Extraction.AgeValueClean | expert_case_crawler_v3.py:254-257 | an age of that form is unchanged by the whitespace clean-up |
| Extraction.GenderValueClean | expert_case_crawler_v3.py:254-257 | a gender of that form is unchanged by the whitespace clean-up |
| Extraction.PresentationTexts | expert_case_crawler_v3.py:203-208 | the presentation sections that reach the tests have non-empty text |
| Extraction.CleanRecord | expert_case_crawler_v3.py:254-257 | after the clean-up every string value is normalised, and a second clean-up would change nothing |
| Extraction.ExtractOutcome | expert_case_crawler_v3.py:133-266 | a record comes out exactly when the XML parses, the authors can be joined, and the cleaned clinical text has at least 100 characters |
| Extraction.ExtractedRecord | expert_case_crawler_v3.py:138-263 | a returned record carries the cleaned case id, PMC label, URL and clinical text, passes validation, and is a fixed point of the clean-up |
| Extraction.ExtractedAgeGender | expert_case_crawler_v3.py:207-221 | a returned record's age is `""` or a number from 1 to 119 in decimal, and its gender is `"Male"`, `"Female"` or `""` |
| Extraction.NoClinicalSections | expert_case_crawler_v3.py:189-249 | when no section with text matches any category, `all_clinical_text` stays empty |
| Extraction.NoClinicalNoRecord | expert_case_crawler_v3.py:252-263 | an article without clinically titled sections with text yields no record |
| Crawling.SearchQueryInjective | expert_case_crawler_v3.py:74 | two topics never share a query `'{disease} case report'` |
| Crawling.CrawlSearchesDiffer | expert_case_crawler_v3.py:21-56 | two different topics of the crawl send different search requests |
| Crawling.DiseasesAreTopicNames | expert_case_crawler_v3.py:21-56 | each of the 25 topics has no underscore and no whitespace but the space |
| Crawling.DiseasesDistinct | expert_case_crawler_v3.py:21-56 | no topic is listed twice |
| Crawling.CrawlCaseIdsDiffer | expert_case_crawler_v3.py:139 | for an id without whitespace, two different topics of the crawl give an article two different cleaned case ids |
| Crawling.Outcomes | expert_case_crawler_v3.py:345 | there is one verdict per candidate id |
| Crawling.OutcomeAt | expert_case_crawler_v3.py:345-380 | the `i`-th verdict is `CandidateOutcome` of the `i`-th id |
| Crawling.AllAcceptedMeans | expert_case_crawler_v3.py:259-263 | the fold over the saved rows holds exactly when each row passed the validation |
| Crawling.SavedAccepted | expert_case_crawler_v3.py:357-377 | a saved candidate's record passed the validation |
| Crawling.DocumentSavedAccepted | expert_case_crawler_v3.py:366-377 | a record saved from a fetched document passed the validation |
| Crawling.TallyCounted | expert_case_crawler_v3.py:357-380 | one verdict moves exactly one of `found` and `no_pmc`, moves `no_text` or `saved` only after `found`, and leaves `searched` alone |
| Crawling.TallyAllCounted | expert_case_crawler_v3.py:345-380 | a run of verdicts adds its length to `found + no_pmc`, one `saved` per saved record, no more `saved + no_text` than `found`, and nothing to `searched` |
| Crawling.CutFrom | expert_case_crawler_v3.py:345-347 | the scan for the stopping point never goes back and never passes the end of the ids |
| Crawling.CutIsFirst | expert_case_crawler_v3.py:345-347 | the candidate loop stops at the first candidate before which the target or `max_per_disease` is reached, and runs to the end of the ids otherwise |
| Crawling.CutBounds | expert_case_crawler_v3.py:345-378 | a topic saves at most `max(max_per_disease, 0)` records and does not take the total past `max(target, 0)` |
| Crawling.TopicSavedBound | expert_case_crawler_v3.py:345-378 | each topic of the crawl saves at most `max(max_per_disease, 0)` records |
| Crawling.CrawlSavedBound | expert_case_crawler_v3.py:329-378 | the whole crawl saves at most `max(target, 0)` records |
| Crawling.TopicsFrom | expert_case_crawler_v3.py:329-332 | the scan for the last topic never goes back and never passes the end of the list |
| Crawling.CrawlStopsAtTarget | expert_case_crawler_v3.py:329-332 | the crawl searches topics in order until the target is reached: every topic it searched found the target unmet, and it stops before the end of the list only once the target is met |
| Crawling.NoTargetNoCrawl | expert_case_crawler_v3.py:330-332 | a target of zero or less searches no topic |
| Crawling.CrawlOutcomesSearched | expert_case_crawler_v3.py:339-345 | no more candidates are looked at than the searches returned |
| Crawling.OutcomesSavedOk | expert_case_crawler_v3.py:347-380 | every candidate a topic's run saves passed validation |
| Crawling.CrawlSavedOk | expert_case_crawler_v3.py:329-385 | every candidate the whole crawl saves passed validation |
| Crawling.SavedOkRows | expert_case_crawler_v3.py:371-378 | the rows of a run whose saved verdicts all passed validation all pass validation |
| Crawling.CrawlKeepsConsistent | expert_case_crawler_v3.py:326-404 | the counters and rows the crawl leaves keep one row per `saved`, `saved + no_text <= found`, `found + no_pmc <= searched`, and every row validated |
| Crawling.Crawler.constructor | expert_case_crawler_v3.py:21-68 | the crawler starts with the 25 topics, all counters zero and no rows |
| Crawling.Crawler.Crawl | expert_case_crawler_v3.py:326-404 | searches exactly the first `TopicsCrawled(...)` topics; `stats` ends as the tally of their verdicts `CrawlOutcomes(...)` with `searched` grown by their search results' sizes, the saved records are appended to the rows in order, the result is their number, and `Valid()` is kept |
| Crawling.Crawler.VisitTopic | expert_case_crawler_v3.py:329-385 | one pass of the topic loop takes the counters and rows of the topics before `idx` to those of the topics up to `idx` |
| Crawling.Crawler.CrawlTopic | expert_case_crawler_v3.py:338-382 | a topic adds its search result's size to `searched`, then tallies exactly the verdicts of its ids before `Cut(...)` and appends their saved records |
| Crawling.Crawler.CrawlCandidates | expert_case_crawler_v3.py:345-382 | the candidate loop processes exactly the ids before `Cut(...)`: `stats` ends as their tally, their saved records are appended in order, and their number is returned |
| Crawling.Crawler.VisitCandidate | expert_case_crawler_v3.py:345-380 | one pass of the candidate loop extends the tally and the rows by the `i`-th verdict |
| Crawling.Crawler.ProcessCandidate | expert_case_crawler_v3.py:357-380 | one candidate changes `stats` to `Tally(old(stats), o)` and appends `o.record` exactly when `o` is `Saved`, where `o = CandidateOutcome(...)`: no full-text id gives `no_pmc`, otherwise `found`, then nothing without a document, `no_text` without a record, or `saved` |
| Crawling.Crawler.SaveDocument | expert_case_crawler_v3.py:366-380 | without a document nothing is counted; otherwise `no_text` or `saved` grows by one, and a saved record is appended |

## Left out

- HTTP: `search_case_reports`, `get_pmc_id` and `fetch_pmc_xml` are the fields `search`, `resolve` and `fetch` of the `Services` value passed to `Crawl`.
  - They are functions, so they answer the same request the same way every time. A transient failure, or a PubMed id that resolves differently under two topics, is not modelled.
  - Their own error handling (exceptions give `[]` or `None`) is inside what those functions return.
  - So is the `replace('PMC', '')` applied to the converter's answer.
  - The result count that the search also returns is only printed, so it is left out.
- XML parsing and XPath: `ET.fromstring` and the `find`/`findall` lookups are replaced by the `Article` datatype, which already holds the elements those lookups return. A parse failure is `None`.
- `extract_text_recursive` on a very deep element: Python raises `RecursionError` there (and `extract_raw_clinical_data` then returns `None`). The model flattens any depth.
- `_find_age` on a digit run of more than 4300 digits: Python 3.11 and later raise `ValueError` in `int()` there. The model reads any number of digits.
- The regular-expression engine in general: the five age patterns are written out as the matches they can make.
- `Lower` and `LowerChar`: only ASCII letters are lower-cased. Python's `str.lower()` also maps non-ASCII letters.
- `IsDigit` and `IsWordChar`: these are ASCII-only. Python's `\d` and `\w` also accept other Unicode digits and letters.
- `save_to_csv`: the CSV file and its header are not modelled. A saved row is appended to the crawler's `rows`.
- `time.sleep`, the timers, the rate figures and all printing.
- The script entry point under `if __name__ == "__main__"`.
- The constructor's `email`, `base_url` and time-stamped CSV file name. These are only passed to the services or the file.
- FieldHeuristics.YearOldAt: its contract states only that the capture is a run of digits. That it is the pattern's match holds by construction; it is not proved against a general regular-expression semantics, since none is modelled.
- FieldHeuristics.AgedAt: its contract states only that the capture is a run of digits, for the same reason.
- FieldHeuristics.YoAt: its contract states only that the capture is a run of digits, for the same reason.
- FieldHeuristics.AgeColonAt: its contract states only that the capture is a run of digits, for the same reason.
- FieldHeuristics.YearsOfAgeAt: its contract states only that the capture is a run of digits, for the same reason.
- FieldHeuristics.MatchAt: its contract states only that the capture is a run of digits, for the same reason.
