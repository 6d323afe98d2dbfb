# Legal & Data Explorer — a verified model of its routing, retrieval and segmentation

The Legal & Data Explorer is a small web demo. A user types a question in
English or Ukrainian. The explorer sends it down exactly one of four paths:

- a fuzzy lookup of legal articles (Rome Statute and Geneva Conventions);
- a chart of war-crimes cases by region;
- a chart for one statistics category (losses, objects or events);
- a remote language-model answer service.

A separate scraper script segments three legal documents into article
records:

- the Criminal Code of Ukraine (an HTML page);
- the Rome Statute (an HTML page);
- the Geneva Conventions (a PDF).

This project models, in Dafny, the logic beneath that glue and proves what
it promises.

- `text.dfy` (module `Text`) covers the Python string operations the code relies on:
  - `str.isspace` and `strip`;
  - `lower` on ASCII, Latin-1 and Cyrillic letters;
  - the substring test `k in q` and `startswith`;
  - slicing with Python's clamping rules;
  - `"\n".join`.

  The program never splits a string at newlines. `Text.Split`, `Text.FirstIndex`, `Presentation.ParseLegalContext` and `Presentation.DecimalToInt` exist only to read back what the program writes: the join at line 146, the f-string at line 114 and `str` at line 145. They are the inverses against which round trips are proved.
- `records.dfy` (module `Records`) defines:
  - the article record, a JSON object whose keys may be absent;
  - the three source labels.
- `loader.dfy` (module `Loader`) models `load_legal_articles`: the nested loop over the two files, with the file system as a parameter.
- `retrieval.dfy` (module `Retrieval`) models `normalize` and `find_legal_articles`:
  - the scoring loop;
  - Python's stable descending sort;
  - the top-3 cut and the 0.2 threshold.

  The similarity ratio is a parameter: any function into [0, 1].
- `routing.dfy` (module `Routing`) models:
  - the three keyword classifiers;
  - the order in which the dispatch tries them.
- `presentation.dfy` (module `Presentation`) models the strings the page builds:
  - the truncated article body;
  - the legal-article context;
  - the statistics context.
- `dispatch.dfy` (module `Dispatch`) models one press of the button (lines 100-179):
  - which path is taken;
  - which articles are found and displayed;
  - which requests go to the answer service;
  - when the page stops on an uncaught exception.
- `segmentation.dfy` (module `Segmentation`) models the scraper's segmentation. It abstracts the regular expressions, the HTML tree and the PDF reader:
  - the sibling-collection loops;
  - the heading passes;
  - the Rome Statute's `<p>` fallback;
  - the PDF text;
  - the Geneva split.

Two behaviours of the code are worth knowing. The model follows the code:

- **An exact-title query.** The help text at `ccl/frontend_demo.py:87-88` says the tool "will show the most relevant legal article". For a query equal to an article's title, one might expect that article first, with score 1.0. The code promises only that the first result scores 1.0. When several articles score 1.0, the stable sort puts the earliest of them in the library first. `Retrieval.ExactTitleRanksFirst` proves what the code promises.
- **Missing keys.** The scorer reads `title` and `text` with an empty default. The display loop reads them without a default. An article lacking one of these keys can therefore be found, and then stops the page with a `KeyError`. This is `Dispatch.CompleteRun` and `Dispatch.CrashCauses`.

## Model

| member | source | states |
|---|---|---|
| Text.TrimStartSuffix | ccl/frontend_demo.py:34 | `lstrip` leaves a suffix of the input that does not start with whitespace, and removes only whitespace |
| Text.TrimEndPrefix | ccl/frontend_demo.py:34 | `rstrip` leaves a prefix of the input that does not end with whitespace, and removes only whitespace |
| Text.StripSlice | ccl/frontend_demo.py:34 | `strip` leaves a slice of its input with whitespace only before and after it, and neither starts nor ends with whitespace |
| Text.IsSpace | ccl/frontend_demo.py:34 | the characters `strip` removes (also at lines 28, 55, 75 and 103 of the scraper): Python's `str.isspace` set; stated by Text.StripSlice |
| Text.StripIdempotent | ccl/frontend_demo.py:34 | stripping twice is stripping once |
| Text.Strip | ccl/frontend_demo.py:34 | Python's `strip` (also at lines 28, 55, 75 and 103 of the scraper); stated by Text.TrimStartSuffix, Text.TrimEndPrefix, Text.StripSlice and Text.StripIdempotent |
| Text.Lower | ccl/frontend_demo.py:51 | `lower` keeps the length |
| Text.LowerIdempotent | ccl/frontend_demo.py:51 | lower-casing twice is lower-casing once |
| Text.LowerConcat | ccl/frontend_demo.py:51 | lower-casing a concatenation lower-cases each piece |
| Text.Contains | ccl/frontend_demo.py:52 | `k in s` holds iff `k` occurs in `s` at some index |
| Text.StartsWith | ccl/parse_legal_docs.py:21 | Python's `startswith`; stated by Segmentation.StopIndex |
| Text.ContainsInContext | ccl/frontend_demo.py:52 | an occurrence stays one when text is added on either side |
| Text.MissingCharNotContained | ccl/frontend_demo.py:52 | a string lacking one of a keyword's characters does not contain the keyword |
| Text.PySlice | ccl/parse_legal_docs.py:103 | a Python slice is the plain slice for in-range bounds, empty when the bounds cross, and never longer than the string |
| Text.TerminatedSnoc | ccl/parse_legal_docs.py:22 | appending a line and a newline extends the accumulated text by exactly that |
| Text.Terminated | ccl/parse_legal_docs.py:19-23 | the text built by `acc += x + '\n'` over a list of lines (also lines 49, 69 and 95); stated by Text.TerminatedSnoc, Text.SplitTerminated and Segmentation.TerminatedConcat |
| Text.FirstIndex | ccl/frontend_demo.py:114 | the first index of a character holds it and no earlier index does; not in the program, it reads the f-string at line 114 back |
| Text.Split | ccl/frontend_demo.py:146 | splitting at newlines gives at least one piece and no piece holds a newline; not in the program, it is the inverse the join at line 146 is read back with |
| Text.SplitJoin | ccl/frontend_demo.py:146 | joining newline-free lines with `"\n"` and splitting again gives the lines back |
| Text.Join | ccl/frontend_demo.py:146 | Python's `"\n".join`; stated by Text.SplitJoin and Text.JoinSplit |
| Text.JoinSplit | ccl/frontend_demo.py:146 | splitting at newlines and joining again gives the string back |
| Text.SplitTerminated | ccl/parse_legal_docs.py:22 | newline-terminated lines split into the lines and one empty piece |
| Loader.ObjectRun | ccl/frontend_demo.py:24-28 | the run of leading JSON objects ends at the first non-object, whose labelling raises and ends the file's loop |
| Loader.FileArticles | ccl/frontend_demo.py:21-28 | an unreadable file gives no articles; a readable one gives its leading objects in file order, each with its file's label and otherwise unchanged |
| Records.Labelled | ccl/frontend_demo.py:24-25 | `art['source'] = source`: the article with its source set; stated by Loader.FileArticles |
| Loader.LoadLegalArticles | ccl/frontend_demo.py:15-29 | the loaded list is the Rome Statute file's articles followed by the Geneva Conventions file's |
| Loader.AppendFileArticles | ccl/frontend_demo.py:22-28 | the inner loop appends exactly one file's articles to the list |
| Retrieval.Normalize | ccl/frontend_demo.py:33-34 | lower-cases, then strips; the NFKC step is part of the similarity parameter. Its properties are stated by Text.StripSlice, Text.LowerIdempotent and Retrieval.NormalizeIdempotent |
| Retrieval.NormalizeIdempotent | ccl/frontend_demo.py:34 | a fact about the model only: lower-casing then stripping twice is doing it once (not true once NFKC is added, see below) |
| Text.LowerSlice | ccl/frontend_demo.py:34 | lower-casing a slice gives the same slice of the lower-cased string |
| Retrieval.ArticleScore | ccl/frontend_demo.py:41-44 | an article's score; stated by Retrieval.ArticleScoreIsMax and Retrieval.ScoreAgainst |
| Retrieval.Above | ccl/frontend_demo.py:47 | the threshold filter; stated by Retrieval.AboveOfSorted and Retrieval.AboveNone |
| Retrieval.ArticleScoreIsMax | ccl/frontend_demo.py:41-44 | an article's score is the larger of its title and body similarity to the query, with a missing title or body read as empty |
| Retrieval.OrEmpty | ccl/frontend_demo.py:41-44 | `art.get(key, '')`: a missing title or text reads as empty; stated by Retrieval.ArticleScoreIsMax |
| Retrieval.ScoreArticles | ccl/frontend_demo.py:39-45 | the loop pairs every library article, in order, with its score |
| Retrieval.ScoredAgainst | ccl/frontend_demo.py:39-45 | the scored list carries each article's own score and lists exactly the library |
| Retrieval.ArticlesOfConcat | ccl/frontend_demo.py:47 | the articles of a concatenation are those of its parts |
| Retrieval.InsertPos | ccl/frontend_demo.py:46 | an entry goes after every entry that scores higher and before the first one that does not |
| Retrieval.Insert | ccl/frontend_demo.py:46 | insertion adds exactly the one entry |
| Retrieval.InsertArticles | ccl/frontend_demo.py:46 | insertion adds exactly the entry's article |
| Retrieval.InsertSorted | ccl/frontend_demo.py:46 | insertion keeps a list in non-increasing score order |
| Retrieval.SortByScore | ccl/frontend_demo.py:46 | the sort is a permutation of its input into non-increasing score order |
| Retrieval.LeadingAbove | ccl/frontend_demo.py:47 | the leading run of entries above the threshold ends at the first one that is not |
| Retrieval.AboveOfSorted | ccl/frontend_demo.py:47 | on a sorted list the threshold filter keeps exactly the leading run above the threshold |
| Retrieval.AboveNone | ccl/frontend_demo.py:47 | the filter keeps nothing when no entry clears the threshold |
| Retrieval.ScoreAgainst | ccl/frontend_demo.py:41-44 | every score lies in [0, 1] |
| Retrieval.ScoredByPermutation | ccl/frontend_demo.py:46 | reordering keeps every entry's score its article's |
| Retrieval.ArticlesOfSplit | ccl/frontend_demo.py:47 | the articles of a list are those of its two parts |
| Retrieval.FindLegalArticles | ccl/frontend_demo.py:36-48 | at most 3 results, each scoring above 0.2, in non-increasing score order, drawn from the library; no omitted article outscores a returned one, and the result is full whenever an omitted article scores above 0.2 |
| Retrieval.RankedIsRetrieved | ccl/frontend_demo.py:46-47 | the above-threshold entries among the first three of a score ranking of the library meet all of `find_legal_articles`'s properties listed in the previous row |
| Retrieval.KeptRankAbove | ccl/frontend_demo.py:47 | the kept entries are above the threshold and in score order |
| Retrieval.OmittedRankBelow | ccl/frontend_demo.py:46-47 | every omitted entry scores no higher than any kept one, and clears the threshold only when three were kept |
| Retrieval.OmittedEntryBelow | ccl/frontend_demo.py:46-47 | the same for one entry after the cut |
| Retrieval.ExactTitleRanksFirst | ccl/frontend_demo.py:36-48 | a query equal to an article's normalized title, under a ratio that scores equal strings 1.0, yields a first result scoring 1.0 |
| Retrieval.ResultsFromLibrary | ccl/frontend_demo.py:40-47 | every result is an article of the library |
| Retrieval.NoResultsIffNoMatch | ccl/frontend_demo.py:47 | nothing is returned iff no library article scores above 0.2 |
| Routing.MentionsAny | ccl/frontend_demo.py:52 | `any(k in q for k in ks)` holds iff some keyword of the list occurs in the query |
| Routing.IsLegalQuery | ccl/frontend_demo.py:50-52 | `is_legal_query`; stated by Routing.MentionsAny, Routing.LegalKeywordRoutesToLookup and Routing.RouteIgnoresCase |
| Routing.IsRegionStatsQuery | ccl/frontend_demo.py:54-60 | `is_region_stats_query`; stated by Routing.MentionsAny and Routing.RegionKeywordRoutesToChart |
| Routing.DetectTypeQuery | ccl/frontend_demo.py:62-70 | `detect_type_query`; stated by Routing.DetectTypeFirstMatch |
| Routing.Route | ccl/frontend_demo.py:100-163 | the path a press takes; stated by Routing.RouteExclusive |
| Routing.Takes | ccl/frontend_demo.py:100-163 | the condition of each path, written independently of the route; related to it by Routing.RouteExclusive |
| Routing.DetectTypeFirstMatch | ccl/frontend_demo.py:62-70 | a category is detected iff its keywords occur and those of no earlier category do; nothing is detected iff no category's keywords occur |
| Routing.RouteExclusive | ccl/frontend_demo.py:100-179 | a press takes a path iff that path's condition holds, so exactly one path is taken, in the order legal, region, category, fallback, and none without a press and a non-empty query |
| Routing.RouteIgnoresCase | ccl/frontend_demo.py:50-70 | lower-casing the query does not change its route |
| Routing.MentionsInContext | ccl/frontend_demo.py:50-70 | a keyword found in a query is still found when text surrounds the query |
| Routing.LegalWinsUnderExtension | ccl/frontend_demo.py:100-102 | a legal query stays a legal lookup whatever text is added around it |
| Routing.LossesWinsUnderExtension | ccl/frontend_demo.py:62-65 | a losses keyword selects losses whatever object or event keywords surround it |
| Routing.EmptyQueryIdle | ccl/frontend_demo.py:100 | nothing happens for an empty query, and nothing happens for any query without a press |
| Routing.LowerOfLowerCase | ccl/frontend_demo.py:51 | lower-casing leaves an already lower-case string alone |
| Routing.LegalKeywordsLowerCase | ccl/frontend_demo.py:52 | every legal keyword is lower case, so it matches itself after lowering |
| Routing.LegalKeywordRoutesToLookup | ccl/frontend_demo.py:100-104 | any query spelling out a legal keyword is a legal lookup |
| Routing.LegalExample | ccl/frontend_demo.py:100-102 | "Which article covers torture in the Rome Statute?" is a legal lookup |
| Routing.RegionKeywordsLowerCase | ccl/frontend_demo.py:56-59 | every region keyword is lower case |
| Routing.LatinRegionKeywordsLowerCase | ccl/frontend_demo.py:57 | the Latin-script region keywords are lower case |
| Routing.CyrillicRegionKeywordsLowerCase | ccl/frontend_demo.py:58 | the Cyrillic region keywords are lower case |
| Routing.RegionKeywordRoutesToChart | ccl/frontend_demo.py:54-60 | a query spelling out a region keyword and naming no legal keyword draws the region chart |
| Routing.RegionExample | ccl/frontend_demo.py:100-126 | "show me statistics on regions" draws the region chart |
| Routing.CategoryKeywordsLowerCase | ccl/frontend_demo.py:64-68 | every category keyword is lower case |
| Routing.CategoryKeywordRoutesToChart | ccl/frontend_demo.py:62-70 | a query spelling out a keyword of a category, and naming no legal, region or earlier category keyword, draws that category's chart |
| Routing.ObjectsQueryLowerCase | ccl/frontend_demo.py:84 | the example query is lower case |
| Routing.ObjectsQueryNotLegal | ccl/frontend_demo.py:52 | "show me statistics by objects" names no legal keyword |
| Routing.ObjectsQueryNotRegion | ccl/frontend_demo.py:56-60 | it names no region keyword |
| Routing.ObjectsQueryMissesLatinRegions | ccl/frontend_demo.py:57 | it contains none of the Latin-script region keywords |
| Routing.ObjectsQueryMissesCyrillicRegions | ccl/frontend_demo.py:58 | it contains none of the Cyrillic region keywords |
| Routing.ObjectsQueryNotLosses | ccl/frontend_demo.py:64 | it names no losses keyword |
| Routing.ObjectsExample | ccl/frontend_demo.py:100-137 | "show me statistics by objects" draws the objects chart |
| Routing.HelloMisses | ccl/frontend_demo.py:50-70 | "hello" names no keyword of any classifier |
| Routing.HelloMissesCategory | ccl/frontend_demo.py:62-70 | "hello" names no category keyword |
| Routing.RouteFallbackExample | ccl/frontend_demo.py:163-168 | "hello" goes to the remote answer service |
| Routing.NoKeyword | ccl/frontend_demo.py:52 | no keyword of a list occurs in a query lacking one character of each |
| Routing.NoKeywordFrom | ccl/frontend_demo.py:60 | the same for a run of a keyword list |
| Presentation.DisplayBody | ccl/frontend_demo.py:108 | the displayed body; stated by Presentation.DisplayBodyShape and Presentation.DisplayBodyIdempotent |
| Presentation.LegalContext | ccl/frontend_demo.py:114 | the context sent with a legal article; stated by Presentation.LegalContextRoundTrip |
| Presentation.StatsContext | ccl/frontend_demo.py:145-146 | the context sent with a statistics table; stated by Presentation.StatsContextLines |
| Presentation.DisplayBodyShape | ccl/frontend_demo.py:108 | the displayed body is the first 2000 characters, followed by "..." iff the text is longer, so at most 2003 characters, and the whole text when it is short |
| Presentation.DisplayBodyIdempotent | ccl/frontend_demo.py:108 | truncating a displayed body again changes nothing |
| Presentation.LegalContextRoundTrip | ccl/frontend_demo.py:114 | the legal context reads back as the article's title and text when the title is one line |
| Presentation.Digits | ccl/frontend_demo.py:145 | the decimal digits of a count are a non-empty string of digits |
| Presentation.IntToDecimal | ccl/frontend_demo.py:145 | `str` of a count is non-empty and holds no newline and no colon |
| Presentation.DigitsRoundTrip | ccl/frontend_demo.py:145 | the digits of a count read back as the count |
| Presentation.DecimalRoundTrip | ccl/frontend_demo.py:145 | `str` of a count, negative or not, reads back as itself |
| Presentation.StatsContextLines | ccl/frontend_demo.py:145-146 | the statistics context splits into the header and exactly one line per row |
| Presentation.StatLine | ccl/frontend_demo.py:145 | one row's line, its label, a colon and its count; stated by Presentation.StatsContextLines and Presentation.DecimalRoundTrip |
| Dispatch.CompleteRun | ccl/frontend_demo.py:106-108 | display stops at the first found article lacking a key |
| Dispatch.Complete | ccl/frontend_demo.py:106-108 | an article has the keys the display loop reads without a default; stated by Dispatch.CompleteRun and Dispatch.CrashCauses |
| Dispatch.RegionRows | ccl/frontend_demo.py:128-130 | `stats['regions']`, or nothing when the file or the key is missing; stated by Dispatch.CrashCauses |
| Dispatch.CategoryRows | ccl/frontend_demo.py:138-140 | `stats['categories'][type_group]`, or nothing when the file or a key is missing; stated by Dispatch.CrashCauses and Dispatch.StatsRequestLines |
| Dispatch.ChartFails | ccl/frontend_demo.py:126-143 | `px.bar` raises when its table cannot be read or is empty; stated by Dispatch.CrashCauses |
| Dispatch.LegalRequests | ccl/frontend_demo.py:106-123 | the loop displays the truncated body of, and sends one request with the context of, each article before the first incomplete one, and stops the page iff there is one |
| Dispatch.LegalPayload | ccl/frontend_demo.py:112-116 | the request sent for a found article: the query, the language code and the article's context; stated by Dispatch.LegalRequests and Dispatch.LegalContextsReadBack |
| Dispatch.HandleQuery | ccl/frontend_demo.py:100-179 | a press takes the router's path. A legal lookup retrieves, displays and sends as in the rows above. A category chart sends its table as context, or stops the page when the table cannot be read or is empty. The region chart sends nothing and stops iff its table cannot be read or is empty. The fallback sends the bare query |
| Dispatch.RequestsShape | ccl/frontend_demo.py:100-179 | at most three requests; each carries the query and the language code; a request lacks a context iff it is the fallback's, and the fallback sends exactly one |
| Presentation.LangCode | ccl/frontend_demo.py:96 | `lang_code`: "en" for English, "ua" otherwise; stated by Dispatch.RequestsShape |
| Presentation.Label | ccl/frontend_demo.py:141-145 | `row[label_col]`, the row's label in the chosen language (also line 131); stated by Presentation.StatsContextLines |
| Dispatch.CrashCauses | ccl/frontend_demo.py:100-143 | the page stops iff a found article lacks a key on the legal path, or the chart's table cannot be read or is empty on a chart path |
| Dispatch.HandleLoadedQuery | ccl/frontend_demo.py:31-104 | a press searches the collection loaded at start-up, the Rome Statute file's articles followed by the Geneva Conventions file's |
| Dispatch.LoadedLibraryLabelled | ccl/frontend_demo.py:15-29 | every loaded article carries the Rome Statute's or the Geneva Conventions' label |
| Dispatch.LoadedResultsLabelled | ccl/frontend_demo.py:31-104 | every article a legal lookup finds in the loaded collection carries one of those two labels |
| Dispatch.LegalContextsReadBack | ccl/frontend_demo.py:114 | each legal request's context reads back as its article's title and text |
| Dispatch.StatsRequestLines | ccl/frontend_demo.py:145-151 | a category request's context is the header naming the category, then one line per table row |
| Dispatch.CategoryName | ccl/frontend_demo.py:62-70 | the `type_group` strings, which key the table at line 140 and name the category at line 146; stated by Dispatch.StatsRequestLines |
| Segmentation.StopIndex | ccl/parse_legal_docs.py:19-23 | each of the three collection loops (also lines 46-50 and 66-70) stops at the first sibling the rule stops at, or when the siblings run out |
| Segmentation.Stops | ccl/parse_legal_docs.py:19-23 | the sibling at which each `while sib and ...` loop stops (also lines 48 and 68); stated by Segmentation.StopIndex and Segmentation.CollectedBeforeStop |
| Segmentation.CollectedText | ccl/parse_legal_docs.py:19-28 | an article's text; stated by Segmentation.CollectedBeforeStop |
| Segmentation.CollectText | ccl/parse_legal_docs.py:19-28 | an article's text is each collected sibling's text followed by a newline, the whole stripped |
| Segmentation.CollectedBeforeStop | ccl/parse_legal_docs.py:19-23 | nothing from the first stopping sibling on reaches the text |
| Segmentation.HeadingPass | ccl/parse_legal_docs.py:39-56 | a pass appends one article per tag whose text matches the heading pattern, in tag order |
| Segmentation.CandidateArticles | ccl/parse_legal_docs.py:40-56 | the `if m:` body for one tag: one article when its text matches, none otherwise (also lines 13-29 and 60-76); stated by Segmentation.PassArticlesEmpty and Segmentation.PassArticlesLabelled |
| Segmentation.ArticleRecord | ccl/parse_legal_docs.py:51-56 | the record dict with source, number, title and text (also lines 24-29 and 71-76); stated by Segmentation.PassArticlesLabelled |
| Segmentation.PassArticles | ccl/parse_legal_docs.py:12-29 | the articles of one pass; stated by Segmentation.PassArticlesConcat, Segmentation.PassArticlesEmpty and Segmentation.PassArticlesLabelled |
| Segmentation.PassArticlesConcat | ccl/parse_legal_docs.py:12-29 | a pass over two runs of tags is the pass over the first, then over the second |
| Segmentation.PassArticlesEmpty | ccl/parse_legal_docs.py:58 | a pass finds nothing iff no tag matches the heading pattern |
| Segmentation.PassArticlesLabelled | ccl/parse_legal_docs.py:24-29 | every article of a pass (also lines 51-56 and 71-76) carries its document's label and all four keys, and a pass yields at most one article per tag |
| Segmentation.ParseCriminalCode | ccl/parse_legal_docs.py:12-29 | the Criminal Code's articles are the "Стаття" pass over the `p` and `div` tags, each labelled "Criminal Code of Ukraine" |
| Segmentation.ParseRome | ccl/parse_legal_docs.py:39-76 | the Rome Statute's articles are the heading pass, or the `p` pass when the heading pass found none |
| Segmentation.RomeArticles | ccl/parse_legal_docs.py:39-76 | the Rome Statute's articles; stated by Segmentation.RomeFallbackCondition |
| Segmentation.RomeFallbackCondition | ccl/parse_legal_docs.py:58 | the `p` tags count iff no `h2`/`h3` tag matches the heading pattern |
| Segmentation.PageTexts | ccl/parse_legal_docs.py:92-95 | at most one text per page |
| Segmentation.PdfText | ccl/parse_legal_docs.py:91-95 | the PDF text is each page's text, skipping pages without text, followed by a newline; Segmentation.PageInText and Segmentation.PageWithoutText state both halves of `if page_text:` |
| Segmentation.PageTextsConcat | ccl/parse_legal_docs.py:92-95 | the page texts of two runs of pages are those of the first, then of the second |
| Segmentation.TerminatedConcat | ccl/parse_legal_docs.py:95 | newline-terminated text of two runs of lines is the first's followed by the second's |
| Segmentation.PageInText | ccl/parse_legal_docs.py:92-95 | a page with text appears whole in the document text, between the pages before and after it |
| Segmentation.PageWithoutText | ccl/parse_legal_docs.py:93-95 | a page with no text, or with empty text, adds nothing to the document text |
| Segmentation.SplitGeneva | ccl/parse_legal_docs.py:97-109 | one article per heading match, in match order, with that match's number and title, the Geneva label, and the stripped text from the match's end to the next match's start or the end of the text |
| Segmentation.NextStart | ccl/parse_legal_docs.py:102 | where an article's text ends, at the next match's start or the end of the text; stated by Segmentation.SplitGeneva and Segmentation.GenevaBodyWithin |
| Segmentation.GenevaBody | ccl/parse_legal_docs.py:101-103 | one Geneva article's text; stated by Segmentation.GenevaBodyWithin |
| Segmentation.GenevaBodyWithin | ccl/parse_legal_docs.py:101-103 | for ordered matches, an article's text lies between its heading and the next heading, so no other heading or article text leaks in |

## Left out

- Unicode normalization: `normalize` applies NFKC after `strip`. `Retrieval.Normalize` is lower-casing and stripping only. Normalized strings are only ever compared by the similarity ratio, so NFKC is folded into that parameter: the ratio of the two strings' NFKC forms is itself a `Similarity`, and nothing proved about retrieval is lost.
- Retrieval.NormalizeIdempotent: holds of lower-casing then stripping only. The program's `normalize` is not idempotent, because NFKC can produce upper-case letters and new surrounding whitespace: it turns "ℌ" into "H", which normalizes to "h".
- Text.Lower: models Python's `lower` only on ASCII, Latin-1 and the basic Cyrillic block (with Ґ). Every other character is left unchanged, including the few whose lower case in Python is longer than one character. Python's `lower` also depends on neighbouring characters (a final capital sigma becomes "ς", otherwise "σ"), so Text.LowerConcat and Text.LowerSlice hold of Python only on the modelled range. No keyword contains a sigma.
- Similarity: `difflib.SequenceMatcher.ratio` is a parameter, any function into [0, 1]. Its floating-point computation is not modelled, and neither is its particular value on any pair of strings.
- Ties in the sort: the model's sort is stable, as Python's is, but no property of the order among equal scores is proved.
- Retrieval.ExactTitleRanksFirst: proves that the first result scores 1.0, not that it is the given article, since the code does not promise that when scores tie.
- The user interface is not modelled: the Streamlit page, the radio button, the headings and markdown, and the plotly bar and pie charts. The charts are reduced to whether drawing them raises. They raise when the table cannot be read or is empty, since a frame built from an empty list has no columns to plot.
- The answer service's replies and failures are not modelled. Every request is modelled as sent. Each request's reply or error is caught and only displayed, so it does not change which requests are sent.
- Dispatch.CrashCauses: every key of an article is modelled as an optional string, as the scrapers write only strings. An article whose title or text is JSON `null` or a number is not modelled. In the program it makes `normalize` raise an `AttributeError` on every legal query, which is another way the page stops.
- The OpenAI client created at start-up is not modelled; it is never used.
- JSON and file I/O are not modelled. The article files and the statistics file are parameters that give what `json.load` returns. A statistics row missing `en`, `ua` or `cases`, or holding a non-integer count, is not modelled.
- The capitalized category names in the chart titles are UI and are not modelled. The statistics context names the category in lower case, as `type_group` is.
- The scraper's network fetches, HTML parsing and PDF extraction are not modelled. BeautifulSoup searches are given as the list of tags found, each with its following siblings. Each tag's text is given as `get_text(strip=True)` returns it.
- The scraper's regular expressions are parameters. For the heading patterns, this is a function from a tag's text to its number and title. For the Geneva pattern, it is the list of matches with their spans. Which strings these patterns accept is not modelled.
- The scraper's JSON output files and its debug printing are not modelled.
- `ccl/parse_t4pua_articles.py` is not part of this model. It is a retrying network fetch followed by field extraction from HTML, with no segmentation logic of its own.
