/**
 * The segmentation done by the scraper for the three legal documents, with
 * the network, the HTML tree, the PDF reader and the regular expressions
 * abstracted: an HTML page is the list of tags a search returns, each with
 * the siblings that follow it; a heading regex is a parameter from a tag's
 * text to its article number and title; the PDF is the list of its pages'
 * extracted texts; the Geneva regex is the list of its matches.
 */
module Segmentation {
  import opened Text
  import opened Records

  /** An HTML tag: its name and its text as `get_text(strip=True)` gives it. */
  datatype Element = Element(name: string, text: string)

  /** A tag returned by `find_all`, with the siblings that follow it, in document order. */
  datatype Candidate = Candidate(tag: Element, following: seq<Element>)

  /** The groups of an article-heading match: the article number and the title. */
  datatype Heading = Heading(number: string, title: string)

  /** `re.match` of an article-heading pattern against a tag's text. */
  type HeadingParser = string -> Option<Heading>

  /** The sibling at which each collection loop stops. */
  datatype StopRule =
    | AtArticleLine  // Criminal Code: a sibling whose text starts with "Стаття"
    | AtHeading      // Rome Statute, first pass: an `h2` or `h3` sibling
    | AtParagraph    // Rome Statute, fallback pass: a `p` sibling

  const ArticleWord: string := "Стаття"

  predicate Stops(rule: StopRule, e: Element) {
    match rule
    case AtArticleLine => StartsWith(e.text, ArticleWord)
    case AtHeading => e.name == "h2" || e.name == "h3"
    case AtParagraph => e.name == "p"
  }

  /** How many siblings are collected: those before the first one the rule stops at. */
  function StopIndex(rule: StopRule, sibs: seq<Element>): (k: nat)
    ensures k <= |sibs|
    ensures forall j :: 0 <= j < k ==> !Stops(rule, sibs[j])
    ensures k < |sibs| ==> Stops(rule, sibs[k])
  {
    if sibs == [] || Stops(rule, sibs[0]) then 0 else 1 + StopIndex(rule, sibs[1..])
  }

  /** The texts of some siblings, in order. */
  function Texts(sibs: seq<Element>): (ts: seq<string>)
    ensures |ts| == |sibs| && forall j :: 0 <= j < |sibs| ==> ts[j] == sibs[j].text
  {
    seq(|sibs|, j requires 0 <= j < |sibs| => sibs[j].text)
  }

  /**
   * An article's text: each collected sibling's text followed by a newline,
   * the whole stripped.
   */
  function CollectedText(rule: StopRule, sibs: seq<Element>): string {
    Strip(Terminated(Texts(sibs[..StopIndex(rule, sibs)])))
  }

  /** The `while sib and ...` loops (lines 20-23, 46-50, 66-70) and the final `strip`. */
  method CollectText(rule: StopRule, sibs: seq<Element>) returns (text: string)
    ensures text == CollectedText(rule, sibs)
  {
    var articleText := "";
    var i := 0;
    while i < |sibs| && !Stops(rule, sibs[i])
      invariant i <= StopIndex(rule, sibs)
      invariant articleText == Terminated(Texts(sibs[..i]))
    {
      TerminatedSnoc(Texts(sibs[..i]), sibs[i].text);
      assert Texts(sibs[..i + 1]) == Texts(sibs[..i]) + [sibs[i].text];
      articleText := articleText + sibs[i].text + "\n";
      i := i + 1;
    }
    text := Strip(articleText);
  }

  /**
   * Nothing from the first stopping sibling on reaches the text: the siblings
   * before it decide the text alone, whatever follows.
   */
  lemma {:induction false} CollectedBeforeStop(rule: StopRule, before: seq<Element>, stop: Element, after: seq<Element>)
    requires forall j :: 0 <= j < |before| ==> !Stops(rule, before[j])
    requires Stops(rule, stop)
    ensures CollectedText(rule, before + [stop] + after) == Strip(Terminated(Texts(before)))
  {
    var sibs := before + [stop] + after;
    assert sibs[|before|] == stop;
    assert forall j :: 0 <= j < |before| ==> sibs[j] == before[j];
    var k := StopIndex(rule, sibs);
    assert k == |before|;
    assert sibs[..k] == before;
  }

  /** The record built for one matching tag. */
  function ArticleRecord(sourceName: string, h: Heading, text: string): Record {
    Record(Some(sourceName), Some(h.number), Some(h.title), Some(text))
  }

  /** What one tag contributes: an article when its text matches the heading pattern. */
  function CandidateArticles(parse: HeadingParser, rule: StopRule, sourceName: string, c: Candidate): seq<Record> {
    match parse(c.tag.text)
    case None => []
    case Some(h) => [ArticleRecord(sourceName, h, CollectedText(rule, c.following))]
  }

  /** The articles of one pass over the tags, in tag order. */
  function PassArticles(parse: HeadingParser, rule: StopRule, sourceName: string, cs: seq<Candidate>): seq<Record> {
    if cs == [] then []
    else PassArticles(parse, rule, sourceName, cs[..|cs| - 1]) + CandidateArticles(parse, rule, sourceName, cs[|cs| - 1])
  }

  /** One `for tag in soup.find_all(...)` pass, appending an article per matching tag. */
  method HeadingPass(parse: HeadingParser, rule: StopRule, sourceName: string, cs: seq<Candidate>) returns (articles: seq<Record>)
    ensures articles == PassArticles(parse, rule, sourceName, cs)
  {
    articles := [];
    for i := 0 to |cs|
      invariant articles == PassArticles(parse, rule, sourceName, cs[..i])
    {
      assert cs[..i + 1][..i] == cs[..i];
      var m := parse(cs[i].tag.text);
      if m.Some? {
        var text := CollectText(rule, cs[i].following);
        articles := articles + [ArticleRecord(sourceName, m.value, text)];
      }
    }
    assert cs[..|cs|] == cs;
  }

  /** A pass over two runs of tags is the pass over the first, then over the second. */
  lemma {:induction false} PassArticlesConcat(parse: HeadingParser, rule: StopRule, sourceName: string, a: seq<Candidate>, b: seq<Candidate>)
    ensures PassArticles(parse, rule, sourceName, a + b) == PassArticles(parse, rule, sourceName, a) + PassArticles(parse, rule, sourceName, b)
    decreases |b|
  {
    if b == [] {
      assert a + b == a;
    } else {
      var b' := b[..|b| - 1];
      assert (a + b)[..|a + b| - 1] == a + b';
      assert (a + b)[|a + b| - 1] == b[|b| - 1];
      PassArticlesConcat(parse, rule, sourceName, a, b');
    }
  }

  /** A pass finds nothing exactly when no tag's text matches the heading pattern. */
  lemma {:induction false} PassArticlesEmpty(parse: HeadingParser, rule: StopRule, sourceName: string, cs: seq<Candidate>)
    ensures PassArticles(parse, rule, sourceName, cs) == [] <==> forall j :: 0 <= j < |cs| ==> parse(cs[j].tag.text).None?
    decreases |cs|
  {
    if cs != [] {
      var init := cs[..|cs| - 1];
      PassArticlesEmpty(parse, rule, sourceName, init);
      assert forall j :: 0 <= j < |init| ==> init[j] == cs[j];
    }
  }

  /**
   * Every article of a pass carries the document's label and all four keys,
   * and a pass yields at most one article per tag.
   */
  lemma {:induction false} PassArticlesLabelled(parse: HeadingParser, rule: StopRule, sourceName: string, cs: seq<Candidate>)
    ensures var r := PassArticles(parse, rule, sourceName, cs);
      && |r| <= |cs|
      && forall i :: 0 <= i < |r| ==>
           r[i].source == Some(sourceName) && r[i].number.Some? && r[i].title.Some? && r[i].text.Some?
    decreases |cs|
  {
    if cs != [] {
      PassArticlesLabelled(parse, rule, sourceName, cs[..|cs| - 1]);
    }
  }

  /** The Criminal Code: `p` and `div` tags matching the "Стаття" heading. */
  method ParseCriminalCode(parse: HeadingParser, cs: seq<Candidate>) returns (articles: seq<Record>)
    ensures articles == PassArticles(parse, AtArticleLine, CriminalCodeLabel, cs)
  {
    articles := HeadingPass(parse, AtArticleLine, CriminalCodeLabel, cs);
  }

  /** The Rome Statute's articles: the heading pass, or the `p` pass when the heading pass found none. */
  function RomeArticles(parse: HeadingParser, headings: seq<Candidate>, paragraphs: seq<Candidate>): seq<Record> {
    var first := PassArticles(parse, AtHeading, RomeStatuteLabel, headings);
    if first == [] then PassArticles(parse, AtParagraph, RomeStatuteLabel, paragraphs) else first
  }

  /** The Rome Statute: `h3`/`h2` tags first and, failing those, `p` tags. */
  method ParseRome(parse: HeadingParser, headings: seq<Candidate>, paragraphs: seq<Candidate>) returns (articles: seq<Record>)
    ensures articles == RomeArticles(parse, headings, paragraphs)
  {
    articles := HeadingPass(parse, AtHeading, RomeStatuteLabel, headings);
    if articles == [] {
      articles := HeadingPass(parse, AtParagraph, RomeStatuteLabel, paragraphs);
    }
  }

  /**
   * The `p` tags are looked at only when no `h2`/`h3` tag matches the heading
   * pattern; as soon as one does, the result is the heading pass alone.
   */
  lemma {:induction false} RomeFallbackCondition(parse: HeadingParser, headings: seq<Candidate>, paragraphs: seq<Candidate>)
    ensures (exists j :: 0 <= j < |headings| && parse(headings[j].tag.text).Some?) ==>
      RomeArticles(parse, headings, paragraphs) == PassArticles(parse, AtHeading, RomeStatuteLabel, headings) != []
    ensures (forall j :: 0 <= j < |headings| ==> parse(headings[j].tag.text).None?) ==>
      RomeArticles(parse, headings, paragraphs) == PassArticles(parse, AtParagraph, RomeStatuteLabel, paragraphs)
  {
    PassArticlesEmpty(parse, AtHeading, RomeStatuteLabel, headings);
  }

  /** The texts of the pages that have any, in page order. */
  function PageTexts(pages: seq<Option<string>>): (ts: seq<string>)
    ensures |ts| <= |pages|
  {
    if pages == [] then []
    else
      var last := pages[|pages| - 1];
      PageTexts(pages[..|pages| - 1]) + (if last.Some? && last.value != [] then [last.value] else [])
  }

  /** The loop over the PDF's pages: `text += page_text + '\n'` for each page with text. */
  method PdfText(pages: seq<Option<string>>) returns (text: string)
    ensures text == Terminated(PageTexts(pages))
  {
    text := "";
    for i := 0 to |pages|
      invariant text == Terminated(PageTexts(pages[..i]))
    {
      var pageText := pages[i];
      assert pages[..i + 1] == pages[..i] + [pageText];
      if pageText.Some? && pageText.value != [] {
        assert PageTexts(pages[..i + 1]) == PageTexts(pages[..i]) + [pageText.value];
        TerminatedSnoc(PageTexts(pages[..i]), pageText.value);
        text := text + pageText.value + "\n";
      } else {
        assert PageTexts(pages[..i + 1]) == PageTexts(pages[..i]);
      }
    }
    assert pages[..|pages|] == pages;
  }

  lemma {:induction false} PageTextsConcat(a: seq<Option<string>>, b: seq<Option<string>>)
    ensures PageTexts(a + b) == PageTexts(a) + PageTexts(b)
    decreases |b|
  {
    if b == [] {
      assert a + b == a;
    } else {
      var b' := b[..|b| - 1];
      assert (a + b)[..|a + b| - 1] == a + b';
      assert (a + b)[|a + b| - 1] == b[|b| - 1];
      PageTextsConcat(a, b');
    }
  }

  lemma {:induction false} TerminatedConcat(a: seq<string>, b: seq<string>)
    ensures Terminated(a + b) == Terminated(a) + Terminated(b)
    decreases |a|
  {
    if a != [] {
      assert (a + b)[1..] == a[1..] + b;
      TerminatedConcat(a[1..], b);
    } else {
      assert a + b == b;
    }
  }

  /**
   * A page with text appears whole in the document text, followed by a
   * newline, between the texts of the pages before and after it.
   */
  lemma {:induction false} PageInText(before: seq<Option<string>>, page: string, after: seq<Option<string>>)
    requires page != []
    ensures Terminated(PageTexts(before + [Some(page)] + after)) ==
      Terminated(PageTexts(before)) + page + "\n" + Terminated(PageTexts(after))
  {
    PageTextsConcat(before + [Some(page)], after);
    PageTextsConcat(before, [Some(page)]);
    assert PageTexts([Some(page)]) == [page] by {
      assert [Some(page)][..0] == [];
    }
    TerminatedConcat(PageTexts(before) + [page], PageTexts(after));
    TerminatedSnoc(PageTexts(before), page);
  }

  /** A page with no text, or with empty text, adds nothing to the document text. */
  lemma {:induction false} PageWithoutText(before: seq<Option<string>>, page: Option<string>, after: seq<Option<string>>)
    requires page.None? || page.value == []
    ensures PageTexts(before + [page] + after) == PageTexts(before) + PageTexts(after)
  {
    PageTextsConcat(before + [page], after);
    PageTextsConcat(before, [page]);
    assert PageTexts([page]) == [] by {
      assert [page][..0] == [];
    }
  }

  /** One match of the Geneva heading regex: its span in the text and its groups. */
  datatype Match = Match(start: nat, end: nat, number: string, title: string)

  /** `re.finditer` gives matches in order, each inside the text, none overlapping. */
  ghost predicate Ordered(text: string, ms: seq<Match>) {
    && (forall i :: 0 <= i < |ms| ==> ms[i].start <= ms[i].end <= |text|)
    && (forall i :: 0 <= i < |ms| - 1 ==> ms[i].end <= ms[i + 1].start)
  }

  /** Where article `i`'s text ends: at the next match's start, or the end of the text. */
  function NextStart(text: string, ms: seq<Match>, i: nat): nat
    requires i < |ms|
  {
    if i + 1 < |ms| then ms[i + 1].start else |text|
  }

  /** `text[start:end].strip()` for article `i`. */
  function GenevaBody(text: string, ms: seq<Match>, i: nat): string
    requires i < |ms|
  {
    Strip(PySlice(text, ms[i].end, NextStart(text, ms, i)))
  }

  /** The loop over the matches (lines 98-109): one article per match, in match order. */
  method SplitGeneva(text: string, ms: seq<Match>) returns (articles: seq<Record>)
    ensures |articles| == |ms|
    ensures forall i :: 0 <= i < |ms| ==>
      articles[i] == Record(Some(GenevaLabel), Some(ms[i].number), Some(ms[i].title), Some(GenevaBody(text, ms, i)))
  {
    articles := [];
    for i := 0 to |ms|
      invariant |articles| == i
      invariant forall j :: 0 <= j < i ==>
        articles[j] == Record(Some(GenevaLabel), Some(ms[j].number), Some(ms[j].title), Some(GenevaBody(text, ms, j)))
    {
      var m := ms[i];
      var start := m.end;
      var end := if i + 1 < |ms| then ms[i + 1].start else |text|;
      var articleText := Strip(PySlice(text, start, end));
      articles := articles + [Record(Some(GenevaLabel), Some(m.number), Some(m.title), Some(articleText))];
    }
  }

  /**
   * For ordered matches, article `i`'s text is a piece of the text lying
   * between the end of match `i` and the start of the next match (or the end
   * of the text), so no heading and no other article's text leaks into it.
   */
  lemma {:induction false} GenevaBodyWithin(text: string, ms: seq<Match>, i: nat)
    requires Ordered(text, ms) && i < |ms|
    ensures exists p: nat :: ms[i].end <= p && p + |GenevaBody(text, ms, i)| <= NextStart(text, ms, i)
                              && OccursAt(text, GenevaBody(text, ms, i), p)
  {
    var a, b := ms[i].end, NextStart(text, ms, i);
    assert ms[i].start <= a <= |text|;
    if i + 1 < |ms| {
      assert a <= ms[i + 1].start <= ms[i + 1].end <= |text|;
    }
    var raw := text[a..b];
    assert PySlice(text, a, b) == raw;
    var body := Strip(raw);
    assert GenevaBody(text, ms, i) == body;
    var p := StripSlice(raw);
    assert raw[p..p + |body|] == body;
    forall k | 0 <= k < |body| ensures text[a + p + k] == body[k] {
      assert body[k] == raw[p + k];
    }
    assert text[a + p..a + p + |body|] == body;
    assert OccursAt(text, body, a + p);
  }
}
