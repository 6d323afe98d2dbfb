/**
 * The explorer's query router: three keyword classifiers, each a
 * case-lowered substring test, and the dispatch that sends a submitted query
 * down exactly one of four paths, tried in a fixed order.
 */
module Routing {
  import opened Text
  import opened Records

  /** Keywords that make a query a legal-article lookup. */
  const LegalKeywords: seq<string> :=
    ["article", "стаття", "rome statute", "geneva", "criminal code", "кодекс", "статут", "женев"]

  /** Keywords that ask for the chart of cases by region. */
  const RegionKeywords: seq<string> :=
    ["statistics on regions", "bar chart of regions", "map of regions", "by region", "choropleth",
     "draw a map", "show map", "статистику по областях", "графік по областях", "мапа по областях",
     "по регіонах", "мапу", "побудуй мапу"]

  /** The three statistics categories, in the order they are tested. */
  datatype Category = Losses | Objects | Events

  /** The keywords that select each category. */
  function Keywords(c: Category): seq<string> {
    match c
    case Losses => ["type", "category", "категорі", "тип", "losses", "втрат"]
    case Objects => ["object", "об'єкт", "объект", "objects"]
    case Events => ["event", "поді", "событ", "events"]
  }

  /** The position of a category in the order of the tests. */
  function Priority(c: Category): nat {
    match c
    case Losses => 0
    case Objects => 1
    case Events => 2
  }

  /** `any(k in q for k in ks)`. */
  function MentionsAny(q: string, ks: seq<string>): (b: bool)
    ensures b <==> exists i :: 0 <= i < |ks| && Contains(q, ks[i])
  {
    if ks == [] then false
    else if Contains(q, ks[0]) then true
    else
      var b := MentionsAny(q, ks[1..]);
      assert forall i :: 1 <= i < |ks| ==> ks[i] == ks[1..][i - 1];
      b
  }

  /** `is_legal_query`. */
  function IsLegalQuery(query: string): bool {
    MentionsAny(Lower(query), LegalKeywords)
  }

  /** `is_region_stats_query`. */
  function IsRegionStatsQuery(query: string): bool {
    MentionsAny(Lower(query), RegionKeywords)
  }

  /** Some keyword of category `c` occurs in the lowered query. */
  predicate Mentions(query: string, c: Category) {
    MentionsAny(Lower(query), Keywords(c))
  }

  /** `detect_type_query`: the first category whose keywords occur, if any. */
  function DetectTypeQuery(query: string): Option<Category> {
    if Mentions(query, Losses) then Some(Losses)
    else if Mentions(query, Objects) then Some(Objects)
    else if Mentions(query, Events) then Some(Events)
    else None
  }

  /**
   * A category is detected exactly when its keywords occur and those of no
   * category tested before it do; nothing is detected exactly when no
   * category's keywords occur.
   */
  lemma {:induction false} DetectTypeFirstMatch(query: string, c: Category)
    ensures DetectTypeQuery(query) == Some(c) <==>
      Mentions(query, c) && forall d :: Priority(d) < Priority(c) ==> !Mentions(query, d)
    ensures DetectTypeQuery(query) == None <==> forall d :: !Mentions(query, d)
  {
    assert Priority(Losses) < Priority(Objects) < Priority(Events);
  }

  /** The four paths of the dispatch, and `Idle` when it does not run. */
  datatype Path = Idle | LegalLookup | RegionChart | CategoryChart(category: Category) | RemoteFallback

  /**
   * The dispatch: it runs only when the button was pressed and the query is
   * not empty, and then tries legal lookup, the region chart, a category
   * chart and the remote answer service, in that order.
   */
  function Route(pressed: bool, query: string): Path {
    if !pressed || query == [] then Idle
    else if IsLegalQuery(query) then LegalLookup
    else if IsRegionStatsQuery(query) then RegionChart
    else match DetectTypeQuery(query)
      case Some(c) => CategoryChart(c)
      case None => RemoteFallback
  }

  /** The condition under which the dispatch takes each path. */
  predicate Takes(path: Path, pressed: bool, query: string) {
    var active := pressed && query != [];
    match path
    case Idle => !active
    case LegalLookup => active && IsLegalQuery(query)
    case RegionChart => active && !IsLegalQuery(query) && IsRegionStatsQuery(query)
    case CategoryChart(c) => active && !IsLegalQuery(query) && !IsRegionStatsQuery(query) && DetectTypeQuery(query) == Some(c)
    case RemoteFallback => active && !IsLegalQuery(query) && !IsRegionStatsQuery(query) && DetectTypeQuery(query) == None
  }

  /** Routing is total and exclusive: the path taken is the only one whose condition holds. */
  lemma {:induction false} RouteExclusive(pressed: bool, query: string, path: Path)
    ensures Takes(path, pressed, query) <==> path == Route(pressed, query)
  {
  }

  /** The classifiers lower-case the query first, so the route ignores case. */
  lemma {:induction false} RouteIgnoresCase(pressed: bool, query: string)
    ensures Route(pressed, Lower(query)) == Route(pressed, query)
  {
    LowerIdempotent(query);
    assert |Lower(query)| == |query|;
  }

  /** A keyword found in a query is still found once text is added around the query. */
  lemma {:induction false} MentionsInContext(before: string, query: string, after: string, ks: seq<string>)
    requires MentionsAny(Lower(query), ks)
    ensures MentionsAny(Lower(before + query + after), ks)
  {
    var i :| 0 <= i < |ks| && Contains(Lower(query), ks[i]);
    ContainsInContext(Lower(before), Lower(query), Lower(after), ks[i]);
    LowerConcat(before + query, after);
    LowerConcat(before, query);
    assert Contains(Lower(before + query + after), ks[i]);
  }

  /** A query naming a legal keyword is a legal lookup whatever text surrounds it. */
  lemma {:induction false} LegalWinsUnderExtension(before: string, query: string, after: string)
    requires IsLegalQuery(query)
    ensures Route(true, before + query + after) == LegalLookup
  {
    MentionsInContext(before, query, after, LegalKeywords);
    assert |before + query + after| >= |query| > 0;
  }

  /** A losses keyword selects the losses chart whatever other keywords surround it. */
  lemma {:induction false} LossesWinsUnderExtension(before: string, query: string, after: string)
    requires Mentions(query, Losses)
    ensures DetectTypeQuery(before + query + after) == Some(Losses)
  {
    MentionsInContext(before, query, after, Keywords(Losses));
  }

  /** Nothing happens until the button is pressed with a non-empty query. */
  lemma {:induction false} EmptyQueryIdle(pressed: bool, query: string)
    ensures Route(pressed, "") == Idle
    ensures Route(false, query) == Idle
  {
  }

  /** A string whose characters are already lower case is its own lower-casing. */
  lemma {:induction false} LowerOfLowerCase(s: string)
    requires forall i :: 0 <= i < |s| ==> LowerChar(s[i]) == s[i]
    ensures Lower(s) == s
  {
  }

  /** Every legal keyword is already lower case. */
  lemma {:induction false} LegalKeywordsLowerCase(i: nat)
    requires i < |LegalKeywords|
    ensures Lower(LegalKeywords[i]) == LegalKeywords[i]
  {
    LowerOfLowerCase(LegalKeywords[i]);
  }

  /** Any query that spells out a legal keyword, whatever surrounds it, is a legal lookup. */
  lemma {:induction false} LegalKeywordRoutesToLookup(before: string, i: nat, after: string)
    requires i < |LegalKeywords|
    ensures Route(true, before + LegalKeywords[i] + after) == LegalLookup
  {
    var k := LegalKeywords[i];
    LegalKeywordsLowerCase(i);
    assert OccursAt(k, k, 0);
    LegalWinsUnderExtension(before, k, after);
  }

  /** "Which article covers torture in the Rome Statute?" is a legal lookup. */
  lemma {:induction false} LegalExample()
    ensures Route(true, "Which " + "article" + " covers torture in the Rome Statute?") == LegalLookup
  {
    assert LegalKeywords[0] == "article";
    LegalKeywordRoutesToLookup("Which ", 0, " covers torture in the Rome Statute?");
  }

  /** Every region keyword is already lower case. */
  lemma {:induction false} RegionKeywordsLowerCase(i: nat)
    requires i < |RegionKeywords|
    ensures Lower(RegionKeywords[i]) == RegionKeywords[i]
  {
    if i < 7 {
      LatinRegionKeywordsLowerCase(i);
    } else {
      CyrillicRegionKeywordsLowerCase(i);
    }
  }

  lemma {:induction false} LatinRegionKeywordsLowerCase(i: nat)
    requires i < 7
    ensures Lower(RegionKeywords[i]) == RegionKeywords[i]
  {
    LowerOfLowerCase(RegionKeywords[i]);
  }

  lemma {:induction false} CyrillicRegionKeywordsLowerCase(i: nat)
    requires 7 <= i < |RegionKeywords|
    ensures Lower(RegionKeywords[i]) == RegionKeywords[i]
  {
    LowerOfLowerCase(RegionKeywords[i]);
  }

  /**
   * A query that spells out a region keyword and names no legal keyword is
   * sent to the region chart, whatever category keywords it also names.
   */
  lemma {:induction false} RegionKeywordRoutesToChart(before: string, i: nat, after: string)
    requires i < |RegionKeywords|
    requires !IsLegalQuery(before + RegionKeywords[i] + after)
    ensures Route(true, before + RegionKeywords[i] + after) == RegionChart
  {
    var k := RegionKeywords[i];
    RegionKeywordsLowerCase(i);
    assert OccursAt(k, k, 0);
    MentionsInContext(before, k, after, RegionKeywords);
    assert |before + k + after| >= |k| > 0;
  }

  /** "show me statistics on regions" draws the region chart. */
  lemma {:induction false} RegionExample()
    ensures Route(true, "show me " + RegionKeywords[0]) == RegionChart
  {
    var q := "show me " + RegionKeywords[0];
    assert q == "show me " + RegionKeywords[0] + "";
    LowerOfLowerCase(q);
    NoKeyword(q, LegalKeywords, ['l', 'с', 'u', 'v', 'l', 'к', 'с', 'ж']);
    RegionKeywordRoutesToChart("show me ", 0, "");
  }

  /** Every category keyword is already lower case. */
  lemma {:induction false} CategoryKeywordsLowerCase(c: Category, i: nat)
    requires i < |Keywords(c)|
    ensures Lower(Keywords(c)[i]) == Keywords(c)[i]
  {
    LowerOfLowerCase(Keywords(c)[i]);
  }

  /**
   * A query that spells out a keyword of category `c`, and names no legal,
   * region or earlier category keyword, is sent to `c`'s chart.
   */
  lemma {:induction false} CategoryKeywordRoutesToChart(before: string, c: Category, i: nat, after: string)
    requires i < |Keywords(c)|
    requires var q := before + Keywords(c)[i] + after;
      !IsLegalQuery(q) && !IsRegionStatsQuery(q) && forall d :: Priority(d) < Priority(c) ==> !Mentions(q, d)
    ensures Route(true, before + Keywords(c)[i] + after) == CategoryChart(c)
  {
    var k := Keywords(c)[i];
    var q := before + k + after;
    CategoryKeywordsLowerCase(c, i);
    assert OccursAt(k, k, 0);
    MentionsInContext(before, k, after, Keywords(c));
    DetectTypeFirstMatch(q, c);
    assert |q| >= |k| > 0;
  }

  /** "show me statistics by objects". */
  const ObjectsQuery: string := "show me statistics by " + "objects"

  lemma {:induction false} ObjectsQueryLowerCase()
    ensures Lower(ObjectsQuery) == ObjectsQuery
  {
    LowerOfLowerCase(ObjectsQuery);
  }

  lemma {:induction false} ObjectsQueryNotLegal()
    ensures !IsLegalQuery(ObjectsQuery)
  {
    ObjectsQueryLowerCase();
    NoKeyword(ObjectsQuery, LegalKeywords, ['r', 'с', 'r', 'g', 'r', 'к', 'с', 'ж']);
  }

  lemma {:induction false} ObjectsQueryNotRegion()
    ensures !IsRegionStatsQuery(ObjectsQuery)
  {
    ObjectsQueryLowerCase();
    ObjectsQueryMissesLatinRegions();
    ObjectsQueryMissesCyrillicRegions();
  }

  lemma {:induction false} ObjectsQueryMissesLatinRegions()
    ensures forall i :: 0 <= i < 7 ==> !Contains(ObjectsQuery, RegionKeywords[i])
  {
    NoKeywordFrom(ObjectsQuery, RegionKeywords, 0, ['r', 'r', 'p', 'r', 'r', 'r', 'p']);
  }

  lemma {:induction false} ObjectsQueryMissesCyrillicRegions()
    ensures forall i :: 7 <= i < |RegionKeywords| ==> !Contains(ObjectsQuery, RegionKeywords[i])
  {
    NoKeywordFrom(ObjectsQuery, RegionKeywords, 7, ['с', 'г', 'м', 'п', 'м', 'п']);
  }

  lemma {:induction false} ObjectsQueryNotLosses()
    ensures !Mentions(ObjectsQuery, Losses)
  {
    ObjectsQueryLowerCase();
    NoKeyword(ObjectsQuery, Keywords(Losses), ['p', 'g', 'к', 'т', 'l', 'в']);
  }

  /** "show me statistics by objects" draws the objects chart. */
  lemma {:induction false} ObjectsExample()
    ensures Route(true, ObjectsQuery) == CategoryChart(Objects)
  {
    ObjectsQueryNotLegal();
    ObjectsQueryNotRegion();
    ObjectsQueryNotLosses();
    assert Keywords(Objects)[3] == "objects";
    assert ObjectsQuery == "show me statistics by " + Keywords(Objects)[3] + "";
    CategoryKeywordRoutesToChart("show me statistics by ", Objects, 3, "");
  }

  /** The keyword lists of the classifiers. */
  datatype KeywordList = LegalList | RegionList | CategoryList(category: Category)

  function KeywordsOf(l: KeywordList): seq<string> {
    match l
    case LegalList => LegalKeywords
    case RegionList => RegionKeywords
    case CategoryList(c) => Keywords(c)
  }

  /** "hello" names no keyword of any list. */
  lemma {:induction false} HelloMisses(l: KeywordList)
    ensures !MentionsAny(Lower("hello"), KeywordsOf(l))
  {
    var q := "hello";
    LowerOfLowerCase(q);
    match l
    case LegalList => NoKeyword(q, LegalKeywords, ['a', 'с', 'r', 'g', 'r', 'к', 'с', 'ж']);
    case RegionList => NoKeyword(q, RegionKeywords, ['a', 'a', 'a', 'r', 'c', 'a', 'a', 'с', 'г', 'м', 'п', 'м', 'п']);
    case CategoryList(c) => HelloMissesCategory(c);
  }

  lemma {:induction false} HelloMissesCategory(c: Category)
    ensures !MentionsAny("hello", Keywords(c))
  {
    var q := "hello";
    match c
    case Losses => NoKeyword(q, Keywords(Losses), ['t', 'c', 'к', 'т', 's', 'в']);
    case Objects => NoKeyword(q, Keywords(Objects), ['b', 'б', 'б', 'b']);
    case Events => NoKeyword(q, Keywords(Events), ['v', 'п', 'с', 'v']);
  }

  /** "hello" goes to the remote answer service. */
  lemma {:induction false} RouteFallbackExample()
    ensures Route(true, "hello") == RemoteFallback
  {
    HelloMisses(LegalList);
    HelloMisses(RegionList);
    HelloMisses(CategoryList(Losses));
    HelloMisses(CategoryList(Objects));
    HelloMisses(CategoryList(Events));
  }

  /** No keyword of `ks` occurs in `q` when each lacks a character, `missing[i]`, that `q` lacks. */
  lemma {:induction false} NoKeyword(q: string, ks: seq<string>, missing: seq<char>)
    requires |missing| == |ks|
    requires forall i :: 0 <= i < |ks| ==> missing[i] in ks[i] && missing[i] !in q
    ensures !MentionsAny(q, ks)
  {
    NoKeywordFrom(q, ks, 0, missing);
  }

  /** The same for the keywords `ks[lo]`, ..., each lacking its `missing[i - lo]`. */
  lemma {:induction false} NoKeywordFrom(q: string, ks: seq<string>, lo: nat, missing: seq<char>)
    requires lo + |missing| <= |ks|
    requires forall i :: 0 <= i < |missing| ==> missing[i] in ks[lo + i] && missing[i] !in q
    ensures forall i :: lo <= i < lo + |missing| ==> !Contains(q, ks[i])
  {
    forall i | lo <= i < lo + |missing| ensures !Contains(q, ks[i]) {
      MissingCharNotContained(q, ks[i], missing[i - lo]);
    }
  }
}
