/**
 * One press of the "Ask" button: the route the query takes and what each
 * path then does that the model can state — the articles found and the
 * bodies displayed, the requests sent to the answer service, and whether the
 * page stops on an uncaught exception. The statistics file is a parameter;
 * the service's replies are not modelled, since every failure of a request is
 * caught and only displayed.
 */
module Dispatch {
  import opened Text
  import opened Records
  import opened Routing
  import opened Retrieval
  import opened Presentation
  import opened Loader

  /** A request to the answer service: `{"query", "lang"}` and, optionally, `"context_override"`. */
  datatype Payload = Payload(query: string, lang: string, contextOverride: Option<string>)

  /**
   * The statistics file as `json.load` gives it: the per-region rows, and
   * the per-category tables keyed by category name, each `None` when the
   * key is absent.
   */
  datatype StatsData = StatsData(regions: Option<seq<StatRow>>, categories: Option<map<string, seq<StatRow>>>)

  /** What a press of the button leads to. */
  datatype Outcome = Outcome(path: Path, found: seq<Record>, bodies: seq<string>, requests: seq<Payload>, crashed: bool)

  /** `type_group`: the category's name, which keys its table and names it in the context. */
  function CategoryName(c: Category): string {
    match c
    case Losses => "losses"
    case Objects => "objects"
    case Events => "events"
  }

  /**
   * The rows of a category's table, or `None` when reading them raises: the
   * file cannot be opened or parsed, or has no `categories` key, or no table
   * for the category.
   */
  function CategoryRows(stats: Option<StatsData>, c: Category): Option<seq<StatRow>> {
    if stats.None? || stats.value.categories.None? || CategoryName(c) !in stats.value.categories.value then None
    else Some(stats.value.categories.value[CategoryName(c)])
  }

  /**
   * The rows of the region table, or `None` when reading them raises: the
   * file cannot be opened or parsed, or has no `regions` key.
   */
  function RegionRows(stats: Option<StatsData>): Option<seq<StatRow>> {
    if stats.None? || stats.value.regions.None? then None else Some(stats.value.regions.value)
  }

  /**
   * Drawing the bar chart of a table raises: the table cannot be read, or it
   * is empty, and the frame built from an empty list has no columns to plot.
   */
  predicate ChartFails(rows: Option<seq<StatRow>>) {
    rows.None? || rows.value == []
  }

  /** A found article has every key that displaying and sending it reads. */
  predicate Complete(r: Record) {
    r.source.Some? && r.number.Some? && r.title.Some? && r.text.Some?
  }

  /**
   * How many leading found articles are complete: the loop over the results
   * raises a `KeyError` outside its `try` at the first one that is not.
   */
  function CompleteRun(found: seq<Record>): (k: nat)
    ensures k <= |found|
    ensures forall j :: 0 <= j < k ==> Complete(found[j])
    ensures k < |found| ==> !Complete(found[k])
  {
    if found == [] || !Complete(found[0]) then 0 else 1 + CompleteRun(found[1..])
  }

  /** The request sent for one found article, with the article as its context. */
  function LegalPayload(query: string, code: string, r: Record): Payload
    requires Complete(r)
  {
    Payload(query, code, Some(LegalContext(r.title.value, r.text.value)))
  }

  /**
   * The loop over the found articles (lines 106-123): display each body and
   * send one request per article, until an article lacks a key.
   */
  method LegalRequests(query: string, code: string, found: seq<Record>)
    returns (bodies: seq<string>, requests: seq<Payload>, crashed: bool)
    ensures var k := CompleteRun(found);
      && |bodies| == k && |requests| == k
      && (forall j :: 0 <= j < k ==> bodies[j] == DisplayBody(found[j].text.value))
      && (forall j :: 0 <= j < k ==> requests[j] == LegalPayload(query, code, found[j]))
      && (crashed <==> k < |found|)
  {
    bodies, requests, crashed := [], [], false;
    var i := 0;
    while i < |found|
      invariant i <= CompleteRun(found)
      invariant |bodies| == i && |requests| == i
      invariant forall j :: 0 <= j < i ==> bodies[j] == DisplayBody(found[j].text.value)
      invariant forall j :: 0 <= j < i ==> requests[j] == LegalPayload(query, code, found[j])
    {
      var art := found[i];
      if !Complete(art) {
        crashed := true;
        return;
      }
      bodies := bodies + [DisplayBody(art.text.value)];
      requests := requests + [LegalPayload(query, code, art)];
      i := i + 1;
    }
  }

  /**
   * What a press leads to, path by path: the route is the router's; a legal
   * lookup retrieves, displays and sends the leading complete articles; a
   * category chart sends the table as context, or stops when the table
   * cannot be read or is empty; the region chart sends nothing and stops in
   * the same cases; the fallback sends the bare query.
   */
  ghost predicate Handled(sim: Similarity, library: seq<Record>, stats: Option<StatsData>, pressed: bool,
                          query: string, lang: Lang, o: Outcome)
  {
    var code := LangCode(lang);
    && o.path == Route(pressed, query)
    && (o.path != LegalLookup ==> o.found == [] && o.bodies == [])
    && match o.path
       case Idle => o.requests == [] && !o.crashed
       case LegalLookup =>
         var k := CompleteRun(o.found);
         && Retrieved(ScoreAgainst(sim, Normalize(query)), library, o.found)
         && |o.bodies| == k && |o.requests| == k
         && (forall j :: 0 <= j < k ==> o.bodies[j] == DisplayBody(o.found[j].text.value))
         && (forall j :: 0 <= j < k ==> o.requests[j] == LegalPayload(query, code, o.found[j]))
         && (o.crashed <==> k < |o.found|)
       case RegionChart => o.requests == [] && (o.crashed <==> ChartFails(RegionRows(stats)))
       case CategoryChart(c) =>
         var rows := CategoryRows(stats, c);
         if ChartFails(rows) then o.requests == [] && o.crashed
         else o.requests == [Payload(query, code, Some(StatsContext(CategoryName(c), rows.value, lang)))] && !o.crashed
       case RemoteFallback => o.requests == [Payload(query, code, None)] && !o.crashed
  }

  /** The dispatch at lines 100-179. */
  method HandleQuery(sim: Similarity, library: seq<Record>, stats: Option<StatsData>, pressed: bool,
                     query: string, lang: Lang) returns (o: Outcome)
    ensures Handled(sim, library, stats, pressed, query, lang, o)
  {
    var path := Route(pressed, query);
    var code := LangCode(lang);
    match path {
      case Idle =>
        o := Outcome(path, [], [], [], false);
      case LegalLookup =>
        var found := FindLegalArticles(sim, library, query);
        var bodies, requests, crashed := LegalRequests(query, code, found);
        o := Outcome(path, found, bodies, requests, crashed);
      case RegionChart =>
        o := Outcome(path, [], [], [], ChartFails(RegionRows(stats)));
      case CategoryChart(c) =>
        var rows := CategoryRows(stats, c);
        if ChartFails(rows) {
          o := Outcome(path, [], [], [], true);
        } else {
          var context := StatsContext(CategoryName(c), rows.value, lang);
          o := Outcome(path, [], [], [Payload(query, code, Some(context))], false);
        }
      case RemoteFallback =>
        o := Outcome(path, [], [], [Payload(query, code, None)], false);
    }
  }

  /**
   * Every request carries the query and the language code; there are at most
   * three; a request goes without a context exactly on the fallback path,
   * which always sends one.
   */
  lemma {:induction false} RequestsShape(sim: Similarity, library: seq<Record>, stats: Option<StatsData>, pressed: bool,
                                         query: string, lang: Lang, o: Outcome)
    requires Handled(sim, library, stats, pressed, query, lang, o)
    ensures |o.requests| <= MaxResults
    ensures forall i :: 0 <= i < |o.requests| ==> o.requests[i].query == query && o.requests[i].lang == LangCode(lang)
    ensures forall i :: 0 <= i < |o.requests| ==> (o.requests[i].contextOverride.None? <==> o.path == RemoteFallback)
    ensures o.path == RemoteFallback ==> |o.requests| == 1
  {
    if o.path == LegalLookup {
      assert |o.requests| <= |o.found| <= MaxResults;
    }
  }

  /**
   * Only reading a found article or the statistics file can stop the page:
   * the legal path stops exactly when a found article lacks a key, a chart
   * path exactly when its table cannot be read or is empty, and the other
   * paths never.
   */
  lemma {:induction false} CrashCauses(sim: Similarity, library: seq<Record>, stats: Option<StatsData>, pressed: bool,
                                       query: string, lang: Lang, o: Outcome)
    requires Handled(sim, library, stats, pressed, query, lang, o)
    ensures o.crashed <==>
      || (o.path == LegalLookup && exists j :: 0 <= j < |o.found| && !Complete(o.found[j]))
      || (o.path == RegionChart && ChartFails(RegionRows(stats)))
      || (o.path.CategoryChart? && ChartFails(CategoryRows(stats, o.path.category)))
  {
    if o.path == LegalLookup {
      var k := CompleteRun(o.found);
      if exists j :: 0 <= j < |o.found| && !Complete(o.found[j]) {
        var j :| 0 <= j < |o.found| && !Complete(o.found[j]);
        assert k <= j;
      }
    }
  }

  /**
   * Each legal request's context reads back as the title and text of the
   * article it was sent for, when the title is a single line.
   */
  lemma {:induction false} LegalContextsReadBack(sim: Similarity, library: seq<Record>, stats: Option<StatsData>, pressed: bool,
                                                 query: string, lang: Lang, o: Outcome, j: nat)
    requires Handled(sim, library, stats, pressed, query, lang, o)
    requires o.path == LegalLookup && j < |o.requests|
    ensures o.found[j].title.Some? && o.found[j].text.Some?
    ensures '\n' !in o.found[j].title.value ==>
      ParseLegalContext(o.requests[j].contextOverride.value) == Some((o.found[j].title.value, o.found[j].text.value))
  {
    var r := o.found[j];
    if '\n' !in r.title.value {
      LegalContextRoundTrip(r.title.value, r.text.value);
    }
  }

  /**
   * A category request's context is the header naming the category, then
   * one line per row of its table, when no label holds a newline.
   */
  lemma {:induction false} StatsRequestLines(sim: Similarity, library: seq<Record>, stats: Option<StatsData>, pressed: bool,
                                             query: string, lang: Lang, o: Outcome, c: Category, rows: seq<StatRow>)
    requires Handled(sim, library, stats, pressed, query, lang, o)
    requires o.path == CategoryChart(c) && CategoryRows(stats, c) == Some(rows) && rows != []
    requires forall i :: 0 <= i < |rows| ==> '\n' !in Label(rows[i], lang)
    ensures |o.requests| == 1 && o.requests[0].contextOverride.Some?
    ensures Split(o.requests[0].contextOverride.value) == [StatsHeader(CategoryName(c))] + StatLines(rows, lang)
  {
    StatsContextLines(CategoryName(c), rows, lang);
  }

  /**
   * A press against the collection loaded at start-up: a legal lookup
   * searches the Rome Statute file's articles followed by the Geneva
   * Conventions file's.
   */
  method HandleLoadedQuery(fs: FileSystem, sim: Similarity, stats: Option<StatsData>, pressed: bool,
                           query: string, lang: Lang) returns (o: Outcome)
    ensures Handled(sim, LoadedLibrary(fs), stats, pressed, query, lang, o)
  {
    var library := LoadLegalArticles(fs);
    o := HandleQuery(sim, library, stats, pressed, query, lang);
  }

  /** The collection `load_legal_articles` builds from the file system. */
  function LoadedLibrary(fs: FileSystem): seq<Record> {
    FileArticles(RomeStatuteLabel, fs("rome_statute.json")) + FileArticles(GenevaLabel, fs("geneva_conventions.json"))
  }

  /** Every article of the loaded collection is labelled as the Rome Statute's or the Geneva Conventions'. */
  lemma {:induction false} LoadedLibraryLabelled(fs: FileSystem, a: Record)
    requires a in LoadedLibrary(fs)
    ensures a.source == Some(RomeStatuteLabel) || a.source == Some(GenevaLabel)
  {
    var rome := FileArticles(RomeStatuteLabel, fs("rome_statute.json"));
    var geneva := FileArticles(GenevaLabel, fs("geneva_conventions.json"));
    var i :| 0 <= i < |rome + geneva| && (rome + geneva)[i] == a;
    if i >= |rome| {
      assert a == geneva[i - |rome|];
    }
  }

  /** Every article a legal lookup finds in the loaded collection is labelled as the Rome Statute's or the Geneva Conventions'. */
  lemma {:induction false} LoadedResultsLabelled(fs: FileSystem, sim: Similarity, stats: Option<StatsData>, pressed: bool,
                                                 query: string, lang: Lang, o: Outcome)
    requires Handled(sim, LoadedLibrary(fs), stats, pressed, query, lang, o)
    ensures forall j :: 0 <= j < |o.found| ==>
      o.found[j].source == Some(RomeStatuteLabel) || o.found[j].source == Some(GenevaLabel)
  {
    if o.path == LegalLookup {
      var library := LoadedLibrary(fs);
      assert Retrieved(ScoreAgainst(sim, Normalize(query)), library, o.found);
      ResultsFromLibrary(ScoreAgainst(sim, Normalize(query)), library, o.found);
      forall j | 0 <= j < |o.found|
        ensures o.found[j].source == Some(RomeStatuteLabel) || o.found[j].source == Some(GenevaLabel)
      {
        LoadedLibraryLabelled(fs, o.found[j]);
      }
    }
  }
}
