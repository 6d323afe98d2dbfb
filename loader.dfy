/**
 * Loading the article collection at start-up (`load_legal_articles`). The file
 * system is a parameter: each file name maps to what `json.load` would give for
 * it, or to `Unreadable` when opening or parsing fails.
 */
module Loader {
  import opened Records

  /** One element of the top-level JSON array: an object, or anything else. */
  datatype JsonItem = Object(record: Record) | NonObject

  /**
   * What reading one file yields. A top-level value that is not an array is
   * described by what iterating over it gives: a JSON object iterates over its
   * keys (strings, so `NonObject`s), a string over its characters.
   */
  datatype FileContents = Unreadable | Items(items: seq<JsonItem>)

  type FileSystem = string -> FileContents

  /** The files read, in order, with the sourceName each one's articles get. */
  const Files: seq<(string, string)> := [(RomeStatuteLabel, "rome_statute.json"), (GenevaLabel, "geneva_conventions.json")]

  /**
   * How many leading items are objects: labelling a non-object raises a
   * `TypeError`, which ends the loop over that file.
   */
  function ObjectRun(items: seq<JsonItem>): (n: nat)
    ensures n <= |items|
    ensures forall i :: 0 <= i < n ==> items[i].Object?
    ensures n < |items| ==> items[n].NonObject?
  {
    if items == [] || items[0].NonObject? then 0 else 1 + ObjectRun(items[1..])
  }

  /**
   * The articles one file contributes: none when it cannot be read, otherwise
   * its leading objects in file order, each carrying the sourceName and otherwise
   * unchanged.
   */
  function FileArticles(sourceName: string, contents: FileContents): (r: seq<Record>)
    ensures contents.Unreadable? ==> r == []
    ensures forall i :: 0 <= i < |r| ==> r[i].source == Some(sourceName)
    ensures contents.Items? ==> |r| == ObjectRun(contents.items)
    ensures contents.Items? ==> forall i :: 0 <= i < |r| ==> r[i].(source := contents.items[i].record.source) == contents.items[i].record
  {
    match contents
    case Unreadable => []
    case Items(items) =>
      seq(ObjectRun(items), i requires 0 <= i < ObjectRun(items) => Labelled(items[i].record, sourceName))
  }

  /** The articles the listed files contribute, file after file. */
  function LoadedFrom(fs: FileSystem, files: seq<(string, string)>): seq<Record>
  {
    if files == [] then []
    else LoadedFrom(fs, files[..|files| - 1]) + FileArticles(files[|files| - 1].0, fs(files[|files| - 1].1))
  }

  /**
   * `load_legal_articles`: the Rome Statute file's articles, then the Geneva
   * Conventions file's, each carrying its file's label.
   */
  method LoadLegalArticles(fs: FileSystem) returns (articles: seq<Record>)
    ensures articles == FileArticles(RomeStatuteLabel, fs("rome_statute.json")) + FileArticles(GenevaLabel, fs("geneva_conventions.json"))
  {
    articles := [];
    for f := 0 to |Files|
      invariant articles == LoadedFrom(fs, Files[..f])
    {
      var (sourceName, fileName) := Files[f];
      assert Files[..f + 1][..f] == Files[..f];
      articles := AppendFileArticles(articles, sourceName, fs(fileName));
    }
    assert Files[..|Files|] == Files;
  }

  /**
   * The body of the loop over one file: append each object, labelled, until
   * the items run out or one of them is not an object.
   */
  method AppendFileArticles(acc: seq<Record>, sourceName: string, contents: FileContents) returns (articles: seq<Record>)
    ensures articles == acc + FileArticles(sourceName, contents)
  {
    articles := acc;
    match contents {
      case Unreadable =>
      case Items(items) =>
        var j := 0;
        while j < |items| && items[j].Object?
          invariant j <= ObjectRun(items)
          invariant |articles| == |acc| + j && articles[..|acc|] == acc
          invariant forall i :: 0 <= i < j ==> articles[|acc| + i] == Labelled(items[i].record, sourceName)
        {
          articles := articles + [Labelled(items[j].record, sourceName)];
          j := j + 1;
        }
        assert articles == acc + FileArticles(sourceName, contents);
    }
  }
}
