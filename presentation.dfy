/**
 * The strings the explorer builds from an article or a statistics table: the
 * truncated article body it displays, the context it sends with a legal
 * question, and the context it sends with a statistics question.
 */
module Presentation {
  import opened Text
  import opened Records

  /** The displayed body is cut after this many characters. */
  const DisplayLimit: nat := 2000

  /** `text[:2000] + ("..." if len(text) > 2000 else "")`. */
  function DisplayBody(text: string): string {
    PySlice(text, 0, DisplayLimit) + (if |text| > DisplayLimit then "..." else "")
  }

  /**
   * The displayed body starts with the first 2000 characters of the text,
   * ends in "..." exactly when the text was longer, and is never longer than
   * 2003 characters; a text of at most 2000 characters is shown whole.
   */
  lemma {:induction false} DisplayBodyShape(text: string)
    ensures var r := DisplayBody(text);
      && |r| <= DisplayLimit + 3
      && (|text| <= DisplayLimit ==> r == text)
      && (|text| > DisplayLimit <==> |r| == DisplayLimit + 3 && r[..DisplayLimit] == text[..DisplayLimit] && r[DisplayLimit..] == "...")
  {
    if |text| > DisplayLimit {
      assert PySlice(text, 0, DisplayLimit) == text[..DisplayLimit];
    } else {
      assert PySlice(text, 0, DisplayLimit) == text[0..|text|] == text;
    }
  }

  /** Truncating a displayed body again changes nothing. */
  lemma {:induction false} DisplayBodyIdempotent(text: string)
    ensures DisplayBody(DisplayBody(text)) == DisplayBody(text)
  {
    DisplayBodyShape(text);
    var r := DisplayBody(text);
    DisplayBodyShape(r);
    if |text| > DisplayLimit {
      assert r[..DisplayLimit] == text[..DisplayLimit];
      assert DisplayBody(r) == r[..DisplayLimit] + "...";
    }
  }

  /** The first line of the context sent with a legal article. */
  const LegalContextHeader: string := "Legal article:"

  /** `f"Legal article:\n{title}\n{text}"`. */
  function LegalContext(title: string, text: string): string {
    LegalContextHeader + "\n" + title + "\n" + text
  }

  /**
   * Reads a legal-article context back: the line after the header is the
   * title and everything after the next newline is the text.
   */
  function ParseLegalContext(context: string): (r: Option<(string, string)>)
  {
    var h := |LegalContextHeader| + 1;
    if |context| < h || context[..h] != LegalContextHeader + "\n" then None
    else
      var rest := context[h..];
      if '\n' !in rest then None
      else
        var k := FirstIndex(rest, '\n');
        Some((rest[..k], rest[k + 1..]))
  }

  /**
   * The context determines the title and text it was built from when the
   * title is a single line (the text may hold newlines).
   */
  lemma {:induction false} LegalContextRoundTrip(title: string, text: string)
    requires '\n' !in title
    ensures ParseLegalContext(LegalContext(title, text)) == Some((title, text))
  {
    var context := LegalContext(title, text);
    var h := |LegalContextHeader| + 1;
    assert context[..h] == LegalContextHeader + "\n";
    var rest := context[h..];
    assert rest == title + "\n" + text;
    assert rest[|title|] == '\n';
    assert rest[..|title|] == title;
    FirstIndexAt(rest, '\n', |title|);
    assert rest[|title| + 1..] == text;
  }

  /** The language chosen in the interface. */
  datatype Lang = English | Ukrainian

  /** `lang_code`, which is also the column holding the label in that language. */
  function LangCode(lang: Lang): string {
    match lang
    case English => "en"
    case Ukrainian => "ua"
  }

  /** A row of a statistics table: a label in each language and a number of cases. */
  datatype StatRow = StatRow(en: string, ua: string, cases: int)

  /** `row[label_col]`. */
  function Label(row: StatRow, lang: Lang): string {
    match lang
    case English => row.en
    case Ukrainian => row.ua
  }

  /** One decimal digit. */
  function Digit(d: nat): char
    requires d < 10
  {
    "0123456789"[d]
  }

  /** The decimal digits of `n`, most significant first, with no leading zero. */
  function Digits(n: nat): (s: string)
    ensures |s| > 0 && forall i :: 0 <= i < |s| ==> '0' <= s[i] <= '9'
    decreases n
  {
    if n < 10 then [Digit(n)] else Digits(n / 10) + [Digit(n % 10)]
  }

  /** Python's `str(n)` for an integer: a minus sign, then the digits of its magnitude. */
  function IntToDecimal(n: int): (s: string)
    ensures s != [] && '\n' !in s && ':' !in s
  {
    if n < 0 then "-" + Digits(-n) else Digits(n)
  }

  /** The value of a string of decimal digits. */
  function DigitsValue(s: string): int
  {
    if s == [] then 0 else DigitsValue(s[..|s| - 1]) * 10 + (s[|s| - 1] as int - '0' as int)
  }

  /** Python's `int(s)` on what `str` produces. */
  function DecimalToInt(s: string): int
  {
    if s != [] && s[0] == '-' then -DigitsValue(s[1..]) else DigitsValue(s)
  }

  lemma {:induction false} DigitsRoundTrip(n: nat)
    ensures DigitsValue(Digits(n)) == n
    decreases n
  {
    var s := Digits(n);
    if n >= 10 {
      DigitsRoundTrip(n / 10);
      assert s[..|s| - 1] == Digits(n / 10);
    }
    assert s[|s| - 1] == Digit(n % 10);
  }

  /** The number written into a statistics line reads back as the same number. */
  lemma {:induction false} DecimalRoundTrip(n: int)
    ensures DecimalToInt(IntToDecimal(n)) == n
  {
    var s := IntToDecimal(n);
    if n < 0 {
      var d := Digits(-n);
      DigitsRoundTrip(-n);
      assert s == "-" + d;
      assert s[0] == '-' && s[1..] == d;
      assert DecimalToInt(s) == -DigitsValue(d);
    } else {
      var d := Digits(n);
      DigitsRoundTrip(n);
      assert s == d && '0' <= s[0] <= '9';
      assert DecimalToInt(s) == DigitsValue(d);
    }
  }

  /** `f"{row[label_col]}: {row['cases']}"`. */
  function StatLine(row: StatRow, lang: Lang): string {
    Label(row, lang) + ": " + IntToDecimal(row.cases)
  }

  /** The lines of a statistics table, in row order. */
  function StatLines(rows: seq<StatRow>, lang: Lang): (ls: seq<string>)
    ensures |ls| == |rows|
    ensures forall i :: 0 <= i < |rows| ==> ls[i] == StatLine(rows[i], lang)
  {
    seq(|rows|, i requires 0 <= i < |rows| => StatLine(rows[i], lang))
  }

  /** `f"Statistics by {type_group} (from database):"`, for the group's name. */
  function StatsHeader(group: string): string {
    "Statistics by " + group + " (from database):"
  }

  /** The context sent with a statistics question: the header, then one line per row. */
  function StatsContext(group: string, rows: seq<StatRow>, lang: Lang): string {
    StatsHeader(group) + "\n" + Join(StatLines(rows, lang))
  }

  /**
   * When no label holds a newline, the context splits into the header and
   * exactly one line per row, each the row's label and its number of cases.
   */
  lemma {:induction false} StatsContextLines(group: string, rows: seq<StatRow>, lang: Lang)
    requires '\n' !in group && rows != []
    requires forall i :: 0 <= i < |rows| ==> '\n' !in Label(rows[i], lang)
    ensures Split(StatsContext(group, rows, lang)) == [StatsHeader(group)] + StatLines(rows, lang)
  {
    var ls := StatLines(rows, lang);
    forall i | 0 <= i < |ls| ensures '\n' !in ls[i] {
      var lbl := Label(rows[i], lang);
      var digits := IntToDecimal(rows[i].cases);
      assert ls[i] == lbl + ": " + digits;
      assert forall c :: c in ls[i] ==> c in lbl || c in ": " || c in digits;
    }
    SplitJoin(ls);
    var header := StatsHeader(group);
    assert forall c :: c in header ==> c in "Statistics by " || c in group || c in " (from database):";
    SplitCons(header, Join(ls));
  }
}
