/**
 * The few Python string operations the explorer relies on: `str.isspace`,
 * `str.strip`, `str.lower`, the substring test `k in q`, `str.startswith`,
 * slicing with Python's clamping rules, `"\n".join` and `str.split("\n")`.
 * Strings are sequences of Unicode scalar values.
 */
module Text {

  /** Python's `str.isspace` for one character (the full list of Unicode whitespace). */
  predicate IsSpace(c: char) {
    || ('\t' <= c <= '\r')               // \t \n \x0b \x0c \r
    || ('\U{1c}' <= c <= '\U{1f}')        // file, group, record and unit separators
    || c == ' ' || c == '\U{85}' || c == '\U{a0}' || c == '\U{1680}'
    || ('\U{2000}' <= c <= '\U{200a}')
    || c == '\U{2028}' || c == '\U{2029}' || c == '\U{202f}' || c == '\U{205f}' || c == '\U{3000}'
  }

  ghost predicate AllSpace(s: string) {
    forall i :: 0 <= i < |s| ==> IsSpace(s[i])
  }

  /** `s.lstrip()`: leading whitespace removed. */
  function TrimStart(s: string): string
  {
    if s != [] && IsSpace(s[0]) then TrimStart(s[1..]) else s
  }

  /** `lstrip` leaves the longest suffix of `s` that does not start with whitespace. */
  lemma {:induction false} TrimStartSuffix(s: string)
    ensures var r := TrimStart(s);
      && |r| <= |s| && r == s[|s| - |r|..]
      && AllSpace(s[..|s| - |r|])
      && (r == [] || !IsSpace(r[0]))
  {
    if s != [] && IsSpace(s[0]) {
      var r := TrimStart(s[1..]);
      TrimStartSuffix(s[1..]);
      assert s[1..][|s| - 1 - |r|..] == s[|s| - |r|..];
      assert forall i :: 1 <= i < |s| - |r| ==> s[i] == s[1..][i - 1];
    }
  }

  /** `s.rstrip()`: trailing whitespace removed. */
  function TrimEnd(s: string): string
  {
    if s != [] && IsSpace(s[|s| - 1]) then TrimEnd(s[..|s| - 1]) else s
  }

  /** `rstrip` leaves the longest prefix of `s` that does not end with whitespace. */
  lemma {:induction false} TrimEndPrefix(s: string)
    ensures var r := TrimEnd(s);
      && |r| <= |s| && r == s[..|r|]
      && AllSpace(s[|r|..])
      && (r == [] || !IsSpace(r[|r| - 1]))
  {
    if s != [] && IsSpace(s[|s| - 1]) {
      var r := TrimEnd(s[..|s| - 1]);
      TrimEndPrefix(s[..|s| - 1]);
      assert forall i :: |r| <= i < |s| - 1 ==> s[i] == s[..|s| - 1][i];
    }
  }

  /** `s.strip()`: whitespace removed from both ends. */
  function Strip(s: string): string
  {
    TrimEnd(TrimStart(s))
  }

  /**
   * What `strip` leaves: a slice of `s` that neither starts nor ends with
   * whitespace, with only whitespace cut off on either side.
   */
  lemma {:induction false} StripSlice(s: string) returns (i: nat)
    ensures i + |Strip(s)| <= |s| && s[i..i + |Strip(s)|] == Strip(s)
    ensures AllSpace(s[..i]) && AllSpace(s[i + |Strip(s)|..])
    ensures Strip(s) == [] || (!IsSpace(Strip(s)[0]) && !IsSpace(Strip(s)[|Strip(s)| - 1]))
  {
    var t := TrimStart(s);
    TrimStartSuffix(s);
    var r := TrimEnd(t);
    TrimEndPrefix(t);
    assert Strip(s) == r;
    i := |s| - |t|;
    assert s[i..i + |r|] == r;
    assert s[i + |r|..] == t[|r|..];
    assert AllSpace(s[..i]);
    assert AllSpace(s[i + |r|..]);
  }

  /** Stripping twice is stripping once. */
  lemma {:induction false} StripIdempotent(s: string)
    ensures Strip(Strip(s)) == Strip(s)
  {
    var r := Strip(s);
    var i := StripSlice(s);
    assert TrimStart(r) == r;
    assert TrimEnd(r) == r;
  }

  /**
   * `str.lower` for one character, for the scripts the explorer handles:
   * ASCII, Latin-1 and the basic Cyrillic block (with Ukrainian Ґ).
   */
  function LowerChar(c: char): (d: char)
  {
    if 'A' <= c <= 'Z' then (c as int + 32) as char
    else if '\U{c0}' <= c <= '\U{de}' && c != '\U{d7}' then (c as int + 32) as char   // À..Þ, not ×
    else if '\U{410}' <= c <= '\U{42f}' then (c as int + 32) as char                  // А..Я
    else if '\U{400}' <= c <= '\U{40f}' then (c as int + 80) as char                  // Ѐ..Џ, incl. Є І Ї
    else if c == '\U{490}' then '\U{491}'                                             // Ґ
    else c
  }

  /** `s.lower()`: character by character. */
  function Lower(s: string): (r: string)
    ensures |r| == |s|
  {
    seq(|s|, i requires 0 <= i < |s| => LowerChar(s[i]))
  }

  lemma {:induction false} LowerCharIdempotent(c: char)
    ensures LowerChar(LowerChar(c)) == LowerChar(c)
  {
  }

  /** Lower-casing twice is lower-casing once. */
  lemma {:induction false} LowerIdempotent(s: string)
    ensures Lower(Lower(s)) == Lower(s)
  {
    forall i | 0 <= i < |s| ensures Lower(Lower(s))[i] == Lower(s)[i] {
      LowerCharIdempotent(s[i]);
    }
  }

  /** Lower-casing a slice is slicing the lower-cased string. */
  lemma {:induction false} LowerSlice(s: string, i: nat, j: nat)
    requires i <= j <= |s|
    ensures Lower(s[i..j]) == Lower(s)[i..j]
  {
    forall n | 0 <= n < j - i ensures Lower(s[i..j])[n] == Lower(s)[i..j][n] {
      assert Lower(s)[i + n] == LowerChar(s[i + n]);
    }
  }

  /** Lower-casing works on the pieces of a concatenation separately. */
  lemma {:induction false} LowerConcat(a: string, b: string)
    ensures Lower(a + b) == Lower(a) + Lower(b)
  {
    assert forall i :: 0 <= i < |a| ==> (a + b)[i] == a[i];
    assert forall i :: |a| <= i < |a| + |b| ==> (a + b)[i] == b[i - |a|];
  }

  /** `k` occurs in `s` starting at index `i`. */
  predicate OccursAt(s: string, k: string, i: nat) {
    i + |k| <= |s| && s[i..i + |k|] == k
  }

  /** Python's `k in s` for strings: some index of `s` starts an occurrence of `k`. */
  function Contains(s: string, k: string): (b: bool)
    ensures b <==> exists i: nat :: OccursAt(s, k, i)
    decreases |s|
  {
    if |k| > |s| then false
    else if s[..|k|] == k then
      assert OccursAt(s, k, 0);
      true
    else
      var b := Contains(s[1..], k);
      forall i: nat ensures OccursAt(s, k, i + 1) <==> OccursAt(s[1..], k, i) {
        OccursShift(s, k, i);
      }
      assert !OccursAt(s, k, 0);
      assert b ==> exists i: nat :: OccursAt(s, k, i) by {
        if b {
          var i: nat :| OccursAt(s[1..], k, i);
          assert OccursAt(s, k, i + 1);
        }
      }
      assert (exists i: nat :: OccursAt(s, k, i)) ==> b by {
        if exists i: nat :: OccursAt(s, k, i) {
          var i: nat :| OccursAt(s, k, i);
          assert i > 0;
          assert OccursAt(s[1..], k, i - 1);
        }
      }
      b
  }

  lemma {:induction false} OccursShift(s: string, k: string, i: nat)
    requires s != []
    ensures OccursAt(s, k, i + 1) <==> OccursAt(s[1..], k, i)
  {
    if i + 1 + |k| <= |s| {
      assert s[i + 1..i + 1 + |k|] == s[1..][i..i + |k|];
    }
  }

  /** An occurrence stays an occurrence when text is added on either side. */
  lemma {:induction false} ContainsInContext(a: string, s: string, b: string, k: string)
    requires Contains(s, k)
    ensures Contains(a + s + b, k)
  {
    var i: nat :| OccursAt(s, k, i);
    assert (a + s + b)[|a| + i..|a| + i + |k|] == s[i..i + |k|];
    assert OccursAt(a + s + b, k, |a| + i);
  }

  /** A string cannot contain a keyword one of whose characters it lacks. */
  lemma {:induction false} MissingCharNotContained(s: string, k: string, c: char)
    requires c in k && c !in s
    ensures !Contains(s, k)
  {
    var j :| 0 <= j < |k| && k[j] == c;
    forall i: nat ensures !OccursAt(s, k, i) {
      if i + |k| <= |s| {
        assert s[i + j] in s;
        assert s[i..i + |k|][j] == s[i + j];
      }
    }
  }

  /** Python's `s.startswith(p)`. */
  predicate StartsWith(s: string, p: string) {
    |p| <= |s| && s[..|p|] == p
  }

  function Min(a: int, b: int): int {
    if a < b then a else b
  }

  /**
   * Python's `s[a:b]` for non-negative bounds: both bounds are clamped to
   * `|s|`, and a start at or past the end gives the empty string.
   */
  function PySlice(s: string, a: nat, b: nat): (r: string)
    ensures a <= b <= |s| ==> r == s[a..b]
    ensures |r| <= |s|
    ensures b <= a ==> r == []
  {
    if b <= a || |s| <= a then [] else s[a..Min(b, |s|)]
  }

  /** Python's `"\n".join(ls)`. */
  function Join(ls: seq<string>): string
  {
    if |ls| == 0 then ""
    else if |ls| == 1 then ls[0]
    else ls[0] + "\n" + Join(ls[1..])
  }

  /** The concatenation of every line followed by a newline, as `acc += line + "\n"` builds it. */
  function Terminated(ls: seq<string>): string
  {
    if ls == [] then "" else ls[0] + "\n" + Terminated(ls[1..])
  }

  /** Appending one more line to the accumulator. */
  lemma {:induction false} TerminatedSnoc(ls: seq<string>, x: string)
    ensures Terminated(ls + [x]) == Terminated(ls) + x + "\n"
  {
    if ls != [] {
      assert (ls + [x])[1..] == ls[1..] + [x];
      TerminatedSnoc(ls[1..], x);
    } else {
      assert [x][1..] == [];
    }
  }

  /** The first index at which `c` occurs in `s`. */
  function FirstIndex(s: string, c: char): (k: nat)
    requires c in s
    ensures k < |s| && s[k] == c && c !in s[..k]
  {
    if s[0] == c then 0 else
      var k := FirstIndex(s[1..], c);
      assert s[1..][..k] == s[1..k + 1];
      1 + k
  }

  /** The first occurrence is the one with no occurrence before it. */
  lemma {:induction false} FirstIndexAt(s: string, c: char, j: nat)
    requires j < |s| && s[j] == c && c !in s[..j]
    ensures FirstIndex(s, c) == j
  {
    if j > 0 {
      assert s[0] in s[..j];
      assert s[1..][..j - 1] == s[1..j];
      forall m | 0 <= m < j - 1 ensures s[1..j][m] != c {
        assert s[1..j][m] == s[..j][m + 1];
      }
      FirstIndexAt(s[1..], c, j - 1);
    }
  }

  /** Python's `s.split("\n")`: the pieces between newlines (one piece more than there are newlines). */
  function Split(s: string): (r: seq<string>)
    ensures r != []
    ensures forall i :: 0 <= i < |r| ==> '\n' !in r[i]
    decreases |s|
  {
    if '\n' !in s then [s]
    else
      var k := FirstIndex(s, '\n');
      [s[..k]] + Split(s[k + 1..])
  }

  ghost predicate NoNewlines(ls: seq<string>) {
    forall i :: 0 <= i < |ls| ==> '\n' !in ls[i]
  }

  /** Splitting at the first newline gives back the first line and the rest. */
  lemma {:induction false} SplitCons(a: string, rest: string)
    requires '\n' !in a
    ensures Split(a + "\n" + rest) == [a] + Split(rest)
  {
    var s := a + "\n" + rest;
    assert s[|a|] == '\n';
    assert s[..|a|] == a;
    FirstIndexAt(s, '\n', |a|);
    var k := |a|;
    assert s[..k] == a;
    assert s[k + 1..] == rest;
  }

  /** Joining lines that hold no newline and splitting the result gives the lines back. */
  lemma {:induction false} SplitJoin(ls: seq<string>)
    requires ls != [] && NoNewlines(ls)
    ensures Split(Join(ls)) == ls
  {
    if |ls| > 1 {
      SplitJoin(ls[1..]);
      SplitCons(ls[0], Join(ls[1..]));
    }
  }

  /** Splitting and joining again gives the original string. */
  lemma {:induction false} JoinSplit(s: string)
    ensures Join(Split(s)) == s
    decreases |s|
  {
    if '\n' in s {
      var k := FirstIndex(s, '\n');
      JoinSplit(s[k + 1..]);
      assert s == s[..k] + "\n" + s[k + 1..];
    }
  }

  /** Newline-terminated lines split into the lines and one empty piece after the last newline. */
  lemma {:induction false} SplitTerminated(ls: seq<string>)
    requires NoNewlines(ls)
    ensures Split(Terminated(ls)) == ls + [""]
  {
    if ls != [] {
      SplitTerminated(ls[1..]);
      SplitCons(ls[0], Terminated(ls[1..]));
    }
  }
}
