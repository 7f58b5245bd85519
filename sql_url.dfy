/**
 * `extract_sql_url` (httpcachefs/smart_parquet/utils.py): the first match of
 * the case-insensitive regular expression  FROM\s+'([^']+)'  found by
 * `re.search`, as an explicit left-to-right scan over the query text.
 *
 * `\s+` cannot match a quote and `[^']+` cannot match one either, so both
 * greedy repetitions are maximal runs and the regex engine never needs to
 * backtrack: at each start position there is at most one match.
 */
module SqlUrl {
  import opened Options

  /** Python's `\s` on `str` patterns: the characters for which `str.isspace()` holds. */
  predicate IsSpace(c: char)
  {
    var n := c as int;
    (0x09 <= n <= 0x0D) || (0x1C <= n <= 0x20) || n == 0x85 || n == 0xA0 ||
    n == 0x1680 || (0x2000 <= n <= 0x200A) || n == 0x2028 || n == 0x2029 ||
    n == 0x202F || n == 0x205F || n == 0x3000
  }

  /** ASCII lower-casing, enough to compare against the letters of `FROM`. */
  function Lower(c: char): char
  {
    if 'A' <= c <= 'Z' then (c as int + 32) as char else c
  }

  /** The keyword `FROM`, in any mix of cases, occupies `s[i..i+4]`. */
  predicate IsFromAt(s: string, i: nat)
  {
    i + 4 <= |s| &&
    Lower(s[i]) == 'f' && Lower(s[i + 1]) == 'r' &&
    Lower(s[i + 2]) == 'o' && Lower(s[i + 3]) == 'm'
  }

  /**
   * Declarative form of one match starting at `i`: `FROM` at `i`, a
   * non-empty run of whitespace up to the opening quote at `open`, a
   * non-empty run of non-quote characters, and the closing quote at `close`.
   * The captured URL is `s[open + 1..close]`.
   */
  ghost predicate MatchSpan(s: string, i: nat, open: nat, close: nat)
  {
    IsFromAt(s, i) &&
    i + 4 < open && open + 1 < close < |s| &&
    (forall t :: i + 4 <= t < open ==> IsSpace(s[t])) &&
    s[open] == '\'' &&
    (forall t :: open < t < close ==> s[t] != '\'') &&
    s[close] == '\''
  }

  /** The pattern matches at some span starting at `i`. */
  ghost predicate MatchesAt(s: string, i: nat)
  {
    exists open: nat, close: nat :: MatchSpan(s, i, open, close)
  }

  /** Where a match lies: its start and the positions of its two quotes. */
  datatype Found = Found(start: nat, open: nat, close: nat)

  /** The end of the whitespace run that begins at `j`. */
  function SkipSpaces(s: string, j: nat): (r: nat)
    requires j <= |s|
    ensures j <= r <= |s|
    ensures forall t :: j <= t < r ==> IsSpace(s[t])
    ensures r == |s| || !IsSpace(s[r])
    decreases |s| - j
  {
    if j < |s| && IsSpace(s[j]) then SkipSpaces(s, j + 1) else j
  }

  /** The position of the first quote at or after `j`, or `|s|` if there is none. */
  function SkipNonQuotes(s: string, j: nat): (r: nat)
    requires j <= |s|
    ensures j <= r <= |s|
    ensures forall t :: j <= t < r ==> s[t] != '\''
    ensures r == |s| || s[r] == '\''
    decreases |s| - j
  {
    if j < |s| && s[j] != '\'' then SkipNonQuotes(s, j + 1) else j
  }

  /** The regular expression tried at the single start position `i`. */
  function MatchAt(s: string, i: nat): (r: Option<Found>)
    ensures r.Some? ==> r.value.start == i && MatchSpan(s, i, r.value.open, r.value.close)
    ensures r.None? ==> !MatchesAt(s, i)
    ensures forall open: nat, close: nat :: MatchSpan(s, i, open, close) ==> r == Some(Found(i, open, close))
  {
    if !IsFromAt(s, i) then None
    else
      var open := SkipSpaces(s, i + 4);
      if open == i + 4 || open == |s| || s[open] != '\'' then None
      else
        var close := SkipNonQuotes(s, open + 1);
        if close == open + 1 || close == |s| then None
        else Some(Found(i, open, close))
  }

  /** `re.search` from position `i` on: the first start position at which `MatchAt` succeeds. */
  function Search(s: string, i: nat): (r: Option<Found>)
    requires i <= |s|
    ensures r.Some? ==> i <= r.value.start && MatchSpan(s, r.value.start, r.value.open, r.value.close)
    ensures r.Some? ==> forall j :: i <= j < r.value.start ==> !MatchesAt(s, j)
    ensures r.None? ==> forall j :: i <= j ==> !MatchesAt(s, j)
    decreases |s| - i
  {
    if i == |s| then None
    else
      match MatchAt(s, i)
      case Some(f) => Some(f)
      case None => Search(s, i + 1)
  }

  /** No match starts before position `i`. */
  ghost predicate NoMatchBefore(s: string, i: nat)
  {
    forall j: nat :: j < i ==> !MatchesAt(s, j)
  }

  /** `url` is the text captured by the leftmost match in `s`. */
  ghost predicate IsLeftmostCapture(s: string, url: string)
  {
    exists i: nat, open: nat, close: nat ::
      MatchSpan(s, i, open, close) && url == s[open + 1..close] && NoMatchBefore(s, i)
  }

  /**
   * `extract_sql_url`: the URL captured by the leftmost match, or `None`
   * exactly when the pattern matches nowhere in `sql`.
   */
  function ExtractSqlUrl(sql: string): (r: Option<string>)
    ensures r.None? <==> NoMatchBefore(sql, |sql|)
    ensures r.Some? ==> IsLeftmostCapture(sql, r.value)
    ensures r.Some? ==> |r.value| > 0 && '\'' !in r.value
  {
    match Search(sql, 0)
    case Some(f) =>
      assert MatchesAt(sql, f.start) by { assert MatchSpan(sql, f.start, f.open, f.close); }
      Some(sql[f.open + 1..f.close])
    case None => None
  }

  /** At most one text is the capture of the leftmost match, so `ExtractSqlUrl` has one possible answer. */
  lemma LeftmostCaptureUnique(s: string, u: string, v: string)
    requires IsLeftmostCapture(s, u) && IsLeftmostCapture(s, v)
    ensures u == v
  {
    var i: nat, o: nat, c: nat :| MatchSpan(s, i, o, c) && u == s[o + 1..c] && NoMatchBefore(s, i);
    var j: nat, p: nat, d: nat :| MatchSpan(s, j, p, d) && v == s[p + 1..d] && NoMatchBefore(s, j);
    LeftmostStartUnique(s, i, o, c, j, p, d);
    assert MatchAt(s, i) == Some(Found(i, o, c));
    assert MatchAt(s, i) == Some(Found(i, p, d));
  }

  /** Two leftmost matches start at the same position. */
  lemma LeftmostStartUnique(s: string, i: nat, o: nat, c: nat, j: nat, p: nat, d: nat)
    requires MatchSpan(s, i, o, c) && NoMatchBefore(s, i)
    requires MatchSpan(s, j, p, d) && NoMatchBefore(s, j)
    ensures i == j
  {
    assert MatchesAt(s, i) by { assert MatchSpan(s, i, o, c); }
    assert MatchesAt(s, j) by { assert MatchSpan(s, j, p, d); }
  }

  /** `FROM` immediately followed by the quote never matches at that position. */
  lemma NoWhitespaceNoMatch(s: string, i: nat)
    requires IsFromAt(s, i) && i + 4 < |s| && s[i + 4] == '\''
    ensures !MatchesAt(s, i)
  {
  }

  /**
   * A found URL splits the query into
   * prefix + keyword + whitespace + quote + URL + quote + suffix.
   */
  lemma ExtractDecomposes(sql: string) returns (prefix: string, keyword: string, ws: string, suffix: string)
    requires ExtractSqlUrl(sql).Some?
    ensures sql == prefix + keyword + ws + "'" + ExtractSqlUrl(sql).value + "'" + suffix
    ensures |keyword| == 4 && Lower(keyword[0]) == 'f' && Lower(keyword[1]) == 'r' &&
            Lower(keyword[2]) == 'o' && Lower(keyword[3]) == 'm'
    ensures |ws| > 0 && forall c :: c in ws ==> IsSpace(c)
    ensures forall j: nat :: j < |prefix| ==> !MatchesAt(sql, j)
  {
    var f := Search(sql, 0).value;
    var i, open, close := f.start, f.open, f.close;
    assert ExtractSqlUrl(sql).value == sql[open + 1..close];
    prefix, keyword, ws, suffix := SplitMatch(sql, i, open, close);
  }

  /** Cutting `s` around the span of one match. */
  lemma SplitMatch(s: string, i: nat, open: nat, close: nat) returns (prefix: string, keyword: string, ws: string, suffix: string)
    requires MatchSpan(s, i, open, close)
    ensures s == prefix + keyword + ws + "'" + s[open + 1..close] + "'" + suffix
    ensures prefix == s[..i] && keyword == s[i..i + 4]
    ensures |ws| > 0 && forall c :: c in ws ==> IsSpace(c)
  {
    prefix, keyword, ws, suffix := s[..i], s[i..i + 4], s[i + 4..open], s[close + 1..];
    forall c | c in ws ensures IsSpace(c) {
      var t :| 0 <= t < |ws| && ws[t] == c;
      assert ws[t] == s[i + 4 + t];
    }
    assert s[..open + 1] == prefix + keyword + ws + "'";
    assert s[..close] == s[..open + 1] + s[open + 1..close];
    assert s[..close + 1] == s[..close] + "'";
    assert s == s[..close + 1] + suffix;
  }

  /** Newlines and indentation between `FROM` and the quote count as whitespace. */
  lemma ExampleNewlineIndent()
    ensures ExtractSqlUrl("FROM\n    'a.parquet'") == Some("a.parquet")
  {
    var s := "FROM\n    'a.parquet'";
    assert IsFromAt(s, 0);
    assert forall t :: 4 <= t < 9 ==> IsSpace(s[t]);
    assert forall t :: 9 < t < 19 ==> s[t] != '\'';
    assert MatchSpan(s, 0, 9, 19);
    assert Search(s, 0) == Some(Found(0, 9, 19));
    assert s[10..19] == "a.parquet";
  }

  /** Without whitespace the search moves on to the next occurrence of `from`. */
  lemma ExampleNoWhitespaceSkipped()
    ensures ExtractSqlUrl("FROM'x' from 'y'") == Some("y")
  {
    var s := "FROM'x' from 'y'";
    NoWhitespaceNoMatch(s, 0);
    assert MatchSpan(s, 8, 13, 15);
    assert Search(s, 8) == Some(Found(8, 13, 15));
    assert Search(s, 0) == Search(s, 8) by {
      forall j | 1 <= j < 8 ensures !IsFromAt(s, j) { }
    }
    assert s[14..15] == "y";
  }
}
