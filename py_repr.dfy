/**
 * Python's `str()` of an `Optional[List[str]]`, as used to build the query
 * cache key in `get_query_hash` (httpcachefs/smart_parquet/utils.py):
 * `None` renders as `None`, a list as `[` + the item reprs joined by `, ` + `]`,
 * and each item as CPython's `repr` of a string.
 *
 * A decoder is given beside the encoder; the round trip shows that the
 * rendering loses nothing, so different column selections never share a
 * cache-key preimage.
 */
module PyRepr {
  import opened Options

  const HexDigits: string := "0123456789abcdef"

  /**
   * Characters `repr` writes as `\xhh`: the C0 controls other than tab,
   * newline and carriage return (those have their own escapes), DEL, the C1
   * controls, NO-BREAK SPACE and SOFT HYPHEN.
   */
  predicate NeedsHexEscape(c: char)
  {
    var n := c as int;
    n < 0x20 || (0x7F <= n <= 0xA0) || n == 0xAD
  }

  /** `repr` quotes with `'` unless the text holds `'` and no `"`. */
  function QuoteFor(s: string): (q: char)
    ensures q == '\'' || q == '"'
    ensures q in s ==> '\'' in s && '"' in s
  {
    if '\'' in s && '"' !in s then '"' else '\''
  }

  /** How one character of a string is written between quotes `q`. */
  function EscapeChar(c: char, q: char): (r: string)
  {
    if c == q || c == '\\' then ['\\', c]
    else if c == '\t' then "\\t"
    else if c == '\n' then "\\n"
    else if c == '\r' then "\\r"
    else if NeedsHexEscape(c) then ['\\', 'x', HexDigits[c as int / 16], HexDigits[c as int % 16]]
    else [c]
  }

  /** A character `repr` writes as itself between either quote: printable ASCII other than a quote or a backslash. */
  predicate IsPlain(c: char)
  {
    ' ' <= c <= '~' && c != '\'' && c != '"' && c != '\\'
  }

  /** The characters of `s` escaped for quotes `q`; plain text is written unchanged. */
  function EscapeBody(s: string, q: char): (r: string)
    ensures |r| >= |s|
    ensures (forall i :: 0 <= i < |s| ==> IsPlain(s[i])) && (q == '\'' || q == '"') ==> r == s
  {
    if s == [] then [] else EscapeChar(s[0], q) + EscapeBody(s[1..], q)
  }

  /**
   * `repr(s)` for a Python `str`: the text between two equal quotes, and a
   * name made of plain characters only is written as `'` + name + `'`.
   */
  function StrRepr(s: string): (r: string)
    ensures |r| >= |s| + 2 && r[0] == QuoteFor(s) && r[|r| - 1] == QuoteFor(s)
    ensures (forall i :: 0 <= i < |s| ==> IsPlain(s[i])) ==> r == ['\''] + s + ['\'']
  {
    var q := QuoteFor(s);
    [q] + EscapeBody(s, q) + [q]
  }

  /** The item reprs of a list, separated by `, `. */
  function JoinReprs(xs: seq<string>): string
  {
    if xs == [] then ""
    else if |xs| == 1 then StrRepr(xs[0])
    else StrRepr(xs[0]) + ", " + JoinReprs(xs[1..])
  }

  /** `str(xs)` for a Python `list` of `str`. */
  function ListRepr(xs: seq<string>): (r: string)
    ensures |r| >= 2 && r[0] == '[' && r[|r| - 1] == ']'
  {
    "[" + JoinReprs(xs) + "]"
  }

  /** `str(columns)` for `columns: Optional[List[str]]`. */
  function ColumnsRepr(columns: Option<seq<string>>): (r: string)
    ensures r == "None" <==> columns.None?
    ensures columns.Some? ==> |r| >= 2 && r[0] == '[' && r[|r| - 1] == ']'
  {
    match columns
    case None => "None"
    case Some(xs) => ListRepr(xs)
  }

  /** A plain name is quoted with `'`. */
  lemma ExamplePlainItem()
    ensures StrRepr("id") == "'id'"
  {
    assert QuoteFor("id") == '\'';
    assert EscapeBody("id", '\'') == "id";
  }

  /** A name holding `'` and no `"` is quoted with `"` and written unescaped. */
  lemma ExampleApostropheItem()
    ensures StrRepr("it's") == "\"it's\""
  {
    assert QuoteFor("it's") == '"';
    assert "it's"[1..] == "t's" && "t's"[1..] == "'s" && "'s"[1..] == "s";
    assert EscapeChar('\'', '"') == "'";
    assert EscapeBody("'s", '"') == "'s";
    assert EscapeBody("it's", '"') == "it's";
  }

  // ---------------------------------------------------------------------
  // Decoding
  // ---------------------------------------------------------------------

  function HexValue(c: char): Option<nat>
  {
    if '0' <= c <= '9' then Some(c as int - '0' as int)
    else if 'a' <= c <= 'f' then Some(c as int - 'a' as int + 10)
    else None
  }

  /** Put `c` in front of the decoded text of a successful decode. */
  function Cons(c: char, r: Option<(string, string)>): Option<(string, string)>
  {
    match r
    case None => None
    case Some((text, rest)) => Some(([c] + text, rest))
  }

  /**
   * Reads the escaped body of a string quoted with `q` up to and including
   * the closing quote; yields the text and what follows the closing quote.
   */
  function DecodeBody(s: string, q: char): (r: Option<(string, string)>)
    ensures r.Some? ==> |r.value.1| < |s|
    decreases |s|
  {
    if s == [] then None
    else if s[0] == q then Some(("", s[1..]))
    else if s[0] != '\\' then Cons(s[0], DecodeBody(s[1..], q))
    else if |s| < 2 then None
    else if s[1] == '\\' || s[1] == '\'' || s[1] == '"' then Cons(s[1], DecodeBody(s[2..], q))
    else if s[1] == 't' then Cons('\t', DecodeBody(s[2..], q))
    else if s[1] == 'n' then Cons('\n', DecodeBody(s[2..], q))
    else if s[1] == 'r' then Cons('\r', DecodeBody(s[2..], q))
    else if s[1] == 'x' && |s| >= 4 && HexValue(s[2]).Some? && HexValue(s[3]).Some? then
      Cons((16 * HexValue(s[2]).value + HexValue(s[3]).value) as char, DecodeBody(s[4..], q))
    else None
  }

  /** Reads one quoted string; yields its text and what follows it. */
  function DecodeStr(s: string): (r: Option<(string, string)>)
    ensures r.Some? ==> |r.value.1| < |s|
  {
    if s != [] && (s[0] == '\'' || s[0] == '"') then DecodeBody(s[1..], s[0]) else None
  }

  /** Reads the items of a non-empty list after its `[`, up to and including the `]`. */
  function DecodeItems(s: string): (r: Option<(seq<string>, string)>)
    decreases |s|
  {
    match DecodeStr(s)
    case None => None
    case Some((x, rest)) =>
      if rest != [] && rest[0] == ']' then Some(([x], rest[1..]))
      else if |rest| >= 2 && rest[..2] == ", " then
        match DecodeItems(rest[2..])
        case None => None
        case Some((xs, rest')) => Some(([x] + xs, rest'))
      else None
  }

  /** Reads a whole list rendering. */
  function DecodeList(s: string): Option<seq<string>>
  {
    if s == "[]" then Some([])
    else if s != [] && s[0] == '[' then
      match DecodeItems(s[1..])
      case Some((xs, rest)) => if rest == [] then Some(xs) else None
      case None => None
    else None
  }

  /** Reads `str(columns)` back. */
  function DecodeColumns(s: string): Option<Option<seq<string>>>
  {
    if s == "None" then Some(None)
    else
      match DecodeList(s)
      case Some(xs) => Some(Some(xs))
      case None => None
  }

  // ---------------------------------------------------------------------
  // Round trip
  // ---------------------------------------------------------------------

  lemma HexRoundTrip(n: nat)
    requires n < 16
    ensures HexValue(HexDigits[n]) == Some(n)
  {
  }

  /** Reading back a `\xhh` escape. */
  lemma HexEscapeRoundTrip(c: char, q: char, t: string)
    requires q == '\'' || q == '"'
    requires NeedsHexEscape(c) && c != '\t' && c != '\n' && c != '\r'
    ensures DecodeBody(EscapeChar(c, q) + t, q) == Cons(c, DecodeBody(t, q))
  {
    var n := c as int;
    var s := EscapeChar(c, q) + t;
    assert s == ['\\', 'x', HexDigits[n / 16], HexDigits[n % 16]] + t;
    HexRoundTrip(n / 16);
    HexRoundTrip(n % 16);
    assert s[4..] == t;
    assert (16 * (n / 16) + n % 16) as char == c;
  }

  lemma EscapeCharRoundTrip(c: char, q: char, t: string)
    requires q == '\'' || q == '"'
    ensures DecodeBody(EscapeChar(c, q) + t, q) == Cons(c, DecodeBody(t, q))
  {
    var s := EscapeChar(c, q) + t;
    if c == q || c == '\\' || c == '\t' || c == '\n' || c == '\r' {
      assert s[2..] == t;
    } else if NeedsHexEscape(c) {
      HexEscapeRoundTrip(c, q, t);
    } else {
      assert s[1..] == t;
    }
  }

  lemma {:induction false} EscapeBodyRoundTrip(x: string, q: char, rest: string)
    requires q == '\'' || q == '"'
    ensures DecodeBody(EscapeBody(x, q) + [q] + rest, q) == Some((x, rest))
  {
    if x == [] {
      assert EscapeBody(x, q) + [q] + rest == [q] + rest;
    } else {
      var t := EscapeBody(x[1..], q) + [q] + rest;
      assert EscapeBody(x, q) + [q] + rest == EscapeChar(x[0], q) + t;
      EscapeCharRoundTrip(x[0], q, t);
      EscapeBodyRoundTrip(x[1..], q, rest);
      assert [x[0]] + x[1..] == x;
    }
  }

  lemma StrReprRoundTrip(x: string, rest: string)
    ensures DecodeStr(StrRepr(x) + rest) == Some((x, rest))
  {
    var q := QuoteFor(x);
    var s := StrRepr(x) + rest;
    assert s[1..] == EscapeBody(x, q) + [q] + rest;
    EscapeBodyRoundTrip(x, q, rest);
  }

  lemma DecodeLastItem(x: string, rest: string)
    ensures DecodeItems(StrRepr(x) + "]" + rest) == Some(([x], rest))
  {
    StrReprRoundTrip(x, "]" + rest);
    assert StrRepr(x) + "]" + rest == StrRepr(x) + ("]" + rest);
    assert ("]" + rest)[1..] == rest;
  }

  lemma DecodeNextItem(x: string, tail: string)
    requires DecodeItems(tail).Some?
    ensures DecodeItems(StrRepr(x) + ", " + tail) ==
            Some(([x] + DecodeItems(tail).value.0, DecodeItems(tail).value.1))
  {
    StrReprRoundTrip(x, ", " + tail);
    assert StrRepr(x) + ", " + tail == StrRepr(x) + (", " + tail);
    assert (", " + tail)[2..] == tail;
  }

  lemma {:induction false} JoinReprsRoundTrip(xs: seq<string>, rest: string)
    requires xs != []
    ensures DecodeItems(JoinReprs(xs) + "]" + rest) == Some((xs, rest))
  {
    if |xs| == 1 {
      DecodeLastItem(xs[0], rest);
      assert [xs[0]] == xs;
    } else {
      var tail := JoinReprs(xs[1..]) + "]" + rest;
      JoinReprsRoundTrip(xs[1..], rest);
      DecodeNextItem(xs[0], tail);
      assert JoinReprs(xs) + "]" + rest == StrRepr(xs[0]) + ", " + tail;
      assert [xs[0]] + xs[1..] == xs;
    }
  }

  lemma ListReprRoundTrip(xs: seq<string>)
    ensures DecodeList(ListRepr(xs)) == Some(xs)
  {
    if xs != [] {
      var s := ListRepr(xs);
      JoinReprsRoundTrip(xs, "");
      assert s[1..] == JoinReprs(xs) + "]" + "";
      NonEmptyListRepr(xs);
    }
  }

  /** A list with items renders as more than `[]`. */
  lemma NonEmptyListRepr(xs: seq<string>)
    requires xs != []
    ensures ListRepr(xs) != "[]"
  {
    assert |StrRepr(xs[0])| >= 2;
  }

  /** Reading `str(columns)` back gives `columns`. */
  lemma ColumnsReprRoundTrip(columns: Option<seq<string>>)
    ensures DecodeColumns(ColumnsRepr(columns)) == Some(columns)
  {
    match columns
    case None =>
    case Some(xs) =>
      ListReprRoundTrip(xs);
      assert ListRepr(xs)[0] == '[';
  }

  /** Different column selections render differently. */
  lemma ColumnsReprInjective(a: Option<seq<string>>, b: Option<seq<string>>)
    requires ColumnsRepr(a) == ColumnsRepr(b)
    ensures a == b
  {
    ColumnsReprRoundTrip(a);
    ColumnsReprRoundTrip(b);
  }
}
