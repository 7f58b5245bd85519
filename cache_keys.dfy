/**
 * Cache keys: `get_url_hash` names a URL's cache directory and
 * `get_query_hash` names a cached query result
 * (httpcachefs/smart_parquet/utils.py). Both are the SHA-256 hex digest of
 * the UTF-8 encoding of a text. SHA-256 itself is not modelled: it is the
 * parameter `sha`, any function from bytes to a 64-character lower-case hex
 * digest. What is modelled is the text that gets hashed.
 */
module CacheKeys {
  import opened Options
  import PyRepr
  import Utf8

  /** A `hexdigest()` result: 64 lower-case hexadecimal digits. */
  predicate IsHexDigest(d: string)
  {
    |d| == 64 && forall c :: c in d ==> c in PyRepr.HexDigits
  }

  type Digest = d: string | IsHexDigest(d) witness seq(64, _ => '0')

  /** `lambda b: hashlib.sha256(b).hexdigest()`, left abstract. */
  type Sha256Hex = seq<Utf8.Byte> -> Digest

  /**
   * `get_url_hash(url)`: the digest of the UTF-8 bytes of `url`, bytes from
   * which `url` can be read back.
   */
  function UrlHash(sha: Sha256Hex, url: string): (r: Digest)
    ensures r == sha(Utf8.Encode(url)) && Utf8.Decode(Utf8.Encode(url)) == Some(url)
  {
    Utf8.DecodeEncode(url);
    sha(Utf8.Encode(url))
  }

  /**
   * The text `get_query_hash` hashes, `f"{key}|{str(columns)}"`: the key, a
   * `|`, and a rendering of the columns from which they can be read back.
   */
  function QueryPreimage(key: string, columns: Option<seq<string>>): (r: string)
    ensures |r| > |key| && r[..|key|] == key && r[|key|] == '|'
    ensures PyRepr.DecodeColumns(r[|key| + 1..]) == Some(columns)
  {
    var r := key + "|" + PyRepr.ColumnsRepr(columns);
    assert r[|key| + 1..] == PyRepr.ColumnsRepr(columns);
    PyRepr.ColumnsReprRoundTrip(columns);
    r
  }

  /**
   * `get_query_hash(key, columns)`: the digest of the UTF-8 bytes of the
   * preimage, bytes from which the preimage can be read back.
   */
  function QueryHash(sha: Sha256Hex, key: string, columns: Option<seq<string>>): (r: Digest)
    ensures var p := QueryPreimage(key, columns);
      r == sha(Utf8.Encode(p)) && Utf8.Decode(Utf8.Encode(p)) == Some(p)
  {
    Utf8.DecodeEncode(QueryPreimage(key, columns));
    sha(Utf8.Encode(QueryPreimage(key, columns)))
  }

  /** Under one key, different column selections have different preimages. */
  lemma QueryPreimageInjective(key: string, a: Option<seq<string>>, b: Option<seq<string>>)
    requires QueryPreimage(key, a) == QueryPreimage(key, b)
    ensures a == b
  {
  }

  /** Two different byte strings that `sha` maps to the same digest. */
  predicate IsCollision(sha: Sha256Hex, x: seq<Utf8.Byte>, y: seq<Utf8.Byte>)
  {
    x != y && sha(x) == sha(y)
  }

  /**
   * Under one key, two different column selections get the same query hash
   * only through a collision of `sha`: their hashed bytes differ.
   */
  lemma QueryHashCollisionOnly(sha: Sha256Hex, key: string, a: Option<seq<string>>, b: Option<seq<string>>)
    requires a != b && QueryHash(sha, key, a) == QueryHash(sha, key, b)
    ensures IsCollision(sha, Utf8.Encode(QueryPreimage(key, a)), Utf8.Encode(QueryPreimage(key, b)))
  {
    if Utf8.Encode(QueryPreimage(key, a)) == Utf8.Encode(QueryPreimage(key, b)) {
      Utf8.EncodeInjective(QueryPreimage(key, a), QueryPreimage(key, b));
      QueryPreimageInjective(key, a, b);
    }
  }

  /** Two different URLs share a cache directory only through a collision of `sha`. */
  lemma UrlHashCollisionOnly(sha: Sha256Hex, u: string, v: string)
    requires u != v && UrlHash(sha, u) == UrlHash(sha, v)
    ensures IsCollision(sha, Utf8.Encode(u), Utf8.Encode(v))
  {
    if Utf8.Encode(u) == Utf8.Encode(v) {
      Utf8.EncodeInjective(u, v);
    }
  }

  /** No column list renders as `None`, and the empty list renders as `[]`. */
  lemma NoneIsNotEmptyList(key: string)
    ensures QueryPreimage(key, None) == key + "|" + "None"
    ensures QueryPreimage(key, Some([])) == key + "|" + "[]"
    ensures forall xs :: QueryPreimage(key, None) != QueryPreimage(key, Some(xs))
  {
    assert PyRepr.ListRepr([]) == "[]" by { assert PyRepr.JoinReprs([]) == ""; }
    forall xs ensures QueryPreimage(key, None) != QueryPreimage(key, Some(xs)) {
      if QueryPreimage(key, None) == QueryPreimage(key, Some(xs)) {
        QueryPreimageInjective(key, None, Some(xs));
      }
    }
  }

  /** A list renders as Python prints it: `42|['id', "it's"]`. */
  lemma ExampleListPreimage()
    ensures QueryPreimage("42", Some(["id", "it's"])) == "42" + "|" + ("[" + ("'id'" + ", " + "\"it's\"") + "]")
  {
    PyRepr.ExamplePlainItem();
    PyRepr.ExampleApostropheItem();
    assert PyRepr.JoinReprs(["id", "it's"]) == PyRepr.StrRepr("id") + ", " + PyRepr.StrRepr("it's") by {
      assert ["id", "it's"][1..] == ["it's"];
    }
  }
}
