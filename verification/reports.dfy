/**
 The report record sent to ErrorStream and the request that carries it: the
 endpoint URL with the two credentials in its query string
 (errorstream/ErrorStreamLogger.php lines 20-22 and 154-157).
 */
module Reports {
  import opened Wrappers
  import opened Strings
  import opened Php

  /** The fields of one report. `lineNumber` and `stackTrace` hold whatever PHP value
      the entry point put there (an integer, or a file path on the error path), and
      `stackTrace` is absent from log reports. */
  datatype Report = Report(
    errorGroup: string,
    lineNumber: PhpValue,
    fileName: string,
    message: string,
    stackTrace: Option<PhpValue>,
    severity: int)

  /** The route's public properties `url`, `api_token` and `project_token`. */
  datatype Config = Config(url: string, apiToken: string, projectToken: string)

  const DefaultUrl: string := "http://www.errorstream.com/api/1.0/errors/create"

  /** The configuration before the application overrides anything. */
  const DefaultConfig: Config := Config(DefaultUrl, "", "")

  /** One POST to the service: where it goes and the report it carries. */
  datatype Request = Request(url: string, body: Report)

  /** A form-encoder whose output never contains the query's own delimiters, as
      `urlencode` guarantees by percent-encoding them. */
  ghost predicate DelimiterFree(encode: string -> string)
  {
    forall s :: '?' !in encode(s) && '&' !in encode(s) && '=' !in encode(s)
  }

  /** The `$authData` array, in declaration order. */
  function AuthData(cfg: Config): seq<(string, string)>
  {
    [("api_token", cfg.apiToken), ("project_token", cfg.projectToken)]
  }

  /** `key=value` for each pair, both sides passed through the encoder. */
  function EncodePairs(pairs: seq<(string, string)>, encode: string -> string): (r: seq<string>)
    ensures |r| == |pairs|
    ensures forall i :: 0 <= i < |pairs| ==> r[i] == encode(pairs[i].0) + "=" + encode(pairs[i].1)
  {
    if |pairs| == 0 then []
    else [encode(pairs[0].0) + "=" + encode(pairs[0].1)] + EncodePairs(pairs[1..], encode)
  }

  /** `http_build_query`: the encoded pairs joined with '&'. */
  function BuildQuery(pairs: seq<(string, string)>, encode: string -> string): string
  {
    Implode(EncodePairs(pairs, encode), "&")
  }

  /** `$this->url . '?' . http_build_query($authData)`. */
  function RequestUrl(cfg: Config, encode: string -> string): string
  {
    cfg.url + "?" + BuildQuery(AuthData(cfg), encode)
  }

  /** The request `makeRequest` issues for one report. */
  function MakeRequest(cfg: Config, encode: string -> string, report: Report): (r: Request)
    ensures r.body == report
    ensures r.url == RequestUrl(cfg, encode)
  {
    Request(RequestUrl(cfg, encode), report)
  }

  /** Reads `key=value`; fails unless there is exactly one '='. */
  function ParsePair(piece: string): Option<(string, string)>
  {
    var kv := Split(piece, '=');
    if |kv| == 2 then Some((kv[0], kv[1])) else None
  }

  function ParsePairs(pieces: seq<string>): Option<seq<(string, string)>>
  {
    if |pieces| == 0 then Some([])
    else match (ParsePair(pieces[0]), ParsePairs(pieces[1..]))
      case (Some(p), Some(ps)) => Some([p] + ps)
      case _ => None
  }

  /** Reads a request URL back into its base and its (still encoded) query pairs:
      the base ends at the last '?', the pairs are separated by '&'. */
  function ParseRequestUrl(u: string): Option<(string, seq<(string, string)>)>
  {
    match LastIndexOf(u, '?')
    case None => None
    case Some(k) =>
      match ParsePairs(Split(u[k + 1..], '&'))
      case None => None
      case Some(pairs) => Some((u[..k], pairs))
  }

  /** Each pair with both sides passed through the encoder. */
  function EncodeEach(pairs: seq<(string, string)>, encode: string -> string): seq<(string, string)>
  {
    if |pairs| == 0 then []
    else [(encode(pairs[0].0), encode(pairs[0].1))] + EncodeEach(pairs[1..], encode)
  }

  lemma {:induction false} ParseEncodedPairs(pairs: seq<(string, string)>, encode: string -> string)
    requires DelimiterFree(encode)
    ensures ParsePairs(EncodePairs(pairs, encode)) == Some(EncodeEach(pairs, encode))
    decreases |pairs|
  {
    if |pairs| > 0 {
      var k := encode(pairs[0].0);
      var v := encode(pairs[0].1);
      SplitAfterPrefix(k, '=', v);
      SplitWithoutSeparator(v, '=');
      assert k + "=" + v == k + ['='] + v;
      ParseEncodedPairs(pairs[1..], encode);
      var enc := EncodePairs(pairs, encode);
      assert enc[1..] == EncodePairs(pairs[1..], encode);
    }
  }

  /** The request URL is the configured base, a '?', then `api_token` followed by
      `project_token`, each with its encoded value; reading it back recovers exactly
      these parts, however the base itself looks. */
  lemma {:induction false} RequestUrlRoundTrip(cfg: Config, encode: string -> string)
    requires DelimiterFree(encode)
    ensures ParseRequestUrl(RequestUrl(cfg, encode))
         == Some((cfg.url, [(encode("api_token"), encode(cfg.apiToken)),
                            (encode("project_token"), encode(cfg.projectToken))]))
  {
    var pieces := EncodePairs(AuthData(cfg), encode);
    var query := Implode(pieces, "&");
    forall i | 0 <= i < |pieces|
      ensures '&' !in pieces[i]
    {
      var p := AuthData(cfg)[i];
      assert pieces[i] == encode(p.0) + "=" + encode(p.1);
    }
    ImplodeSplitRoundTrip(pieces, '&');
    assert '?' !in query by {
      assert query == pieces[0] + "&" + pieces[1];
      assert pieces[0] == encode("api_token") + "=" + encode(cfg.apiToken);
      assert pieces[1] == encode("project_token") + "=" + encode(cfg.projectToken);
    }
    var u := RequestUrl(cfg, encode);
    assert u == cfg.url + ['?'] + query;
    LastIndexAfterPrefix(cfg.url, '?', query);
    assert u[|cfg.url| + 1..] == query;
    assert u[..|cfg.url|] == cfg.url;
    ParseEncodedPairs(AuthData(cfg), encode);
    var auth := AuthData(cfg);
    assert auth[1..][1..] == [];
    assert EncodeEach(auth[1..], encode) == [(encode("project_token"), encode(cfg.projectToken))];
    assert EncodeEach(auth, encode) == [(encode("api_token"), encode(cfg.apiToken)),
                            (encode("project_token"), encode(cfg.projectToken))];
    assert Split(query, '&') == pieces;
    assert LastIndexOf(u, '?') == Some(|cfg.url|);
    assert ParsePairs(pieces) == Some(EncodeEach(auth, encode));
  }

  /** Before the application configures anything, requests go to the ErrorStream
      endpoint with both credentials empty. */
  lemma {:induction false} DefaultRequestUrl(encode: string -> string)
    requires DelimiterFree(encode)
    ensures ParseRequestUrl(RequestUrl(DefaultConfig, encode))
         == Some((DefaultUrl, [(encode("api_token"), encode("")),
                               (encode("project_token"), encode(""))]))
  {
    RequestUrlRoundTrip(DefaultConfig, encode);
  }
}
