/**
  The request URL for the current-weather endpoint: the city, the country
  code and the API key are spliced into a fixed template verbatim, without
  any escaping.
 */
module Request {
  import opened Results
  import opened Text

  const Endpoint: string := "http://api.openweathermap.org/data/2.5/weather?q="
  const KeyName: string := "appid="
  const KeyParam: string := "&" + KeyName
  const UnitsParam: string := "&units=metric"

  /** The three values a request carries. */
  datatype Query = Query(city: string, countryCode: string, apiKey: string)

  /** The part of the URL after the endpoint and before the units flag. */
  function QueryString(city: string, countryCode: string, apiKey: string): string {
    city + "," + countryCode + KeyParam + apiKey
  }

  /** The URL for a query: endpoint, city, ",", country code, the key
      parameter and the metric-units flag. */
  function RequestUrl(city: string, countryCode: string, apiKey: string): (url: string)
    ensures |url| == |Endpoint| + |city| + 1 + |countryCode| + |KeyParam| + |apiKey| + |UnitsParam|
    ensures Endpoint <= url
    ensures url[|Endpoint|..|Endpoint| + |city|] == city
    ensures url[|Endpoint| + |city|] == ','
    ensures url[|Endpoint| + |city| + 1..|Endpoint| + |city| + 1 + |countryCode|] == countryCode
    ensures url[|Endpoint| + |city| + 1 + |countryCode|..|url| - |UnitsParam| - |apiKey|] == KeyParam
    ensures url[|url| - |UnitsParam|..] == UnitsParam
    ensures url[|url| - |UnitsParam| - |apiKey|..|url| - |UnitsParam|] == apiKey
  {
    Endpoint + QueryString(city, countryCode, apiKey) + UnitsParam
  }

  /** The middle of `s` when it starts with `pre` and ends with `post`
      (the two not overlapping). */
  function Unwrap(s: string, pre: string, post: string): (r: Option<string>)
    ensures r.Some? ==> s == pre + r.value + post
  {
    if |s| < |pre| + |post| || s[..|pre|] != pre || s[|s| - |post|..] != post then None
    else
      assert s == s[..|pre|] + s[|pre|..|s| - |post|] + s[|s| - |post|..];
      Some(s[|pre|..|s| - |post|])
  }

  lemma UnwrapWrapped(pre: string, m: string, post: string)
    ensures Unwrap(pre + m + post, pre, post) == Some(m)
  {
    var s := pre + m + post;
    assert s[..|pre|] == pre;
    assert s[|s| - |post|..] == post;
    assert s[|pre|..|s| - |post|] == m;
  }

  /** Splits `s` around the first occurrence of `c`. */
  function SplitAt(s: string, c: char): (r: Option<(string, string)>)
    ensures r.Some? ==> c !in r.value.0 && s == r.value.0 + [c] + r.value.1
    ensures r.None? <==> c !in s
  {
    match IndexOf(s, c)
    case None => None
    case Some(i) =>
      assert s == s[..i] + [c] + s[i + 1..];
      Some((s[..i], s[i + 1..]))
  }

  lemma SplitAtJoin(a: string, c: char, b: string)
    requires c !in a
    ensures SplitAt(a + [c] + b, c) == Some((a, b))
  {
    IndexOfAfter(a, c, b);
    var s := a + [c] + b;
    assert s[..|a|] == a;
    assert s[|a| + 1..] == b;
  }

  /** Splits a query string at the first ',' and at the first '&' after it,
      which must open the key parameter. */
  function SplitQuery(q: string): Option<Query> {
    var atComma := SplitAt(q, ',');
    if atComma.None? then None
    else
      var atAmp := SplitAt(atComma.value.1, '&');
      if atAmp.None? then None
      else
        var key := Unwrap(atAmp.value.1, KeyName, "");
        if key.None? then None
        else Some(Query(atComma.value.0, atAmp.value.0, key.value))
  }

  /** Reads a query back out of a URL. */
  function ParseUrl(url: string): Option<Query> {
    match Unwrap(url, Endpoint, UnitsParam)
    case None => None
    case Some(q) => SplitQuery(q)
  }

  /** The query string, grouped the way SplitQuery takes it apart. */
  lemma QueryStringShape(city: string, countryCode: string, apiKey: string)
    ensures QueryString(city, countryCode, apiKey)
         == city + [','] + (countryCode + ['&'] + (KeyName + apiKey))
  {
    assert KeyParam == ['&'] + KeyName;
  }

  lemma {:induction false} SplitQueryString(city: string, countryCode: string, apiKey: string)
    requires ',' !in city && '&' !in countryCode
    ensures SplitQuery(QueryString(city, countryCode, apiKey)) == Some(Query(city, countryCode, apiKey))
  {
    var keyPart := KeyName + apiKey + "";
    var rest := countryCode + ['&'] + keyPart;
    assert QueryString(city, countryCode, apiKey) == city + [','] + rest;
    SplitAtJoin(city, ',', rest);
    SplitAtJoin(countryCode, '&', keyPart);
    UnwrapWrapped(KeyName, apiKey, "");
  }

  lemma {:induction false} QueryStringOfSplit(q: string)
    requires SplitQuery(q).Some?
    ensures var r := SplitQuery(q).value;
      && ',' !in r.city && '&' !in r.countryCode
      && QueryString(r.city, r.countryCode, r.apiKey) == q
  {
    var atComma := SplitAt(q, ',').value;
    var atAmp := SplitAt(atComma.1, '&').value;
    var key := Unwrap(atAmp.1, KeyName, "").value;
    assert atAmp.1 == KeyName + key + "";
    assert q == atComma.0 + [','] + (atAmp.0 + ['&'] + (KeyName + key));
    QueryStringShape(atComma.0, atAmp.0, key);
  }

  /** A URL built from a city without ',' and a country code without '&'
      reads back as the same query. */
  lemma {:induction false} ParseRequestUrl(city: string, countryCode: string, apiKey: string)
    requires ',' !in city && '&' !in countryCode
    ensures ParseUrl(RequestUrl(city, countryCode, apiKey)) == Some(Query(city, countryCode, apiKey))
  {
    UnwrapWrapped(Endpoint, QueryString(city, countryCode, apiKey), UnitsParam);
    SplitQueryString(city, countryCode, apiKey);
  }

  /** Conversely, a URL that reads back as a query is exactly the URL of
      that query, and the query meets the conditions of ParseRequestUrl. */
  lemma {:induction false} RequestUrlOfParse(url: string)
    requires ParseUrl(url).Some?
    ensures var r := ParseUrl(url).value;
      && ',' !in r.city && '&' !in r.countryCode
      && RequestUrl(r.city, r.countryCode, r.apiKey) == url
  {
    var q := Unwrap(url, Endpoint, UnitsParam).value;
    QueryStringOfSplit(q);
  }

  /** Because nothing is escaped, distinct queries can share a URL: a ','
      moved from the city into the country code goes unnoticed. */
  lemma UnescapedCommaIsAmbiguous()
    ensures Query("a,b", "c", "k") != Query("a", "b,c", "k")
    ensures RequestUrl("a,b", "c", "k") == RequestUrl("a", "b,c", "k")
  {
  }
}
