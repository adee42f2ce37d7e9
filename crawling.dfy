/** The cookie jar of src/crawler.ts. A `Crawler` keeps the name-value pairs
    of every `Set-Cookie` it has seen (section 5.2 of RFC 6265: the text before
    the first `;`) and sends them back as one `Cookie` header joined with "; "
    (section 4.2.1 of RFC 6265). The fetch itself is not modelled: a request
    takes the response's headers and body as parameters. */
module Crawling {
  import opened Text

  /** The `User-Agent` header every request sends. */
  const UserAgent: string := "Mozilla/5.0 (Windows NT 10.0; Win64; x64) AppleWebKit/537.36 (KHTML, like Gecko) Chrome/114.0.0.0 Safari/537.36"

  /** The `Set-Cookie` entry of `response.getAllHeaders()`: missing, one
      string, or an array of strings. */
  datatype SetCookieField = Absent | Single(value: string) | Many(values: seq<string>)

  /** A response as `request` sees it: its headers and its decoded body. */
  datatype Response = Response(setCookie: SetCookieField, content: string)

  /** The headers `request` sends. */
  datatype RequestHeaders = RequestHeaders(cookie: string, userAgent: string)

  /** The values the loop iterates over: a single string counts as a list of one. */
  function SetCookieValues(f: SetCookieField): (vs: seq<string>)
    ensures f.Absent? ==> vs == []
    ensures f.Single? ==> vs == [f.value]
    ensures f.Many? ==> vs == f.values
  {
    match f
    case Absent => []
    case Single(v) => [v]
    case Many(vs) => vs
  }

  /** `cookie.split(";")[0]`: the name-value pair of a `Set-Cookie` value, the
      whole value when it has no attributes. */
  function CookiePair(setCookie: string): (p: string)
    ensures ';' !in p
    ensures |p| <= |setCookie| && p == setCookie[..|p|]
    ensures |p| < |setCookie| ==> setCookie[|p|] == ';'
  {
    TakeUntil(setCookie, ';')
  }

  function CookiePairs(vs: seq<string>): (ps: seq<string>)
    ensures |ps| == |vs|
    ensures forall k :: 0 <= k < |vs| ==> ps[k] == CookiePair(vs[k])
  {
    seq(|vs|, k requires 0 <= k < |vs| => CookiePair(vs[k]))
  }

  /** No entry of the jar contains `;`. */
  predicate Unsplit(jar: seq<string>) {
    forall k :: 0 <= k < |jar| ==> ';' !in jar[k]
  }

  class Crawler {
    var cookies: seq<string>

    ghost predicate Valid()
      reads this
    {
      Unsplit(cookies)
    }

    /** `new Crawler()`: an empty jar, so the first request sends an empty
        `Cookie` header. */
    constructor()
      ensures cookies == [] && Valid()
      ensures CookieHeader() == ""
    {
      cookies := [];
    }

    /** The `Cookie` header: the jar joined with "; " in insertion order. */
    function CookieHeader(): string
      reads this
    {
      Join(cookies, "; ")
    }

    /** The `for…of` loop over the `Set-Cookie` values: each one's pair is
        appended in order, without removing duplicates. */
    method Absorb(field: SetCookieField)
      requires Valid()
      modifies this
      ensures Valid()
      ensures cookies == old(cookies) + CookiePairs(SetCookieValues(field))
      ensures field.Absent? ==> cookies == old(cookies)
    {
      var values := SetCookieValues(field);
      ghost var before := cookies;
      for k := 0 to |values|
        invariant cookies == before + CookiePairs(values[..k])
        invariant Valid()
      {
        assert CookiePairs(values[..k + 1]) == CookiePairs(values[..k]) + [CookiePair(values[k])];
        cookies := cookies + [CookiePair(values[k])];
      }
      assert values[..|values|] == values;
    }

    /** `request(method, url, payload)`: the headers are rendered from the jar
        as it was before the response, the response's cookies are absorbed, and
        its body is returned. */
    method Request(response: Response) returns (sent: RequestHeaders, content: string)
      requires Valid()
      modifies this
      ensures Valid()
      ensures sent == RequestHeaders(Join(old(cookies), "; "), UserAgent)
      ensures cookies == old(cookies) + CookiePairs(SetCookieValues(response.setCookie))
      ensures content == response.content
    {
      sent := RequestHeaders(CookieHeader(), UserAgent);
      Absorb(response.setCookie);
      content := response.content;
    }
  }

  /** The jar after a sequence of responses, starting from `jar`. */
  function JarAfter(jar: seq<string>, responses: seq<Response>): seq<string>
    decreases |responses|
  {
    if responses == [] then jar
    else JarAfter(jar + CookiePairs(SetCookieValues(responses[0].setCookie)), responses[1..])
  }

  /** The jar only grows: what it held stays a prefix, it grows by exactly the
      number of `Set-Cookie` values received, and it never holds a `;`. */
  lemma {:induction false} JarGrows(jar: seq<string>, responses: seq<Response>)
    requires Unsplit(jar)
    ensures |JarAfter(jar, responses)| == |jar| + CountValues(responses)
    ensures JarAfter(jar, responses)[..|jar|] == jar
    ensures Unsplit(JarAfter(jar, responses))
    decreases |responses|
  {
    if responses != [] {
      var next := jar + CookiePairs(SetCookieValues(responses[0].setCookie));
      JarGrows(next, responses[1..]);
      assert next[..|jar|] == jar;
    }
  }

  function CountValues(responses: seq<Response>): nat
    decreases |responses|
  {
    if responses == [] then 0 else |SetCookieValues(responses[0].setCookie)| + CountValues(responses[1..])
  }

  /** The pieces of the `Cookie` header: splitting it at `;` gives the first
      pair, then every later pair behind the space of its separator. */
  function Spaced(jar: seq<string>): (parts: seq<string>)
    requires |jar| >= 1
    ensures |parts| == |jar|
    ensures parts[0] == jar[0]
    ensures forall k :: 1 <= k < |jar| ==> parts[k] == " " + jar[k]
  {
    [jar[0]] + seq(|jar| - 1, k requires 0 <= k < |jar| - 1 => " " + jar[k + 1])
  }

  lemma {:induction false} JoinSpaced(jar: seq<string>)
    requires |jar| >= 1
    ensures Join(jar, "; ") == Join(Spaced(jar), ";")
    decreases |jar|
  {
    if |jar| > 1 {
      JoinSpaced(jar[1..]);
      var rest := Spaced(jar[1..]);
      var parts := Spaced(jar);
      assert parts[1..] == [" " + rest[0]] + rest[1..];
      assert Join(parts[1..], ";") == " " + Join(rest, ";") by {
        JoinPrefixFirst(rest, " ", ";");
      }
    }
  }

  /** Putting a prefix before the first part puts it before the join. */
  lemma JoinPrefixFirst(parts: seq<string>, pre: string, sep: string)
    requires |parts| >= 1
    ensures Join([pre + parts[0]] + parts[1..], sep) == pre + Join(parts, sep)
  {
    var ps := [pre + parts[0]] + parts[1..];
    assert ps[1..] == parts[1..];
  }

  /** The header separates exactly the pairs in the jar: adding the jar's
      pairs never produces an extra or a merged cookie. */
  lemma HeaderSeparatesPairs(jar: seq<string>)
    requires |jar| >= 1 && Unsplit(jar)
    ensures SplitOn(Join(jar, "; "), ';') == Spaced(jar)
  {
    JoinSpaced(jar);
    var parts := Spaced(jar);
    forall k | 0 <= k < |parts| ensures ';' !in parts[k] {
      if k > 0 {
        assert parts[k] == " " + jar[k];
      }
    }
    SplitJoin(parts, ';');
  }
}
