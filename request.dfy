/**
 * The request text built by `HttpClient.get` and `HttpClient.post`
 * (fsmhttp/proto.py:18-41): a request line and header fields as in
 * section 3 of RFC 9112, ended by an empty line, and for a POST a JSON
 * body whose length is declared as in section 6.2 of RFC 9112.
 */
module Request {
  import opened Wrappers
  import opened Text

  const UserAgent: string := "User-Agent: m3-collector/1.0"
  const KeepAlive: string := "Connection: keep-alive"

  /** Python truthiness of a cookie that is `None` or a `str`. */
  predicate Truthy(cookies: Option<string>) {
    cookies.Some? && cookies.value != ""
  }

  function Optional(present: bool, line: string): seq<string> {
    if present then [line] else []
  }

  function CookieLines(cookies: Option<string>): seq<string> {
    if Truthy(cookies) then ["Cookie: " + cookies.value] else []
  }

  /** The lines of a GET request's header block. */
  function GetLines(url: string, host: string, keepalive: bool, cookies: Option<string>): seq<string> {
    ["GET " + url + " HTTP/1.1", "Host: " + host, UserAgent]
      + Optional(keepalive, KeepAlive) + CookieLines(cookies)
  }

  /** The lines of a POST request's header block. */
  function PostLines(url: string, host: string, keepalive: bool, cookies: Option<string>, encoded: string): seq<string> {
    ["POST " + url + " HTTP/1.1", "Host: " + host]
      + Optional(keepalive, KeepAlive) + CookieLines(cookies)
      + ["Accept: */*", UserAgent, "Content-Type: application/json", "Content-Length: " + Decimal(|encoded| + 9)]
  }

  /** The request `get` stages: its header lines, each ended by CRLF, and
      the empty line that ends the header block. */
  function GetRequest(url: string, host: string, keepalive: bool, cookies: Option<string>): string {
    Join(GetLines(url, host, keepalive, cookies), CRLF) + HeadEnd
  }

  /** The body `post` sends: the encoded payload under a single key `data`. */
  function Wrapped(encoded: string): string {
    "{\"data\":" + encoded + "}"
  }

  /** The request `post` stages: the header block, then the wrapped body, then
      CRLF CRLF again. */
  function PostRequest(url: string, host: string, keepalive: bool, cookies: Option<string>, encoded: string): string {
    Join(PostLines(url, host, keepalive, cookies, encoded), CRLF) + HeadEnd + Wrapped(encoded) + HeadEnd
  }

  /** No line of a request can be broken by a carriage return inside a field. */
  predicate OneLine(s: string) {
    '\r' !in s
  }

  predicate FieldsOneLine(url: string, host: string, cookies: Option<string>) {
    OneLine(url) && OneLine(host) && (cookies.Some? ==> OneLine(cookies.value))
  }

  predicate WellFormedLines(ls: seq<string>) {
    forall i :: 0 <= i < |ls| ==> ls[i] != [] && '\r' !in ls[i]
  }

  lemma StartsWithAt(s: string, p: string, k: nat)
    requires StartsWith(s, p) && k < |p|
    ensures s[k] == p[k]
  {
    assert s[..|p|][k] == s[k];
  }

  /** A GET ends its header block with an empty line, and splitting that
      block at CRLF gives exactly the lines above. */
  lemma GetFraming(url: string, host: string, keepalive: bool, cookies: Option<string>)
    requires FieldsOneLine(url, host, cookies)
    ensures var req := GetRequest(url, host, keepalive, cookies);
      && |req| >= 4
      && Find(req, HeadEnd) == Some(|req| - 4)
      && Split(req[..|req| - 4], CRLF) == GetLines(url, host, keepalive, cookies)
  {
    var ls := GetLines(url, host, keepalive, cookies);
    GetLinesWellFormed(url, host, keepalive, cookies);
    FramingOfLines(ls, "");
    var req := Join(ls, CRLF) + HeadEnd;
    assert req + "" == req;
  }

  /** The header block of a GET holds a `Cookie` field exactly when the
      cookie is truthy, and then that cookie. */
  lemma GetCookieField(url: string, host: string, keepalive: bool, cookies: Option<string>)
    ensures var ls := GetLines(url, host, keepalive, cookies);
      (exists i :: 0 <= i < |ls| && StartsWith(ls[i], "Cookie:")) <==> Truthy(cookies)
    ensures Truthy(cookies) ==> "Cookie: " + cookies.value in GetLines(url, host, keepalive, cookies)
  {
    var ls := GetLines(url, host, keepalive, cookies);
    if Truthy(cookies) {
      assert StartsWith(ls[|ls| - 1], "Cookie:");
    } else {
      forall i | 0 <= i < |ls| ensures !StartsWith(ls[i], "Cookie:") {
        if StartsWith(ls[i], "Cookie:") {
          StartsWithAt(ls[i], "Cookie:", 0);
          StartsWithAt(ls[i], "Cookie:", 2);
        }
      }
    }
  }

  /** The header block of a GET asks for a persistent connection exactly
      when the client was built with `keepalive`. */
  lemma GetKeepAliveField(url: string, host: string, keepalive: bool, cookies: Option<string>)
    ensures KeepAlive in GetLines(url, host, keepalive, cookies) <==> keepalive
  {
    var ls := GetLines(url, host, keepalive, cookies);
    if !keepalive {
      forall i | 0 <= i < |ls| ensures ls[i] != KeepAlive {
        if i == 0 { assert ls[i][0] == 'G'; }
        if i == 1 { assert ls[i][0] == 'H'; }
        if i >= 3 { assert ls[i][2] == 'o'; }
      }
    }
  }

  /** The header block of a POST holds a `Cookie` field exactly when the
      cookie is truthy, and then that cookie. */
  lemma PostCookieField(url: string, host: string, keepalive: bool, cookies: Option<string>, encoded: string)
    ensures var ls := PostLines(url, host, keepalive, cookies, encoded);
      (exists i :: 0 <= i < |ls| && StartsWith(ls[i], "Cookie:")) <==> Truthy(cookies)
    ensures Truthy(cookies) ==> "Cookie: " + cookies.value in PostLines(url, host, keepalive, cookies, encoded)
  {
    var ls := PostLines(url, host, keepalive, cookies, encoded);
    var opt := Optional(keepalive, KeepAlive) + CookieLines(cookies);
    if Truthy(cookies) {
      assert ls[2 + |opt| - 1] == "Cookie: " + cookies.value;
      assert StartsWith(ls[2 + |opt| - 1], "Cookie:");
    } else {
      forall i | 0 <= i < |ls| ensures !StartsWith(ls[i], "Cookie:") {
        if StartsWith(ls[i], "Cookie:") {
          StartsWithAt(ls[i], "Cookie:", 0);
          StartsWithAt(ls[i], "Cookie:", 2);
        }
      }
    }
  }

  /** The header block of a POST asks for a persistent connection exactly
      when the client was built with `keepalive`. */
  lemma PostKeepAliveField(url: string, host: string, keepalive: bool, cookies: Option<string>, encoded: string)
    ensures KeepAlive in PostLines(url, host, keepalive, cookies, encoded) <==> keepalive
  {
    var ls := PostLines(url, host, keepalive, cookies, encoded);
    var opt := Optional(keepalive, KeepAlive) + CookieLines(cookies);
    if keepalive {
      assert ls[2] == KeepAlive;
    } else {
      forall i | 0 <= i < |ls| ensures ls[i] != KeepAlive {
        if i == 0 { assert ls[i][0] == 'P'; }
        if i == 1 { assert ls[i][0] == 'H'; }
        if 2 <= i < 2 + |opt| { assert ls[i][2] == 'o'; }
        if i == 2 + |opt| { assert ls[i][0] == 'A'; }
        if i == 3 + |opt| { assert ls[i][0] == 'U'; }
        if i >= 4 + |opt| { assert ls[i][3] == 't'; }
      }
    }
  }

  /** A header block of well-formed lines, its empty line and a body: the
      head ends at the first CRLF CRLF and splits back into the lines. */
  lemma FramingOfLines(ls: seq<string>, body: string)
    requires |ls| >= 1 && WellFormedLines(ls)
    ensures var msg := Join(ls, CRLF) + HeadEnd + body;
      var k := |Join(ls, CRLF)|;
      && Find(msg, HeadEnd) == Some(k)
      && msg[k + 4..] == body
      && Split(msg[..k], CRLF) == ls
  {
    var head := Join(ls, CRLF);
    var msg := head + HeadEnd + body;
    HeadEndAfterLines(ls, body);
    assert msg[..|head|] == head;
    assert msg[|head| + 4..] == body;
    SplitJoin(ls, CRLF);
  }

  lemma OneLineJoin(a: string, b: string)
    requires OneLine(a) && OneLine(b)
    ensures OneLine(a + b)
  {
  }

  lemma RequestLineWellFormed(verb: string, url: string)
    requires OneLine(verb) && OneLine(url)
    ensures var l := verb + url + " HTTP/1.1"; l != [] && OneLine(l)
  {
    assert OneLine(" HTTP/1.1");
    OneLineJoin(verb, url);
    OneLineJoin(verb + url, " HTTP/1.1");
  }

  lemma OptionalWellFormed(keepalive: bool, cookies: Option<string>)
    requires cookies.Some? ==> OneLine(cookies.value)
    ensures WellFormedLines(Optional(keepalive, KeepAlive) + CookieLines(cookies))
  {
    assert OneLine(KeepAlive);
    if Truthy(cookies) {
      assert OneLine("Cookie: ");
      OneLineJoin("Cookie: ", cookies.value);
    }
  }

  lemma GetLinesWellFormed(url: string, host: string, keepalive: bool, cookies: Option<string>)
    requires FieldsOneLine(url, host, cookies)
    ensures WellFormedLines(GetLines(url, host, keepalive, cookies))
  {
    RequestLineWellFormed("GET ", url);
    assert OneLine("Host: ");
    OneLineJoin("Host: ", host);
    assert OneLine(UserAgent);
    OptionalWellFormed(keepalive, cookies);
  }

  lemma WellFormedAppend(a: seq<string>, b: seq<string>)
    requires WellFormedLines(a) && WellFormedLines(b)
    ensures WellFormedLines(a + b)
  {
  }

  lemma LengthLineWellFormed(d: string)
    requires AllDigits(d)
    ensures var l := "Content-Length: " + d; l != [] && OneLine(l)
  {
    assert OneLine(d) by {
      assert forall i :: 0 <= i < |d| ==> IsDigit(d[i]);
    }
    assert OneLine("Content-Length: ");
    OneLineJoin("Content-Length: ", d);
  }

  lemma WellFormedOne(l: string)
    requires l != [] && OneLine(l)
    ensures WellFormedLines([l])
  {
  }

  lemma PostTrailerWellFormed(d: string)
    requires AllDigits(d)
    ensures WellFormedLines(["Accept: */*", UserAgent, "Content-Type: application/json", "Content-Length: " + d])
  {
    var a, b, t := "Accept: */*", UserAgent, "Content-Type: application/json";
    var l := "Content-Length: " + d;
    LengthLineWellFormed(d);
    assert OneLine(a);
    assert OneLine(b);
    assert OneLine(t);
    WellFormedOne(a);
    WellFormedOne(b);
    WellFormedOne(t);
    WellFormedOne(l);
    WellFormedAppend([a], [b]);
    WellFormedAppend([a, b], [t]);
    WellFormedAppend([a, b, t], [l]);
    assert [a, b, t] + [l] == [a, b, t, l];
  }

  lemma PostLinesWellFormed(url: string, host: string, keepalive: bool, cookies: Option<string>, encoded: string)
    requires FieldsOneLine(url, host, cookies)
    ensures WellFormedLines(PostLines(url, host, keepalive, cookies, encoded))
  {
    RequestLineWellFormed("POST ", url);
    assert OneLine("Host: ");
    OneLineJoin("Host: ", host);
    var first := ["POST " + url + " HTTP/1.1", "Host: " + host];
    assert WellFormedLines(first);
    var opt := Optional(keepalive, KeepAlive) + CookieLines(cookies);
    OptionalWellFormed(keepalive, cookies);
    var fixed := ["Accept: */*", UserAgent, "Content-Type: application/json",
                  "Content-Length: " + Decimal(|encoded| + 9)];
    PostTrailerWellFormed(Decimal(|encoded| + 9));
    WellFormedAppend(first, opt);
    WellFormedAppend(first + opt, fixed);
    assert PostLines(url, host, keepalive, cookies, encoded) == first + opt + fixed;
  }

  /** A POST's header block ends at the first CRLF CRLF, splits back into
      exactly the lines above, and is followed by the wrapped body and a
      final CRLF CRLF. */
  lemma PostFraming(url: string, host: string, keepalive: bool, cookies: Option<string>, encoded: string)
    requires FieldsOneLine(url, host, cookies)
    ensures var req := PostRequest(url, host, keepalive, cookies, encoded);
      var k := |Join(PostLines(url, host, keepalive, cookies, encoded), CRLF)|;
      && Find(req, HeadEnd) == Some(k)
      && req[k + 4..] == Wrapped(encoded) + HeadEnd
      && Split(req[..k], CRLF) == PostLines(url, host, keepalive, cookies, encoded)
  {
    var ls := PostLines(url, host, keepalive, cookies, encoded);
    PostLinesWellFormed(url, host, keepalive, cookies, encoded);
    assert PostRequest(url, host, keepalive, cookies, encoded) == Join(ls, CRLF) + HeadEnd + (Wrapped(encoded) + HeadEnd);
    FramingOfLines(ls, Wrapped(encoded) + HeadEnd);
  }

  /** The length `post` declares is the length of the body it writes; the
      CRLF CRLF written after the body is not counted. */
  lemma PostBodyLength(encoded: string)
    ensures |Wrapped(encoded)| == |encoded| + 9
  {
  }
}
