/**
 * How `HttpClient.process_data` reads the head of a response from the
 * first non-empty chunk (fsmhttp/proto.py:58-74): the two-way split at the
 * first CRLF CRLF, the split of the header block into lines, and the loop
 * that picks out `Set-Cookie:` and `Content-Length:`.
 */
module Response {
  import opened Wrappers
  import opened Text
  import opened Request

  /** `headers, data = chunk.split("\r\n\r\n", 2)`: the unpacking into two
      names succeeds only when the delimiter occurs, and does not occur again
      in what follows it. */
  function SplitHead(chunk: string): (r: Option<(string, string)>)
    ensures r.Some? ==> chunk == r.value.0 + HeadEnd + r.value.1
    ensures r.Some? ==> Find(chunk, HeadEnd) == Some(|r.value.0|) && Find(r.value.1, HeadEnd) == None
    ensures r.None? ==> Find(chunk, HeadEnd) == None
                        || Find(chunk[Find(chunk, HeadEnd).value + 4..], HeadEnd).Some?
  {
    match Find(chunk, HeadEnd)
    case None => None
    case Some(i) =>
      var rest := chunk[i + 4..];
      if Find(rest, HeadEnd).Some? then None
      else
        assert chunk == chunk[..i] + HeadEnd + rest;
        Some((chunk[..i], rest))
  }

  /** What the header loop leaves behind: the local `cookies`, the counter,
      and whether `int()` raised on a `Content-Length` value. */
  datatype Scan = Scan(cookie: Option<string>, toRead: int, ok: bool)

  predicate IsCookieLine(h: string) {
    StartsWith(h, "Set-Cookie:")
  }

  predicate IsLengthLine(h: string) {
    StartsWith(h, "Content-Length:")
  }

  /** The header loop from line `i` on, with the loop's current `cookies`
      and counter; `bodyLen` is the length of the body fragment. */
  function ScanFrom(lines: seq<string>, i: nat, bodyLen: nat, cookie: Option<string>, toRead: int): Scan
    requires i <= |lines|
    decreases |lines| - i
  {
    if i == |lines| then Scan(cookie, toRead, true)
    else
      var h := lines[i];
      if IsCookieLine(h) then
        var c := Some(Drop(h, 12));
        if toRead != -1 then Scan(c, toRead, true)
        else ScanFrom(lines, i + 1, bodyLen, c, toRead)
      else if IsLengthLine(h) then
        match ParseInt(Drop(h, 15))
        case None => Scan(cookie, toRead, false)
        case Some(n) =>
          var t := n - bodyLen;
          if Truthy(cookie) then Scan(cookie, t, true)
          else ScanFrom(lines, i + 1, bodyLen, cookie, t)
      else ScanFrom(lines, i + 1, bodyLen, cookie, toRead)
  }

  /** The whole loop, entered with no cookie and the counter at its sentinel. */
  function HeaderScan(lines: seq<string>, bodyLen: nat): Scan {
    ScanFrom(lines, 0, bodyLen, None, -1)
  }

  /** The header loop itself, with its two early exits. */
  method ScanHeaders(lines: seq<string>, bodyLen: nat) returns (r: Scan)
    ensures r == HeaderScan(lines, bodyLen)
  {
    var cookie: Option<string> := None;
    var toRead := -1;
    var i := 0;
    while i < |lines|
      invariant 0 <= i <= |lines|
      invariant ScanFrom(lines, i, bodyLen, cookie, toRead) == HeaderScan(lines, bodyLen)
    {
      var h := lines[i];
      if IsCookieLine(h) {
        cookie := Some(Drop(h, 12));
        if toRead != -1 {
          return Scan(cookie, toRead, true);
        }
      } else if IsLengthLine(h) {
        var n := ParseInt(Drop(h, 15));
        if n.None? {
          return Scan(cookie, toRead, false);
        }
        toRead := n.value - bodyLen;
        if Truthy(cookie) {
          return Scan(cookie, toRead, true);
        }
      }
      i := i + 1;
    }
    return Scan(cookie, toRead, true);
  }

  lemma NotBoth(h: string)
    ensures !(IsCookieLine(h) && IsLengthLine(h))
  {
    if IsCookieLine(h) && IsLengthLine(h) {
      StartsWithAt(h, "Set-Cookie:", 0);
      StartsWithAt(h, "Content-Length:", 0);
    }
  }

  /** Without a `Content-Length` line the loop leaves the counter as it was. */
  lemma {:induction false} NoLengthKeepsCounter(lines: seq<string>, i: nat, bodyLen: nat, cookie: Option<string>, toRead: int)
    requires i <= |lines|
    requires forall j :: i <= j < |lines| ==> !IsLengthLine(lines[j])
    ensures ScanFrom(lines, i, bodyLen, cookie, toRead).ok
    ensures ScanFrom(lines, i, bodyLen, cookie, toRead).toRead == toRead
    decreases |lines| - i
  {
    if i < |lines| {
      var h := lines[i];
      if IsCookieLine(h) {
        NoLengthKeepsCounter(lines, i + 1, bodyLen, Some(Drop(h, 12)), toRead);
      } else {
        NoLengthKeepsCounter(lines, i + 1, bodyLen, cookie, toRead);
      }
    }
  }

  /** A head without `Content-Length` leaves the counter at the sentinel -1. */
  lemma NoLengthIsSentinel(lines: seq<string>, bodyLen: nat)
    requires forall j :: 0 <= j < |lines| ==> !IsLengthLine(lines[j])
    ensures HeaderScan(lines, bodyLen).ok && HeaderScan(lines, bodyLen).toRead == -1
  {
    NoLengthKeepsCounter(lines, 0, bodyLen, None, -1);
  }

  /** With exactly one `Content-Length` line, readable by `int()`, the counter
      ends at the declared length less what the first chunk already holds. */
  lemma {:induction false} OneLengthSetsCounter(lines: seq<string>, i: nat, bodyLen: nat, cookie: Option<string>, k: nat, n: int)
    requires i <= k < |lines|
    requires IsLengthLine(lines[k]) && ParseInt(Drop(lines[k], 15)) == Some(n)
    requires forall j :: i <= j < |lines| && j != k ==> !IsLengthLine(lines[j])
    ensures ScanFrom(lines, i, bodyLen, cookie, -1).ok
    ensures ScanFrom(lines, i, bodyLen, cookie, -1).toRead == n - bodyLen
    decreases |lines| - i
  {
    var h := lines[i];
    NotBoth(h);
    if i == k {
      if !Truthy(cookie) {
        NoLengthKeepsCounter(lines, i + 1, bodyLen, cookie, n - bodyLen);
      }
    } else if IsCookieLine(h) {
      OneLengthSetsCounter(lines, i + 1, bodyLen, Some(Drop(h, 12)), k, n);
    } else {
      OneLengthSetsCounter(lines, i + 1, bodyLen, cookie, k, n);
    }
  }

  lemma OneLength(lines: seq<string>, bodyLen: nat, k: nat, n: int)
    requires k < |lines|
    requires IsLengthLine(lines[k]) && ParseInt(Drop(lines[k], 15)) == Some(n)
    requires forall j :: 0 <= j < |lines| && j != k ==> !IsLengthLine(lines[j])
    ensures HeaderScan(lines, bodyLen).ok && HeaderScan(lines, bodyLen).toRead == n - bodyLen
  {
    OneLengthSetsCounter(lines, 0, bodyLen, None, k, n);
  }

  /** Without a `Set-Cookie` line the loop's cookie stays what it was. */
  lemma {:induction false} NoCookieKeepsCookie(lines: seq<string>, i: nat, bodyLen: nat, cookie: Option<string>, toRead: int)
    requires i <= |lines|
    requires forall j :: i <= j < |lines| ==> !IsCookieLine(lines[j])
    ensures ScanFrom(lines, i, bodyLen, cookie, toRead).cookie == cookie
    decreases |lines| - i
  {
    if i < |lines| {
      var h := lines[i];
      if IsLengthLine(h) {
        match ParseInt(Drop(h, 15))
        case None =>
        case Some(n) => NoCookieKeepsCookie(lines, i + 1, bodyLen, cookie, n - bodyLen);
      } else {
        NoCookieKeepsCookie(lines, i + 1, bodyLen, cookie, toRead);
      }
    }
  }

  /** A head without `Set-Cookie` yields no cookie. */
  lemma NoCookieLine(lines: seq<string>, bodyLen: nat)
    requires forall j :: 0 <= j < |lines| ==> !IsCookieLine(lines[j])
    ensures HeaderScan(lines, bodyLen).cookie == None
  {
    NoCookieKeepsCookie(lines, 0, bodyLen, None, -1);
  }

  /** With exactly one `Set-Cookie` line, a loop that does not raise yields
      that line's whole value after its first twelve characters. */
  lemma {:induction false} OneCookieFrom(lines: seq<string>, i: nat, bodyLen: nat, toRead: int, k: nat)
    requires i <= k < |lines|
    requires IsCookieLine(lines[k])
    requires forall j :: i <= j < |lines| && j != k ==> !IsCookieLine(lines[j])
    requires ScanFrom(lines, i, bodyLen, None, toRead).ok
    ensures ScanFrom(lines, i, bodyLen, None, toRead).cookie == Some(Drop(lines[k], 12))
    decreases |lines| - i
  {
    var h := lines[i];
    NotBoth(h);
    if i == k {
      if toRead == -1 {
        NoCookieKeepsCookie(lines, i + 1, bodyLen, Some(Drop(h, 12)), toRead);
      }
    } else if IsLengthLine(h) {
      match ParseInt(Drop(h, 15))
      case None =>
      case Some(n) => OneCookieFrom(lines, i + 1, bodyLen, n - bodyLen, k);
    } else {
      OneCookieFrom(lines, i + 1, bodyLen, toRead, k);
    }
  }

  lemma OneCookie(lines: seq<string>, bodyLen: nat, k: nat)
    requires k < |lines| && IsCookieLine(lines[k])
    requires forall j :: 0 <= j < |lines| && j != k ==> !IsCookieLine(lines[j])
    requires HeaderScan(lines, bodyLen).ok
    ensures HeaderScan(lines, bodyLen).cookie == Some(Drop(lines[k], 12))
  {
    OneCookieFrom(lines, 0, bodyLen, -1, k);
  }

  lemma NotLengthAt(h: string, k: nat)
    requires k < 15 && k < |h| && h[k] != "Content-Length:"[k]
    ensures !IsLengthLine(h)
  {
    if IsLengthLine(h) { StartsWithAt(h, "Content-Length:", k); }
  }

  lemma NotCookieAt(h: string, k: nat)
    requires k < 11 && k < |h| && h[k] != "Set-Cookie:"[k]
    ensures !IsCookieLine(h)
  {
    if IsCookieLine(h) { StartsWithAt(h, "Set-Cookie:", k); }
  }

  predicate NoFieldLines(ls: seq<string>) {
    forall j :: 0 <= j < |ls| ==> !IsLengthLine(ls[j]) && !IsCookieLine(ls[j])
  }

  lemma OptionalLinesNoFields(keepalive: bool, cookies: Option<string>)
    ensures NoFieldLines(Optional(keepalive, KeepAlive) + CookieLines(cookies))
  {
    if keepalive {
      NotLengthAt(KeepAlive, 3);
      NotCookieAt(KeepAlive, 0);
    }
    if Truthy(cookies) {
      var l := "Cookie: " + cookies.value;
      assert l[0] == 'C' && l[2] == 'o';
      NotLengthAt(l, 2);
      NotCookieAt(l, 0);
    }
  }

  /** Of the lines `post` writes, only the last one is a `Content-Length`
      line and none is a `Set-Cookie` line. */
  lemma PostLinesFields(url: string, host: string, keepalive: bool, cookies: Option<string>, encoded: string)
    ensures var ls := PostLines(url, host, keepalive, cookies, encoded);
      && NoFieldLines(ls[..|ls| - 1])
      && !IsCookieLine(ls[|ls| - 1])
  {
    var ls := PostLines(url, host, keepalive, cookies, encoded);
    var first := ["POST " + url + " HTTP/1.1", "Host: " + host];
    var opt := Optional(keepalive, KeepAlive) + CookieLines(cookies);
    var fixed := ["Accept: */*", UserAgent, "Content-Type: application/json"];
    var last := "Content-Length: " + Decimal(|encoded| + 9);
    assert ls == first + opt + fixed + [last];
    assert ls[..|ls| - 1] == first + opt + fixed;
    NotLengthAt(first[0], 0); NotCookieAt(first[0], 0);
    NotLengthAt(first[1], 0); NotCookieAt(first[1], 0);
    assert NoFieldLines(first);
    OptionalLinesNoFields(keepalive, cookies);
    NotLengthAt(fixed[0], 0); NotCookieAt(fixed[0], 0);
    NotLengthAt(fixed[1], 0); NotCookieAt(fixed[1], 0);
    NotLengthAt(fixed[2], 8); NotCookieAt(fixed[2], 0);
    assert NoFieldLines(fixed);
    NotCookieAt(last, 0);
  }

  /** Read back with this same head parsing, the header lines `post` writes
      declare exactly the length of its wrapped body: once that body has
      arrived, the counter is 0 and no cookie was seen. */
  lemma PostDeclaresBodyLength(url: string, host: string, keepalive: bool, cookies: Option<string>, encoded: string)
    ensures HeaderScan(PostLines(url, host, keepalive, cookies, encoded), |Wrapped(encoded)|) == Scan(None, 0, true)
  {
    var ls := PostLines(url, host, keepalive, cookies, encoded);
    var m := |encoded| + 9;
    var k := |ls| - 1;
    assert ls[k] == "Content-Length: " + Decimal(m);
    assert Drop(ls[k], 15) == " " + Decimal(m);
    ParseDecimal(m);
    PostLinesFields(url, host, keepalive, cookies, encoded);
    assert forall j :: 0 <= j < k ==> ls[j] == ls[..k][j];
    OneLength(ls, |Wrapped(encoded)|, k, m);
    NoCookieLine(ls, |Wrapped(encoded)|);
  }

  /** When every `Content-Length` line from `i` on declares the same length
      `n`, the loop does not raise, and it ends with the counter at
      `n - bodyLen` once such a line exists or the counter was already set. */
  lemma {:induction false} AgreedLength(lines: seq<string>, i: nat, bodyLen: nat, cookie: Option<string>, toRead: int, n: int)
    requires i <= |lines|
    requires LengthsAre(lines, n)
    requires toRead == -1 || toRead == n - bodyLen
    ensures ScanFrom(lines, i, bodyLen, cookie, toRead).ok
    ensures toRead == n - bodyLen ==> ScanFrom(lines, i, bodyLen, cookie, toRead).toRead == n - bodyLen
    ensures (exists j :: i <= j < |lines| && IsLengthLine(lines[j])) ==>
              ScanFrom(lines, i, bodyLen, cookie, toRead).toRead == n - bodyLen
    decreases |lines| - i
  {
    if i < |lines| {
      var h := lines[i];
      NotBoth(h);
      if IsCookieLine(h) {
        AgreedLength(lines, i + 1, bodyLen, Some(Drop(h, 12)), toRead, n);
      } else if IsLengthLine(h) {
        assert LengthOk(lines, i, n);
        AgreedLength(lines, i + 1, bodyLen, cookie, n - bodyLen, n);
      } else {
        AgreedLength(lines, i + 1, bodyLen, cookie, toRead, n);
        assert !IsLengthLine(lines[i]);
        assert (exists j :: i <= j < |lines| && IsLengthLine(lines[j])) ==>
                 (exists j :: i + 1 <= j < |lines| && IsLengthLine(lines[j]));
      }
    }
  }

  /** No readable declared length `n` makes `n - bodyLen` hit the sentinel. */
  predicate AvoidsSentinel(lines: seq<string>, i: nat, bodyLen: nat) {
    forall j :: i <= j < |lines| && IsLengthLine(lines[j]) && ParseInt(Drop(lines[j], 15)).Some? ==>
      ParseInt(Drop(lines[j], 15)).value - bodyLen != -1
  }

  /** The loop takes the same branches whatever part of the body came with
      the head, as long as no counter value it computes is the sentinel: the
      cookie and the outcome agree, and the counters differ by exactly the
      difference in body length. */
  lemma {:induction false} ScanShift(lines: seq<string>, i: nat, b1: nat, b2: nat, cookie: Option<string>, t1: int, t2: int)
    requires i <= |lines|
    requires AvoidsSentinel(lines, i, b1) && AvoidsSentinel(lines, i, b2)
    requires (t1 == -1) == (t2 == -1)
    requires t1 != -1 ==> t1 + b1 == t2 + b2
    ensures var r1 := ScanFrom(lines, i, b1, cookie, t1);
            var r2 := ScanFrom(lines, i, b2, cookie, t2);
            && r1.cookie == r2.cookie && r1.ok == r2.ok
            && (r1.toRead == -1) == (r2.toRead == -1)
            && (r1.toRead != -1 ==> r1.toRead + b1 == r2.toRead + b2)
    decreases |lines| - i
  {
    if i < |lines| {
      var h := lines[i];
      if IsCookieLine(h) {
        if t1 == -1 {
          ScanShift(lines, i + 1, b1, b2, Some(Drop(h, 12)), t1, t2);
        }
      } else if IsLengthLine(h) {
        match ParseInt(Drop(h, 15))
        case None =>
        case Some(n) =>
          if !Truthy(cookie) {
            ScanShift(lines, i + 1, b1, b2, cookie, n - b1, n - b2);
          }
      } else {
        ScanShift(lines, i + 1, b1, b2, cookie, t1, t2);
      }
    }
  }

  /** Every `Content-Length` line is readable and declares `n`. */
  predicate LengthsAre(lines: seq<string>, n: int) {
    forall j {:trigger LengthOk(lines, j, n)} :: 0 <= j < |lines| ==> LengthOk(lines, j, n)
  }

  /** Line `j`, when it is a `Content-Length` line, is readable and declares `n`. */
  predicate LengthOk(lines: seq<string>, j: int, n: int) {
    0 <= j < |lines| && IsLengthLine(lines[j]) ==> ParseInt(Drop(lines[j], 15)) == Some(n)
  }

  lemma LengthsAvoidSentinel(lines: seq<string>, b: nat, n: nat)
    requires b <= n && LengthsAre(lines, n)
    ensures AvoidsSentinel(lines, 0, b)
  {
    forall j | 0 <= j < |lines| && IsLengthLine(lines[j]) && ParseInt(Drop(lines[j], 15)).Some?
      ensures ParseInt(Drop(lines[j], 15)).value - b != -1
    {
      assert LengthOk(lines, j, n);
    }
  }

  predicate HasLengthLine(lines: seq<string>) {
    exists j :: 0 <= j < |lines| && IsLengthLine(lines[j])
  }

  /** A head whose every `Content-Length` line declares `n` scans the same
      whether `b` characters of the body or all `n` came with it. */
  lemma AgreedLengthEitherWay(lines: seq<string>, b: nat, n: nat)
    requires b <= n && LengthsAre(lines, n) && HasLengthLine(lines)
    ensures HeaderScan(lines, b) == Scan(HeaderScan(lines, b).cookie, n - b, true)
    ensures HeaderScan(lines, n) == Scan(HeaderScan(lines, b).cookie, 0, true)
  {
    AgreedLength(lines, 0, n, None, -1, n);
    AgreedLength(lines, 0, b, None, -1, n);
    LengthsAvoidSentinel(lines, n, n);
    LengthsAvoidSentinel(lines, b, n);
    ScanShift(lines, 0, n, b, None, -1, -1);
  }
}
