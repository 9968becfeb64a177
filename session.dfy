/**
 * The whole state of one `OpenBmcHttpClient` as a value, and what each of
 * its operations does to it (fsmhttp/proto.py:18-133). The class in module
 * Client performs the same steps field by field and is proved to agree with
 * these functions; the properties of the client are lemmas here.
 */
module Session {
  import opened Wrappers
  import opened Text
  import opened Json
  import opened Request
  import opened Response
  import opened Points
  import opened RackData

  /** The transport's connection state, as `process_data` sets it. */
  datatype ConnState = Ready | WaitAnswer

  /** Which handler `_recv` currently holds. */
  datatype Phase = LoginPhase | RackPhase

  /** The exceptions that escape `process_data`: the two-name unpack of the
      head split, `int()` on a `Content-Length` value, `_status[1]`. */
  datatype Fault = MalformedHead | BadContentLength | NoStatusCode

  /** What `process_data` returns: 0 for an empty chunk, `stop()`,
      `EPOLLOUT`, -1 to wait for more, or an exception. */
  datatype Outcome = NoData | Stop | SendNext | AwaitMore | Raised(fault: Fault)

  /** What the client is built with; the JSON encoder and decoder and the
      rendering of a value into a template are parameters. */
  datatype Config = Config(
    host: string, keepalive: bool, user: string, passwd: string,
    points: seq<(string, PointSpec)>,
    encode: Json -> string, decode: string -> Option<Json>, render: Json -> string)

  /** The client's fields: `_buf`, `_url`, `_data`, `_bytes_to_read`,
      `_status`, `_cookies`, `_state`, `_retries`, the phase held in `_recv`,
      and what `on_data` has printed. */
  datatype Conn = Conn(
    buf: string, url: string, body: Option<string>, toRead: int, status: seq<string>,
    cookies: Option<string>, state: ConnState, retries: int, phase: Phase, output: seq<Sample>)

  const LoginUrl: string := "/login"
  const RackUrl: string := "/api/storage/rack"

  /** The login payload `[user, passwd]`. */
  function Credentials(cfg: Config): Json {
    Arr([Str(cfg.user), Str(cfg.passwd)])
  }

  /** Once a head has been read the body exists, so `_data += ...` is safe. */
  predicate Inv(c: Conn) {
    c.toRead != -1 ==> c.body.Some?
  }

  /** `get(url, cookies)`. */
  function StageGet(c: Conn, cfg: Config, url: string, cookies: Option<string>): Conn {
    c.(url := url, body := None, toRead := -1, buf := GetRequest(url, cfg.host, cfg.keepalive, cookies))
  }

  /** `post(url, payload, cookies)`. */
  function StagePost(c: Conn, cfg: Config, url: string, payload: Json, cookies: Option<string>): Conn {
    c.(url := url, body := None, toRead := -1,
       buf := PostRequest(url, cfg.host, cfg.keepalive, cookies, cfg.encode(payload)))
  }

  /** The state after `OpenBmcHttpClient.__init__`: the login POST staged. */
  function Initial(cfg: Config): Conn {
    var blank := Conn("", "", None, -1, [], None, Ready, 0, LoginPhase, []);
    StagePost(blank, cfg, LoginUrl, Credentials(cfg), None)
  }

  /** `_on_login`: move to the rack phase and stage the rack GET. */
  function OnLogin(c: Conn, cfg: Config): (Conn, bool) {
    (StageGet(c.(phase := RackPhase), cfg, RackUrl, c.cookies), true)
  }

  /** `_on_rack_data`: emit the samples; it ends the cycle whether or not
      the walk raised. */
  function OnRackData(c: Conn, cfg: Config, body: string, tm: real): (Conn, bool) {
    var e := RackEmission(cfg.points, body, tm, cfg.decode, cfg.render);
    (c.(output := c.output + e.out), false)
  }

  /** `_on_response`: dispatch on the status code, then on the phase. */
  function OnResponse(c: Conn, cfg: Config, url: string, status: string, cookies: Option<string>,
                      body: string, tm: real): (r: (Conn, bool))
    requires Inv(c)
    ensures Inv(r.0)
  {
    if status == "500" then (c, false)
    else if status == "401" then
      if url == LoginUrl then (c, false)
      else (StagePost(c.(cookies := None, phase := LoginPhase), cfg, LoginUrl, Credentials(cfg), None), true)
    else
      var c1 := if Truthy(cookies) then c.(cookies := cookies) else c;
      match c1.phase
      case LoginPhase => OnLogin(c1, cfg)
      case RackPhase => OnRackData(c1, cfg, body, tm)
  }

  /** The reassembling part of `process_data` for a non-empty chunk: the
      head and first fragment while the counter is at its sentinel, a body
      fragment otherwise. */
  function Absorb(c: Conn, chunk: string): (r: (Conn, Option<Fault>))
    requires Inv(c)
    ensures Inv(r.0)
  {
    if c.toRead == -1 then
      match SplitHead(chunk)
      case None => (c, Some(MalformedHead))
      case Some((head, frag)) =>
        var lines := Split(head, CRLF);
        var scan := HeaderScan(lines, |frag|);
        var c1 := c.(body := Some(frag), status := Words(lines[0]), toRead := scan.toRead);
        if !scan.ok then (c1, Some(BadContentLength))
        else if Truthy(scan.cookie) then (c1.(cookies := scan.cookie), None)
        else (c1, None)
    else (c.(toRead := c.toRead - |chunk|, body := Some(c.body.value + chunk)), None)
  }

  /** The tail of `process_data`: decide on the counter. */
  function Finish(a: Conn, cfg: Config, tm: real): (r: (Conn, Outcome))
    requires Inv(a)
    ensures Inv(r.0)
  {
    if a.toRead == -1 then (a, Stop)
    else if a.toRead == 0 then
      if |a.status| < 2 then (a, Raised(NoStatusCode))
      else
        var (b, follow) := OnResponse(a, cfg, a.url, a.status[1], a.cookies, a.body.value, tm);
        (b.(state := Ready), if follow then SendNext else Stop)
    else (a.(state := WaitAnswer), AwaitMore)
  }

  /** `process_data(chunk, tm)`. */
  function Step(c: Conn, cfg: Config, chunk: string, tm: real): (r: (Conn, Outcome))
    requires Inv(c)
    ensures Inv(r.0)
  {
    var c0 := c.(retries := 0);
    if chunk == [] then (c0, NoData)
    else
      var (a, fault) := Absorb(c0, chunk);
      if fault.Some? then (a, Raised(fault.value)) else Finish(a, cfg, tm)
  }

  /** The chunks of a response glued back together. */
  function Concat(cs: seq<string>): string {
    if cs == [] then "" else cs[0] + Concat(cs[1..])
  }

  /** The event loop feeding chunk after chunk to `process_data` for as long
      as it answers 0 (nothing read) or -1 (wait for more). */
  function Deliver(c: Conn, cfg: Config, chunks: seq<string>, tm: real): (r: (Conn, Outcome))
    requires Inv(c) && |chunks| >= 1
    ensures Inv(r.0)
    decreases |chunks|
  {
    var (c1, o) := Step(c, cfg, chunks[0], tm);
    if |chunks| == 1 || !(o == NoData || o == AwaitMore) then (c1, o)
    else Deliver(c1, cfg, chunks[1..], tm)
  }

  /** Once built, the client has staged the login POST of `[user, passwd]`
      without a cookie: its head ends at the first CRLF CRLF, splits back
      into the POST's header lines and declares exactly the length of the
      wrapped body that follows. */
  lemma InitialStagesLogin(cfg: Config)
    requires OneLine(cfg.host)
    ensures var c := Initial(cfg);
      var enc := cfg.encode(Credentials(cfg));
      var ls := PostLines(LoginUrl, cfg.host, cfg.keepalive, None, enc);
      var k := |Join(ls, CRLF)|;
      && Inv(c) && c.phase == LoginPhase && c.url == LoginUrl && c.toRead == -1 && c.body == None
      && c.cookies == None && c.output == [] && c.state == Ready
      && c.buf == PostRequest(LoginUrl, cfg.host, cfg.keepalive, None, enc)
      && Find(c.buf, HeadEnd) == Some(k) && c.buf[k + 4..] == Wrapped(enc) + HeadEnd
      && Split(c.buf[..k], CRLF) == ls
      && HeaderScan(ls, |Wrapped(enc)|) == Scan(None, 0, true)
  {
    var enc := cfg.encode(Credentials(cfg));
    assert OneLine(LoginUrl);
    PostFraming(LoginUrl, cfg.host, cfg.keepalive, None, enc);
    PostDeclaresBodyLength(LoginUrl, cfg.host, cfg.keepalive, None, enc);
  }

  // ----- reading a response -----

  /** An empty chunk only resets the retry counter. */
  lemma EmptyChunk(c: Conn, cfg: Config, tm: real)
    requires Inv(c)
    ensures Step(c, cfg, "", tm) == (c.(retries := 0), NoData)
  {
  }

  /** A head without `Content-Length` stops the connection without calling
      `_on_response`: only the body, the status words, the cookie and the
      retry counter change. */
  lemma NoLengthStops(c: Conn, cfg: Config, chunk: string, tm: real, head: string, frag: string)
    requires Inv(c) && c.toRead == -1 && SplitHead(chunk) == Some((head, frag))
    requires forall j :: 0 <= j < |Split(head, CRLF)| ==> !IsLengthLine(Split(head, CRLF)[j])
    ensures var r := Step(c, cfg, chunk, tm);
      && r.1 == Stop && r.0.toRead == -1 && r.0.body == Some(frag)
      && r.0.(body := c.body, status := c.status, cookies := c.cookies, retries := c.retries) == c
  {
    NoLengthIsSentinel(Split(head, CRLF), |frag|);
  }

  /** A first fragment one character longer than the declared length drives
      the counter onto its sentinel: the response is taken for one without
      `Content-Length`, stopped, and never handed to `_on_response`. */
  lemma OvershootLooksUnframed(c: Conn, cfg: Config, chunk: string, tm: real, head: string, frag: string, k: nat)
    requires Inv(c) && c.toRead == -1 && SplitHead(chunk) == Some((head, frag))
    requires var lines := Split(head, CRLF);
      && k < |lines| && IsLengthLine(lines[k]) && ParseInt(Drop(lines[k], 15)) == Some(|frag| - 1)
      && forall j :: 0 <= j < |lines| && j != k ==> !IsLengthLine(lines[j])
    ensures var r := Step(c, cfg, chunk, tm);
      && r.1 == Stop && r.0.toRead == -1
      && r.0.(body := c.body, status := c.status, cookies := c.cookies, retries := c.retries) == c
  {
    OneLength(Split(head, CRLF), |frag|, k, |frag| - 1);
  }

  /** With one readable `Content-Length` that neither matches the first
      fragment nor falls one short of it, the client waits for more: the
      counter holds the declared length less the fragment, negative when
      the fragment overran it, the body is the fragment, the status words
      come from the first line, and nothing outside the response fields
      changes. */
  lemma DeclaredLengthAwaits(c: Conn, cfg: Config, chunk: string, tm: real, head: string, frag: string, k: nat, n: int)
    requires Inv(c) && c.toRead == -1 && SplitHead(chunk) == Some((head, frag))
    requires var lines := Split(head, CRLF);
      && k < |lines| && IsLengthLine(lines[k]) && ParseInt(Drop(lines[k], 15)) == Some(n)
      && forall j :: 0 <= j < |lines| && j != k ==> !IsLengthLine(lines[j])
    requires n - |frag| != 0 && n - |frag| != -1
    ensures var r := Step(c, cfg, chunk, tm);
      && r.1 == AwaitMore && r.0.state == WaitAnswer
      && r.0.toRead == n - |frag| && r.0.body == Some(frag)
      && r.0.status == Words(Split(head, CRLF)[0])
      && r.0.(body := c.body, status := c.status, cookies := c.cookies, retries := c.retries,
              toRead := c.toRead, state := c.state) == c
  {
    OneLength(Split(head, CRLF), |frag|, k, n);
  }

  /** Headers are not buffered: a first chunk without CRLF CRLF, or with a
      second one after the first, raises in the unpack and changes nothing
      but the retry counter. */
  lemma HeadNotBuffered(c: Conn, cfg: Config, chunk: string, tm: real)
    requires Inv(c) && c.toRead == -1 && chunk != []
    requires Find(chunk, HeadEnd) == None || Find(chunk[Find(chunk, HeadEnd).value + 4..], HeadEnd).Some?
    ensures Step(c, cfg, chunk, tm) == (c.(retries := 0), Raised(MalformedHead))
  {
  }

  /** A counter that has overrun below the sentinel only falls further:
      however many chunks follow, the client keeps waiting, never calls
      `_on_response`, and changes nothing but the body, the counter, the
      connection state and the retry counter. */
  lemma {:induction false} OverrunNeverCompletes(a: Conn, cfg: Config, cs: seq<string>, tm: real)
    requires Inv(a) && a.toRead < -1 && |cs| >= 1
    ensures var (d, o) := Deliver(a, cfg, cs, tm);
      && (o == NoData || o == AwaitMore) && d.toRead < -1
      && d.(toRead := a.toRead, body := a.body, state := a.state, retries := a.retries) == a
    decreases |cs|
  {
    var (a1, o) := Step(a, cfg, cs[0], tm);
    assert o == NoData || o == AwaitMore;
    assert a1.toRead < -1;
    if |cs| > 1 {
      OverrunNeverCompletes(a1, cfg, cs[1..], tm);
    }
  }

  /** After a head with exactly one `Set-Cookie` line, the stored cookie is
      that line's value, unless the value is empty, which keeps the old one. */
  lemma HeadCookieAdopted(c: Conn, chunk: string, head: string, frag: string, k: nat)
    requires Inv(c) && c.toRead == -1 && chunk != [] && SplitHead(chunk) == Some((head, frag))
    requires var lines := Split(head, CRLF);
      && k < |lines| && IsCookieLine(lines[k])
      && forall j :: 0 <= j < |lines| && j != k ==> !IsCookieLine(lines[j])
    requires HeaderScan(Split(head, CRLF), |frag|).ok
    ensures var v := Drop(Split(head, CRLF)[k], 12);
      Absorb(c, chunk).0.cookies == if v != "" then Some(v) else c.cookies
  {
    OneCookie(Split(head, CRLF), |frag|, k);
  }

  /** A head without `Set-Cookie` keeps the stored cookie. */
  lemma HeadCookieKept(c: Conn, chunk: string, head: string, frag: string)
    requires Inv(c) && c.toRead == -1 && chunk != [] && SplitHead(chunk) == Some((head, frag))
    requires forall j :: 0 <= j < |Split(head, CRLF)| ==> !IsCookieLine(Split(head, CRLF)[j])
    ensures Absorb(c, chunk).0.cookies == c.cookies
  {
    NoCookieLine(Split(head, CRLF), |frag|);
  }

  /** A later chunk moves characters from the counter to the body: their sum
      is unchanged, the body grows by exactly the chunk, and nothing else of
      the connection changes. */
  lemma LaterChunkConserves(c: Conn, chunk: string)
    requires Inv(c) && c.toRead != -1 && chunk != []
    ensures var (a, fault) := Absorb(c, chunk);
      && fault == None && a.body.Some?
      && a.body.value == c.body.value + chunk
      && a.toRead + |a.body.value| == c.toRead + |c.body.value|
      && a == c.(toRead := c.toRead - |chunk|, body := Some(c.body.value + chunk))
  {
  }

  // ----- dispatch -----

  /** A 500 ends the cycle and changes nothing. */
  lemma ServerErrorEnds(c: Conn, cfg: Config, url: string, cookies: Option<string>, body: string, tm: real)
    requires Inv(c)
    ensures OnResponse(c, cfg, url, "500", cookies, body, tm) == (c, false)
  {
  }

  /** A 401 to the login request itself ends the cycle and changes nothing. */
  lemma LoginRejectedEnds(c: Conn, cfg: Config, cookies: Option<string>, body: string, tm: real)
    requires Inv(c)
    ensures OnResponse(c, cfg, LoginUrl, "401", cookies, body, tm) == (c, false)
  {
  }

  /** A 401 to any other request drops the cookie, returns to the login
      phase and stages a fresh login POST without a cookie, whose head
      declares the length of its body; nothing is emitted. */
  lemma ExpiredSessionRelogs(c: Conn, cfg: Config, url: string, cookies: Option<string>, body: string, tm: real)
    requires Inv(c) && url != LoginUrl
    ensures var (d, follow) := OnResponse(c, cfg, url, "401", cookies, body, tm);
      && follow && d.cookies == None && d.phase == LoginPhase
      && d.url == LoginUrl && d.toRead == -1 && d.body == None && d.output == c.output
      && d.buf == PostRequest(LoginUrl, cfg.host, cfg.keepalive, None, cfg.encode(Credentials(cfg)))
      && HeaderScan(PostLines(LoginUrl, cfg.host, cfg.keepalive, None, cfg.encode(Credentials(cfg))),
                    |Wrapped(cfg.encode(Credentials(cfg)))|) == Scan(None, 0, true)
  {
    PostDeclaresBodyLength(LoginUrl, cfg.host, cfg.keepalive, None, cfg.encode(Credentials(cfg)));
  }

  /** Any other status in the login phase adopts a non-empty cookie, moves
      to the rack phase and stages the rack GET, which carries a `Cookie`
      line exactly when the stored cookie is non-empty. */
  lemma LoginAccepted(c: Conn, cfg: Config, url: string, status: string, cookies: Option<string>, body: string, tm: real)
    requires Inv(c) && c.phase == LoginPhase && status != "500" && status != "401"
    requires OneLine(cfg.host) && (Truthy(cookies) ==> OneLine(cookies.value))
    requires Truthy(c.cookies) ==> OneLine(c.cookies.value)
    ensures var (d, follow) := OnResponse(c, cfg, url, status, cookies, body, tm);
      var kept := if Truthy(cookies) then cookies else c.cookies;
      && follow && d.phase == RackPhase && d.cookies == kept
      && d.url == RackUrl && d.toRead == -1 && d.body == None && d.output == c.output
      && d.buf == GetRequest(RackUrl, cfg.host, cfg.keepalive, kept)
      && var k := |d.buf| - 4;
         && Find(d.buf, HeadEnd) == Some(k)
         && (exists j :: 0 <= j < |Split(d.buf[..k], CRLF)| && StartsWith(Split(d.buf[..k], CRLF)[j], "Cookie:"))
            == Truthy(kept)
  {
    var kept := if Truthy(cookies) then cookies else c.cookies;
    assert OneLine(RackUrl);
    GetFraming(RackUrl, cfg.host, cfg.keepalive, kept);
    GetCookieField(RackUrl, cfg.host, cfg.keepalive, kept);
  }

  /** Any other status in the rack phase adopts a non-empty cookie, ends the
      cycle and extends the output by the samples of the rack walk; these
      are the scalars the configuration selects, all of them when the walk
      does not raise and a prefix of them when it does. */
  lemma RackAnswered(c: Conn, cfg: Config, url: string, status: string, cookies: Option<string>, body: string, tm: real, rack: Json)
    requires Inv(c) && c.phase == RackPhase && status != "500" && status != "401"
    requires RackOf(body, cfg.decode) == Some(rack)
    ensures var (d, follow) := OnResponse(c, cfg, url, status, cookies, body, tm);
      var e := RackFrom(cfg.points, rack, 0, tm, cfg.render);
      && !follow
      && d == (if Truthy(cookies) then c.(cookies := cookies) else c).(output := c.output + e.out)
      && IsPrefix(Values(e.out), RackSelected(cfg.points, rack, 0))
      && (e.ok ==> Values(e.out) == RackSelected(cfg.points, rack, 0))
  {
    RackSelects(cfg.points, rack, 0, tm, cfg.render);
  }

  /** Any other status in the rack phase, with a body from which no rack can
      be decoded (no `data`, a `data` that is not a mapping, a `rack` that is
      not a JSON string, undecodable text): the exception is swallowed, so
      the answer is False with nothing printed and only the cookie adopted. */
  lemma RackUndecodable(c: Conn, cfg: Config, url: string, status: string, cookies: Option<string>, body: string, tm: real)
    requires Inv(c) && c.phase == RackPhase && status != "500" && status != "401"
    requires RackOf(body, cfg.decode).None?
    ensures OnResponse(c, cfg, url, status, cookies, body, tm)
         == (if Truthy(cookies) then c.(cookies := cookies) else c, false)
  {
    assert c.output + [] == c.output;
  }

  // ----- chunking -----

  /** The counter alone decides: `_on_response` can run only at 0, the
      client waits exactly when the counter is neither 0 nor the sentinel,
      and short of 0 nothing but the connection state changes, which
      becomes WAIT_ANSWER while the client waits. */
  lemma CounterDecides(a: Conn, cfg: Config, tm: real)
    requires Inv(a)
    ensures var (b, o) := Finish(a, cfg, tm);
      && (o == AwaitMore <==> a.toRead != 0 && a.toRead != -1)
      && (o == SendNext ==> a.toRead == 0)
      && (a.toRead != 0 ==> b.(state := a.state) == a)
      && (o == AwaitMore ==> b.state == WaitAnswer)
      && (a.toRead == -1 ==> o == Stop && b == a)
      && (a.toRead == 0 && |a.status| >= 2 ==>
            var (h, follow) := OnResponse(a, cfg, a.url, a.status[1], a.cookies, a.body.value, tm);
            b == h.(state := Ready) && (o == SendNext <==> follow))
  {
  }

  /** `_on_response` neither reads nor writes the connection state. */
  lemma OnResponseIgnoresState(c: Conn, cfg: Config, url: string, status: string, cookies: Option<string>,
                               body: string, tm: real, s: ConnState)
    requires Inv(c)
    ensures OnResponse(c.(state := s), cfg, url, status, cookies, body, tm)
         == (OnResponse(c, cfg, url, status, cookies, body, tm).0.(state := s),
             OnResponse(c, cfg, url, status, cookies, body, tm).1)
  {
  }

  /** A completed response with a status code ends in the same way from any
      connection state, and never asks for more data. */
  lemma FinishIgnoresState(a: Conn, cfg: Config, tm: real, s: ConnState)
    requires Inv(a) && a.toRead == 0 && |a.status| >= 2
    ensures Finish(a.(state := s), cfg, tm) == Finish(a, cfg, tm)
    ensures Finish(a, cfg, tm).1 != NoData && Finish(a, cfg, tm).1 != AwaitMore
  {
    OnResponseIgnoresState(a, cfg, a.url, a.status[1], a.cookies, a.body.value, tm, s);
  }

  /** Body chunks that carry exactly the outstanding count, empty chunks
      included, complete the response as if they had come at once. */
  lemma {:induction false} DeliverBody(a: Conn, cfg: Config, cs: seq<string>, tm: real)
    requires Inv(a) && a.state == WaitAnswer && |cs| >= 1 && a.toRead == |Concat(cs)| > 0
    requires |a.status| >= 2
    ensures Deliver(a, cfg, cs, tm)
         == Finish(a.(toRead := 0, body := Some(a.body.value + Concat(cs)), retries := 0), cfg, tm)
    decreases |cs|
  {
    var a0 := a.(retries := 0);
    var done := a.(toRead := 0, body := Some(a.body.value + Concat(cs)), retries := 0);
    if |cs| == 1 {
      assert Concat(cs[1..]) == "";
    }
    if cs[0] == "" {
      assert Step(a, cfg, cs[0], tm) == (a0, NoData);
      assert |cs| > 1;
      assert Concat(cs) == cs[0] + Concat(cs[1..]);
      assert cs[0] + Concat(cs[1..]) == Concat(cs[1..]);
      DeliverBody(a0, cfg, cs[1..], tm);
      assert a0.(toRead := 0, body := Some(a0.body.value + Concat(cs[1..])), retries := 0) == done;
    } else if |cs[0]| < a.toRead {
      var a1 := a0.(toRead := a.toRead - |cs[0]|, body := Some(a.body.value + cs[0]));
      assert Step(a, cfg, cs[0], tm) == (a1, AwaitMore);
      assert |cs| > 1;
      DeliverBody(a1, cfg, cs[1..], tm);
      assert a.body.value + cs[0] + Concat(cs[1..]) == a.body.value + Concat(cs);
      assert a1.(toRead := 0, body := Some(a1.body.value + Concat(cs[1..])), retries := 0) == done;
    } else {
      assert |Concat(cs[1..])| == 0;
      assert Concat(cs) == cs[0];
      assert Absorb(a0, cs[0]).0 == done;
      FinishIgnoresState(done, cfg, tm, Ready);
    }
  }

  /** A head with a status code whose every `Content-Length` line, and
      there is at least one, declares `n`. */
  predicate DeclaresLength(head: string, n: nat) {
    LengthsAre(Split(head, CRLF), n) && HasLengthLine(Split(head, CRLF)) && |Words(Split(head, CRLF)[0])| >= 2
  }

  /** A chunk answered with -1 hands the rest of the chunks to the next step. */
  lemma DeliverAwaits(c: Conn, cfg: Config, chunks: seq<string>, tm: real, w: Conn)
    requires Inv(c) && |chunks| >= 2
    requires Step(c, cfg, chunks[0], tm) == (w, AwaitMore)
    ensures Inv(w) && Deliver(c, cfg, chunks, tm) == Deliver(w, cfg, chunks[1..], tm)
  {
  }

  /** The first chunk ended the head and left `|Concat(cs)|` characters
      outstanding: the body chunks complete it as one chunk would have. */
  lemma RestDelivered(c: Conn, cfg: Config, first: string, cs: seq<string>, tm: real, split: Conn)
    requires Inv(c) && Inv(split) && split.toRead == |Concat(cs)| > 0 && |split.status| >= 2
    requires Step(c, cfg, first, tm) == Finish(split, cfg, tm)
    ensures Deliver(c, cfg, [first] + cs, tm)
         == Finish(split.(toRead := 0, body := Some(split.body.value + Concat(cs)), retries := 0), cfg, tm)
  {
    var w := split.(state := WaitAnswer);
    assert Finish(split, cfg, tm) == (w, AwaitMore);
    assert |cs| >= 1;
    var chunks := [first] + cs;
    assert chunks[0] == first && chunks[1..] == cs;
    DeliverAwaits(c, cfg, chunks, tm, w);
    DeliverBody(w, cfg, cs, tm);
    var done := split.(toRead := 0, body := Some(split.body.value + Concat(cs)), retries := 0);
    assert w.(toRead := 0, body := Some(w.body.value + Concat(cs)), retries := 0) == done.(state := WaitAnswer);
    FinishIgnoresState(done, cfg, tm, WaitAnswer);
  }

  /** The split of the first chunk is found again in its prefix up to
      the end of the first fragment. */
  lemma SplitHeadPrefix(head: string, f0: string, rest: string)
    requires SplitHead(head + HeadEnd + f0 + rest) == Some((head, f0 + rest))
    ensures SplitHead(head + HeadEnd + f0) == Some((head, f0))
  {
    var first := head + HeadEnd + f0;
    FindInPrefix(first, rest, HeadEnd, |head|);
    NoFindInPrefix(f0, rest, HeadEnd);
    assert first[|head| + 4..] == f0;
    assert first[..|head|] == head;
  }

  /** The head of a response read from a chunk whose loop does not raise:
      `ck` is the loop's cookie and `t` its counter. */
  lemma HeadRead(c: Conn, cfg: Config, chunk: string, tm: real, head: string, frag: string,
                 status: seq<string>, ck: Option<string>, t: int)
    requires Inv(c) && c.toRead == -1 && SplitHead(chunk) == Some((head, frag))
    requires HeaderScan(Split(head, CRLF), |frag|) == Scan(ck, t, true)
    requires status == Words(Split(head, CRLF)[0])
    ensures Step(c, cfg, chunk, tm)
         == Finish(c.(retries := 0, body := Some(frag), status := status, toRead := t,
                      cookies := if Truthy(ck) then ck else c.cookies), cfg, tm)
  {
  }

  /** What a head that declares `n` gives when it is read with `b`
      characters of the body or with all `n`. */
  lemma HeadScans(head: string, b: nat, n: nat) returns (status: seq<string>, ck: Option<string>)
    requires b <= n && DeclaresLength(head, n)
    ensures HeaderScan(Split(head, CRLF), b) == Scan(ck, n - b, true)
    ensures HeaderScan(Split(head, CRLF), n) == Scan(ck, 0, true)
    ensures status == Words(Split(head, CRLF)[0]) && |status| >= 2
  {
    AgreedLengthEitherWay(Split(head, CRLF), b, n);
    status := Words(Split(head, CRLF)[0]);
    ck := HeaderScan(Split(head, CRLF), b).cookie;
  }

  /** `HeadScans` for a body that arrives as `f0` and then `rest`. */
  lemma HeadScansSplit(head: string, f0: string, rest: string) returns (status: seq<string>, ck: Option<string>)
    requires DeclaresLength(head, |f0| + |rest|)
    ensures HeaderScan(Split(head, CRLF), |f0|) == Scan(ck, |rest|, true)
    ensures HeaderScan(Split(head, CRLF), |f0 + rest|) == Scan(ck, 0, true)
    ensures status == Words(Split(head, CRLF)[0]) && |status| >= 2
  {
    var n := |f0| + |rest|;
    assert |f0 + rest| == n && n - |f0| == |rest|;
    status, ck := HeadScans(head, |f0|, n);
  }

  /** Both readings of the head, once the text is known to give the same
      status words and cookie `ck` either way. */
  lemma HeadsRead(c: Conn, cfg: Config, head: string, f0: string, rest: string, tm: real,
                  status: seq<string>, ck: Option<string>)
      returns (kept: Option<string>)
    requires Inv(c) && c.toRead == -1
    requires SplitHead(head + HeadEnd + f0 + rest) == Some((head, f0 + rest))
    requires SplitHead(head + HeadEnd + f0) == Some((head, f0))
    requires HeaderScan(Split(head, CRLF), |f0|) == Scan(ck, |rest|, true)
    requires HeaderScan(Split(head, CRLF), |f0 + rest|) == Scan(ck, 0, true)
    requires status == Words(Split(head, CRLF)[0])
    ensures Step(c, cfg, head + HeadEnd + f0 + rest, tm)
         == Finish(c.(retries := 0, body := Some(f0 + rest), status := status, toRead := 0, cookies := kept), cfg, tm)
    ensures Step(c, cfg, head + HeadEnd + f0, tm)
         == Finish(c.(retries := 0, body := Some(f0), status := status, toRead := |rest|, cookies := kept), cfg, tm)
  {
    kept := if Truthy(ck) then ck else c.cookies;
    HeadRead(c, cfg, head + HeadEnd + f0 + rest, tm, head, f0 + rest, status, ck, 0);
    HeadRead(c, cfg, head + HeadEnd + f0, tm, head, f0, status, ck, |rest|);
  }

  /** Reading the head of such a response with part of its body, or with
      all of it, leaves the same status words and cookie; only the body and
      the counter differ. */
  lemma HeadsFromText(c: Conn, cfg: Config, head: string, f0: string, rest: string, tm: real)
      returns (once: Conn, split: Conn)
    requires Inv(c) && c.toRead == -1
    requires SplitHead(head + HeadEnd + f0 + rest) == Some((head, f0 + rest))
    requires DeclaresLength(head, |f0| + |rest|)
    ensures Inv(once) && once.toRead == 0 && |once.status| >= 2
    ensures Inv(split) && split.toRead == |rest| && |split.status| >= 2
    ensures once == split.(toRead := 0, body := Some(split.body.value + rest), retries := 0)
    ensures Step(c, cfg, head + HeadEnd + f0 + rest, tm) == Finish(once, cfg, tm)
    ensures Step(c, cfg, head + HeadEnd + f0, tm) == Finish(split, cfg, tm)
  {
    var ck, status;
    SplitHeadPrefix(head, f0, rest);
    status, ck := HeadScansSplit(head, f0, rest);
    var kept := HeadsRead(c, cfg, head, f0, rest, tm, status, ck);
    once := c.(retries := 0, body := Some(f0 + rest), status := status, toRead := 0, cookies := kept);
    split := c.(retries := 0, body := Some(f0), status := status, toRead := |rest|, cookies := kept);
  }

  /** A chunk answered with anything but 0 or -1 ends the delivery. */
  lemma DeliverEnds(c: Conn, cfg: Config, chunks: seq<string>, tm: real)
    requires Inv(c) && |chunks| >= 1
    requires Step(c, cfg, chunks[0], tm).1 != NoData && Step(c, cfg, chunks[0], tm).1 != AwaitMore
    ensures Deliver(c, cfg, chunks, tm) == Step(c, cfg, chunks[0], tm)
  {
  }

  /** The first chunk held the whole response: later chunks are not read. */
  lemma WholeFirst(c: Conn, cfg: Config, first: string, cs: seq<string>, tm: real, once: Conn)
    requires Inv(c) && Inv(once) && once.toRead == 0 && |once.status| >= 2
    requires Concat(cs) == [] && Step(c, cfg, first + Concat(cs), tm) == Finish(once, cfg, tm)
    ensures Deliver(c, cfg, [first] + cs, tm) == Step(c, cfg, first + Concat(cs), tm)
  {
    assert first + Concat(cs) == first;
    FinishIgnoresState(once, cfg, tm, Ready);
    var chunks := [first] + cs;
    assert chunks[0] == first;
    DeliverEnds(c, cfg, chunks, tm);
  }

  /** However a response whose every `Content-Length` line declares its
      body's length is cut into chunks after the head, reading the chunks
      one by one ends exactly as reading it in one chunk: same outcome, same
      cookie, same emitted samples, same staged request. */
  lemma ChunkingInvariance(c: Conn, cfg: Config, head: string, f0: string, cs: seq<string>, tm: real)
    requires Inv(c) && c.toRead == -1
    requires SplitHead(head + HeadEnd + f0 + Concat(cs)) == Some((head, f0 + Concat(cs)))
    requires DeclaresLength(head, |f0| + |Concat(cs)|)
    ensures Deliver(c, cfg, [head + HeadEnd + f0] + cs, tm) == Step(c, cfg, head + HeadEnd + f0 + Concat(cs), tm)
  {
    var once, split := HeadsFromText(c, cfg, head, f0, Concat(cs), tm);
    AfterHead(c, cfg, head + HeadEnd + f0, cs, tm, once, split);
  }

  /** The rest of `ChunkingInvariance`, once both readings of the head are
      known. */
  lemma AfterHead(c: Conn, cfg: Config, first: string, cs: seq<string>, tm: real, once: Conn, split: Conn)
    requires Inv(c) && Inv(once) && once.toRead == 0 && |once.status| >= 2
    requires Inv(split) && split.toRead == |Concat(cs)| && |split.status| >= 2
    requires once == split.(toRead := 0, body := Some(split.body.value + Concat(cs)), retries := 0)
    requires Step(c, cfg, first + Concat(cs), tm) == Finish(once, cfg, tm)
    requires Step(c, cfg, first, tm) == Finish(split, cfg, tm)
    ensures Deliver(c, cfg, [first] + cs, tm) == Step(c, cfg, first + Concat(cs), tm)
  {
    if Concat(cs) == [] {
      WholeFirst(c, cfg, first, cs, tm, once);
    } else {
      RestDelivered(c, cfg, first, cs, tm, split);
    }
  }
}
