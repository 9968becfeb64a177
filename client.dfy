/**
 * `HttpClient` and `OpenBmcHttpClient` (fsmhttp/proto.py:12-133) as one
 * class whose methods update its fields in place. Each method is proved to
 * leave the fields exactly as the matching function of module Session
 * says, so every property proved there about `Conn` values holds of the
 * object.
 */
module Client {
  import opened Wrappers
  import opened Text
  import opened Json
  import J = Json
  import opened Request
  import opened Response
  import opened Points
  import opened RackData
  import opened Session

  class OpenBmcHttpClient {
    const cfg: Config

    var buf: string
    var url: string
    var body: Option<string>
    var toRead: int
    var status: seq<string>
    var cookies: Option<string>
    var state: ConnState
    var retries: int
    var phase: Phase
    var output: seq<Sample>

    /** The object's fields as one value. */
    function Snapshot(): Conn
      reads this
    {
      Conn(buf, url, body, toRead, status, cookies, state, retries, phase, output)
    }

    predicate Valid()
      reads this
    {
      Inv(Snapshot())
    }

    /** `OpenBmcHttpClient.__init__`: the login POST is staged at once. */
    constructor (cfg: Config)
      ensures this.cfg == cfg
      ensures Valid() && Snapshot() == Initial(cfg)
    {
      this.cfg := cfg;
      buf := "";
      url := "";
      body := None;
      toRead := -1;
      status := [];
      cookies := None;
      state := Ready;
      retries := 0;
      phase := LoginPhase;
      output := [];
      new;
      Post(LoginUrl, Credentials(cfg), None);
    }

    /** `get(url, cookies)`: stage a GET and reset the response fields. */
    method Get(url: string, cookies: Option<string>)
      modifies this
      ensures Valid() && Snapshot() == StageGet(old(Snapshot()), cfg, url, cookies)
    {
      this.url := url;
      body := None;
      toRead := -1;
      buf := GetRequest(url, cfg.host, cfg.keepalive, cookies);
    }

    /** `post(url, payload, cookies)`: stage a POST of the encoded payload. */
    method Post(url: string, payload: Json, cookies: Option<string>)
      modifies this
      ensures Valid() && Snapshot() == StagePost(old(Snapshot()), cfg, url, payload, cookies)
    {
      this.url := url;
      body := None;
      toRead := -1;
      var encoded := cfg.encode(payload);
      buf := PostRequest(url, cfg.host, cfg.keepalive, cookies, encoded);
    }

    /** `process_data(chunk, tm)`. */
    method ProcessData(chunk: string, tm: real) returns (o: Outcome)
      requires Valid()
      modifies this
      ensures Valid() && (Snapshot(), o) == Step(old(Snapshot()), cfg, chunk, tm)
    {
      retries := 0;
      if chunk == [] {
        return NoData;
      }
      var fault := Absorb(chunk);
      if fault.Some? {
        return Raised(fault.value);
      }
      if toRead == -1 {
        return Stop;
      } else if toRead == 0 {
        if |status| < 2 {
          return Raised(NoStatusCode);
        }
        var follow := OnResponse(url, status[1], cookies, body.value, tm);
        state := Ready;
        return if follow then SendNext else Stop;
      }
      state := WaitAnswer;
      return AwaitMore;
    }

    /** The part of `process_data` that takes in a non-empty chunk: the head
        and first body fragment while the counter is at its sentinel, one
        more body fragment otherwise. */
    method Absorb(chunk: string) returns (fault: Option<Fault>)
      requires Valid()
      modifies this
      ensures Valid() && (Snapshot(), fault) == Session.Absorb(old(Snapshot()), chunk)
    {
      if toRead == -1 {
        var parts := SplitHead(chunk);
        if parts.None? {
          return Some(MalformedHead);
        }
        var (head, frag) := parts.value;
        var lines := Split(head, CRLF);
        body := Some(frag);
        status := Words(lines[0]);
        var scan := ScanHeaders(lines, |frag|);
        toRead := scan.toRead;
        if !scan.ok {
          return Some(BadContentLength);
        }
        if Truthy(scan.cookie) {
          cookies := scan.cookie;
        }
      } else {
        toRead := toRead - |chunk|;
        body := Some(body.value + chunk);
      }
      return None;
    }

    /** `_on_response(url, status, cookies, data, tm)`. */
    method OnResponse(url: string, status: string, cookies: Option<string>, data: string, tm: real)
        returns (follow: bool)
      requires Valid()
      modifies this
      ensures Valid()
      ensures (Snapshot(), follow) == Session.OnResponse(old(Snapshot()), cfg, url, status, cookies, data, tm)
    {
      if status == "500" {
        return false;
      } else if status == "401" {
        if url == LoginUrl {
          return false;
        }
        this.cookies := None;
        phase := LoginPhase;
        Post(LoginUrl, Credentials(cfg), None);
        return true;
      }
      if Truthy(cookies) {
        this.cookies := cookies;
      }
      if phase == LoginPhase {
        follow := OnLogin();
      } else {
        follow := OnRackData(data, tm);
      }
    }

    /** `_on_login`: hand later responses to `_on_rack_data` and stage the
        rack GET with the stored cookie. */
    method OnLogin() returns (follow: bool)
      modifies this
      ensures (Snapshot(), follow) == Session.OnLogin(old(Snapshot()), cfg)
    {
      phase := RackPhase;
      Get(RackUrl, cookies);
      return true;
    }

    /** `_on_rack_data`: decode the rack, then walk each configured entry,
        printing as it goes; a raise ends the walk and is swallowed by
        `_on_response`, so the samples already printed stay in the output. */
    method OnRackData(data: string, tm: real) returns (follow: bool)
      modifies this
      ensures (Snapshot(), follow) == Session.OnRackData(old(Snapshot()), cfg, data, tm)
    {
      var decoded := RackOf(data, cfg.decode);
      if decoded.None? {
        assert output + [] == output;
        return false;
      }
      var printed, _ := WalkRack(decoded.value, tm);
      output := output + printed;
      return false;
    }

    /** The loop `for k, p in points.items(): _process_points(p, rack[k], rack, tm)`:
        what it prints, and whether it ran to the end without raising. */
    method WalkRack(rack: Json, tm: real) returns (printed: seq<Sample>, ok: bool)
      ensures Emission(printed, ok) == RackFrom(cfg.points, rack, 0, tm, cfg.render)
    {
      printed := [];
      var i := 0;
      while i < |cfg.points|
        invariant 0 <= i <= |cfg.points|
        invariant RackFrom(cfg.points, rack, 0, tm, cfg.render)
               == Emission(printed + RackFrom(cfg.points, rack, i, tm, cfg.render).out,
                           RackFrom(cfg.points, rack, i, tm, cfg.render).ok)
      {
        if !rack.Obj? {
          assert printed + [] == printed;
          return printed, false;
        }
        var entry: Option<Json> := J.Get(rack.fields, cfg.points[i].0);
        if entry.None? {
          assert printed + [] == printed;
          return printed, false;
        }
        var h := Extract(Some(cfg.points[i].1), entry.value, rack, tm, cfg.render);
        if !h.ok {
          assert RackFrom(cfg.points, rack, i, tm, cfg.render) == h;
          return printed + h.out, false;
        }
        ghost var later := RackFrom(cfg.points, rack, i + 1, tm, cfg.render);
        assert printed + (h.out + later.out) == (printed + h.out) + later.out;
        printed := printed + h.out;
        i := i + 1;
      }
      assert printed + [] == printed;
      return printed, true;
    }
  }
}
