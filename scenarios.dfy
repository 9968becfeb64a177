/**
 * Concrete exchanges of the client, worked through the general lemmas: a
 * login answer as one chunk, and the rack walk for a configuration of the
 * shape the program's own `main` uses (fsmhttp/proto.py:152-167).
 */
module Scenarios {
  import opened Wrappers
  import opened Text
  import opened Json
  import opened Request
  import opened Response
  import opened Points
  import opened RackData
  import opened Session

  const AnswerLines: seq<string> := ["HTTP/1.1 200 OK", "Set-Cookie: sid=abc", "Content-Length: 2"]

  /** A login answer that sets a cookie and carries a two-character body. */
  const LoginAnswer: string :=
    "HTTP/1.1 200 OK" + CRLF + "Set-Cookie: sid=abc" + CRLF + "Content-Length: 2" + HeadEnd + "{}"

  lemma AnswerText()
    ensures LoginAnswer == Join(AnswerLines, CRLF) + HeadEnd + "{}"
  {
    var ls := AnswerLines;
    assert ls[1..] == ["Set-Cookie: sid=abc", "Content-Length: 2"];
    assert ls[1..][1..] == ["Content-Length: 2"];
    assert Join(ls[1..][1..], CRLF) == "Content-Length: 2";
    assert Join(ls[1..], CRLF) == "Set-Cookie: sid=abc" + CRLF + "Content-Length: 2";
    assert Join(ls, CRLF) == "HTTP/1.1 200 OK" + CRLF + ("Set-Cookie: sid=abc" + CRLF + "Content-Length: 2");
  }

  /** The answer splits at its one CRLF CRLF into its header lines and body. */
  lemma AnswerSplit() returns (head: string)
    ensures SplitHead(LoginAnswer) == Some((head, "{}"))
    ensures Split(head, CRLF) == AnswerLines
  {
    var ls := AnswerLines;
    assert WellFormedLines(ls);
    FramingOfLines(ls, "{}");
    AnswerText();
    var k := |Join(ls, CRLF)|;
    head := LoginAnswer[..k];
    assert LoginAnswer[k + 4..] == "{}";
  }

  lemma AnswerScan()
    ensures HeaderScan(AnswerLines, 2) == Scan(Some("sid=abc"), 0, true)
  {
    var ls := AnswerLines;
    NotCookieAt(ls[0], 0);
    NotLengthAt(ls[0], 0);
    assert IsCookieLine(ls[1]) by { assert ls[1][..11] == "Set-Cookie:"; }
    assert Drop(ls[1], 12) == "sid=abc";
    NotCookieAt(ls[2], 0);
    assert IsLengthLine(ls[2]) by { assert ls[2][..15] == "Content-Length:"; }
    assert Drop(ls[2], 15) == " " + Decimal(2);
    ParseDecimal(2);
  }

  lemma AnswerStatus()
    ensures |Words(AnswerLines[0])| >= 2 && Words(AnswerLines[0])[1] == "200"
  {
    assert AnswerLines[0] == "HTTP/1.1" + " " + "200" + " OK";
    StatusWords("HTTP/1.1", "200", " OK");
  }

  /** The login answer read in one chunk right after the client was built:
      the cookie is stored, the rack GET carrying it is staged, and the
      client asks to send it. */
  lemma LoginExchange(cfg: Config, tm: real)
    ensures var (d, o) := Step(Initial(cfg), cfg, LoginAnswer, tm);
      && o == SendNext && d.state == Ready
      && d.cookies == Some("sid=abc") && d.phase == RackPhase && d.url == RackUrl
      && d.buf == GetRequest(RackUrl, cfg.host, cfg.keepalive, Some("sid=abc"))
      && d.output == []
  {
    var head := AnswerSplit();
    AnswerScan();
    AnswerStatus();
    var status := Words(AnswerLines[0]);
    var c := Initial(cfg);
    HeadRead(c, cfg, LoginAnswer, tm, head, "{}", status, Some("sid=abc"), 0);
    var once := c.(retries := 0, body := Some("{}"), status := status, toRead := 0, cookies := Some("sid=abc"));
    assert OnResponse(once, cfg, LoginUrl, "200", Some("sid=abc"), "{}", tm) == OnLogin(once, cfg);
  }

  // ----- the rack walk -----

  /** `{'zones': {'nodes': {'power': ['node.{location}.power', 1]}}}`. */
  const NodePoints: seq<(string, PointSpec)> :=
    [("zones", Branch([("nodes", NodeSpec)]))]

  /** A rack whose `nodes` is a list of node objects. */
  function NodeRack(power: Json): Json {
    Obj([("zones", Obj([("nodes", Arr([Node(power)]))]))])
  }

  const NodeLeaf: PointSpec := Leaf("node.{location}.power", 1.0)
  const NodeSpec: PointSpec := Branch([("power", NodeLeaf)])

  function Node(power: Json): Json {
    Obj([("location", Str("a1")), ("power", power)])
  }

  lemma NodeTemplate()
    ensures NodeLeaf.template == "node." + "{" + "location" + "}" + ".power"
  {
  }

  lemma NodeHole(power: Json, render: Json -> string)
    requires render(Str("a1")) == "a1"
    ensures FormatWith("node." + "{" + "location" + "}" + ".power", Node(power).fields, render)
         == Some("node." + "a1" + ".power")
  {
    assert GoodName("location") by { assert !IsDigit("location"[0]); }
    FormatOneHole("node.", "location", ".power", Node(power).fields, render);
  }

  /** The leaf's template filled in from the node that holds the value. */
  lemma NodeName(power: Json, render: Json -> string)
    requires render(Str("a1")) == "a1"
    ensures Format(NodeLeaf.template, Node(power), render) == Some("node.a1.power")
  {
    NodeTemplate();
    NodeHole(power, render);
    assert "node." + "a1" + ".power" == "node.a1.power";
  }

  /** `{a.b}` asks for attribute `b` of field `a`: a field literally named
      `a.b` is not looked up. */
  lemma DottedKeyNotLookedUp(render: Json -> string)
    ensures FormatWith("{a.b}", [("a.b", Str("x"))], render) == None
  {
    assert !GoodName("a.b") by { assert "a.b"[1] == '.'; }
    FormatOtherHole("", "a.b", "", [("a.b", Str("x"))], render);
    assert "" + "{" + "a.b" + "}" + "" == "{a.b}";
  }

  /** One node: its `location` is not configured, its `power` is. */
  lemma NodeFields(power: Json, tm: real, render: Json -> string)
    requires IsScalar(power) && render(Str("a1")) == "a1"
    ensures Fields(NodeSpec, Node(power), 0, tm, render) == Emission([Sample("node.a1.power", power, tm)], true)
  {
    var node := Node(power);
    NodeName(power, render);
    assert Extract(Some(NodeLeaf), power, node, tm, render) == Emission([Sample("node.a1.power", power, tm)], true);
    assert Fields(NodeSpec, node, 2, tm, render) == Emission([], true);
    assert Fields(NodeSpec, node, 1, tm, render) == Emission([Sample("node.a1.power", power, tm)], true);
    assert Extract(Get(NodeSpec.children, "location"), Str("a1"), node, tm, render) == Emission([], true);
  }

  /** The list of nodes keeps the node spec for each element. */
  lemma NodeItems(power: Json, tm: real, render: Json -> string)
    requires IsScalar(power) && render(Str("a1")) == "a1"
    ensures Items(NodeSpec, Arr([Node(power)]), 0, tm, render) == Emission([Sample("node.a1.power", power, tm)], true)
  {
    var nodes := Arr([Node(power)]);
    NodeFields(power, tm, render);
    assert Extract(Some(NodeSpec), Node(power), nodes, tm, render) == Emission([Sample("node.a1.power", power, tm)], true);
    assert Items(NodeSpec, nodes, 1, tm, render) == Emission([], true);
  }

  /** The name of the sample carries the node's own `location`, found in the
      node object that holds the value rather than in the rack. */
  lemma NodePowerSample(power: Json, tm: real, render: Json -> string)
    requires IsScalar(power) && render(Str("a1")) == "a1"
    ensures RackFrom(NodePoints, NodeRack(power), 0, tm, render)
         == Emission([Sample("node.a1.power", power, tm)], true)
  {
    var nodes := Arr([Node(power)]);
    var zones := Obj([("nodes", nodes)]);
    var zonesSpec := Branch([("nodes", NodeSpec)]);
    NodeItems(power, tm, render);
    assert Extract(Some(NodeSpec), nodes, zones, tm, render) == Emission([Sample("node.a1.power", power, tm)], true);
    assert Fields(zonesSpec, zones, 1, tm, render) == Emission([], true);
    assert Fields(zonesSpec, zones, 0, tm, render) == Emission([Sample("node.a1.power", power, tm)], true);
    assert Extract(Some(zonesSpec), zones, NodeRack(power), tm, render) == Emission([Sample("node.a1.power", power, tm)], true);
    assert RackFrom(NodePoints, NodeRack(power), 1, tm, render) == Emission([], true);
  }
}
