/** Messages: the pool entries the controller keeps while it waits for an
    acknowledgement, and the wire text of the CREATE and MOVE messages. */
module Messages {
  import opened Text
  import opened Terminal
  import opened Registry

  /** A crane as the controller refers to it: its pool and its position. */
  datatype CraneRef = CraneRef(pool: CranePool, index: nat)

  /** What a pending message is about. Transporters are referred to by
      their position in the registry's transporter list. */
  datatype Body =
    | Create(transporter: nat)
    | Arrive(transporter: nat, depot: nat)
    | Speed(speed: real)
    | CraneJob(crane: CraneRef, transporter: nat, container: Container)
    | Move
    | Depart(transporter: nat)

  /** A message with its correlation id. */
  datatype Message = Message(id: int, body: Body)

  // ---------------------------------------------------------------------
  // Elements and a reader for them

  /** `<tag>content</tag>` */
  function Element(tag: string, content: string): string {
    "<" + tag + ">" + content + "</" + tag + ">"
  }

  /** The position of the first '<' in s, or |s| when there is none. */
  function IndexOfLt(s: string): (k: nat)
    ensures k <= |s|
    ensures forall i :: 0 <= i < k ==> s[i] != '<'
    ensures k < |s| ==> s[k] == '<'
  {
    if |s| == 0 then 0 else if s[0] == '<' then 0 else 1 + IndexOfLt(s[1..])
  }

  /** The text of an element and what follows it. */
  datatype Split = Split(content: string, rest: string)

  /** Reads a leading `<tag>content</tag>` whose content holds no '<'. */
  function ReadElement(x: string, tag: string): (r: Option<Split>)
    ensures r.Some? ==> '<' !in r.value.content && x == Element(tag, r.value.content) + r.value.rest
  {
    var open, close := "<" + tag + ">", "</" + tag + ">";
    if |x| < |open| || x[..|open|] != open then None
    else
      var body := x[|open|..];
      var k := IndexOfLt(body);
      if |body| - k < |close| || body[k..k + |close|] != close then None
      else
        assert x == open + body[..k] + close + body[k + |close|..];
        Some(Split(body[..k], body[k + |close|..]))
  }

  /** The closing tag of an element. */
  function CloseTag(tag: string): string {
    "</" + tag + ">"
  }

  /** s begins with p. */
  predicate StartsWith(s: string, p: string) {
    |p| <= |s| && s[..|p|] == p
  }

  /** The first '<' of c + s is the first '<' of c when c holds one. */
  lemma IndexOfLtFirst(c: string, s: string)
    requires '<' in c
    ensures IndexOfLt(c) < |c| && IndexOfLt(c + s) == IndexOfLt(c)
  {
    var k, kb := IndexOfLt(c), IndexOfLt(c + s);
    var i :| 0 <= i < |c| && c[i] == '<';
    assert (c + s)[k] == '<';
  }

  /** A closing tag of a tag without '<' does not stand at a '<' that is
      followed, within the tag's length, by another copy of the tag. */
  lemma CloseNotAt(tag: string, t: string, s: string)
    requires '<' !in tag && |t| > 0 && t[0] == '<'
    requires !StartsWith(t, CloseTag(tag))
    ensures !StartsWith(t + (CloseTag(tag) + s), CloseTag(tag))
  {
    var close := CloseTag(tag);
    var u := t + (close + s);
    if |t| >= |close| {
      assert u[..|close|] == t[..|close|];
    } else if |close| <= |u| {
      var m := |t|;
      assert u[m] == '<';
      assert close[m] != '<' by {
        if m == 1 {
          assert close[1] == '/';
        } else if m < |close| - 1 {
          assert close[m] == tag[m - 2];
        }
      }
      assert u[..|close|][m] != close[m];
    }
  }

  /** An element whose content holds '<' is cut at the first '<': if it
      reads at all, the content read is the part before that '<', and it
      does not read unless the closing tag stands right at that '<'. */
  lemma ReadElementCut(tag: string, c: string, rest: string)
    requires '<' in c
    ensures ReadElement(Element(tag, c) + rest, tag).Some? ==>
              ReadElement(Element(tag, c) + rest, tag).value.content == c[..IndexOfLt(c)]
    ensures '<' !in tag && !StartsWith(c[IndexOfLt(c)..], CloseTag(tag)) ==>
              ReadElement(Element(tag, c) + rest, tag).None?
  {
    var open, close := "<" + tag + ">", CloseTag(tag);
    var x := Element(tag, c) + rest;
    assert x == open + (c + (close + rest));
    assert x[..|open|] == open && x[|open|..] == c + (close + rest);
    ReadElementOpen(x, tag);
    var body := x[|open|..];
    var k := IndexOfLt(c);
    IndexOfLtFirst(c, close + rest);
    ElementBodyCut(c, close + rest, k);
    if '<' !in tag && !StartsWith(c[k..], close) {
      CloseNotAt(tag, c[k..], rest);
    }
  }

  /** How ReadElement reads a text that opens with the tag: the content
      runs to the first '<', where the closing tag must stand. */
  lemma ReadElementOpen(x: string, tag: string)
    requires StartsWith(x, "<" + tag + ">")
    ensures var body := x[|"<" + tag + ">"|..];
            && (ReadElement(x, tag).Some? <==> StartsWith(body[IndexOfLt(body)..], CloseTag(tag)))
            && (ReadElement(x, tag).Some? ==>
                  && ReadElement(x, tag).value.content == body[..IndexOfLt(body)]
                  && ReadElement(x, tag).value.rest == body[IndexOfLt(body) + |CloseTag(tag)|..])
  {
    var body := x[|"<" + tag + ">"|..];
    var k := IndexOfLt(body);
    if |body| - k >= |CloseTag(tag)| {
      assert body[k..k + |CloseTag(tag)|] == body[k..][..|CloseTag(tag)|];
    }
  }


  /** Cutting c + s at a position k inside c. */
  lemma ElementBodyCut(c: string, s: string, k: nat)
    requires k <= |c|
    ensures (c + s)[..k] == c[..k]
    ensures (c + s)[k..] == c[k..] + s
  {
  }



  /** Reads a leading literal. */
  function ReadLiteral(x: string, lit: string): (r: Option<string>)
    ensures r.Some? ==> x == lit + r.value
  {
    if |x| >= |lit| && x[..|lit|] == lit then
      assert x == lit + x[|lit|..];
      Some(x[|lit|..])
    else None
  }

  /** An element whose content has no '<' reads back as that content. */
  lemma ReadElementRoundTrip(tag: string, c: string, rest: string)
    requires '<' !in c
    ensures ReadElement(Element(tag, c) + rest, tag) == Some(Split(c, rest))
  {
    var open, close := "<" + tag + ">", CloseTag(tag);
    var x := Element(tag, c) + rest;
    assert x == open + (c + (close + rest));
    assert x[..|open|] == open && x[|open|..] == c + (close + rest);
    ReadElementOpen(x, tag);
    var body := x[|open|..];
    IndexOfLtPrefix(c, close + rest);
    ElementBodyCut(c, close + rest, |c|);
    assert body[|c|..][..|close|] == close;
    assert body[|c| + |close|..] == rest;
  }


  lemma {:induction false} IndexOfLtPrefix(c: string, rest: string)
    requires '<' !in c
    requires |rest| > 0 && rest[0] == '<'
    ensures IndexOfLt(c + rest) == |c|
  {
    if |c| > 0 {
      assert (c + rest)[1..] == c[1..] + rest;
      IndexOfLtPrefix(c[1..], rest);
    } else {
      assert c + rest == rest;
    }
  }

  lemma ReadLiteralRoundTrip(lit: string, rest: string)
    ensures ReadLiteral(lit + rest, lit) == Some(rest)
  {
    assert (lit + rest)[..|lit|] == lit;
    assert (lit + rest)[|lit|..] == rest;
  }

  lemma Assoc(a: string, b: string, c: string)
    ensures (a + b) + c == a + (b + c)
  {
  }

  // ---------------------------------------------------------------------
  // CREATE

  /** The container blocks of a load, one per container, in load order. */
  function Blocks(load: seq<Container>, containerXml: Container -> string): string
  {
    if |load| == 0 then []
    else Blocks(load[..|load| - 1], containerXml) + containerXml(load[|load| - 1])
  }

  /** The CREATE text for a transporter, or None when its load is empty
      (the first container's type is read before anything is returned). */
  function CreateXml(id: int, transporterId: int, load: seq<Container>,
                     containerXml: Container -> string): (r: Option<string>)
    ensures r.None? <==> |load| == 0
  {
    if |load| == 0 then None
    else Some(Element("id", IntToString(id))
              + ("<Create>" + ("<Transporter>"
              + (Element("identifier", IntToString(transporterId))
              + (Element("type", load[0].arrivalType)
              + (Blocks(load, containerXml) + ("</Transporter>" + "</Create>")))))))
  }

  /** The head of a CREATE text as a reader sees it. */
  datatype CreateHead = CreateHead(id: string, identifier: string, kind: string, rest: string)

  function ReadCreateHead(x: string): Option<CreateHead> {
    match ReadElement(x, "id")
    case None => None
    case Some(a) =>
      match ReadLiteral(a.rest, "<Create>")
      case None => None
      case Some(b) =>
        match ReadLiteral(b, "<Transporter>")
        case None => None
        case Some(c) =>
          match ReadElement(c, "identifier")
          case None => None
          case Some(d) =>
            match ReadElement(d.rest, "type")
            case None => None
            case Some(e) => Some(CreateHead(a.content, d.content, e.content, e.rest))
  }

  /** A CREATE text starts with the message id, then the transporter id,
      then the arrival type of the FIRST loaded container (whatever the
      transporter's own type), then the container blocks in load order. */
  lemma CreateXmlRead(id: int, transporterId: int, load: seq<Container>, containerXml: Container -> string)
    requires |load| > 0 && '<' !in load[0].arrivalType
    ensures ReadCreateHead(CreateXml(id, transporterId, load, containerXml).value)
         == Some(CreateHead(IntToString(id), IntToString(transporterId), load[0].arrivalType,
                            Blocks(load, containerXml) + ("</Transporter>" + "</Create>")))
  {
    var tail := Blocks(load, containerXml) + ("</Transporter>" + "</Create>");
    var e := Element("type", load[0].arrivalType) + tail;
    var d := Element("identifier", IntToString(transporterId)) + e;
    var c := "<Transporter>" + d;
    var b := "<Create>" + c;
    IntToStringNoTag(id);
    IntToStringNoTag(transporterId);
    ReadElementRoundTrip("id", IntToString(id), b);
    ReadLiteralRoundTrip("<Create>", c);
    ReadLiteralRoundTrip("<Transporter>", d);
    ReadElementRoundTrip("identifier", IntToString(transporterId), e);
    ReadElementRoundTrip("type", load[0].arrivalType, tail);
  }

  /** The leading id of a CREATE text reads back as the message id. */
  lemma CreateXmlId(id: int, transporterId: int, load: seq<Container>, containerXml: Container -> string)
    requires |load| > 0 && '<' !in load[0].arrivalType
    ensures ReadCreateHead(CreateXml(id, transporterId, load, containerXml).value).Some?
    ensures IsInt32(id) ==> ParseInt(ReadCreateHead(CreateXml(id, transporterId, load, containerXml).value).value.id) == Some(id)
  {
    CreateXmlRead(id, transporterId, load, containerXml);
    if IsInt32(id) {
      IntToStringRoundTrip(id);
    }
  }

  /** The blocks of a load split at any point are the blocks of the two
      parts, in order: one block per container, in load order. */
  lemma {:induction false} BlocksAppend(a: seq<Container>, b: seq<Container>, containerXml: Container -> string)
    ensures Blocks(a + b, containerXml) == Blocks(a, containerXml) + Blocks(b, containerXml)
  {
    if |b| == 0 {
      assert a + b == a;
    } else {
      var init := b[..|b| - 1];
      BlocksAppend(a, init, containerXml);
      assert (a + b)[..|a + b| - 1] == a + init;
    }
  }

  /** The pool message of a CREATE; the transporter is shared with the
      registry and only read. */
  class CreateMessage {
    const id: int
    const transporterId: int
    const transporter: Transporter

    constructor (id: int, transporterId: int, transporter: Transporter)
      ensures this.id == id && this.transporterId == transporterId && this.transporter == transporter
    {
      this.id := id;
      this.transporterId := transporterId;
      this.transporter := transporter;
    }

    /** generateXml: None stands for the out-of-range failure on an empty
        load. */
    method GenerateXml(containerXml: Container -> string) returns (r: Option<string>)
      ensures r == CreateXml(id, transporterId, transporter.load, containerXml)
    {
      var load := transporter.load;
      var e1, e2, e3 := Element("id", IntToString(id)), "<Create>", "<Transporter>";
      var e4 := Element("identifier", IntToString(transporterId));
      var message := "";
      message := message + e1;
      assert message == e1;
      message := message + e2;
      ghost var m2 := message;
      message := message + e3;
      ghost var m3 := message;
      message := message + e4;
      ghost var m4 := message;
      if |load| == 0 {
        return None;
      }
      var e5 := Element("type", load[0].arrivalType);
      message := message + e5;
      ghost var m5 := message;
      for i := 0 to |load|
        invariant message == m5 + Blocks(load[..i], containerXml)
      {
        assert load[..i + 1][..i] == load[..i];
        Assoc(m5, Blocks(load[..i], containerXml), containerXml(load[i]));
        message := message + containerXml(load[i]);
      }
      assert load[..|load|] == load;
      var blocks := Blocks(load, containerXml);
      var e7, e8 := "</Transporter>", "</Create>";
      message := message + e7;
      message := message + e8;
      Assoc(m5 + blocks, e7, e8);
      Assoc(m5, blocks, e7 + e8);
      Assoc(m4, e5, blocks + (e7 + e8));
      Assoc(m3, e4, e5 + (blocks + (e7 + e8)));
      Assoc(m2, e3, e4 + (e5 + (blocks + (e7 + e8))));
      Assoc(e1, e2, e3 + (e4 + (e5 + (blocks + (e7 + e8)))));
      r := Some(message);
    }

    /** getProcessor: the transporter given to the constructor. */
    function GetProcessor(): (t: Transporter)
      reads this
      ensures t == transporter
    {
      transporter
    }
  }

  // ---------------------------------------------------------------------
  // MOVE

  /** The MOVE text; the route is written as it is, without escaping. */
  /** It opens with the message id and closes the Move element. */
  function MoveXml(id: int, agv: Agv, route: string, crane: Crane, showFloat: real -> string): (r: string)
    ensures ReadElement(r, "id").Some? && ReadElement(r, "id").value.content == IntToString(id)
    ensures |r| >= 7 && r[|r| - 7..] == "</Move>"
  {
    var rest := "<Move>"
      + (Element("AgvId", IntToString(agv.id))
      + (Element("CurrentX", showFloat(agv.x))
      + (Element("CurrentY", showFloat(agv.y))
      + (Element("Dijkstra", route)
      + (Element("EndLocationType", crane.typeName)
      + (Element("EndLocationId", IntToString(crane.id))
      + "</Move>"))))));
    IntToStringNoTag(id);
    ReadElementRoundTrip("id", IntToString(id), rest);
    Element("id", IntToString(id)) + rest
  }

  /** The fields of a MOVE text, as a reader sees them. */
  datatype MoveFields = MoveFields(
    id: string, agvId: string, currentX: string, currentY: string,
    route: string, endType: string, endId: string)

  function ReadMove(x: string): (r: Option<MoveFields>)
    ensures r.Some? ==> '<' !in r.value.route
  {
    match ReadElement(x, "id")
    case None => None
    case Some(a) =>
      match ReadLiteral(a.rest, "<Move>")
      case None => None
      case Some(b) =>
        match ReadElement(b, "AgvId")
        case None => None
        case Some(c) =>
          match ReadElement(c.rest, "CurrentX")
          case None => None
          case Some(d) =>
            match ReadElement(d.rest, "CurrentY")
            case None => None
            case Some(e) => ReadMoveFrom(a.content, c.content, d.content, e.content, e.rest)
  }

  /** The rest of a MOVE text, from the route on, given the fields read
      before it; nothing is read when the route element is not. */
  function ReadMoveFrom(id: string, agvId: string, currentX: string, currentY: string, x: string): (r: Option<MoveFields>)
    ensures ReadElement(x, "Dijkstra").None? ==> r.None?
    ensures r.Some? ==> r.value.route == ReadElement(x, "Dijkstra").value.content && '<' !in r.value.route
  {
    match ReadElement(x, "Dijkstra")
    case None => None
    case Some(f) =>
      match ReadElement(f.rest, "EndLocationType")
      case None => None
      case Some(g) =>
        match ReadElement(g.rest, "EndLocationId")
        case None => None
        case Some(h) =>
          if h.rest == "</Move>" then
            Some(MoveFields(id, agvId, currentX, currentY, f.content, g.content, h.content))
          else None
  }


  /** A MOVE text lists the message id, then AgvId, CurrentX, CurrentY,
      Dijkstra, EndLocationType and EndLocationId in that order, each
      holding exactly what was written, provided no field text holds '<'. */
  lemma MoveXmlRead(id: int, agv: Agv, route: string, crane: Crane, showFloat: real -> string)
    requires '<' !in showFloat(agv.x) && '<' !in showFloat(agv.y)
    requires '<' !in route && '<' !in crane.typeName
    ensures ReadMove(MoveXml(id, agv, route, crane, showFloat))
         == Some(MoveFields(IntToString(id), IntToString(agv.id), showFloat(agv.x), showFloat(agv.y),
                            route, crane.typeName, IntToString(crane.id)))
  {
    var h := "</Move>";
    var g := Element("EndLocationId", IntToString(crane.id)) + h;
    var f := Element("EndLocationType", crane.typeName) + g;
    var e := Element("Dijkstra", route) + f;
    var d := Element("CurrentY", showFloat(agv.y)) + e;
    var c := Element("CurrentX", showFloat(agv.x)) + d;
    var b := Element("AgvId", IntToString(agv.id)) + c;
    var a := "<Move>" + b;
    IntToStringNoTag(id);
    IntToStringNoTag(agv.id);
    IntToStringNoTag(crane.id);
    ReadElementRoundTrip("id", IntToString(id), a);
    ReadLiteralRoundTrip("<Move>", b);
    ReadElementRoundTrip("AgvId", IntToString(agv.id), c);
    ReadElementRoundTrip("CurrentX", showFloat(agv.x), d);
    ReadElementRoundTrip("CurrentY", showFloat(agv.y), e);
    ReadElementRoundTrip("Dijkstra", route, f);
    ReadElementRoundTrip("EndLocationType", crane.typeName, g);
    ReadElementRoundTrip("EndLocationId", IntToString(crane.id), h);
    var x := MoveXml(id, agv, route, crane, showFloat);
    assert x == Element("id", IntToString(id)) + a;
    assert ReadMove(x) == ReadMoveFrom(IntToString(id), IntToString(agv.id), showFloat(agv.x), showFloat(agv.y), e);
  }

  lemma DijkstraPlain()
    ensures '<' !in "Dijkstra"
  {
  }

  /** ReadElementCut for the route element. */
  lemma RouteCut(route: string, rest: string)
    requires '<' in route
    ensures ReadElement(Element("Dijkstra", route) + rest, "Dijkstra").Some? ==>
              ReadElement(Element("Dijkstra", route) + rest, "Dijkstra").value.content == route[..IndexOfLt(route)]
    ensures !StartsWith(route[IndexOfLt(route)..], CloseTag("Dijkstra")) ==>
              ReadElement(Element("Dijkstra", route) + rest, "Dijkstra").None?
  {
    DijkstraPlain();
    ReadElementCut("Dijkstra", route, rest);
  }

  /** The route is written unescaped. When it holds '<' and the fields
      before it do not, a reader cuts the route at its first '<': any route
      read back is that prefix, and nothing reads back at all unless the
      route's text from that '<' on begins with the closing Dijkstra tag. */
  lemma MoveRouteUnescaped(id: int, agv: Agv, route: string, crane: Crane, showFloat: real -> string)
    requires '<' in route
    ensures |route[..IndexOfLt(route)]| < |route|
    ensures '<' !in showFloat(agv.x) && '<' !in showFloat(agv.y)
            && ReadMove(MoveXml(id, agv, route, crane, showFloat)).Some? ==>
              ReadMove(MoveXml(id, agv, route, crane, showFloat)).value.route == route[..IndexOfLt(route)]
    ensures '<' !in showFloat(agv.x) && '<' !in showFloat(agv.y)
            && !StartsWith(route[IndexOfLt(route)..], CloseTag("Dijkstra")) ==>
              ReadMove(MoveXml(id, agv, route, crane, showFloat)).None?
  {
    assert IndexOfLt(route) < |route| by {
      var i :| 0 <= i < |route| && route[i] == '<';
    }
    if '<' !in showFloat(agv.x) && '<' !in showFloat(agv.y) {
      var h := "</Move>";
      var g := Element("EndLocationId", IntToString(crane.id)) + h;
      var f := Element("EndLocationType", crane.typeName) + g;
      var e := Element("Dijkstra", route) + f;
      var d := Element("CurrentY", showFloat(agv.y)) + e;
      var c := Element("CurrentX", showFloat(agv.x)) + d;
      var b := Element("AgvId", IntToString(agv.id)) + c;
      var a := "<Move>" + b;
      IntToStringNoTag(id);
      IntToStringNoTag(agv.id);
      ReadElementRoundTrip("id", IntToString(id), a);
      ReadLiteralRoundTrip("<Move>", b);
      ReadElementRoundTrip("AgvId", IntToString(agv.id), c);
      ReadElementRoundTrip("CurrentX", showFloat(agv.x), d);
      ReadElementRoundTrip("CurrentY", showFloat(agv.y), e);
      RouteCut(route, f);
      var x := MoveXml(id, agv, route, crane, showFloat);
      assert x == Element("id", IntToString(id)) + a;
      assert ReadMove(x) == ReadMoveFrom(IntToString(id), IntToString(agv.id), showFloat(agv.x), showFloat(agv.y), e);
    }
  }

  /** The leading id of a MOVE text reads back as the message id. */
  lemma MoveXmlId(id: int, agv: Agv, route: string, crane: Crane, showFloat: real -> string)
    ensures ReadElement(MoveXml(id, agv, route, crane, showFloat), "id").Some?
    ensures IsInt32(id) ==> ParseInt(ReadElement(MoveXml(id, agv, route, crane, showFloat), "id").value.content) == Some(id)
  {
    IntToStringNoTag(id);
    var rest := "<Move>"
      + (Element("AgvId", IntToString(agv.id))
      + (Element("CurrentX", showFloat(agv.x))
      + (Element("CurrentY", showFloat(agv.y))
      + (Element("Dijkstra", route)
      + (Element("EndLocationType", crane.typeName)
      + (Element("EndLocationId", IntToString(crane.id))
      + "</Move>"))))));
    ReadElementRoundTrip("id", IntToString(id), rest);
    if IsInt32(id) {
      IntToStringRoundTrip(id);
    }
  }

  /** The MOVE message: the AGV to move, its route and the crane it heads
      for; the end location id is a copy of the crane's id. */
  class MoveMessage {
    const id: int
    const agv: Agv
    const dijkstra: string
    const crane: Crane
    /** A field that generateXml writes again, as the constructor does;
        both write the crane's id, so Valid() holds throughout. */
    var endLocationId: int

    /** The end location is always the target crane. */
    ghost predicate Valid()
      reads this
    {
      endLocationId == crane.id
    }

    constructor (id: int, agv: Agv, dijkstra: string, crane: Crane)
      ensures this.id == id && this.agv == agv && this.dijkstra == dijkstra && this.crane == crane
      ensures Valid()
    {
      this.id := id;
      this.agv := agv;
      this.dijkstra := dijkstra;
      this.crane := crane;
      endLocationId := crane.id;
    }

    /** generateXml: the MOVE text; the end location id is set again to the
        crane's id, so a second call returns the same text. */
    method GenerateXml(showFloat: real -> string) returns (message: string)
      requires Valid()
      modifies this
      ensures message == MoveXml(id, agv, dijkstra, crane, showFloat)
      ensures Valid() && unchanged(this)
    {
      var e1, e2, e3 := Element("id", IntToString(id)), "<Move>", Element("AgvId", IntToString(agv.id));
      var e4, e5 := Element("CurrentX", showFloat(agv.x)), Element("CurrentY", showFloat(agv.y));
      var e6, e7 := Element("Dijkstra", dijkstra), Element("EndLocationType", crane.typeName);
      var e8, e9 := Element("EndLocationId", IntToString(crane.id)), "</Move>";
      message := "";
      message := message + e1;
      assert message == e1;
      ghost var m1 := message;
      message := message + e2;
      ghost var m2 := message;
      message := message + e3;
      ghost var m3 := message;
      message := message + e4;
      ghost var m4 := message;
      message := message + e5;
      ghost var m5 := message;
      message := message + e6;
      ghost var m6 := message;
      message := message + e7;
      ghost var m7 := message;
      message := message + e8;
      message := message + e9;
      Assoc(m7, e8, e9);
      Assoc(m6, e7, e8 + e9);
      Assoc(m5, e6, e7 + (e8 + e9));
      Assoc(m4, e5, e6 + (e7 + (e8 + e9)));
      Assoc(m3, e4, e5 + (e6 + (e7 + (e8 + e9))));
      Assoc(m2, e3, e4 + (e5 + (e6 + (e7 + (e8 + e9)))));
      Assoc(m1, e2, e3 + (e4 + (e5 + (e6 + (e7 + (e8 + e9))))));
      endLocationId := crane.id;
    }

    /** getEndLocationId: the id of the crane the AGV heads for. */
    function GetEndLocationId(): (r: int)
      requires Valid()
      reads this
      ensures r == crane.id
    {
      endLocationId
    }
  }
}
