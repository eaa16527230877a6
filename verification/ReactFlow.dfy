/**
 The stored form of a strategy graph: printing it as a JSON document and parsing it back.
 `decode` stands for the JSON decoding of a text, which params given as a string go through.
 */
module ReactFlow {
  import opened Wrappers
  import opened JsonTree
  import opened Graph

  type Decoder = string -> Option<Json>

  /** No JSON text is the string that it denotes: the text has the quotes as well. */
  ghost predicate Quotes(decode: Decoder)
  {
    forall s :: decode(s) != Some(Str(s))
  }

  // --- params -------------------------------------------------------------------------------

  const EMPTY_OBJECT := Text(Obj(map[]))

  /** `rawOrEmpty`: the printed form of a node's params. */
  function RawOrEmpty(r: Raw): Json
  {
    match r
    case NoBytes => Null
    case Text(j) => j
    case Broken(bytes) => Str(bytes)
  }

  /** `normalizeParams`: a string is decoded once more, null and nothing become an empty object. */
  function NormalizeParams(p: Raw, decode: Decoder): Option<Raw>
  {
    match p
    case NoBytes => Some(EMPTY_OBJECT)
    case Broken(_) => None
    case Text(Null) => Some(EMPTY_OBJECT)
    case Text(Str(s)) =>
      if s == "" then Some(EMPTY_OBJECT)
      else (match decode(s) case None => None case Some(j) => Some(Text(j)))
    case Text(_) => Some(p)
  }

  /** Params that parsing leaves alone: any JSON value but null and strings. */
  predicate Plain(p: Raw)
  {
    p.Text? && !p.doc.Null? && !p.doc.Str?
  }

  /** A string whose content is itself a JSON null or a JSON string. */
  predicate TwiceEncoded(p: Raw, decode: Decoder)
  {
    p.Text? && p.doc.Str? && p.doc.s != "" && decode(p.doc.s).Some? &&
    (decode(p.doc.s).value.Null? || decode(p.doc.s).value.Str?)
  }

  /**
   What params become: missing, null and empty-string ones an empty object, a string its content decoded
   once, any other value itself; broken ones and strings that do not decode are refused.
   */
  lemma NormalizeCases(p: Raw, decode: Decoder)
    ensures p == NoBytes || p == Text(Null) || p == Text(Str("")) ==>
      NormalizeParams(p, decode) == Some(Text(Obj(map[])))
    ensures Plain(p) ==> NormalizeParams(p, decode) == Some(p)
    ensures p.Broken? ==> NormalizeParams(p, decode) == None
    ensures forall s :: p == Text(Str(s)) && s != "" ==>
      match decode(s)
      case None => NormalizeParams(p, decode) == None
      case Some(j) => NormalizeParams(p, decode) == Some(Text(j))
  {
  }

  /** Normalizing once more changes nothing exactly when the params were not encoded twice over. */
  lemma NormalizeIdempotentIff(p: Raw, decode: Decoder)
    requires Quotes(decode) && NormalizeParams(p, decode).Some?
    ensures
      var q := NormalizeParams(p, decode).value;
      NormalizeParams(q, decode) == Some(q) <==> !TwiceEncoded(p, decode)
    ensures Plain(NormalizeParams(p, decode).value) <==> !TwiceEncoded(p, decode)
  {
    var q := NormalizeParams(p, decode).value;
    if q.Text? && q.doc.Str? {
      assert decode(q.doc.s) != Some(Str(q.doc.s));
    }
  }

  // --- printing -----------------------------------------------------------------------------

  function EncodePosition(p: Position): Json
  {
    Obj(map["x" := Num(p.x), "y" := Num(p.y)])
  }

  function EncodeData(n: Node): Json
  {
    Obj(map["subtype" := Str(n.subtype), "params" := RawOrEmpty(n.params)])
  }

  function EncodeNode(n: Node): Json
  {
    var fields := map["id" := Str(n.id), "type" := Str(n.typ), "data" := EncodeData(n)];
    Obj(if n.position.Some? then fields["position" := EncodePosition(n.position.value)] else fields)
  }

  function WithText(fields: map<string, Json>, key: string, s: string): map<string, Json>
  {
    if s == "" then fields else fields[key := Str(s)]
  }

  function EncodeEdge(e: Edge): Json
  {
    Obj(WithText(WithText(WithText(map["source" := Str(e.source), "target" := Str(e.target)],
      "id", e.id), "sourceHandle", e.sourceHandle), "targetHandle", e.targetHandle))
  }

  function EncodeNodes(nodes: seq<Node>): seq<Json>
  {
    seq(|nodes|, i requires 0 <= i < |nodes| => EncodeNode(nodes[i]))
  }

  function EncodeEdges(edges: seq<Edge>): seq<Json>
  {
    seq(|edges|, i requires 0 <= i < |edges| => EncodeEdge(edges[i]))
  }

  function Encode(d: Dag): Json
  {
    Obj(map["nodes" := Arr(EncodeNodes(d.nodes)), "edges" := Arr(EncodeEdges(d.edges))])
  }

  /** The printed form of a node, key by key; a position only when there is one. */
  ghost predicate NodePrinted(n: Node, j: Json)
  {
    && j.Obj?
    && j.fields.Keys == {"id", "type", "data"} + (if n.position.Some? then {"position"} else {})
    && j.fields["id"] == Str(n.id) && j.fields["type"] == Str(n.typ)
    && j.fields["data"].Obj? && j.fields["data"].fields.Keys == {"subtype", "params"}
    && j.fields["data"].fields["subtype"] == Str(n.subtype)
    && ParamsPrinted(n.params, j.fields["data"].fields["params"])
    && (n.position.Some? ==>
          j.fields["position"] == Obj(map["x" := Num(n.position.value.x), "y" := Num(n.position.value.y)]))
  }

  /** Params print as the value they hold, missing ones as null, broken ones as a string of their bytes. */
  ghost predicate ParamsPrinted(p: Raw, j: Json)
  {
    match p
    case NoBytes => j == Null
    case Text(doc) => j == doc
    case Broken(bytes) => j == Str(bytes)
  }

  /** The printed form of an edge; id and handles only when they are not empty. */
  ghost predicate EdgePrinted(e: Edge, j: Json)
  {
    && j.Obj?
    && j.fields.Keys == {"source", "target"} + (if e.id == "" then {} else {"id"}) +
         (if e.sourceHandle == "" then {} else {"sourceHandle"}) +
         (if e.targetHandle == "" then {} else {"targetHandle"})
    && j.fields["source"] == Str(e.source) && j.fields["target"] == Str(e.target)
    && (e.id != "" ==> j.fields["id"] == Str(e.id))
    && (e.sourceHandle != "" ==> j.fields["sourceHandle"] == Str(e.sourceHandle))
    && (e.targetHandle != "" ==> j.fields["targetHandle"] == Str(e.targetHandle))
  }

  ghost predicate DocPrinted(d: Dag, doc: Json)
  {
    && doc.Obj? && doc.fields.Keys == {"nodes", "edges"}
    && doc.fields["nodes"].Arr? && doc.fields["edges"].Arr?
    && |doc.fields["nodes"].items| == |d.nodes| && |doc.fields["edges"].items| == |d.edges|
    && (forall i :: 0 <= i < |d.nodes| ==> NodePrinted(d.nodes[i], doc.fields["nodes"].items[i]))
    && (forall i :: 0 <= i < |d.edges| ==> EdgePrinted(d.edges[i], doc.fields["edges"].items[i]))
  }

  lemma NodeIsPrinted(n: Node)
    ensures NodePrinted(n, EncodeNode(n))
  {
  }

  lemma EdgeIsPrinted(e: Edge)
    ensures EdgePrinted(e, EncodeEdge(e))
  {
  }

  lemma EncodePrinted(d: Dag)
    ensures DocPrinted(d, Encode(d))
  {
    forall i | 0 <= i < |d.nodes| ensures NodePrinted(d.nodes[i], EncodeNode(d.nodes[i])) {
      NodeIsPrinted(d.nodes[i]);
    }
    forall i | 0 <= i < |d.edges| ensures EdgePrinted(d.edges[i], EncodeEdge(d.edges[i])) {
      EdgeIsPrinted(d.edges[i]);
    }
  }

  method MarshalDag(d: Dag) returns (doc: Json)
    ensures doc == Encode(d)
    ensures DocPrinted(d, doc)
  {
    var nodes: seq<Json> := [];
    for i := 0 to |d.nodes|
      invariant nodes == EncodeNodes(d.nodes[..i])
    {
      var n := d.nodes[i];
      var entry := map["id" := Str(n.id), "type" := Str(n.typ), "data" := EncodeData(n)];
      if n.position.Some? {
        entry := entry["position" := EncodePosition(n.position.value)];
      }
      nodes := nodes + [Obj(entry)];
    }
    var edges: seq<Json> := [];
    for i := 0 to |d.edges|
      invariant edges == EncodeEdges(d.edges[..i])
    {
      var e := d.edges[i];
      var entry := map["source" := Str(e.source), "target" := Str(e.target)];
      if e.id != "" {
        entry := entry["id" := Str(e.id)];
      }
      if e.sourceHandle != "" {
        entry := entry["sourceHandle" := Str(e.sourceHandle)];
      }
      if e.targetHandle != "" {
        entry := entry["targetHandle" := Str(e.targetHandle)];
      }
      edges := edges + [Obj(entry)];
    }
    assert d.nodes[..|d.nodes|] == d.nodes && d.edges[..|d.edges|] == d.edges;
    doc := Obj(map["nodes" := Arr(nodes), "edges" := Arr(edges)]);
    EncodePrinted(d);
  }

  // --- decoding into the document shape -----------------------------------------------------

  /** A string field of a decoded struct: absent and null leave it empty, other kinds are an error. */
  function StringField(fields: map<string, Json>, key: string): Option<string>
  {
    if key !in fields then Some("")
    else match fields[key]
      case Null => Some("")
      case Str(s) => Some(s)
      case _ => None
  }

  function NumberField(fields: map<string, Json>, key: string): Option<real>
  {
    if key !in fields then Some(0.0)
    else match fields[key]
      case Null => Some(0.0)
      case Num(x) => Some(x)
      case _ => None
  }

  /** The fields of a nested struct: absent and null are a struct without fields. */
  function StructFields(j: Option<Json>): Option<map<string, Json>>
  {
    match j
    case None => Some(map[])
    case Some(Null) => Some(map[])
    case Some(Obj(fields)) => Some(fields)
    case Some(_) => None
  }

  function Field(fields: map<string, Json>, key: string): Option<Json>
  {
    if key in fields then Some(fields[key]) else None
  }

  function DecodePosition(j: Option<Json>): Option<Option<Position>>
  {
    match j
    case None => Some(None)
    case Some(Null) => Some(None)
    case Some(Obj(fields)) =>
      var x, y := NumberField(fields, "x"), NumberField(fields, "y");
      if x.Some? && y.Some? then Some(Some(Position(x.value, y.value))) else None
    case Some(_) => None
  }

  /** A node as the document has it, its params not normalized yet. */
  function DecodeNode(j: Json): Option<Node>
  {
    var fields := StructFields(Some(j));
    if fields.None? then None
    else
      var id, typ := StringField(fields.value, "id"), StringField(fields.value, "type");
      var position := DecodePosition(Field(fields.value, "position"));
      var data := StructFields(Field(fields.value, "data"));
      if id.None? || typ.None? || position.None? || data.None? then None
      else
        var subtype := StringField(data.value, "subtype");
        if subtype.None? then None
        else
          var params := match Field(data.value, "params") case None => NoBytes case Some(p) => Text(p);
          Some(Node(id.value, typ.value, subtype.value, params, position.value))
  }

  function DecodeEdge(j: Json): Option<Edge>
  {
    var fields := StructFields(Some(j));
    if fields.None? then None
    else
      var id, source, target :=
        StringField(fields.value, "id"), StringField(fields.value, "source"), StringField(fields.value, "target");
      var sourceHandle, targetHandle :=
        StringField(fields.value, "sourceHandle"), StringField(fields.value, "targetHandle");
      if id.None? || source.None? || target.None? || sourceHandle.None? || targetHandle.None? then None
      else Some(Edge(id.value, source.value, sourceHandle.value, target.value, targetHandle.value))
  }

  /** A list field: absent and null are empty, anything but an array is an error. */
  function ListField(fields: map<string, Json>, key: string): Option<seq<Json>>
  {
    match Field(fields, key)
    case None => Some([])
    case Some(Null) => Some([])
    case Some(Arr(items)) => Some(items)
    case Some(_) => None
  }

  function DecodeNodes(items: seq<Json>): Option<seq<Node>>
  {
    if items == [] then Some([])
    else
      var q, n := DecodeNodes(items[..|items| - 1]), DecodeNode(items[|items| - 1]);
      if q.Some? && n.Some? then Some(q.value + [n.value]) else None
  }

  function DecodeEdges(items: seq<Json>): Option<seq<Edge>>
  {
    if items == [] then Some([])
    else
      var q, e := DecodeEdges(items[..|items| - 1]), DecodeEdge(items[|items| - 1]);
      if q.Some? && e.Some? then Some(q.value + [e.value]) else None
  }

  function DecodeDoc(doc: Json): Option<Dag>
  {
    var fields := StructFields(Some(doc));
    if fields.None? then None
    else
      var nodes, edges := ListField(fields.value, "nodes"), ListField(fields.value, "edges");
      if nodes.None? || edges.None? then None
      else
        var ns, es := DecodeNodes(nodes.value), DecodeEdges(edges.value);
        if ns.Some? && es.Some? then Some(Dag(ns.value, es.value)) else None
  }

  /** A string field: absent and null leave it empty, a string is taken. */
  ghost predicate ReadsText(fields: map<string, Json>, key: string, s: string)
  {
    if key !in fields || fields[key].Null? then s == "" else fields[key] == Str(s)
  }

  ghost predicate ReadsNumber(fields: map<string, Json>, key: string, x: real)
  {
    if key !in fields || fields[key].Null? then x == 0.0 else fields[key] == Num(x)
  }

  ghost predicate ReadsPosition(fields: map<string, Json>, p: Option<Position>)
  {
    if "position" !in fields || fields["position"].Null? then p.None?
    else
      && fields["position"].Obj? && p.Some?
      && ReadsNumber(fields["position"].fields, "x", p.value.x)
      && ReadsNumber(fields["position"].fields, "y", p.value.y)
  }

  /** What a node object denotes: every field by its key, wrong kinds refused. */
  ghost predicate NodeRead(fields: map<string, Json>, n: Node)
  {
    && ReadsText(fields, "id", n.id) && ReadsText(fields, "type", n.typ) && ReadsPosition(fields, n.position)
    && if "data" !in fields || fields["data"].Null? then n.subtype == "" && n.params == NoBytes
       else
         && fields["data"].Obj?
         && ReadsText(fields["data"].fields, "subtype", n.subtype)
         && n.params ==
            if "params" in fields["data"].fields then Text(fields["data"].fields["params"]) else NoBytes
  }

  lemma NodeReadIff(fields: map<string, Json>, n: Node)
    ensures DecodeNode(Obj(fields)) == Some(n) <==> NodeRead(fields, n)
  {
    PositionReadIff(fields, n.position);
    assert Field(fields, "data").None? <==> "data" !in fields;
  }

  lemma PositionReadIff(fields: map<string, Json>, p: Option<Position>)
    ensures DecodePosition(Field(fields, "position")) == Some(p) <==> ReadsPosition(fields, p)
  {
  }

  lemma EdgeReadIff(fields: map<string, Json>, e: Edge)
    ensures DecodeEdge(Obj(fields)) == Some(e) <==>
      && ReadsText(fields, "id", e.id) && ReadsText(fields, "source", e.source) && ReadsText(fields, "target", e.target)
      && ReadsText(fields, "sourceHandle", e.sourceHandle) && ReadsText(fields, "targetHandle", e.targetHandle)
  {
  }

  // --- parsing ------------------------------------------------------------------------------

  datatype ParseError = BadDocument | BadParams(node: nat) | BadDag(defect: Defect)

  /** The nodes with normalized params; None when some params cannot be normalized. */
  function NormalizeAll(nodes: seq<Node>, decode: Decoder): Option<seq<Node>>
  {
    if nodes == [] then Some([])
    else
      var n := nodes[|nodes| - 1];
      var q, p := NormalizeAll(nodes[..|nodes| - 1], decode), NormalizeParams(n.params, decode);
      if q.Some? && p.Some? then Some(q.value + [n.(params := p.value)]) else None
  }

  /** Normalizing all nodes changes their params only. */
  lemma {:induction false} NormalizeAllExact(nodes: seq<Node>, decode: Decoder)
    ensures
      match NormalizeAll(nodes, decode)
      case None => exists i :: 0 <= i < |nodes| && NormalizeParams(nodes[i].params, decode).None?
      case Some(out) => |out| == |nodes| && forall i :: 0 <= i < |nodes| ==>
        NormalizeParams(nodes[i].params, decode).Some? &&
        out[i] == nodes[i].(params := NormalizeParams(nodes[i].params, decode).value)
  {
    if nodes != [] {
      NormalizeAllExact(nodes[..|nodes| - 1], decode);
    }
  }

  /** What a document denotes, before validation. */
  function Translate(doc: Json, decode: Decoder): Option<Dag>
  {
    match DecodeDoc(doc)
    case None => None
    case Some(raw) =>
      match NormalizeAll(raw.nodes, decode)
      case None => None
      case Some(nodes) => Some(Dag(nodes, raw.edges))
  }

  /** `ParseReactFlowJSON`: decode, normalize every node's params, validate. */
  method ParseDag(doc: Json, decode: Decoder) returns (r: Result<Dag, ParseError>)
    ensures r.Ok? <==> Translate(doc, decode).Some? && Translate(doc, decode).value.Valid()
    ensures r.Ok? ==> Translate(doc, decode) == Some(r.value)
    ensures r.Err? && r.error.BadDag? <==> Translate(doc, decode).Some? && !Translate(doc, decode).value.Valid()
    ensures r.Err? && r.error.BadDag? ==> Exhibits(Translate(doc, decode).value, r.error.defect)
    ensures r.Err? && r.error.BadDocument? <==> DecodeDoc(doc).None?
    ensures r.Err? && r.error.BadParams? <==> DecodeDoc(doc).Some? && Translate(doc, decode).None?
    ensures r.Err? && r.error.BadParams? ==> FirstUnusable(DecodeDoc(doc).value.nodes, r.error.node, decode)
  {
    var raw := DecodeDoc(doc);
    if raw.None? {
      return Err(BadDocument);
    }
    var nodes: seq<Node> := [];
    for i := 0 to |raw.value.nodes|
      invariant NormalizeAll(raw.value.nodes[..i], decode) == Some(nodes)
      invariant forall k :: 0 <= k < i ==> NormalizeParams(raw.value.nodes[k].params, decode).Some?
    {
      var n := raw.value.nodes[i];
      assert raw.value.nodes[..i + 1][..i] == raw.value.nodes[..i];
      var params := NormalizeParams(n.params, decode);
      if params.None? {
        NormalizeFails(raw.value.nodes, i, decode);
        return Err(BadParams(i));
      }
      nodes := nodes + [Node(n.id, n.typ, n.subtype, params.value, n.position)];
    }
    assert raw.value.nodes[..|raw.value.nodes|] == raw.value.nodes;
    var dag := Dag(nodes, raw.value.edges);
    var defect := Validate(dag);
    if defect.Some? {
      return Err(BadDag(defect.value));
    }
    r := Ok(dag);
  }

  /** The first node whose params cannot be normalized. */
  ghost predicate FirstUnusable(nodes: seq<Node>, i: nat, decode: Decoder)
  {
    && i < |nodes| && NormalizeParams(nodes[i].params, decode).None?
    && forall k :: 0 <= k < i ==> NormalizeParams(nodes[k].params, decode).Some?
  }

  lemma {:induction false} NormalizeFails(nodes: seq<Node>, i: nat, decode: Decoder)
    requires i < |nodes| && NormalizeParams(nodes[i].params, decode).None?
    ensures NormalizeAll(nodes, decode).None?
  {
    if i < |nodes| - 1 {
      NormalizeFails(nodes[..|nodes| - 1], i, decode);
    }
  }

  // --- the round trip -----------------------------------------------------------------------

  /** Decoding undoes printing, up to the params' raw form. */
  lemma NodeRoundTrip(n: Node)
    ensures DecodeNode(EncodeNode(n)) == Some(n.(params := Text(RawOrEmpty(n.params))))
  {
    assert "params" in EncodeData(n).fields;
  }

  lemma EdgeRoundTrip(e: Edge)
    ensures DecodeEdge(EncodeEdge(e)) == Some(e)
  {
  }

  function Printed(nodes: seq<Node>): seq<Node>
  {
    seq(|nodes|, i requires 0 <= i < |nodes| => nodes[i].(params := Text(RawOrEmpty(nodes[i].params))))
  }

  lemma {:induction false} NodesRoundTrip(nodes: seq<Node>)
    ensures DecodeNodes(EncodeNodes(nodes)) == Some(Printed(nodes))
  {
    if nodes != [] {
      var q, l := nodes[..|nodes| - 1], nodes[|nodes| - 1];
      NodesRoundTrip(q);
      NodeRoundTrip(l);
      var items := EncodeNodes(nodes);
      assert |items| == |nodes| && items[..|items| - 1] == EncodeNodes(q) && items[|items| - 1] == EncodeNode(l);
      assert DecodeNodes(items) == Some(Printed(q) + [l.(params := Text(RawOrEmpty(l.params)))]);
      assert Printed(nodes) == Printed(q) + [l.(params := Text(RawOrEmpty(l.params)))];
    } else {
      assert EncodeNodes(nodes) == [] && Printed(nodes) == [];
    }
  }

  lemma {:induction false} EdgesRoundTrip(edges: seq<Edge>)
    ensures DecodeEdges(EncodeEdges(edges)) == Some(edges)
  {
    if edges != [] {
      var q, l := edges[..|edges| - 1], edges[|edges| - 1];
      EdgesRoundTrip(q);
      EdgeRoundTrip(l);
      assert EncodeEdges(edges)[..|edges| - 1] == EncodeEdges(q) && EncodeEdges(edges)[|edges| - 1] == EncodeEdge(l);
      assert edges == q + [l];
    }
  }

  /** One node's params survive printing and normalizing exactly when they are plain. */
  lemma ParamsSurviveIff(p: Raw, decode: Decoder)
    requires Quotes(decode)
    ensures NormalizeParams(Text(RawOrEmpty(p)), decode) == Some(p) <==> Plain(p)
  {
    if p.Text? && p.doc.Str? {
      assert decode(p.doc.s) != Some(Str(p.doc.s));
    }
  }

  lemma {:induction false} NodesSurviveIff(nodes: seq<Node>, decode: Decoder)
    requires Quotes(decode)
    ensures NormalizeAll(Printed(nodes), decode) == Some(nodes) <==> forall n :: n in nodes ==> Plain(n.params)
  {
    if nodes != [] {
      var q, l := nodes[..|nodes| - 1], nodes[|nodes| - 1];
      assert nodes == q + [l];
      NodesSurviveIff(q, decode);
      ParamsSurviveIff(l.params, decode);
      PrintedLast(nodes, decode);
      if NormalizeAll(Printed(nodes), decode) == Some(nodes) {
        assert nodes[..|nodes| - 1] == NormalizeAll(Printed(q), decode).value;
      }
    }
  }

  /** Normalizing the printed nodes, last node apart. */
  lemma PrintedLast(nodes: seq<Node>, decode: Decoder)
    requires nodes != []
    ensures
      var q, l := NormalizeAll(Printed(nodes[..|nodes| - 1]), decode), nodes[|nodes| - 1];
      var p := NormalizeParams(Text(RawOrEmpty(l.params)), decode);
      NormalizeAll(Printed(nodes), decode) ==
      if q.Some? && p.Some? then Some(q.value + [l.(params := p.value)]) else None
  {
    var printed := Printed(nodes);
    assert |printed| == |nodes| && printed[..|printed| - 1] == Printed(nodes[..|nodes| - 1]);
  }

  /**
   The round trip: parsing what was printed gives the graph back, and validates, exactly when the
   graph is valid and every node's params are plain.  Optional positions, handles and edge ids
   always survive.
   */
  lemma RoundTripIff(d: Dag, decode: Decoder)
    requires Quotes(decode)
    ensures (Translate(Encode(d), decode) == Some(d) && d.Valid())
            <==> d.Valid() && forall n :: n in d.nodes ==> Plain(n.params)
  {
    DocRoundTrip(d);
    NodesSurviveIff(d.nodes, decode);
  }

  lemma DocRoundTrip(d: Dag)
    ensures DecodeDoc(Encode(d)) == Some(Dag(Printed(d.nodes), d.edges))
  {
    NodesRoundTrip(d.nodes);
    EdgesRoundTrip(d.edges);
    DecodeTwoLists(EncodeNodes(d.nodes), EncodeEdges(d.edges));
  }

  lemma DecodeTwoLists(nodes: seq<Json>, edges: seq<Json>)
    ensures DecodeDoc(Obj(map["nodes" := Arr(nodes), "edges" := Arr(edges)])) ==
      if DecodeNodes(nodes).Some? && DecodeEdges(edges).Some?
      then Some(Dag(DecodeNodes(nodes).value, DecodeEdges(edges).value)) else None
  {
    var fields := map["nodes" := Arr(nodes), "edges" := Arr(edges)];
    assert "nodes" != "edges";
    assert ListField(fields, "nodes") == Some(nodes) && ListField(fields, "edges") == Some(edges);
  }

  /** Params that came in double-encoded as a string are the excluded case: they change on the way. */
  lemma DoubleEncodedChanges(decode: Decoder)
    requires decode("\"x\"") == Some(Str("x")) && decode("x") == None
    ensures NormalizeParams(Text(Str("\"x\"")), decode) == Some(Text(Str("x")))
    ensures NormalizeParams(Text(RawOrEmpty(Text(Str("x")))), decode) == None
  {
    assert "\"x\"" != "" && "x" != "";
  }
}
