/**
 * Nebula property-graph schemas (a tag for vertices, an edge type for edges)
 * and the nGQL text they generate: the `create tag` / `create edge` statement
 * and the batched `insert vertex` / `insert edge` statement. The text is
 * built the way the loader builds it, by appending `item + ", "` and then
 * popping the last two characters; the lemmas show what that leaves behind.
 */
module NebulaSchema {
  import opened Text
  import opened Batching

  /** A vertex of a property graph file: its id and its `key:value` pairs, in file order. */
  datatype PropertyVertex = PropertyVertex(id: nat, properties: seq<string>, values: seq<string>)

  /** An edge of a property graph file: endpoints and `key:value` pairs, in file order. */
  datatype PropertyEdge = PropertyEdge(src: nat, dst: nat, properties: seq<string>, values: seq<string>)

  datatype PropertyGraph = PropertyGraph(vertices: seq<PropertyVertex>, edges: seq<PropertyEdge>)

  datatype SchemaKind = VertexKind | EdgeKind

  /**
   * A schema: its name, its attribute declarations (name -> type, an
   * unordered map) and the column order used by inserts.
   */
  datatype Schema = Schema(kind: SchemaKind, name: string, attrs: map<string, string>, orders: seq<string>)

  /** An insert row: an id (vertex) or src and dst (edge) first, then values. */
  type Row = r: seq<string> | |r| >= 2 witness ["", ""]

  /** `order` lists each attribute name of `attrs` exactly once (an iteration order of the map). */
  predicate Enumerates(order: seq<string>, attrs: map<string, string>)
  {
    (forall i :: 0 <= i < |order| ==> order[i] in attrs) &&
    (forall k :: k in attrs ==> k in order) &&
    (forall i, j :: 0 <= i < j < |order| ==> order[i] != order[j])
  }

  // ---------------------------------------------------------------------------
  // create tag / create edge

  function CreateWord(kind: SchemaKind): string
  {
    match kind
    case VertexKind => "tag"
    case EdgeKind => "edge"
  }

  /** "name type" for each attribute, in the given order. */
  function AttrDecls(attrs: map<string, string>, order: seq<string>): (r: seq<string>)
    requires forall i :: 0 <= i < |order| ==> order[i] in attrs
    ensures |r| == |order|
    ensures forall i :: 0 <= i < |order| ==> r[i] == order[i] + " " + attrs[order[i]]
  {
    if |order| == 0 then []
    else AttrDecls(attrs, order[..|order| - 1]) + [order[|order| - 1] + " " + attrs[order[|order| - 1]]]
  }

  function CreateHead(s: Schema): string
  {
    "create " + CreateWord(s.kind) + " " + s.name + " ("
  }

  /** The statement as the loop leaves it, for attributes visited in `order`. */
  function CreateText(s: Schema, order: seq<string>): string
    requires forall i :: 0 <= i < |order| ==> order[i] in s.attrs
  {
    Drop2(CreateHead(s) + Terminated(AttrDecls(s.attrs, order), ", ")) + ");"
  }

  /**
   * get_create_schema_query, with the hash map visited in `order`. The result is
   * a well-formed declaration list whatever the order; with no attributes the
   * two pops eat the " (" instead of a separator.
   */
  method GetCreateSchemaQuery(s: Schema, order: seq<string>) returns (q: string)
    requires Enumerates(order, s.attrs)
    ensures q == CreateText(s, order)
    ensures |s.attrs| > 0 ==> q == CreateHead(s) + Join(AttrDecls(s.attrs, order), ", ") + ");"
    ensures |s.attrs| == 0 ==> q == "create " + CreateWord(s.kind) + " " + s.name + ");"
  {
    q := CreateHead(s);
    var i := 0;
    while i < |order|
      invariant 0 <= i <= |order|
      invariant q == CreateHead(s) + Terminated(AttrDecls(s.attrs, order[..i]), ", ")
    {
      var attr := order[i];
      CreateStep(s, order, i, q);
      q := q + attr + " " + s.attrs[attr] + ", ";
      i := i + 1;
    }
    assert order[..i] == order;
    q := q[..|q| - 2];
    q := q + ");";
    CreateTextShape(s, order);
  }

  lemma CreateStep(s: Schema, order: seq<string>, i: nat, q: string)
    requires i < |order| && forall j :: 0 <= j < |order| ==> order[j] in s.attrs
    requires q == CreateHead(s) + Terminated(AttrDecls(s.attrs, order[..i]), ", ")
    ensures q + order[i] + " " + s.attrs[order[i]] + ", " ==
            CreateHead(s) + Terminated(AttrDecls(s.attrs, order[..i + 1]), ", ")
  {
    var d := order[i] + " " + s.attrs[order[i]];
    var ds := AttrDecls(s.attrs, order[..i]);
    AttrDeclsSnoc(s.attrs, order, i);
    TerminatedSnoc(ds, d, ", ");
    Concat4(CreateHead(s), Terminated(ds, ", "), d, ", ");
  }

  lemma Concat4(h: string, t: string, d: string, sep: string)
    ensures h + t + d + sep == h + (t + d + sep)
  {
  }

  lemma AttrDeclsSnoc(attrs: map<string, string>, order: seq<string>, i: nat)
    requires i < |order| && forall j :: 0 <= j < |order| ==> order[j] in attrs
    ensures AttrDecls(attrs, order[..i + 1]) == AttrDecls(attrs, order[..i]) + [order[i] + " " + attrs[order[i]]]
  {
    assert order[..i + 1][..i] == order[..i];
  }

  /** An enumeration is empty exactly when the map is. */
  lemma EnumeratesEmpty(order: seq<string>, attrs: map<string, string>)
    requires Enumerates(order, attrs)
    ensures |order| == 0 <==> |attrs| == 0
  {
    if |order| == 0 {
      assert attrs.Keys == {};
    } else {
      assert order[0] in attrs.Keys;
    }
  }

  lemma CreateTextShape(s: Schema, order: seq<string>)
    requires Enumerates(order, s.attrs)
    ensures |s.attrs| > 0 ==> CreateText(s, order) == CreateHead(s) + Join(AttrDecls(s.attrs, order), ", ") + ");"
    ensures |s.attrs| == 0 ==> CreateText(s, order) == "create " + CreateWord(s.kind) + " " + s.name + ");"
  {
    EnumeratesEmpty(order, s.attrs);
    if |order| > 0 {
      DropSeparator(CreateHead(s), AttrDecls(s.attrs, order));
    } else {
      assert CreateHead(s) == ("create " + CreateWord(s.kind) + " " + s.name) + " (";
    }
  }

  /** Every attribute is declared exactly once, with its type, whatever the iteration order. */
  lemma CreateDeclaresEachAttribute(s: Schema, order: seq<string>)
    requires Enumerates(order, s.attrs)
    ensures forall k :: k in s.attrs ==> k + " " + s.attrs[k] in AttrDecls(s.attrs, order)
    ensures |AttrDecls(s.attrs, order)| == |order|
  {
    var d := AttrDecls(s.attrs, order);
    forall k | k in s.attrs ensures k + " " + s.attrs[k] in d {
      var i :| 0 <= i < |order| && order[i] == k;
      assert d[i] == k + " " + s.attrs[k];
    }
  }

  // ---------------------------------------------------------------------------
  // insert vertex / insert edge

  function InsertWord(kind: SchemaKind): string
  {
    match kind
    case VertexKind => "vertex"
    case EdgeKind => "edge"
  }

  function InsertHead(s: Schema): string
  {
    "insert " + InsertWord(s.kind) + " " + s.name + "("
  }

  /** A property value, as a quoted string literal. */
  function Quoted(v: string): string
  {
    "\"" + v + "\""
  }

  function Quote(vs: seq<string>): seq<string>
  {
    MapSeq(Quoted, vs)
  }

  /** What a row writes before its values: `id:(id, ` for a vertex, `src->dst:(` for an edge. */
  function RowOpen(kind: SchemaKind, row: Row): (r: string)
    ensures |r| >= 2
  {
    match kind
    case VertexKind => row[0] + ":(" + row[1] + ", "
    case EdgeKind => row[0] + "->" + row[1] + ":("
  }

  /** One row as the loop leaves it: values appended, two pops, then `), `. */
  function RowText(kind: SchemaKind, row: Row): string
  {
    Drop2(RowOpen(kind, row) + Terminated(Quote(row[2..]), ", ")) + "), "
  }

  function RowTextOf(kind: SchemaKind): Row -> string
  {
    (row: Row) => RowText(kind, row)
  }

  function InsertBody(s: Schema, rows: seq<Row>): string
  {
    Drop2(InsertHead(s) + Terminated(s.orders, ", ")) + ") values " + Flatten(MapSeq(RowTextOf(s.kind), rows))
  }

  /** The insert statement exactly as get_insert_query builds it. */
  function InsertText(s: Schema, rows: seq<Row>): string
  {
    Drop2(InsertBody(s, rows)) + ";"
  }

  /** The intended row syntax: `id:(id, "v", ...)` or `src->dst:("v", ...)`. */
  function CleanRow(kind: SchemaKind, row: Row): string
  {
    match kind
    case VertexKind => row[0] + ":(" + Join([row[1]] + Quote(row[2..]), ", ") + ")"
    case EdgeKind => row[0] + "->" + row[1] + ":(" + Join(Quote(row[2..]), ", ") + ")"
  }

  function CleanRowOf(kind: SchemaKind): Row -> string
  {
    (row: Row) => CleanRow(kind, row)
  }

  /** The intended nGQL statement: columns and rows each separated by ", ". */
  function CleanInsert(s: Schema, rows: seq<Row>): string
  {
    InsertHead(s) + Join(s.orders, ", ") + ") values " + Join(MapSeq(CleanRowOf(s.kind), rows), ", ") + ";"
  }

  /**
   * The inputs the loader always passes: at least one column, at least one row,
   * and at least one property value for each edge row (the `src=>dst` id).
   */
  predicate WellFormedInsert(s: Schema, rows: seq<Row>)
  {
    |s.orders| > 0 && |rows| > 0 &&
    (s.kind == EdgeKind ==> forall i :: 0 <= i < |rows| ==> |rows[i]| >= 3)
  }

  /**
   * get_insert_query. On the inputs the loader passes it produces the intended
   * statement; in general it produces InsertText.
   */
  method GetInsertQuery(s: Schema, rows: seq<Row>) returns (q: string)
    ensures q == InsertText(s, rows)
    ensures WellFormedInsert(s, rows) ==> q == CleanInsert(s, rows)
  {
    q := InsertHead(s);
    var i := 0;
    while i < |s.orders|
      invariant 0 <= i <= |s.orders|
      invariant q == InsertHead(s) + Terminated(s.orders[..i], ", ")
    {
      TerminatedPrefixStep(InsertHead(s), s.orders, i, q);
      q := q + s.orders[i] + ", ";
      i := i + 1;
    }
    assert s.orders[..i] == s.orders;
    q := q[..|q| - 2];
    q := q + ") values ";
    ghost var head := q;
    var r := 0;
    while r < |rows|
      invariant 0 <= r <= |rows|
      invariant q == head + Flatten(MapSeq(RowTextOf(s.kind), rows[..r]))
    {
      RowsStep(head, s.kind, rows, r);
      q := AppendRow(q, s.kind, rows[r]);
      r := r + 1;
    }
    assert rows[..r] == rows;
    q := q[..|q| - 2];
    q := q + ";";
    if WellFormedInsert(s, rows) {
      InsertTextClean(s, rows);
    }
  }

  /** One more `x + sep` keeps the buffer equal to prefix + Terminated. */
  lemma TerminatedPrefixStep(h: string, xs: seq<string>, i: nat, q: string)
    requires i < |xs| && q == h + Terminated(xs[..i], ", ")
    ensures q + xs[i] + ", " == h + Terminated(xs[..i + 1], ", ")
  {
    assert xs[..i + 1] == xs[..i] + [xs[i]];
    TerminatedSnoc(xs[..i], xs[i], ", ");
    Concat4(h, Terminated(xs[..i], ", "), xs[i], ", ");
  }

  lemma RowsStep(head: string, kind: SchemaKind, rows: seq<Row>, r: nat)
    requires r < |rows|
    ensures head + Flatten(MapSeq(RowTextOf(kind), rows[..r])) + RowText(kind, rows[r]) ==
            head + Flatten(MapSeq(RowTextOf(kind), rows[..r + 1]))
  {
    MapSeqPrefix(RowTextOf(kind), rows, r);
    FlattenSnoc(MapSeq(RowTextOf(kind), rows[..r]), RowText(kind, rows[r]));
  }

  /** The body of the row loop: open the row, append its quoted values, pop twice, close it. */
  method AppendRow(q0: string, kind: SchemaKind, row: Row) returns (q: string)
    ensures q == q0 + RowText(kind, row)
  {
    q := q0 + RowOpen(kind, row);
    var j := 2;
    while j < |row|
      invariant 2 <= j <= |row|
      invariant q == q0 + RowOpen(kind, row) + Terminated(Quote(row[2..j]), ", ")
    {
      ValueStep(q0 + RowOpen(kind, row), row, j, q);
      q := q + "\"" + row[j] + "\", ";
      j := j + 1;
    }
    RowClose(q0, kind, row, q);
    q := q[..|q| - 2];
    q := q + "), ";
  }

  lemma ValueStep(h: string, row: Row, j: nat, q: string)
    requires 2 <= j < |row| && q == h + Terminated(Quote(row[2..j]), ", ")
    ensures q + "\"" + row[j] + "\", " == h + Terminated(Quote(row[2..j + 1]), ", ")
  {
    var t := Terminated(Quote(row[2..j]), ", ");
    QuoteSnoc(row, j);
    TerminatedSnoc(Quote(row[2..j]), Quoted(row[j]), ", ");
    QuotedItem(h + t, row[j]);
    Concat4(h, t, Quoted(row[j]), ", ");
  }

  lemma QuoteSnoc(row: Row, j: nat)
    requires 2 <= j < |row|
    ensures Quote(row[2..j + 1]) == Quote(row[2..j]) + [Quoted(row[j])]
  {
    assert row[2..j + 1] == row[2..j] + [row[j]];
    MapSeqAppend(Quoted, row[2..j], [row[j]]);
  }

  lemma QuotedItem(q: string, v: string)
    ensures q + "\"" + v + "\", " == q + Quoted(v) + ", "
  {
    assert "\"" + v + "\", " == Quoted(v) + ", ";
  }

  lemma RowClose(q0: string, kind: SchemaKind, row: Row, q: string)
    requires q == q0 + RowOpen(kind, row) + Terminated(Quote(row[2..|row|]), ", ")
    ensures |q| >= 2 && q[..|q| - 2] + "), " == q0 + RowText(kind, row)
  {
    assert row[2..|row|] == row[2..];
    DropTail(q0, RowOpen(kind, row) + Terminated(Quote(row[2..]), ", "));
  }

  /** Each rendered row is the intended row followed by one separator. */
  lemma RowTextClean(kind: SchemaKind, row: Row)
    requires kind == EdgeKind ==> |row| >= 3
    ensures RowText(kind, row) == CleanRow(kind, row) + ", "
  {
    match kind
    case VertexKind => VertexRowClean(row);
    case EdgeKind => EdgeRowClean(row);
  }

  lemma VertexRowClean(row: Row)
    ensures RowText(VertexKind, row) == CleanRow(VertexKind, row) + ", "
  {
    var vals := Quote(row[2..]);
    var open := row[0] + ":(";
    var body := Terminated([row[1]] + vals, ", ");
    TerminatedAppend([row[1]], vals, ", ");
    SingleTerminated(row[1], ", ");
    assert RowOpen(VertexKind, row) + Terminated(vals, ", ") == open + body;
    DropSeparator(open, [row[1]] + vals);
    CloseRow(open + Join([row[1]] + vals, ", "));
  }

  lemma EdgeRowClean(row: Row)
    requires |row| >= 3
    ensures RowText(EdgeKind, row) == CleanRow(EdgeKind, row) + ", "
  {
    var open := row[0] + "->" + row[1] + ":(";
    DropSeparator(open, Quote(row[2..]));
    CloseRow(open + Join(Quote(row[2..]), ", "));
  }

  lemma SingleTerminated(x: string, sep: string)
    ensures Terminated([x], sep) == x + sep
  {
    assert [x][..0] == [];
  }

  lemma CloseRow(s: string)
    ensures s + "), " == s + ")" + ", "
  {
  }

  /** Concatenating pieces that each end in `sep` gives a separator-terminated list. */
  lemma {:induction false} FlattenIsTerminated<A>(f: A -> string, g: A -> string, xs: seq<A>, sep: string)
    requires forall i :: 0 <= i < |xs| ==> f(xs[i]) == g(xs[i]) + sep
    ensures Flatten(MapSeq(f, xs)) == Terminated(MapSeq(g, xs), sep)
  {
    if |xs| > 0 {
      var k := |xs| - 1;
      FlattenIsTerminated(f, g, xs[..k], sep);
      assert xs[..k + 1] == xs;
      MapSeqPrefix(f, xs, k);
      MapSeqPrefix(g, xs, k);
      FlattenSnoc(MapSeq(f, xs[..k]), f(xs[k]));
      TerminatedSnoc(MapSeq(g, xs[..k]), g(xs[k]), sep);
    }
  }

  lemma RowsAreTerminated(kind: SchemaKind, rows: seq<Row>)
    requires kind == EdgeKind ==> forall i :: 0 <= i < |rows| ==> |rows[i]| >= 3
    ensures Flatten(MapSeq(RowTextOf(kind), rows)) == Terminated(MapSeq(CleanRowOf(kind), rows), ", ")
  {
    forall i | 0 <= i < |rows| ensures RowTextOf(kind)(rows[i]) == CleanRowOf(kind)(rows[i]) + ", " {
      RowTextClean(kind, rows[i]);
    }
    FlattenIsTerminated(RowTextOf(kind), CleanRowOf(kind), rows, ", ");
  }

  /** On well-formed input the pops remove exactly the trailing separators. */
  lemma InsertTextClean(s: Schema, rows: seq<Row>)
    requires WellFormedInsert(s, rows)
    ensures InsertText(s, rows) == CleanInsert(s, rows)
  {
    DropSeparator(InsertHead(s), s.orders);
    RowsAreTerminated(s.kind, rows);
    DropSeparator(InsertHead(s) + Join(s.orders, ", ") + ") values ", MapSeq(CleanRowOf(s.kind), rows));
  }

  /** With no rows the final pops eat "s " of " values ": the statement ends in ") value;". */
  lemma InsertWithoutRows(s: Schema)
    requires |s.orders| > 0
    ensures InsertText(s, []) == InsertHead(s) + Join(s.orders, ", ") + ") value;"
  {
    DropSeparator(InsertHead(s), s.orders);
    var p := InsertHead(s) + Join(s.orders, ", ");
    assert InsertBody(s, []) == p + ") values ";
    assert Drop2(p + ") values ") == p + ") value";
  }

  /** An edge row without property values loses its `:(` to the two pops: `src->dst), `. */
  lemma EdgeRowWithoutValues(row: Row)
    requires |row| == 2
    ensures RowText(EdgeKind, row) == row[0] + "->" + row[1] + "), "
  {
    assert row[2..] == [];
    assert Quote(row[2..]) == [];
  }

  // ---------------------------------------------------------------------------
  // The two property data sets

  const FreebaseVertex := Schema(VertexKind, "property_v",
    map["id" := "int", "freebaseid" := "string", "mid" := "string"], ["id", "freebaseid", "mid"])
  const LdbcVertex := Schema(VertexKind, "property_v",
    map["id" := "int", "xlabel" := "string", "oid" := "string"], ["id", "xlabel", "oid"])
  const PropertyEdgeSchema := Schema(EdgeKind, "property_e",
    map["id" := "string", "label" := "string"], ["id", "label"])

  /** vertex_schemas: the tag used for each property data set. */
  const VertexSchemas: map<string, Schema> := map["freebase_large" := FreebaseVertex, "ldbc" := LdbcVertex]

  /** edge_schemas: the edge type used for each property data set. */
  const EdgeSchemas: map<string, Schema> := map["freebase_large" := PropertyEdgeSchema, "ldbc" := PropertyEdgeSchema]

  /** A schema whose insert columns list each declared attribute once. */
  predicate Consistent(s: Schema)
  {
    Enumerates(s.orders, s.attrs)
  }

  /**
   * The two tables agree with each other and with themselves: both data sets
   * have a vertex tag and an edge type of the right kind, and each insert
   * column list names exactly the declared attributes.
   */
  lemma SchemaTablesConsistent()
    ensures VertexSchemas.Keys == EdgeSchemas.Keys == {"freebase_large", "ldbc"}
    ensures forall ds :: ds in VertexSchemas ==> VertexSchemas[ds].kind == VertexKind && Consistent(VertexSchemas[ds])
    ensures forall ds :: ds in EdgeSchemas ==> EdgeSchemas[ds].kind == EdgeKind && Consistent(EdgeSchemas[ds])
  {
    FreebaseConsistent();
    LdbcConsistent();
    EdgeConsistent();
  }

  lemma FreebaseConsistent()
    ensures Consistent(FreebaseVertex)
  {
  }

  lemma LdbcConsistent()
    ensures Consistent(LdbcVertex)
  {
  }

  lemma EdgeConsistent()
    ensures Consistent(PropertyEdgeSchema)
  {
  }
}
