/**
 * Reading the Nebula input files: `split` on a delimiter, the property-graph
 * line format `id key:value ...` / `src dst key:value ...`, and the
 * adjacency map built from edge pairs. The file is given as its sequence of
 * lines (or of parsed pairs); the reading loop itself is I/O.
 */
module NebulaParse {
  import opened Wrappers
  import opened Text
  import opened Batching
  import opened NebulaSchema

  // ---------------------------------------------------------------------------
  // split

  /** The pieces `split` returns: text before each occurrence of `delim`, then the rest. */
  function SplitSpec(s: string, delim: string): (r: seq<string>)
    requires |delim| > 0
    ensures |r| > 0
    decreases |s|
  {
    match Find(s, delim)
    case None => [s]
    case Some(p) => [s[..p]] + SplitSpec(s[p + |delim|..], delim)
  }

  /**
   * split(src, delimiter): repeatedly cut the text before the first occurrence
   * and erase it together with the delimiter; the remainder is the last piece.
   */
  method Split(src: string, delim: string) returns (result: seq<string>)
    requires |delim| > 0
    ensures result == SplitSpec(src, delim)
  {
    result := [];
    var tmp := src;
    while Find(tmp, delim).Some?
      invariant result + SplitSpec(tmp, delim) == SplitSpec(src, delim)
      decreases |tmp|
    {
      var pos := Find(tmp, delim).value;
      SplitStep(result, tmp, delim);
      result := result + [tmp[..pos]];
      tmp := tmp[pos + |delim|..];
    }
    SplitLast(result, tmp, delim);
    result := result + [tmp];
  }

  lemma SplitStep(result: seq<string>, tmp: string, delim: string)
    requires |delim| > 0 && Find(tmp, delim).Some?
    ensures Find(tmp, delim).value + |delim| <= |tmp|
    ensures var p := Find(tmp, delim).value;
      result + SplitSpec(tmp, delim) == (result + [tmp[..p]]) + SplitSpec(tmp[p + |delim|..], delim)
  {
    var p := Find(tmp, delim).value;
    assert OccursAt(tmp, delim, p);
    SplitUnfold(tmp, delim);
    AppendAssoc(result, [tmp[..p]], SplitSpec(tmp[p + |delim|..], delim));
  }

  lemma SplitUnfold(tmp: string, delim: string)
    requires |delim| > 0 && Find(tmp, delim).Some?
    requires Find(tmp, delim).value + |delim| <= |tmp|
    ensures SplitSpec(tmp, delim) == [tmp[..Find(tmp, delim).value]] + SplitSpec(tmp[Find(tmp, delim).value + |delim|..], delim)
  {
    match Find(tmp, delim)
    case Some(p) =>
  }

  lemma AppendAssoc<T>(a: seq<T>, b: seq<T>, c: seq<T>)
    ensures a + (b + c) == (a + b) + c
  {
  }

  lemma SplitLast(result: seq<string>, tmp: string, delim: string)
    requires |delim| > 0 && Find(tmp, delim).None?
    ensures result + SplitSpec(tmp, delim) == result + [tmp]
  {
  }

  /** With an empty delimiter `find` reports index 0 and erasing nothing leaves the text as it was: the loop never ends. */
  lemma EmptyDelimiterStalls(s: string)
    ensures Find(s, "") == Some(0)
    ensures s[0 + |""|..] == s
  {
    FindEmptyPattern(s);
  }

  lemma {:induction false} JoinCons(x: string, xs: seq<string>, sep: string)
    requires |xs| > 0
    ensures Join([x] + xs, sep) == x + sep + Join(xs, sep)
    decreases |xs|
  {
    var ys := [x] + xs;
    var init := xs[..|xs| - 1];
    var last := xs[|xs| - 1];
    assert ys[..|ys| - 1] == [x] + init;
    assert ys[|ys| - 1] == last;
    if |init| > 0 {
      JoinCons(x, init, sep);
      assert Join(ys, sep) == (x + sep + Join(init, sep)) + sep + last;
      assert Join(xs, sep) == Join(init, sep) + sep + last;
    } else {
      assert [x] + init == [x];
    }
  }

  lemma OccursInPrefix(s: string, pat: string, p: nat, j: nat)
    requires p <= |s| && OccursAt(s[..p], pat, j)
    ensures OccursAt(s, pat, j) && j + |pat| <= p
  {
    assert s[..p][j..j + |pat|] == s[j..j + |pat|];
  }

  /** Joining the pieces with the delimiter gives back the input. */
  lemma {:induction false} JoinSplit(s: string, delim: string)
    requires |delim| > 0
    ensures Join(SplitSpec(s, delim), delim) == s
    decreases |s|
  {
    match Find(s, delim)
    case None =>
      assert SplitSpec(s, delim) == [s];
    case Some(p) =>
      var rest := s[p + |delim|..];
      assert OccursAt(s, delim, p);
      SplitUnfold(s, delim);
      JoinSplit(rest, delim);
      JoinCons(s[..p], SplitSpec(rest, delim), delim);
      SliceAround(s, p, |delim|);
  }

  lemma SliceAround(s: string, p: nat, n: nat)
    requires p + n <= |s|
    ensures s == s[..p] + s[p..p + n] + s[p + n..]
  {
  }

  /** No piece contains the delimiter: `find` on any piece reports npos. */
  lemma {:induction false} SplitPiecesClean(s: string, delim: string)
    requires |delim| > 0
    ensures forall i, j :: 0 <= i < |SplitSpec(s, delim)| ==> !OccursAt(SplitSpec(s, delim)[i], delim, j)
    ensures forall i :: 0 <= i < |SplitSpec(s, delim)| ==> Find(SplitSpec(s, delim)[i], delim).None?
    decreases |s|
  {
    var r := SplitSpec(s, delim);
    match Find(s, delim)
    case None =>
      assert r == [s];
    case Some(p) =>
      var rest := s[p + |delim|..];
      assert OccursAt(s, delim, p);
      SplitUnfold(s, delim);
      SplitPiecesClean(rest, delim);
      var tail := SplitSpec(rest, delim);
      assert r == [s[..p]] + tail;
      forall i, j | 0 <= i < |r| ensures !OccursAt(r[i], delim, j) {
        if i == 0 {
          if OccursAt(s[..p], delim, j) {
            OccursInPrefix(s, delim, p, j);
          }
        } else {
          assert r[i] == tail[i - 1];
        }
      }
  }

  /** `s` does not contain the character `c`. */
  predicate Free(s: string, c: char)
  {
    forall i :: 0 <= i < |s| ==> s[i] != c
  }

  lemma FindFree(a: string, c: char)
    requires Free(a, c)
    ensures Find(a, [c]) == None
  {
    forall j: nat ensures !OccursAt(a, [c], j) {
      if j + 1 <= |a| {
        assert a[j..j + 1][0] == a[j];
      }
    }
  }

  lemma FindAfterFree(a: string, c: char, rest: string)
    requires Free(a, c)
    ensures Find(a + [c] + rest, [c]) == Some(|a|)
  {
    var s := a + [c] + rest;
    assert s[|a|..|a| + 1] == [c];
    assert OccursAt(s, [c], |a|);
    forall j: nat | j < |a| ensures !OccursAt(s, [c], j) {
      assert s[j..j + 1][0] == a[j];
    }
  }

  /** Splitting on a one-character delimiter undoes joining pieces that do not contain it. */
  lemma {:induction false} SplitOfJoin(xs: seq<string>, c: char)
    requires |xs| > 0 && forall i :: 0 <= i < |xs| ==> Free(xs[i], c)
    ensures SplitSpec(Join(xs, [c]), [c]) == xs
    decreases |xs|
  {
    if |xs| == 1 {
      FindFree(xs[0], c);
    } else {
      var a := xs[0];
      var rest := xs[1..];
      assert xs == [a] + rest;
      JoinCons(a, rest, [c]);
      var s := Join(xs, [c]);
      assert s == a + [c] + Join(rest, [c]);
      FindAfterFree(a, c, Join(rest, [c]));
      assert s[|a| + 1..] == Join(rest, [c]);
      SplitUnfold(s, [c]);
      assert s[..|a|] == a;
      SplitOfJoin(rest, c);
      assert SplitSpec(s, [c]) == [a] + rest;
    }
  }

  // ---------------------------------------------------------------------------
  // The property-graph line format

  /**
   * Why reading a file stops: std::stoull throws (no leading digit, or a value
   * of 2^64 or more), a `key:value` token has no ':' (kv[1] is out of bounds),
   * or an edge line has no second token (items[1] is out of bounds).
   */
  datatype ReadError = BadNumber | MissingValue | MissingDst

  /** A `key:value` token: the key is the text before the first ':', the value the text up to the next ':'. */
  function ParseProperty(token: string): Result<(string, string), ReadError>
  {
    var kv := SplitSpec(token, ":");
    if |kv| < 2 then Err(MissingValue) else Ok((kv[0], kv[1]))
  }

  /** All `key:value` tokens, in order, as the list of keys and the list of values. */
  function ParseProps(tokens: seq<string>): (r: Result<(seq<string>, seq<string>), ReadError>)
    ensures r.Ok? ==> |r.value.0| == |r.value.1| == |tokens|
  {
    if |tokens| == 0 then Ok(([], []))
    else
      match ParseProps(tokens[..|tokens| - 1])
      case Err(e) => Err(e)
      case Ok(kvs) =>
        match ParseProperty(tokens[|tokens| - 1])
        case Err(e) => Err(e)
        case Ok(kv) => Ok((kvs.0 + [kv.0], kvs.1 + [kv.1]))
  }

  /** A vertex line `id key:value ...`, split on single spaces. */
  function ParseVertexLine(line: string): Result<PropertyVertex, ReadError>
  {
    var items := SplitSpec(line, " ");
    match ParseU64(items[0])
    case None => Err(BadNumber)
    case Some(id) =>
      match ParseProps(items[1..])
      case Err(e) => Err(e)
      case Ok(kvs) => Ok(PropertyVertex(id, kvs.0, kvs.1))
  }

  /** An edge line `src dst key:value ...`, split on single spaces. */
  function ParseEdgeLine(line: string): Result<PropertyEdge, ReadError>
  {
    var items := SplitSpec(line, " ");
    match ParseU64(items[0])
    case None => Err(BadNumber)
    case Some(src) =>
      if |items| < 2 then Err(MissingDst)
      else
        match ParseU64(items[1])
        case None => Err(BadNumber)
        case Some(dst) =>
          match ParseProps(items[2..])
          case Err(e) => Err(e)
          case Ok(kvs) => Ok(PropertyEdge(src, dst, kvs.0, kvs.1))
  }

  /** Every non-empty line parsed in file order; the first failing line stops the read. */
  function ReadAll<T>(parse: string -> Result<T, ReadError>, lines: seq<string>): Result<seq<T>, ReadError>
  {
    if |lines| == 0 then Ok([])
    else
      match ReadAll(parse, lines[..|lines| - 1])
      case Err(e) => Err(e)
      case Ok(xs) =>
        var line := lines[|lines| - 1];
        if line == "" then Ok(xs)
        else
          match parse(line)
          case Err(e) => Err(e)
          case Ok(x) => Ok(xs + [x])
  }

  /** read_property_graph on the lines of the `.vertex` and the `.edge` file. */
  function ReadGraph(vertexLines: seq<string>, edgeLines: seq<string>): Result<PropertyGraph, ReadError>
  {
    match ReadAll(ParseVertexLine, vertexLines)
    case Err(e) => Err(e)
    case Ok(vs) =>
      match ReadAll(ParseEdgeLine, edgeLines)
      case Err(e) => Err(e)
      case Ok(es) => Ok(PropertyGraph(vs, es))
  }

  /** Once a line fails, reading more lines does not change the outcome. */
  lemma {:induction false} ReadAllErrSticks<T>(parse: string -> Result<T, ReadError>, lines: seq<string>, i: nat, k: nat)
    requires i <= k <= |lines| && ReadAll(parse, lines[..i]).Err?
    ensures ReadAll(parse, lines[..k]) == ReadAll(parse, lines[..i])
    decreases k - i
  {
    if i < k {
      ReadAllErrSticks(parse, lines, i, k - 1);
      assert lines[..k][..k - 1] == lines[..k - 1];
    }
  }

  /** One more line read: skipped when empty, otherwise parsed and appended, unless a line failed already. */
  lemma ReadAllStep<T>(parse: string -> Result<T, ReadError>, lines: seq<string>, i: nat)
    requires i < |lines|
    ensures ReadAll(parse, lines[..i + 1]) ==
      match ReadAll(parse, lines[..i])
      case Err(e) => Err(e)
      case Ok(xs) =>
        if lines[i] == "" then Ok(xs)
        else
          match parse(lines[i])
          case Err(e) => Err(e)
          case Ok(x) => Ok(xs + [x])
  {
    assert lines[..i + 1][..i] == lines[..i];
  }

  /** Lines that each parse to the matching item read back as all the items. */
  lemma {:induction false} ReadAllOf<T>(parse: string -> Result<T, ReadError>, lines: seq<string>, xs: seq<T>)
    requires |lines| == |xs|
    requires forall i :: 0 <= i < |lines| ==> lines[i] != "" && parse(lines[i]) == Ok(xs[i])
    ensures ReadAll(parse, lines) == Ok(xs)
  {
    if |lines| > 0 {
      var n := |lines| - 1;
      ReadAllOf(parse, lines[..n], xs[..n]);
      assert xs[..n] + [xs[n]] == xs;
    }
  }

  // ---------------------------------------------------------------------------
  // The reading loops

  /** The `for i in [from, items.size())` loop: split each token on ':'. */
  method ReadProperties(tokens: seq<string>) returns (r: Result<(seq<string>, seq<string>), ReadError>)
    ensures r == ParseProps(tokens)
  {
    var properties: seq<string> := [];
    var values: seq<string> := [];
    var i := 0;
    while i < |tokens|
      invariant 0 <= i <= |tokens|
      invariant ParseProps(tokens[..i]) == Ok((properties, values))
    {
      var kv := Split(tokens[i], ":");
      assert tokens[..i + 1][..i] == tokens[..i];
      if |kv| < 2 {
        PropsErrSticks(tokens, i + 1);
        return Err(MissingValue);
      }
      properties := properties + [kv[0]];
      values := values + [kv[1]];
      i := i + 1;
    }
    assert tokens[..i] == tokens;
    return Ok((properties, values));
  }

  lemma {:induction false} PropsErrSticks(tokens: seq<string>, i: nat)
    requires i <= |tokens| && ParseProps(tokens[..i]).Err?
    ensures ParseProps(tokens) == ParseProps(tokens[..i])
    decreases |tokens| - i
  {
    if i < |tokens| {
      var init := tokens[..|tokens| - 1];
      assert init[..i] == tokens[..i];
      PropsErrSticks(init, i);
      assert tokens[..|tokens|] == tokens;
    } else {
      assert tokens[..i] == tokens;
    }
  }

  method ReadVertexLine(line: string) returns (r: Result<PropertyVertex, ReadError>)
    ensures r == ParseVertexLine(line)
  {
    var items := Split(line, " ");
    var id := ParseU64(items[0]);
    if id.None? {
      return Err(BadNumber);
    }
    var kvs := ReadProperties(items[1..]);
    if kvs.Err? {
      return Err(kvs.error);
    }
    return Ok(PropertyVertex(id.value, kvs.value.0, kvs.value.1));
  }

  method ReadEdgeLine(line: string) returns (r: Result<PropertyEdge, ReadError>)
    ensures r == ParseEdgeLine(line)
  {
    var items := Split(line, " ");
    var src := ParseU64(items[0]);
    if src.None? {
      return Err(BadNumber);
    }
    if |items| < 2 {
      return Err(MissingDst);
    }
    var dst := ParseU64(items[1]);
    if dst.None? {
      return Err(BadNumber);
    }
    var kvs := ReadProperties(items[2..]);
    if kvs.Err? {
      return Err(kvs.error);
    }
    return Ok(PropertyEdge(src.value, dst.value, kvs.value.0, kvs.value.1));
  }

  /** read_property_graph: vertex lines, then edge lines; empty lines are skipped. */
  method ReadPropertyGraph(vertexLines: seq<string>, edgeLines: seq<string>) returns (r: Result<PropertyGraph, ReadError>)
    ensures r == ReadGraph(vertexLines, edgeLines)
  {
    var vertices := ReadVertexFile(vertexLines);
    if vertices.Err? {
      return Err(vertices.error);
    }
    var edges := ReadEdgeFile(edgeLines);
    if edges.Err? {
      return Err(edges.error);
    }
    return Ok(PropertyGraph(vertices.value, edges.value));
  }

  /** The loop over the `.vertex` file. */
  method ReadVertexFile(lines: seq<string>) returns (r: Result<seq<PropertyVertex>, ReadError>)
    ensures r == ReadAll(ParseVertexLine, lines)
  {
    var vertices: seq<PropertyVertex> := [];
    var i := 0;
    while i < |lines|
      invariant 0 <= i <= |lines|
      invariant ReadAll(ParseVertexLine, lines[..i]) == Ok(vertices)
    {
      var line := lines[i];
      ReadAllStep(ParseVertexLine, lines, i);
      if line != "" {
        var v := ReadVertexLine(line);
        if v.Err? {
          ReadAllErrSticks(ParseVertexLine, lines, i + 1, |lines|);
          assert lines[..|lines|] == lines;
          return Err(v.error);
        }
        vertices := vertices + [v.value];
      }
      i := i + 1;
    }
    assert lines[..i] == lines;
    return Ok(vertices);
  }

  /** The loop over the `.edge` file. */
  method ReadEdgeFile(lines: seq<string>) returns (r: Result<seq<PropertyEdge>, ReadError>)
    ensures r == ReadAll(ParseEdgeLine, lines)
  {
    var edges: seq<PropertyEdge> := [];
    var j := 0;
    while j < |lines|
      invariant 0 <= j <= |lines|
      invariant ReadAll(ParseEdgeLine, lines[..j]) == Ok(edges)
    {
      var line := lines[j];
      ReadAllStep(ParseEdgeLine, lines, j);
      if line != "" {
        var e := ReadEdgeLine(line);
        if e.Err? {
          ReadAllErrSticks(ParseEdgeLine, lines, j + 1, |lines|);
          assert lines[..|lines|] == lines;
          return Err(e.error);
        }
        edges := edges + [e.value];
      }
      j := j + 1;
    }
    assert lines[..j] == lines;
    return Ok(edges);
  }

  // ---------------------------------------------------------------------------
  // The line format read back

  /** Neither a blank nor a ':' (a key or value the format can carry). */
  predicate Plain(s: string)
  {
    Free(s, ' ') && Free(s, ':')
  }

  /** `key:value` tokens, as a writer of the format lays them out. */
  function FormatProps(props: seq<string>, vals: seq<string>): (r: seq<string>)
    requires |props| == |vals|
    ensures |r| == |props|
    ensures forall i :: 0 <= i < |r| ==> r[i] == props[i] + ":" + vals[i]
  {
    if |props| == 0 then []
    else FormatProps(props[..|props| - 1], vals[..|vals| - 1]) + [props[|props| - 1] + ":" + vals[|vals| - 1]]
  }

  predicate WritableProps(props: seq<string>, vals: seq<string>)
  {
    |props| == |vals| && forall i :: 0 <= i < |props| ==> Plain(props[i]) && Plain(vals[i])
  }

  predicate WritableVertex(v: PropertyVertex)
  {
    v.id < U64_LIMIT && WritableProps(v.properties, v.values)
  }

  predicate WritableEdge(e: PropertyEdge)
  {
    e.src < U64_LIMIT && e.dst < U64_LIMIT && WritableProps(e.properties, e.values)
  }

  function VertexLine(v: PropertyVertex): string
    requires WritableVertex(v)
  {
    Join([NatToDec(v.id)] + FormatProps(v.properties, v.values), " ")
  }

  function EdgeLine(e: PropertyEdge): string
    requires WritableEdge(e)
  {
    Join([NatToDec(e.src), NatToDec(e.dst)] + FormatProps(e.properties, e.values), " ")
  }

  lemma DecimalIsPlain(n: nat)
    ensures Plain(NatToDec(n))
  {
  }

  /** A token with one ':' yields its two sides. */
  lemma ParsePropertyOfToken(k: string, v: string)
    requires Free(k, ':') && Free(v, ':')
    ensures ParseProperty(k + ":" + v) == Ok((k, v))
  {
    JoinCons(k, [v], ":");
    SplitOfJoin([k, v], ':');
  }

  /** Text after a second ':' is dropped. */
  lemma ParsePropertyDropsRest(k: string, v: string, rest: string)
    requires Free(k, ':') && Free(v, ':')
    ensures ParseProperty(k + ":" + v + ":" + rest) == Ok((k, v))
  {
    var t := k + ":" + v + ":" + rest;
    FindAfterFree(k, ':', v + ":" + rest);
    assert t == k + [':'] + (v + ":" + rest);
    SplitUnfold(t, ":");
    assert t[..|k|] == k && t[|k| + 1..] == v + ":" + rest;
    FindAfterFree(v, ':', rest);
    assert v + ":" + rest == v + [':'] + rest;
    SplitUnfold(v + ":" + rest, ":");
    assert (v + ":" + rest)[..|v|] == v;
  }

  /** A token without ':' is the error case (kv has one element). */
  lemma ParsePropertyNoColon(t: string)
    requires Free(t, ':')
    ensures ParseProperty(t) == Err(MissingValue)
  {
    FindFree(t, ':');
  }

  lemma {:induction false} ParsePropsOfFormat(props: seq<string>, vals: seq<string>)
    requires WritableProps(props, vals)
    ensures ParseProps(FormatProps(props, vals)) == Ok((props, vals))
    decreases |props|
  {
    if |props| > 0 {
      var n := |props| - 1;
      var toks := FormatProps(props[..n], vals[..n]);
      assert FormatProps(props, vals) == toks + [props[n] + ":" + vals[n]];
      ParsePropsOfFormat(props[..n], vals[..n]);
      ParsePropertyOfToken(props[n], vals[n]);
      ParsePropsSnoc(toks, props[n] + ":" + vals[n], props[..n], vals[..n], props[n], vals[n]);
      assert props[..n] + [props[n]] == props;
      assert vals[..n] + [vals[n]] == vals;
    }
  }

  lemma ParsePropsSnoc(toks: seq<string>, t: string, ks: seq<string>, vs: seq<string>, k: string, v: string)
    requires ParseProps(toks) == Ok((ks, vs)) && ParseProperty(t) == Ok((k, v))
    ensures ParseProps(toks + [t]) == Ok((ks + [k], vs + [v]))
  {
    var all := toks + [t];
    assert all[..|all| - 1] == toks;
  }

  lemma TokensArePlain(head: seq<string>, props: seq<string>, vals: seq<string>)
    requires WritableProps(props, vals) && forall i :: 0 <= i < |head| ==> Plain(head[i])
    ensures forall i :: 0 <= i < |head + FormatProps(props, vals)| ==> Free((head + FormatProps(props, vals))[i], ' ')
  {
    var toks := head + FormatProps(props, vals);
    forall i | 0 <= i < |toks| ensures Free(toks[i], ' ') {
      if i >= |head| {
        var k := i - |head|;
        assert toks[i] == props[k] + ":" + vals[k];
        assert Plain(props[k]) && Plain(vals[k]);
      }
    }
  }

  /** Reading a vertex line back gives the vertex it was written from. */
  lemma VertexLineRoundTrip(v: PropertyVertex)
    requires WritableVertex(v)
    ensures VertexLine(v) != ""
    ensures ParseVertexLine(VertexLine(v)) == Ok(v)
  {
    var id := NatToDec(v.id);
    var fp := FormatProps(v.properties, v.values);
    DecimalIsPlain(v.id);
    TokensArePlain([id], v.properties, v.values);
    SplitOfJoin([id] + fp, ' ');
    if |fp| > 0 {
      JoinCons(id, fp, " ");
    }
    assert ([id] + fp)[1..] == fp;
    ParseU64OfNatToDec(v.id);
    ParsePropsOfFormat(v.properties, v.values);
  }

  /** Reading an edge line back gives the edge it was written from. */
  lemma EdgeLineRoundTrip(e: PropertyEdge)
    requires WritableEdge(e)
    ensures EdgeLine(e) != ""
    ensures ParseEdgeLine(EdgeLine(e)) == Ok(e)
  {
    var src := NatToDec(e.src);
    var dst := NatToDec(e.dst);
    var fp := FormatProps(e.properties, e.values);
    DecimalIsPlain(e.src);
    DecimalIsPlain(e.dst);
    TokensArePlain([src, dst], e.properties, e.values);
    SplitOfJoin([src, dst] + fp, ' ');
    JoinCons(src, [dst] + fp, " ");
    assert [src] + ([dst] + fp) == [src, dst] + fp;
    assert ([src, dst] + fp)[2..] == fp;
    ParseU64OfNatToDec(e.src);
    ParseU64OfNatToDec(e.dst);
    ParsePropsOfFormat(e.properties, e.values);
  }

  function VertexLines(vs: seq<PropertyVertex>): (r: seq<string>)
    requires forall i :: 0 <= i < |vs| ==> WritableVertex(vs[i])
    ensures |r| == |vs|
    ensures forall i :: 0 <= i < |vs| ==> r[i] == VertexLine(vs[i])
  {
    if |vs| == 0 then [] else VertexLines(vs[..|vs| - 1]) + [VertexLine(vs[|vs| - 1])]
  }

  function EdgeLines(es: seq<PropertyEdge>): (r: seq<string>)
    requires forall i :: 0 <= i < |es| ==> WritableEdge(es[i])
    ensures |r| == |es|
    ensures forall i :: 0 <= i < |es| ==> r[i] == EdgeLine(es[i])
  {
    if |es| == 0 then [] else EdgeLines(es[..|es| - 1]) + [EdgeLine(es[|es| - 1])]
  }

  lemma ReadVertexLines(vs: seq<PropertyVertex>)
    requires forall i :: 0 <= i < |vs| ==> WritableVertex(vs[i])
    ensures ReadAll(ParseVertexLine, VertexLines(vs)) == Ok(vs)
  {
    var lines := VertexLines(vs);
    forall i | 0 <= i < |vs| ensures lines[i] != "" && ParseVertexLine(lines[i]) == Ok(vs[i]) {
      VertexLineRoundTrip(vs[i]);
    }
    ReadAllOf(ParseVertexLine, lines, vs);
  }

  lemma ReadEdgeLines(es: seq<PropertyEdge>)
    requires forall i :: 0 <= i < |es| ==> WritableEdge(es[i])
    ensures ReadAll(ParseEdgeLine, EdgeLines(es)) == Ok(es)
  {
    var lines := EdgeLines(es);
    forall i | 0 <= i < |es| ensures lines[i] != "" && ParseEdgeLine(lines[i]) == Ok(es[i]) {
      EdgeLineRoundTrip(es[i]);
    }
    ReadAllOf(ParseEdgeLine, lines, es);
  }

  /** Reading the two files of a graph gives the graph back: every vertex and edge, in file order. */
  lemma ReadGraphRoundTrip(g: PropertyGraph)
    requires forall i :: 0 <= i < |g.vertices| ==> WritableVertex(g.vertices[i])
    requires forall i :: 0 <= i < |g.edges| ==> WritableEdge(g.edges[i])
    ensures ReadGraph(VertexLines(g.vertices), EdgeLines(g.edges)) == Ok(g)
  {
    ReadVertexLines(g.vertices);
    ReadEdgeLines(g.edges);
  }

  // ---------------------------------------------------------------------------
  // read_data_from_file: the adjacency map

  /** An edge list file as the pairs it holds, in file order. */
  type Pair = (int, int)

  /** `data[k]`, with operator[]'s default: a missing key reads as an empty list. */
  function Neighbours(data: map<int, seq<int>>, k: int): seq<int>
  {
    if k in data then data[k] else []
  }

  /** One pair read: data[src].push_back(dst), and data[dst].push_back(src) when undirected. */
  function AddPair(data: map<int, seq<int>>, p: Pair, undirected: bool): map<int, seq<int>>
  {
    var d := data[p.0 := Neighbours(data, p.0) + [p.1]];
    if undirected then d[p.1 := Neighbours(d, p.1) + [p.0]] else d
  }

  function AdjacencyOf(pairs: seq<Pair>, undirected: bool): map<int, seq<int>>
  {
    if |pairs| == 0 then map[] else AddPair(AdjacencyOf(pairs[..|pairs| - 1], undirected), pairs[|pairs| - 1], undirected)
  }

  /** The loop body of read_data_from_file, over the pairs it reads. */
  method ReadData(pairs: seq<Pair>, undirected: bool) returns (data: map<int, seq<int>>)
    ensures data == AdjacencyOf(pairs, undirected)
  {
    data := map[];
    var i := 0;
    while i < |pairs|
      invariant 0 <= i <= |pairs|
      invariant data == AdjacencyOf(pairs[..i], undirected)
    {
      var (src, dst) := pairs[i];
      assert pairs[..i + 1][..i] == pairs[..i];
      data := data[src := (if src in data then data[src] else []) + [dst]];
      if undirected {
        data := data[dst := (if dst in data then data[dst] else []) + [src]];
      }
      i := i + 1;
    }
    assert pairs[..i] == pairs;
  }

  /** Reference definition: the entries `k` gets, one per pair that touches it, in file order. */
  function Incident(pairs: seq<Pair>, k: int, undirected: bool): seq<int>
  {
    if |pairs| == 0 then []
    else
      var p := pairs[|pairs| - 1];
      Incident(pairs[..|pairs| - 1], k, undirected)
        + (if p.0 == k then [p.1] else [])
        + (if undirected && p.1 == k then [p.0] else [])
  }

  /** `k` occurs in a pair as a source, or as a destination when undirected. */
  predicate Touches(pairs: seq<Pair>, k: int, undirected: bool)
  {
    exists i :: 0 <= i < |pairs| && (pairs[i].0 == k || (undirected && pairs[i].1 == k))
  }

  /**
   * The map holds, for every key, exactly the reference entries in file order,
   * and its keys are exactly the ids that some pair touches. In directed mode
   * (the mode load_data uses) only sources become keys.
   */
  lemma {:induction false} AdjacencyIsIncident(pairs: seq<Pair>, undirected: bool)
    ensures forall k :: Neighbours(AdjacencyOf(pairs, undirected), k) == Incident(pairs, k, undirected)
    ensures forall k :: k in AdjacencyOf(pairs, undirected) <==> Touches(pairs, k, undirected)
  {
    if |pairs| > 0 {
      var init := pairs[..|pairs| - 1];
      var p := pairs[|pairs| - 1];
      AdjacencyIsIncident(init, undirected);
      forall k ensures k in AdjacencyOf(pairs, undirected) <==> Touches(pairs, k, undirected) {
        if Touches(init, k, undirected) {
          var i :| 0 <= i < |init| && (init[i].0 == k || (undirected && init[i].1 == k));
          assert pairs[i] == init[i];
        }
        if Touches(pairs, k, undirected) && !(p.0 == k || (undirected && p.1 == k)) {
          var i :| 0 <= i < |pairs| && (pairs[i].0 == k || (undirected && pairs[i].1 == k));
          assert i < |init| && init[i] == pairs[i];
        }
        assert p == pairs[|pairs| - 1];
      }
    }
  }

  /** Directed reading keeps every pair: `b` appears in `data[a]` as often as (a, b) in the file. */
  lemma {:induction false} DirectedCounts(pairs: seq<Pair>, a: int, b: int)
    ensures multiset(Incident(pairs, a, false))[b] == multiset(pairs)[(a, b)]
  {
    if |pairs| > 0 {
      var init := pairs[..|pairs| - 1];
      var p := pairs[|pairs| - 1];
      assert pairs == init + [p];
      DirectedCounts(init, a, b);
      DirectedSnocCount(init, p, a, b);
      CountSnoc(init, p, (a, b));
    }
  }

  lemma DirectedSnocCount(init: seq<Pair>, p: Pair, a: int, b: int)
    ensures multiset(Incident(init + [p], a, false))[b] ==
      multiset(Incident(init, a, false))[b] + (if p == (a, b) then 1 else 0)
  {
    var pairs := init + [p];
    assert pairs[..|pairs| - 1] == init;
    var fwd: seq<int> := if p.0 == a then [p.1] else [];
    assert Incident(pairs, a, false) == Incident(init, a, false) + fwd + [];
    CountConcat3(Incident(init, a, false), fwd, [], b);
  }

  /** Undirected reading is symmetric: `v` appears in `data[u]` as often as `u` in `data[v]`. */
  lemma {:induction false} UndirectedSymmetric(pairs: seq<Pair>, u: int, v: int)
    ensures multiset(Incident(pairs, u, true))[v] == multiset(Incident(pairs, v, true))[u]
  {
    if |pairs| > 0 {
      UndirectedSymmetric(pairs[..|pairs| - 1], u, v);
    }
  }

  /** Undirected reading stores each pair both ways: `b` appears in `data[a]` once per (a, b) and once per (b, a). */
  lemma {:induction false} UndirectedCounts(pairs: seq<Pair>, a: int, b: int)
    ensures multiset(Incident(pairs, a, true))[b] == multiset(pairs)[(a, b)] + multiset(pairs)[(b, a)]
  {
    if |pairs| > 0 {
      var init := pairs[..|pairs| - 1];
      var p := pairs[|pairs| - 1];
      assert pairs == init + [p];
      UndirectedCounts(init, a, b);
      IncidentSnocCount(init, p, a, b);
      CountSnoc(init, p, (a, b));
      CountSnoc(init, p, (b, a));
    }
  }

  lemma IncidentSnocCount(init: seq<Pair>, p: Pair, a: int, b: int)
    ensures multiset(Incident(init + [p], a, true))[b] ==
      multiset(Incident(init, a, true))[b] + (if p == (a, b) then 1 else 0) + (if p == (b, a) then 1 else 0)
  {
    var pairs := init + [p];
    assert pairs[..|pairs| - 1] == init;
    var fwd: seq<int> := if p.0 == a then [p.1] else [];
    var bwd: seq<int> := if p.1 == a then [p.0] else [];
    assert Incident(pairs, a, true) == Incident(init, a, true) + fwd + bwd;
    CountConcat3(Incident(init, a, true), fwd, bwd, b);
  }

  lemma CountConcat3<T>(x: seq<T>, y: seq<T>, z: seq<T>, e: T)
    ensures multiset(x + y + z)[e] == multiset(x)[e] + multiset(y)[e] + multiset(z)[e]
  {
    assert multiset(x + y + z) == multiset(x) + multiset(y) + multiset(z);
  }

  lemma CountConcat<T>(x: seq<T>, y: seq<T>, e: T)
    ensures multiset(x + y)[e] == multiset(x)[e] + multiset(y)[e]
  {
    assert multiset(x + y) == multiset(x) + multiset(y);
  }

  lemma CountSnoc<T>(xs: seq<T>, x: T, e: T)
    ensures multiset(xs + [x])[e] == multiset(xs)[e] + (if x == e then 1 else 0)
  {
    assert multiset(xs + [x]) == multiset(xs) + multiset{x};
  }
}
