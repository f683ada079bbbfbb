/**
 * gridgraph's converter script. It renumbers the vertices of a text graph
 * 1, 2, 3, ... in the order of the vertex file's lines (a key seen twice
 * keeps the number of its last line), prints one past the last number, and
 * writes every edge line of the edge file as the two new numbers, each a
 * 4-byte little-endian signed integer (`struct.pack('<l', ...)`).
 *
 * The files become values: `keys` holds the first token of each vertex
 * line and `edges` the two numbers of each edge line, already parsed.
 * An endpoint missing from the renumbering raises KeyError before anything
 * is written for its edge; a number outside the 32-bit range makes
 * struct.pack raise. Either ends the run, with the bytes written so far
 * left in the output file.
 */
module GridConvert {
  import opened Wrappers

  newtype byte = b: int | 0 <= b < 256

  const U32: nat := 0x1_0000_0000

  predicate InInt32(x: int)
  {
    -0x8000_0000 <= x < 0x8000_0000
  }

  // ---------------------------------------------------------------------------
  // struct.pack('<l', x) and its inverse

  /** The four bytes of x in two's complement, least significant first. */
  function Pack(x: int): (r: seq<byte>)
    requires InInt32(x)
    ensures |r| == 4
  {
    var u := x % U32;
    var q1 := u / 256;
    var q2 := q1 / 256;
    var q3 := q2 / 256;
    [(u % 256) as byte, (q1 % 256) as byte, (q2 % 256) as byte, q3 as byte]
  }

  /** struct.unpack('<l', bs): the signed integer whose little-endian two's complement bytes are `bs`. */
  function Unpack(bs: seq<byte>): (x: int)
    requires |bs| == 4
    ensures InInt32(x)
  {
    var u := Unsigned(bs);
    if u < 0x8000_0000 then u else u - U32
  }

  /** The four bytes read as an unsigned little-endian number. */
  function Unsigned(bs: seq<byte>): (u: int)
    requires |bs| == 4
    ensures 0 <= u < U32
  {
    bs[0] as int + 256 * (bs[1] as int + 256 * (bs[2] as int + 256 * (bs[3] as int)))
  }

  /** Euclidean division by 256 of a number written as 256 * q + r. */
  lemma DivMod256(n: int, q: int, r: int)
    requires 0 <= r < 256 && n == 256 * q + r
    ensures n / 256 == q && n % 256 == r
  {
  }

  /** Decoding an encoded integer gives it back. */
  lemma UnpackPack(x: int)
    requires InInt32(x)
    ensures Unpack(Pack(x)) == x
  {
    var u := x % U32;
    assert u == (if x < 0 then x + U32 else x);
    var q1 := u / 256;
    var q2 := q1 / 256;
    var q3 := q2 / 256;
    assert u == 256 * q1 + u % 256;
    assert q1 == 256 * q2 + q1 % 256;
    assert q2 == 256 * q3 + q2 % 256;
    var bs := Pack(x);
    assert Unsigned(bs) == u;
  }

  /** Every 4-byte string is the encoding of its decoding: the format wastes no bit pattern. */
  lemma PackUnpack(bs: seq<byte>)
    requires |bs| == 4
    ensures Pack(Unpack(bs)) == bs
  {
    var q2 := bs[2] as int + 256 * (bs[3] as int);
    var q1 := bs[1] as int + 256 * q2;
    var u := bs[0] as int + 256 * q1;
    assert u == Unsigned(bs);
    assert Unpack(bs) % U32 == u;
    DivMod256(u, q1, bs[0] as int);
    DivMod256(q1, q2, bs[1] as int);
    DivMod256(q2, bs[3] as int, bs[2] as int);
    var r := Pack(Unpack(bs));
    assert r[0] == bs[0] && r[1] == bs[1] && r[2] == bs[2] && r[3] == bs[3];
  }

  // ---------------------------------------------------------------------------
  // The renumbering: vs[key] = id, id += 1 per vertex line

  /** The dictionary after the lines `keys`: the last line holding a key sets its number. */
  function IdMap(keys: seq<int>): map<int, nat>
  {
    if |keys| == 0 then map[]
    else IdMap(keys[..|keys| - 1])[keys[|keys| - 1] := |keys|]
  }

  /**
   * The renumbering holds exactly the keys of the vertex lines; each gets the
   * 1-based number of the LAST line that holds it.
   */
  lemma {:induction false} IdMapNumbersLastLine(keys: seq<int>)
    ensures forall k :: k in IdMap(keys) <==> k in keys
    ensures forall k :: k in IdMap(keys) ==>
      1 <= IdMap(keys)[k] <= |keys| && keys[IdMap(keys)[k] - 1] == k &&
      forall j :: IdMap(keys)[k] <= j < |keys| ==> keys[j] != k
  {
    if |keys| > 0 {
      var init := keys[..|keys| - 1];
      IdMapNumbersLastLine(init);
      assert forall j :: 0 <= j < |init| ==> init[j] == keys[j];
      assert keys == init + [keys[|keys| - 1]];
    }
  }

  /** A key of some vertex line is numbered between 1 and the number of lines. */
  lemma IdMapNumbers(keys: seq<int>, k: int)
    requires k in keys
    ensures k in IdMap(keys) && 1 <= IdMap(keys)[k] <= |keys|
  {
    IdMapNumbersLastLine(keys);
  }

  /** Different keys get different numbers. */
  lemma IdMapInjective(keys: seq<int>, a: int, b: int)
    requires a in IdMap(keys) && b in IdMap(keys) && a != b
    ensures IdMap(keys)[a] != IdMap(keys)[b]
  {
    IdMapNumbersLastLine(keys);
  }

  /** The vertex loop: the dictionary fill, and the counter that ends one past the last number. */
  method Renumber(keys: seq<int>) returns (vs: map<int, nat>, id: nat)
    ensures vs == IdMap(keys)
    ensures id == |keys| + 1
  {
    vs := map[];
    id := 1;
    var i := 0;
    while i < |keys|
      invariant 0 <= i <= |keys| && id == i + 1
      invariant vs == IdMap(keys[..i])
    {
      assert keys[..i + 1][..i] == keys[..i];
      vs := vs[keys[i] := id];
      id := id + 1;
      i := i + 1;
    }
    assert keys[..i] == keys;
  }

  // ---------------------------------------------------------------------------
  // The edge loop

  /** Why a run stopped: a KeyError on an endpoint, or a number struct.pack refuses. */
  datatype Failure = MissingKey(edge: nat, key: int) | OutOfRange(edge: nat, value: int)

  /** The output file's bytes and how the run ended. */
  datatype Written = Written(bytes: seq<byte>, failure: Option<Failure>)

  /**
   * One edge line, the j-th: look both endpoints up, then write the two
   * numbers. A failing lookup writes nothing; a failing second pack leaves the
   * first number written.
   */
  function EdgeStep(vs: map<int, nat>, bytes: seq<byte>, j: nat, e: (int, int)): Written
  {
    if e.0 !in vs then Written(bytes, Some(MissingKey(j, e.0)))
    else if e.1 !in vs then Written(bytes, Some(MissingKey(j, e.1)))
    else if !InInt32(vs[e.0]) then Written(bytes, Some(OutOfRange(j, vs[e.0])))
    else if !InInt32(vs[e.1]) then Written(bytes + Pack(vs[e.0]), Some(OutOfRange(j, vs[e.1])))
    else Written(bytes + Pack(vs[e.0]) + Pack(vs[e.1]), None)
  }

  /** The run over the edge lines: each line in turn until one fails. */
  function Encode(vs: map<int, nat>, edges: seq<(int, int)>): Written
  {
    if |edges| == 0 then Written([], None)
    else
      var w := Encode(vs, edges[..|edges| - 1]);
      if w.failure.Some? then w else EdgeStep(vs, w.bytes, |edges| - 1, edges[|edges| - 1])
  }

  /** Both endpoints are numbered, with numbers struct.pack accepts. */
  predicate Encodable(vs: map<int, nat>, e: (int, int))
  {
    e.0 in vs && e.1 in vs && InInt32(vs[e.0]) && InInt32(vs[e.1])
  }

  /** `bytes` holds, for every edge in order, the numbers of its two endpoints, 8 bytes per edge. */
  predicate Decodes(bytes: seq<byte>, vs: map<int, nat>, edges: seq<(int, int)>)
  {
    |bytes| == 8 * |edges| &&
    forall j :: 0 <= j < |edges| ==>
      Encodable(vs, edges[j]) &&
      Unpack(bytes[8 * j..8 * j + 4]) == vs[edges[j].0] &&
      Unpack(bytes[8 * j + 4..8 * j + 8]) == vs[edges[j].1]
  }

  lemma DecodesSnoc(bytes: seq<byte>, vs: map<int, nat>, edges: seq<(int, int)>, e: (int, int))
    requires Decodes(bytes, vs, edges) && Encodable(vs, e)
    ensures Decodes(bytes + Pack(vs[e.0]) + Pack(vs[e.1]), vs, edges + [e])
  {
    var b := bytes + Pack(vs[e.0]) + Pack(vs[e.1]);
    var n := |edges|;
    forall j | 0 <= j < n
      ensures b[8 * j..8 * j + 4] == bytes[8 * j..8 * j + 4] && b[8 * j + 4..8 * j + 8] == bytes[8 * j + 4..8 * j + 8]
    {
    }
    assert b[8 * n..8 * n + 4] == Pack(vs[e.0]);
    assert b[8 * n + 4..8 * n + 8] == Pack(vs[e.1]);
    UnpackPack(vs[e.0]);
    UnpackPack(vs[e.1]);
  }

  /** A run completes exactly when every line's endpoints are encodable. */
  lemma {:induction false} EncodeCompletes(vs: map<int, nat>, edges: seq<(int, int)>)
    ensures Encode(vs, edges).failure.None? <==> forall j :: 0 <= j < |edges| ==> Encodable(vs, edges[j])
  {
    if |edges| > 0 {
      var n := |edges| - 1;
      var init := edges[..n];
      EncodeCompletes(vs, init);
      assert forall j :: 0 <= j < n ==> init[j] == edges[j];
    }
  }

  /** What a run that completes writes: the numbers of every edge's two endpoints, in order, 8 bytes per edge. */
  lemma {:induction false} EncodeWrites(vs: map<int, nat>, edges: seq<(int, int)>)
    ensures Encode(vs, edges).failure.None? ==> Decodes(Encode(vs, edges).bytes, vs, edges)
  {
    if |edges| > 0 {
      var n := |edges| - 1;
      var init := edges[..n];
      var w := Encode(vs, init);
      if w.failure.None? && Encodable(vs, edges[n]) {
        EncodeWrites(vs, init);
        DecodesSnoc(w.bytes, vs, init, edges[n]);
        assert init + [edges[n]] == edges;
      }
    }
  }

  /**
   * A run that fails at line j: line j is the first whose endpoints are not
   * both encodable, the lines before it are written in full and at most 4
   * bytes of line j follow.
   */
  lemma {:induction false} EncodeStopsAt(vs: map<int, nat>, edges: seq<(int, int)>)
    requires Encode(vs, edges).failure.Some?
    ensures var j := Encode(vs, edges).failure.value.edge;
      var bytes := Encode(vs, edges).bytes;
      j < |edges| && !Encodable(vs, edges[j]) &&
      8 * j <= |bytes| <= 8 * j + 4 && Decodes(bytes[..8 * j], vs, edges[..j])
  {
    var n := |edges| - 1;
    var init := edges[..n];
    var w := Encode(vs, init);
    if w.failure.Some? {
      EncodeStopsAt(vs, init);
      var j := w.failure.value.edge;
      assert init[..j] == edges[..j];
    } else {
      EncodeWrites(vs, init);
      StepFails(vs, w.bytes, n, edges[n]);
      var bytes := Encode(vs, edges).bytes;
      assert bytes[..8 * n] == w.bytes;
      assert edges[..n] == init;
    }
  }

  /** A failing line writes at most its first number after what was there. */
  lemma StepFails(vs: map<int, nat>, bytes: seq<byte>, j: nat, e: (int, int))
    requires EdgeStep(vs, bytes, j, e).failure.Some?
    ensures var r := EdgeStep(vs, bytes, j, e);
      r.failure.value.edge == j && !Encodable(vs, e) &&
      |bytes| <= |r.bytes| <= |bytes| + 4 && r.bytes[..|bytes|] == bytes
  {
  }

  /** A KeyError names an endpoint of the failing line that is not among the vertex keys. */
  lemma MissingKeyIsEndpoint(keys: seq<int>, edges: seq<(int, int)>)
    requires Encode(IdMap(keys), edges).failure.Some? && Encode(IdMap(keys), edges).failure.value.MissingKey?
    ensures var f := Encode(IdMap(keys), edges).failure.value;
      f.edge < |edges| && f.key !in keys && (f.key == edges[f.edge].0 || f.key == edges[f.edge].1)
  {
    IdMapNumbersLastLine(keys);
    MissingKeyFrom(IdMap(keys), edges);
  }

  lemma {:induction false} MissingKeyFrom(vs: map<int, nat>, edges: seq<(int, int)>)
    requires Encode(vs, edges).failure.Some? && Encode(vs, edges).failure.value.MissingKey?
    ensures var f := Encode(vs, edges).failure.value;
      f.edge < |edges| && f.key !in vs && (f.key == edges[f.edge].0 || f.key == edges[f.edge].1)
  {
    var n := |edges| - 1;
    var init := edges[..n];
    if Encode(vs, init).failure.Some? {
      MissingKeyFrom(vs, init);
    }
  }

  /**
   * With fewer than 2^31 vertex lines and every endpoint among the keys, the
   * run writes every edge, and reading the file back gives each edge's two
   * new numbers.
   */
  lemma ConvertRoundTrip(keys: seq<int>, edges: seq<(int, int)>)
    requires |keys| < 0x8000_0000
    requires forall j :: 0 <= j < |edges| ==> edges[j].0 in keys && edges[j].1 in keys
    ensures Encode(IdMap(keys), edges).failure.None?
    ensures Decodes(Encode(IdMap(keys), edges).bytes, IdMap(keys), edges)
  {
    var vs := IdMap(keys);
    forall j | 0 <= j < |edges| ensures Encodable(vs, edges[j]) {
      IdMapNumbers(keys, edges[j].0);
      IdMapNumbers(keys, edges[j].1);
    }
    EncodeCompletes(vs, edges);
    EncodeWrites(vs, edges);
  }

  /** The edge loop, line by line as the script runs it. */
  method WriteEdges(vs: map<int, nat>, edges: seq<(int, int)>) returns (out: seq<byte>, failure: Option<Failure>)
    ensures Written(out, failure) == Encode(vs, edges)
  {
    out := [];
    failure := None;
    var i := 0;
    while i < |edges|
      invariant 0 <= i <= |edges|
      invariant Encode(vs, edges[..i]) == Written(out, None)
    {
      assert edges[..i + 1][..i] == edges[..i];
      var (u, v) := edges[i];
      if u !in vs {
        failure := Some(MissingKey(i, u));
        assert edges[..i + 1] == edges[..i] + [edges[i]];
        FailedPrefix(vs, edges, i + 1);
        return;
      }
      var uid := vs[u];
      if v !in vs {
        failure := Some(MissingKey(i, v));
        FailedPrefix(vs, edges, i + 1);
        return;
      }
      var vid := vs[v];
      if !InInt32(uid) {
        failure := Some(OutOfRange(i, uid));
        FailedPrefix(vs, edges, i + 1);
        return;
      }
      out := out + Pack(uid);
      if !InInt32(vid) {
        failure := Some(OutOfRange(i, vid));
        FailedPrefix(vs, edges, i + 1);
        return;
      }
      out := out + Pack(vid);
      i := i + 1;
    }
    assert edges[..i] == edges;
  }

  /** Once a prefix of the lines has failed, the run over all of them ends the same way. */
  lemma {:induction false} FailedPrefix(vs: map<int, nat>, edges: seq<(int, int)>, m: nat)
    requires m <= |edges| && Encode(vs, edges[..m]).failure.Some?
    ensures Encode(vs, edges) == Encode(vs, edges[..m])
    decreases |edges|
  {
    if m < |edges| {
      var init := edges[..|edges| - 1];
      assert init[..m] == edges[..m];
      FailedPrefix(vs, init, m);
    } else {
      assert edges[..m] == edges;
    }
  }

  /**
   * The script: renumber the vertex lines, report the final counter, then
   * write the edge lines.
   */
  method Convert(keys: seq<int>, edges: seq<(int, int)>) returns (maxId: nat, out: seq<byte>, failure: Option<Failure>)
    ensures maxId == |keys| + 1
    ensures Written(out, failure) == Encode(IdMap(keys), edges)
  {
    var vs;
    vs, maxId := Renumber(keys);
    out, failure := WriteEdges(vs, edges);
  }
}
