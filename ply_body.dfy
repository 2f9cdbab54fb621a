/** The Stanford PLY loader, part two: the binary body that follows the
    header, as load_ply reads it.  Fixed-size vertex records come first,
    then faces as length-prefixed lists of vertex indices.  ParsePly is the
    whole file: what a successful load_ply leaves in the stanford_ply
    record. */
module PlyBody {
  import opened Common
  import opened PlyHeader

  /** Three floats (float[3]), kept as their bit patterns. */
  datatype Vec3 = Vec3(x: bv32, y: bv32, z: bv32)

  /** One vertex as load_ply keeps it: position, normal and RGBA colour. */
  datatype Vertex = Vertex(position: Vec3, normal: Vec3, red: bv8, green: bv8, blue: bv8, alpha: bv8)

  /** What a successful load holds: the vertices, and per face the stored
      list, whose first entry is the number of corners. */
  datatype Ply = Ply(vertices: seq<Vertex>, faces: seq<seq<bv32>>)

  /** A vertex record: eight floats (x y z nx ny nz s t), four colour bytes. */
  const VERTEX_BYTES: nat := 36

  // ------------------------------------------------------------------
  // Runs of little-endian words

  /** The k words from byte offset at on, in file order (WordsSpec). */
  function Words(data: seq<bv8>, at: nat, k: nat): (ws: seq<bv32>)
    requires at + 4 * k <= |data|
    ensures |ws| == k
  {
    if k == 0 then [] else Words(data, at, k - 1) + [WordAt(data, at + 4 * (k - 1))]
  }

  lemma {:induction false} WordsSpec(data: seq<bv8>, at: nat, k: nat)
    requires at + 4 * k <= |data|
    ensures forall j | 0 <= j < k :: Words(data, at, k)[j] == WordAt(data, at + 4 * j)
  {
    if k > 0 {
      WordsSpec(data, at, k - 1);
    }
  }

  /** Byte strings laid end to end: how a writer lays out a run of
      records. */
  function Concat(parts: seq<seq<bv8>>): seq<bv8>
  {
    if |parts| == 0 then [] else Concat(parts[..|parts| - 1]) + parts[|parts| - 1]
  }

  /** Every part is w bytes long. */
  predicate Uniform(parts: seq<seq<bv8>>, w: nat)
  {
    forall j | 0 <= j < |parts| :: |parts[j]| == w
  }

  /** The last part comes right after the others. */
  lemma {:induction false} ConcatLast(parts: seq<seq<bv8>>)
    requires |parts| > 0
    ensures var k := |parts| - 1;
      && Concat(parts)[..|Concat(parts[..k])|] == Concat(parts[..k])
      && Concat(parts)[|Concat(parts[..k])|..] == parts[k]
  {
    var k := |parts| - 1;
    assert Concat(parts) == Concat(parts[..k]) + parts[k];
  }

  lemma {:induction false} ConcatLength(parts: seq<seq<bv8>>, w: nat)
    requires Uniform(parts, w)
    ensures |Concat(parts)| == w * |parts|
  {
    if |parts| > 0 {
      var k := |parts| - 1;
      ConcatLength(parts[..k], w);
      assert w * (k + 1) == w * k + w;
    }
  }

  /** With parts of equal width w, part i sits at bytes w*i to w*i+w. */
  lemma {:induction false} ConcatAt(parts: seq<seq<bv8>>, w: nat, i: nat)
    requires Uniform(parts, w) && i < |parts|
    ensures w * i + w <= |Concat(parts)|
    ensures Concat(parts)[w * i..w * i + w] == parts[i]
  {
    var k := |parts| - 1;
    ConcatLength(parts, w);
    ConcatLength(parts[..k], w);
    ConcatLast(parts);
    if i < k {
      ConcatAt(parts[..k], w, i);
      assert w * i + w <= w * k by {
        assert w * k - (w * i + w) == w * (k - i - 1);
      }
      PrefixSlice(Concat(parts), w * k, w * i, w * i + w);
    }
  }

  /** Where part i starts: the length of the parts before it. */
  function Offset(parts: seq<seq<bv8>>, i: nat): nat
    requires i <= |parts|
  {
    |Concat(parts[..i])|
  }

  /** Part i sits between Offset(i) and Offset(i + 1), whatever the widths. */
  lemma {:induction false} ConcatPart(parts: seq<seq<bv8>>, i: nat)
    requires i < |parts|
    ensures Offset(parts, i + 1) == Offset(parts, i) + |parts[i]| <= |Concat(parts)|
    ensures Concat(parts)[Offset(parts, i)..Offset(parts, i + 1)] == parts[i]
  {
    var k := |parts| - 1;
    ConcatLast(parts);
    assert parts[..i + 1][..i] == parts[..i];
    if i < k {
      ConcatPart(parts[..k], i);
      assert parts[..k][..i] == parts[..i];
      assert parts[..k][..i + 1] == parts[..i + 1];
      PrefixSlice(Concat(parts), Offset(parts, k), Offset(parts, i), Offset(parts, i + 1));
    } else {
      assert parts[..k + 1] == parts;
    }
  }

  /** Part i of what a writer laid out at offset at is in the file at
      at + Offset(i). */
  lemma {:induction false} PartPlaced(data: seq<bv8>, at: nat, parts: seq<seq<bv8>>, i: nat)
    requires i < |parts|
    requires at + |Concat(parts)| <= |data| && data[at..at + |Concat(parts)|] == Concat(parts)
    ensures Offset(parts, i) <= Offset(parts, i + 1) <= |Concat(parts)|
    ensures data[at + Offset(parts, i)..at + Offset(parts, i + 1)] == parts[i]
  {
    ConcatPart(parts, i);
    SubSlice(data, at, Concat(parts), parts[i], Offset(parts, i));
  }

  lemma {:induction false} PrefixSlice(x: seq<bv8>, n: nat, lo: nat, hi: nat)
    requires lo <= hi <= n <= |x|
    ensures x[..n][lo..hi] == x[lo..hi]
  {
  }

  /** How a little-endian writer lays out a run of words: the partner of
      Words. */
  function EncodeWords(ws: seq<bv32>): (b: seq<bv8>)
    ensures |b| == 4 * |ws|
  {
    ConcatLength(WordParts(ws), 4);
    Concat(WordParts(ws))
  }

  function WordParts(ws: seq<bv32>): (parts: seq<seq<bv8>>)
    ensures |parts| == |ws| && Uniform(parts, 4)
  {
    seq(|ws|, j requires 0 <= j < |ws| => LeBytes(ws[j]))
  }

  lemma {:induction false} WordAtEncoded(data: seq<bv8>, i: nat, w: bv32)
    requires i + 4 <= |data| && data[i..i + 4] == LeBytes(w)
    ensures WordAt(data, i) == w
  {
    var b := LeBytes(w);
    assert data[i] == b[0] && data[i + 1] == b[1] && data[i + 2] == b[2] && data[i + 3] == b[3];
    LeWordOfBytes(w);
  }

  /** Words read back what EncodeWords wrote, wherever it sits in the file. */
  lemma {:induction false} WordsEncoded(data: seq<bv8>, at: nat, ws: seq<bv32>)
    requires at + 4 * |ws| <= |data| && data[at..at + 4 * |ws|] == EncodeWords(ws)
    ensures Words(data, at, |ws|) == ws
  {
    var r := Words(data, at, |ws|);
    WordsSpec(data, at, |ws|);
    forall j | 0 <= j < |ws| ensures r[j] == ws[j] {
      SliceOf(data, at, EncodeWords(ws), 4 * j, 4 * j + 4);
      ConcatAt(WordParts(ws), 4, j);
      WordAtEncoded(data, at + 4 * j, ws[j]);
    }
  }

  /** A piece y of a piece x of the file is a piece of the file. */
  lemma {:induction false} SubSlice(data: seq<bv8>, at: nat, x: seq<bv8>, y: seq<bv8>, lo: nat)
    requires at + |x| <= |data| && data[at..at + |x|] == x
    requires lo + |y| <= |x| && x[lo..lo + |y|] == y
    ensures data[at + lo..at + lo + |y|] == y
  {
    SliceOf(data, at, x, lo, lo + |y|);
  }

  /** A piece of a piece of the file is a piece of the file. */
  lemma {:induction false} SliceOf(data: seq<bv8>, at: nat, x: seq<bv8>, lo: nat, hi: nat)
    requires at + |x| <= |data| && data[at..at + |x|] == x
    requires lo <= hi <= |x|
    ensures data[at + lo..at + hi] == x[lo..hi]
  {
    forall i | 0 <= i < hi - lo ensures data[at + lo..at + hi][i] == x[lo..hi][i] {
      assert data[at + lo + i] == data[at..at + |x|][lo + i];
    }
  }

  // ------------------------------------------------------------------
  // Vertex records

  predicate AllFinite(ws: seq<bv32>)
  {
    forall i | 0 <= i < |ws| :: IsFinite(ws[i])
  }

  /** The vertex record at byte offset at: None when the file ends inside it
      or when one of its eight floats is not finite, since read_float fails
      on either; s and t are read and checked, then dropped. */
  function VertexAt(data: seq<bv8>, at: nat): Option<Vertex>
  {
    if at + VERTEX_BYTES > |data| then None
    else
      var fs := Words(data, at, 8);
      if !AllFinite(fs) then None
      else Some(Vertex(Vec3(fs[0], fs[1], fs[2]), Vec3(fs[3], fs[4], fs[5]),
                       data[at + 32], data[at + 33], data[at + 34], data[at + 35]))
  }

  /** The i-th vertex record of a body that starts at offset at. */
  function VertexNo(data: seq<bv8>, at: nat, i: nat): Option<Vertex>
  {
    VertexAt(data, at + VERTEX_BYTES * i)
  }

  /** The vertex loop: n records one after the other; None as soon as one
      of them cannot be read (VerticesSpec). */
  function Vertices(data: seq<bv8>, at: nat, n: nat): Option<seq<Vertex>>
  {
    if n == 0 then Some([])
    else
      match Vertices(data, at, n - 1)
      case None => None
      case Some(vs) =>
        match VertexNo(data, at, n - 1)
        case None => None
        case Some(v) => Some(vs + [v])
  }

  /** The loop succeeds exactly when every record can be read, and then
      holds them in file order. */
  lemma {:induction false} VerticesSpec(data: seq<bv8>, at: nat, n: nat)
    ensures Vertices(data, at, n).Some? <==> forall i | 0 <= i < n :: VertexNo(data, at, i).Some?
    ensures Vertices(data, at, n).Some? ==>
      && |Vertices(data, at, n).value| == n
      && forall i | 0 <= i < n :: VertexNo(data, at, i) == Some(Vertices(data, at, n).value[i])
  {
    if n > 0 {
      VerticesSpec(data, at, n - 1);
    }
  }

  /** A vertex record that reads back: the eight floats and the colour. */
  function VertexFloats(v: Vertex, s: bv32, t: bv32): seq<bv32>
  {
    [v.position.x, v.position.y, v.position.z, v.normal.x, v.normal.y, v.normal.z, s, t]
  }

  function EncodeVertex(v: Vertex, s: bv32, t: bv32): (b: seq<bv8>)
    ensures |b| == VERTEX_BYTES
  {
    EncodeWords(VertexFloats(v, s, t)) + [v.red, v.green, v.blue, v.alpha]
  }

  /** A record written by EncodeVertex with finite floats reads back as its
      vertex; with a non-finite float it is rejected. */
  lemma {:induction false} VertexEncoded(data: seq<bv8>, at: nat, v: Vertex, s: bv32, t: bv32)
    requires at + VERTEX_BYTES <= |data|
    requires data[at..at + VERTEX_BYTES] == EncodeVertex(v, s, t)
    ensures VertexAt(data, at) == if AllFinite(VertexFloats(v, s, t)) then Some(v) else None
  {
    var fs := VertexFloats(v, s, t);
    var b := EncodeVertex(v, s, t);
    assert data[at..at + 32] == b[..32] == EncodeWords(fs);
    WordsEncoded(data, at, fs);
    assert data[at + 32] == b[32] && data[at + 33] == b[33];
    assert data[at + 34] == b[34] && data[at + 35] == b[35];
  }

  /** The six floats load_ply keeps are finite. */
  predicate FiniteVertex(v: Vertex)
  {
    && IsFinite(v.position.x) && IsFinite(v.position.y) && IsFinite(v.position.z)
    && IsFinite(v.normal.x) && IsFinite(v.normal.y) && IsFinite(v.normal.z)
  }

  /** A vertex file as a writer lays it out, with s = t = 0. */
  function EncodeVertices(vs: seq<Vertex>): (b: seq<bv8>)
    ensures |b| == VERTEX_BYTES * |vs|
  {
    ConcatLength(VertexParts(vs), VERTEX_BYTES);
    Concat(VertexParts(vs))
  }

  function VertexParts(vs: seq<Vertex>): (parts: seq<seq<bv8>>)
    ensures |parts| == |vs| && Uniform(parts, VERTEX_BYTES)
  {
    seq(|vs|, i requires 0 <= i < |vs| => EncodeVertex(vs[i], 0, 0))
  }

  /** The vertex loop reads back a run of finite vertices. */
  lemma {:induction false} VerticesEncoded(data: seq<bv8>, at: nat, vs: seq<Vertex>)
    requires forall i | 0 <= i < |vs| :: FiniteVertex(vs[i])
    requires at + VERTEX_BYTES * |vs| <= |data|
    requires data[at..at + VERTEX_BYTES * |vs|] == EncodeVertices(vs)
    ensures Vertices(data, at, |vs|) == Some(vs)
  {
    forall i | 0 <= i < |vs| ensures VertexNo(data, at, i) == Some(vs[i]) {
      VertexNoEncoded(data, at, vs, i);
    }
    VerticesSpec(data, at, |vs|);
    var r := Vertices(data, at, |vs|).value;
    assert forall i | 0 <= i < |vs| :: r[i] == vs[i];
    assert r == vs;
  }

  lemma {:induction false} VertexNoEncoded(data: seq<bv8>, at: nat, vs: seq<Vertex>, i: nat)
    requires i < |vs| && FiniteVertex(vs[i])
    requires at + VERTEX_BYTES * |vs| <= |data|
    requires data[at..at + VERTEX_BYTES * |vs|] == EncodeVertices(vs)
    ensures VertexNo(data, at, i) == Some(vs[i])
  {
    ConcatAt(VertexParts(vs), VERTEX_BYTES, i);
    SliceOf(data, at, EncodeVertices(vs), VERTEX_BYTES * i, VERTEX_BYTES * i + VERTEX_BYTES);
    FiniteFloats(vs[i]);
    VertexEncoded(data, at + VERTEX_BYTES * i, vs[i], 0, 0);
  }

  /** A finite vertex written with s = t = 0 passes every isfinite test. */
  lemma FiniteFloats(v: Vertex)
    requires FiniteVertex(v)
    ensures AllFinite(VertexFloats(v, 0, 0))
  {
    assert IsFinite(0);
  }

  // ------------------------------------------------------------------
  // Face records

  /** The face record at byte offset at: a count byte L, then L words.  The
      stored list is L followed by the L indices; the second component is
      the offset after the record. */
  function FaceAt(data: seq<bv8>, at: nat): Option<(seq<bv32>, nat)>
  {
    if at >= |data| then None
    else
      var len := data[at] as nat;
      if at + 1 + 4 * len > |data| then None
      else Some(([data[at] as bv32] + Words(data, at + 1, len), at + 1 + 4 * len))
  }

  /** A stored face list starts with its own corner count (the layout the
      stanford_ply record documents). */
  lemma {:induction false} FaceListLength(data: seq<bv8>, at: nat)
    requires FaceAt(data, at).Some?
    ensures var list := FaceAt(data, at).value.0;
      |list| == list[0] as int + 1 && list[0] as int < 256
  {
    var len := data[at];
    assert (len as bv32) as int == len as int;
  }

  /** The face loop: n records one after the other, each starting where
      the previous one ended. */
  function Faces(data: seq<bv8>, at: nat, n: nat): Option<(seq<seq<bv32>>, nat)>
  {
    if n == 0 then Some(([], at))
    else
      match Faces(data, at, n - 1)
      case None => None
      case Some((fs, p)) =>
        match FaceAt(data, p)
        case None => None
        case Some((list, q)) => Some((fs + [list], q))
  }

  /** The count byte of a face with fewer than 256 corners. */
  function CountOf(idx: seq<bv32>): (c: bv8)
    requires |idx| < 256
    ensures c as nat == |idx|
  {
    |idx| as bv8
  }

  /** The list load_ply stores for a face: its count byte, widened, then
      its vertex indices. */
  function FaceList(idx: seq<bv32>): (list: seq<bv32>)
    requires |idx| < 256
  {
    [CountOf(idx) as bv32] + idx
  }

  /** How a writer lays out a face: its corner count, then the indices. */
  function EncodeFace(idx: seq<bv32>): (b: seq<bv8>)
    requires |idx| < 256
    ensures |b| == 1 + 4 * |idx|
  {
    [CountOf(idx)] + EncodeWords(idx)
  }

  /** A record written by EncodeFace reads back as the face's list. */
  lemma {:induction false} FaceEncoded(data: seq<bv8>, at: nat, idx: seq<bv32>)
    requires |idx| < 256
    requires at + 1 + 4 * |idx| <= |data|
    requires data[at..at + 1 + 4 * |idx|] == EncodeFace(idx)
    ensures FaceAt(data, at) == Some((FaceList(idx), at + 1 + 4 * |idx|))
  {
    var w := EncodeWords(idx);
    var b := [CountOf(idx)] + w;
    assert b == EncodeFace(idx);
    assert b[1..] == w;
    assert data[at] == data[at..at + |b|][0] == b[0];
    SliceOf(data, at, b, 1, |b|);
    FaceAtWords(data, at, idx);
  }

  /** A count byte followed by the encoded indices it counts. */
  lemma {:induction false} FaceAtWords(data: seq<bv8>, at: nat, idx: seq<bv32>)
    requires at < |data| && data[at] as nat == |idx|
    requires at + 1 + 4 * |idx| <= |data|
    requires data[at + 1..at + 1 + 4 * |idx|] == EncodeWords(idx)
    ensures FaceAt(data, at) == Some(([data[at] as bv32] + idx, at + 1 + 4 * |idx|))
  {
    WordsEncoded(data, at + 1, idx);
  }

  /** Every face has fewer than 256 corners, as its count byte demands. */
  predicate SmallFaces(fs: seq<seq<bv32>>)
  {
    forall i | 0 <= i < |fs| :: |fs[i]| < 256
  }

  /** A face file as a writer lays it out. */
  function EncodeFaces(fs: seq<seq<bv32>>): seq<bv8>
    requires SmallFaces(fs)
  {
    Concat(FaceParts(fs))
  }

  function FaceParts(fs: seq<seq<bv32>>): (parts: seq<seq<bv8>>)
    requires SmallFaces(fs)
    ensures |parts| == |fs|
  {
    seq(|fs|, i requires 0 <= i < |fs| => EncodeFace(fs[i]))
  }

  /** The face lists of a run of faces. */
  function FaceLists(fs: seq<seq<bv32>>): (lists: seq<seq<bv32>>)
    requires SmallFaces(fs)
    ensures |lists| == |fs|
  {
    seq(|fs|, i requires 0 <= i < |fs| => FaceList(fs[i]))
  }

  /** The face loop reads back a run of faces and stops right after them. */
  lemma {:induction false} FacesEncoded(data: seq<bv8>, at: nat, fs: seq<seq<bv32>>)
    requires SmallFaces(fs)
    requires at + |EncodeFaces(fs)| <= |data|
    requires data[at..at + |EncodeFaces(fs)|] == EncodeFaces(fs)
    ensures Faces(data, at, |fs|) == Some((FaceLists(fs), at + |EncodeFaces(fs)|))
  {
    var offs := FaceOffsets(at, fs);
    var lists := FaceLists(fs);
    forall i | 0 <= i < |fs| ensures FaceAt(data, offs[i]) == Some((lists[i], offs[i + 1])) {
      FaceNoEncoded(data, at, fs, i);
    }
    FacesUpTo(data, at, lists, offs, |fs|);
    TakeAll(lists);
  }

  /** Where each face of fs starts when a writer lays them out from offset
      at, and where the last one ends. */
  function FaceOffsets(at: nat, fs: seq<seq<bv32>>): (offs: seq<nat>)
    requires SmallFaces(fs)
    ensures |offs| == |fs| + 1 && offs[0] == at && offs[|fs|] == at + |EncodeFaces(fs)|
    ensures forall i | 0 <= i <= |fs| :: offs[i] == at + Offset(FaceParts(fs), i)
  {
    var parts := FaceParts(fs);
    assert parts[..0] == [];
    TakeAll(parts);
    seq(|fs| + 1, i requires 0 <= i <= |fs| => at + Offset(parts, i))
  }

  /** The first k faces read back: face i lies from offs[i] to offs[i + 1]. */
  lemma {:induction false} FacesUpTo(data: seq<bv8>, at: nat, lists: seq<seq<bv32>>, offs: seq<nat>, k: nat)
    requires k <= |lists| && |offs| == |lists| + 1 && offs[0] == at
    requires forall i | 0 <= i < k :: FaceAt(data, offs[i]) == Some((lists[i], offs[i + 1]))
    ensures Faces(data, at, k) == Some((lists[..k], offs[k]))
  {
    if k > 0 {
      FacesUpTo(data, at, lists, offs, k - 1);
      FacesSnoc(data, at, k, lists[..k - 1], offs[k - 1], lists[k - 1], offs[k]);
      TakeSnoc(lists, k);
    }
  }

  lemma {:induction false} TakeAll<T>(s: seq<T>)
    ensures s[..|s|] == s
  {
  }

  lemma {:induction false} TakeSnoc<T>(s: seq<T>, k: nat)
    requires 0 < k <= |s|
    ensures s[..k] == s[..k - 1] + [s[k - 1]]
  {
  }

  /** One turn of the face loop. */
  lemma FacesSnoc(data: seq<bv8>, at: nat, k: nat, r: seq<seq<bv32>>, p: nat, list: seq<bv32>, q: nat)
    requires k > 0 && Faces(data, at, k - 1) == Some((r, p)) && FaceAt(data, p) == Some((list, q))
    ensures Faces(data, at, k) == Some((r + [list], q))
  {
  }

  /** Face i read back from where the writer put it. */
  lemma {:induction false} FaceNoEncoded(data: seq<bv8>, at: nat, fs: seq<seq<bv32>>, i: nat)
    requires SmallFaces(fs) && i < |fs|
    requires at + |EncodeFaces(fs)| <= |data|
    requires data[at..at + |EncodeFaces(fs)|] == EncodeFaces(fs)
    ensures FaceAt(data, FaceOffsets(at, fs)[i]) == Some((FaceLists(fs)[i], FaceOffsets(at, fs)[i + 1]))
  {
    var parts := FaceParts(fs);
    var offs := FaceOffsets(at, fs);
    PartPlaced(data, at, parts, i);
    FaceFromPart(data, fs, i, offs[i], offs[i + 1]);
  }

  /** The bytes a writer produced for face i read back as its list. */
  lemma {:induction false} FaceFromPart(data: seq<bv8>, fs: seq<seq<bv32>>, i: nat, p: nat, q: nat)
    requires SmallFaces(fs) && i < |fs|
    requires p <= q <= |data| && data[p..q] == FaceParts(fs)[i]
    ensures FaceAt(data, p) == Some((FaceList(fs[i]), q))
  {
    assert FaceParts(fs)[i] == EncodeFace(fs[i]);
    FaceEncoded(data, p, fs[i]);
  }

  // ------------------------------------------------------------------
  // The whole file

  /** The body after a header with the given counts. */
  function ParseBody(data: seq<bv8>, nv: nat, nf: nat, body: nat): Option<Ply>
  {
    match Vertices(data, body, nv)
    case None => None
    case Some(vs) =>
      match Faces(data, body + VERTEX_BYTES * nv, nf)
      case None => None
      case Some((fs, _)) => Some(Ply(vs, fs))
  }

  /** Once the vertex records have parsed to vs, the body parses exactly
      when the face records after them do, and then holds vs and their
      lists. */
  lemma ParseBodyOf(data: seq<bv8>, nv: nat, nf: nat, body: nat, vs: seq<Vertex>)
    requires Vertices(data, body, nv) == Some(vs)
    ensures ParseBody(data, nv, nf, body).Some? <==> Faces(data, body + VERTEX_BYTES * nv, nf).Some?
    ensures Faces(data, body + VERTEX_BYTES * nv, nf).Some? ==>
      ParseBody(data, nv, nf, body) == Some(Ply(vs, Faces(data, body + VERTEX_BYTES * nv, nf).value.0))
  {
  }

  /** load_ply on a whole file: the header, nv vertex records, nf face
      records.  Bytes after the last face are ignored (the source only
      warns about them). */
  function ParsePly(data: seq<bv8>): Option<Ply>
  {
    match ParseHeader(data)
    case None => None
    case Some((c, body)) =>
      ParseHeaderSpec(data);
      ParseBody(data, c.vertices, c.faces, body)
  }

  /** A whole file as a writer lays it out: the header announcing the
      counts, the vertex records, the face records. */
  function EncodePly(vs: seq<Vertex>, fs: seq<seq<bv32>>): seq<bv8>
    requires SmallFaces(fs)
  {
    HeaderText(|vs|, |fs|) + EncodeVertices(vs) + EncodeFaces(fs)
  }

  /** load_ply reads back what the writer wrote, whatever follows it. */
  lemma {:induction false} ParsePlyEncoded(vs: seq<Vertex>, fs: seq<seq<bv32>>, rest: seq<bv8>)
    requires |vs| < 0x8000_0000 && |fs| < 0x8000_0000
    requires forall i | 0 <= i < |vs| :: FiniteVertex(vs[i])
    requires SmallFaces(fs)
    ensures ParsePly(EncodePly(vs, fs) + rest) == Some(Ply(vs, FaceLists(fs)))
  {
    var ev := EncodeVertices(vs);
    var ef := EncodeFaces(fs);
    ParseHeaderText(|vs|, |fs|, ev + ef + rest);
    ParsePlyParts(HeaderText(|vs|, |fs|), ev, ef, rest, vs, fs);
  }

  lemma {:induction false} ParsePlyParts(h: seq<bv8>, ev: seq<bv8>, ef: seq<bv8>, rest: seq<bv8>,
                                         vs: seq<Vertex>, fs: seq<seq<bv32>>)
    requires forall i | 0 <= i < |vs| :: FiniteVertex(vs[i])
    requires SmallFaces(fs) && ev == EncodeVertices(vs) && ef == EncodeFaces(fs)
    requires ParseHeader(h + (ev + ef + rest)) == Some((Counts(|vs|, |fs|), |h|))
    ensures ParsePly(h + ev + ef + rest) == Some(Ply(vs, FaceLists(fs)))
  {
    var data := h + (ev + ef + rest);
    Pieces(h, ev, ef, rest);
    ParseBodyEncoded(data, |h|, vs, fs);
    ParsePlyOf(data, |vs|, |fs|, |h|, Ply(vs, FaceLists(fs)));
  }

  /** A file whose header and body both read is a loaded file. */
  lemma {:induction false} ParsePlyOf(data: seq<bv8>, nv: nat, nf: nat, at: nat, p: Ply)
    requires ParseHeader(data) == Some((Counts(nv, nf), at))
    requires ParseBody(data, nv, nf, at) == Some(p)
    ensures ParsePly(data) == Some(p)
  {
  }

  /** The body of a written file reads back as its vertices and faces. */
  lemma {:induction false} ParseBodyEncoded(data: seq<bv8>, at: nat, vs: seq<Vertex>, fs: seq<seq<bv32>>)
    requires forall i | 0 <= i < |vs| :: FiniteVertex(vs[i])
    requires SmallFaces(fs)
    requires at + |EncodeVertices(vs)| + |EncodeFaces(fs)| <= |data|
    requires data[at..at + |EncodeVertices(vs)|] == EncodeVertices(vs)
    requires data[at + |EncodeVertices(vs)|..at + |EncodeVertices(vs)| + |EncodeFaces(fs)|] == EncodeFaces(fs)
    ensures ParseBody(data, |vs|, |fs|, at) == Some(Ply(vs, FaceLists(fs)))
  {
    VerticesEncoded(data, at, vs);
    FacesEncoded(data, at + VERTEX_BYTES * |vs|, fs);
  }

  /** The pieces of a + b + c + d, grouped as the loader reads them. */
  lemma {:induction false} Pieces<T>(a: seq<T>, b: seq<T>, c: seq<T>, d: seq<T>)
    ensures a + b + c + d == a + (b + c + d)
    ensures (a + (b + c + d))[|a|..|a| + |b|] == b
    ensures (a + (b + c + d))[|a| + |b|..|a| + |b| + |c|] == c
  {
    var x := a + (b + c + d);
    assert forall i | 0 <= i < |b| :: x[|a| + i] == b[i];
    assert forall i | 0 <= i < |c| :: x[|a| + |b| + i] == c[i];
  }
}
