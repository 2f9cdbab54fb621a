/** The Stanford PLY loader, part three: load_ply and free_ply as the
    imperative code they are.  The open file is a PlyFile (its bytes and
    the stream position), the C allocator a Heap whose calloc may fail on
    any call, and the loaded model a StanfordPly whose fields are the
    arrays the loader allocates and fills.  LoadPly is proved against
    ParsePly: it succeeds exactly when the file parses and no allocation
    fails, it then holds the parsed model, and on failure it has freed
    everything it allocated. */
module PlyLoader {
  import opened Common
  import opened PlyHeader
  import opened PlyBody

  // ------------------------------------------------------------------
  // The file, read with fgets and fread

  /** A file opened for reading: its contents and the stream position. */
  class PlyFile {
    const data: seq<bv8>
    var pos: nat

    predicate Valid()
      reads this
    {
      pos <= |data|
    }

    /** fopen(file_name, "rb") on a file holding data. */
    constructor (data: seq<bv8>)
      ensures this.data == data && pos == 0 && Valid()
    {
      this.data := data;
      pos := 0;
    }

    /** fgets(buf, 256, f): nothing at the end of the file, otherwise the
        bytes up to and including the first newline, at most 255 of them
        (LineEndSpec). */
    method GetLine() returns (line: Option<seq<bv8>>)
      requires Valid()
      modifies this
      ensures Valid()
      ensures old(pos) == |data| ==> line == None && pos == old(pos)
      ensures old(pos) < |data| ==>
        pos == LineEnd(data, old(pos)) && line == Some(data[old(pos)..pos])
    {
      if pos == |data| {
        line := None;
      } else {
        var e := LineEnd(data, pos);
        line := Some(data[pos..e]);
        pos := e;
      }
    }

    /** read_uchar: one byte, or failure at the end of the file. */
    method ReadUchar() returns (ok: bool, b: bv8)
      requires Valid()
      modifies this
      ensures Valid()
      ensures ok <==> old(pos) < |data|
      ensures ok ==> b == data[old(pos)] && pos == old(pos) + 1
      ensures !ok ==> pos == old(pos)
    {
      if pos < |data| {
        ok, b := true, data[pos];
        pos := pos + 1;
      } else {
        ok, b := false, 0;
      }
    }

    /** read_uint: four bytes assembled least significant first, or
        failure when fewer than four are left (fread then consumes what
        there is). */
    method ReadUint() returns (ok: bool, w: bv32)
      requires Valid()
      modifies this
      ensures Valid()
      ensures ok <==> old(pos) + 4 <= |data|
      ensures ok ==> w == WordAt(data, old(pos)) && pos == old(pos) + 4
      ensures !ok ==> pos == |data|
    {
      if pos + 4 <= |data| {
        var b := data[pos..pos + 4];
        w := (b[0] as bv32) | ((b[1] as bv32) << 8) | ((b[2] as bv32) << 16) | ((b[3] as bv32) << 24);
        ok := true;
        pos := pos + 4;
      } else {
        ok, w := false, 0;
        pos := |data|;
      }
    }

    /** read_float: the bit pattern of four bytes as read_uint assembles
        them; failure when fewer than four are left or when the float is
        not finite (the four bytes are consumed then). */
    method ReadFloat() returns (ok: bool, w: bv32)
      requires Valid()
      modifies this
      ensures Valid()
      ensures ok <==> old(pos) + 4 <= |data| && IsFinite(WordAt(data, old(pos)))
      ensures ok ==> w == WordAt(data, old(pos)) && pos == old(pos) + 4
      ensures !ok ==> pos == |data| || pos == old(pos) + 4
    {
      var read;
      read, w := ReadUint();
      ok := read && IsFinite(w);
    }

    /** One vertex record as the vertex loop reads it: eight floats, then
        four colour bytes; failure as soon as one read fails.  It reads
        what VertexAt describes. */
    method ReadVertexRecord() returns (ok: bool, v: Vertex)
      requires Valid()
      modifies this
      ensures Valid()
      ensures ok <==> VertexAt(data, old(pos)).Some?
      ensures ok ==> VertexAt(data, old(pos)) == Some(v) && pos == old(pos) + VERTEX_BYTES
    {
      v := Vertex(Vec3(0, 0, 0), Vec3(0, 0, 0), 0, 0, 0, 0);
      var p := pos;
      var arr: seq<bv32> := [];
      for j := 0 to 8
        invariant Valid() && pos == p + 4 * j
        invariant |arr| == j
        invariant forall k | 0 <= k < j :: arr[k] == WordAt(data, p + 4 * k) && IsFinite(arr[k])
      {
        var read, w := ReadFloat();
        if !read {
          FloatUnread(data, p, j);
          return false, v;
        }
        arr := arr + [w];
      }
      var col: seq<bv8> := [];
      for j := 0 to 4
        invariant Valid() && pos == p + 32 + j
        invariant col == data[p + 32..pos]
      {
        var read, b := ReadUchar();
        if !read {
          return false, v;
        }
        col := col + [b];
      }
      v := Vertex(Vec3(arr[0], arr[1], arr[2]), Vec3(arr[3], arr[4], arr[5]),
                  col[0], col[1], col[2], col[3]);
      WordsSpec(data, p, 8);
      assert Words(data, p, 8) == arr;
      ok := true;
    }
  }

  /** A float of a vertex record that cannot be read leaves the record
      unreadable. */
  lemma FloatUnread(data: seq<bv8>, p: nat, j: nat)
    requires j < 8
    requires !(p + 4 * j + 4 <= |data| && IsFinite(WordAt(data, p + 4 * j)))
    ensures VertexAt(data, p).None?
  {
    if p + VERTEX_BYTES <= |data| {
      WordsSpec(data, p, 8);
      assert !IsFinite(Words(data, p, 8)[j]);
    }
  }

  /** The corner loop of one face record: len words into list[1..len];
      it reads what Words describes. */
  method ReadCorners(f: PlyFile, list: array<bv32>, len: nat) returns (ok: bool)
    requires f.Valid() && list.Length == len + 1
    modifies f, list
    ensures f.Valid()
    ensures list[0] == old(list[0])
    ensures ok <==> old(f.pos) + 4 * len <= |f.data|
    ensures ok ==> list[..] == [list[0]] + Words(f.data, old(f.pos), len) && f.pos == old(f.pos) + 4 * len
  {
    var p := f.pos;
    for j := 0 to len
      invariant f.Valid() && f.pos == p + 4 * j <= |f.data|
      invariant list[0] == old(list[0])
      invariant forall k | 0 <= k < j :: list[k + 1] == WordAt(f.data, p + 4 * k)
    {
      var read, w := f.ReadUint();
      if !read {
        return false;
      }
      list[j + 1] := w;
    }
    WordsSpec(f.data, p, len);
    assert list[..] == [list[0]] + Words(f.data, p, len);
    ok := true;
  }

  /** The header part of load_ply: the "ply" line, then header lines
      until "end_header", then the check that both counts were found.  It
      reads what ParseHeader describes and stops where the body starts. */
  method ReadHeader(f: PlyFile) returns (ok: bool, c: Counts)
    requires f.Valid() && f.pos == 0
    modifies f
    ensures f.Valid()
    ensures ok <==> ParseHeader(f.data).Some?
    ensures ok ==> ParseHeader(f.data) == Some((c, f.pos)) && c.vertices >= 0 && c.faces >= 0
  {
    c := Counts(-1, -1);
    var line := f.GetLine();
    if line.None? || CString(line.value) != PLY_MAGIC {
      return false, c;
    }
    ghost var start := f.pos;
    while true
      invariant f.Valid()
      invariant HeaderFrom(f.data, f.pos, c) == HeaderFrom(f.data, start, Counts(-1, -1))
      decreases |f.data| - f.pos
    {
      var p := f.pos;
      line := f.GetLine();
      if line.None? {
        return false, c;
      }
      if CString(line.value) == END_HEADER {
        HeaderStepEnds(f.data, p, c);
        break;
      }
      var next := HeaderLine(line.value, c);
      if next.None? {
        return false, c;
      }
      HeaderFromContinues(f.data, p, c, next.value, f.pos);
      c := next.value;
    }
    if c.vertices < 0 || c.faces < 0 {
      return false, c;
    }
    ok := true;
  }

  /** Once a face record cannot be read, the face loop fails. */
  lemma {:induction false} FacesStuck(data: seq<bv8>, at: nat, i: nat, n: nat)
    requires i < n
    requires Faces(data, at, i).Some? && FaceAt(data, Faces(data, at, i).value.1).None?
    ensures Faces(data, at, n).None?
  {
    if n > i + 1 {
      FacesStuck(data, at, i, n - 1);
    }
  }

  /** A vertex record that cannot be read makes the vertex loop fail. */
  lemma VerticesStuck(data: seq<bv8>, at: nat, i: nat, n: nat)
    requires i < n && VertexNo(data, at, i).None?
    ensures Vertices(data, at, n).None?
  {
    VerticesSpec(data, at, n);
  }

  // ------------------------------------------------------------------
  // The allocator

  /** The objects o stands for: none for a null pointer. */
  ghost function Opt(o: object?): set<object>
  {
    if o == null then {} else {o}
  }

  /** calloc and free.  Whether the k-th call of calloc fails is an oracle
      (out of memory, or a zero-sized request the C library answers with
      a null pointer); live holds the blocks allocated and not yet freed. */
  class Heap {
    const fails: nat -> bool
    var calls: nat
    ghost var live: set<object>

    constructor (fails: nat -> bool)
      ensures this.fails == fails && calls == 0 && live == {}
    {
      this.fails := fails;
      calls := 0;
      live := {};
    }

    /** calloc(n, size): a null pointer when this call fails, otherwise a
        new block of n zeroed elements. */
    method Calloc<T>(n: nat, zero: T) returns (a: array?<T>)
      modifies this
      ensures calls == old(calls) + 1
      ensures fails(old(calls)) ==> a == null && live == old(live)
      ensures !fails(old(calls)) ==>
        && a != null && fresh(a) && a !in old(live) && a.Length == n
        && (forall i | 0 <= i < n :: a[i] == zero)
        && live == old(live) + {a}
    {
      if fails(calls) {
        a := null;
      } else {
        a := new T[n](_ => zero);
        live := live + {a};
      }
      calls := calls + 1;
    }

    /** free(a): a no-op on a null pointer; otherwise a must be a live
        block, which is live no more. */
    method Free(a: object?)
      requires a == null || a in live
      modifies this
      ensures calls == old(calls)
      ensures live == old(live) - Opt(a)
    {
      if a != null {
        live := live - {a};
      }
    }
  }

  // ------------------------------------------------------------------
  // struct stanford_ply

  /** None of the calls of calloc numbered from to to - 1 fails. */
  predicate NoneFail(heap: Heap, from: nat, to: nat)
  {
    forall k | from <= k < to :: !heap.fails(k)
  }

  /** A run of calloc calls succeeds exactly when both of its parts do. */
  lemma NoneFailSplit(heap: Heap, a: nat, b: nat, c: nat)
    requires a <= b <= c
    ensures NoneFail(heap, a, c) <==> NoneFail(heap, a, b) && NoneFail(heap, b, c)
  {
  }

  /** The blocks among the pointers xs are new, none of them in L, and no
      two of them the same. */
  ghost predicate Apart(xs: seq<object?>, L: set<object>)
  {
    NonNull(xs) !! L && Distinct(xs)
  }

  /** The blocks among the pointers xs. */
  ghost function NonNull(xs: seq<object?>): set<object>
  {
    set o: object | o in xs
  }

  /** No block appears twice among the pointers xs. */
  ghost predicate Distinct(xs: seq<object?>)
  {
    forall i, j | 0 <= i < j < |xs| :: xs[i] != null ==> xs[i] != xs[j]
  }

  /** Freeing the pointers of xs one after the other: the m-th has not been
      freed by the ones before it. */
  lemma FreeNext(xs: seq<object?>, m: nat)
    requires Distinct(xs) && m < |xs|
    ensures xs[m] !in NonNull(xs[..m])
    ensures NonNull(xs[..m + 1]) == NonNull(xs[..m]) + Opt(xs[m])
  {
    assert xs[..m + 1] == xs[..m] + [xs[m]];
  }

  /** Zipping the per-vertex arrays into vertices. */
  function Zip(ps: seq<Vec3>, ns: seq<Vec3>, r: seq<bv8>, g: seq<bv8>, b: seq<bv8>, a: seq<bv8>): (vs: seq<Vertex>)
    requires |ns| == |ps| && |r| == |ps| && |g| == |ps| && |b| == |ps| && |a| == |ps|
    ensures |vs| == |ps|
    ensures forall i | 0 <= i < |ps| :: vs[i] == Vertex(ps[i], ns[i], r[i], g[i], b[i], a[i])
  {
    seq(|ps|, i requires 0 <= i < |ps| => Vertex(ps[i], ns[i], r[i], g[i], b[i], a[i]))
  }

  /** Empty face_idx slots in front of the seven blocks change nothing. */
  lemma {:induction false} NullsFirst(lists: seq<object?>, xs: seq<object?>)
    requires forall i | 0 <= i < |lists| :: lists[i] == null
    requires Distinct(xs)
    ensures Distinct(lists + xs) && NonNull(lists + xs) == NonNull(xs)
  {
    assert NonNull(lists) == {};
    DistinctAppend(lists, xs);
  }

  /** The contents of the face lists xs. */
  function ListsOf(xs: seq<array?<bv32>>): (fs: seq<seq<bv32>>)
    requires forall i | 0 <= i < |xs| :: xs[i] != null
    reads set i | 0 <= i < |xs| :: xs[i]
    ensures |fs| == |xs|
    ensures forall i | 0 <= i < |xs| :: fs[i] == xs[i][..]
  {
    seq(|xs|, i requires 0 <= i < |xs| && xs[i] != null
                reads if 0 <= i < |xs| then {xs[i]} else {} => xs[i][..])
  }

  /** Two runs of pointers with no block in common. */
  lemma DistinctAppend(xs: seq<object?>, ys: seq<object?>)
    requires Distinct(xs) && Distinct(ys) && NonNull(xs) !! NonNull(ys)
    ensures Distinct(xs + ys) && NonNull(xs + ys) == NonNull(xs) + NonNull(ys)
  {
    var zs := xs + ys;
    forall i, j | 0 <= i < j < |zs| && zs[i] != null ensures zs[i] != zs[j] {
      if j >= |xs| && i < |xs| {
        assert zs[i] in NonNull(xs) && zs[j] == ys[j - |xs|];
        if zs[j] != null {
          assert zs[j] in NonNull(ys);
        }
      } else if i >= |xs| {
        assert zs[i] == ys[i - |xs|] && zs[j] == ys[j - |xs|];
      }
    }
    forall o: object | o in NonNull(zs) ensures o in NonNull(xs) + NonNull(ys) {
      var k :| 0 <= k < |zs| && zs[k] == o;
      if k >= |xs| {
        assert ys[k - |xs|] == o;
      }
    }
    forall o: object | o in NonNull(xs) + NonNull(ys) ensures o in NonNull(zs) {
      if o in NonNull(ys) {
        var k :| 0 <= k < |ys| && ys[k] == o;
        assert zs[|xs| + k] == o;
      } else {
        var k :| 0 <= k < |xs| && xs[k] == o;
        assert zs[k] == o;
      }
    }
  }

  /** free(a) on the m-th of the pointers xs, once those before it are
      freed. */
  method FreeNth(heap: Heap, a: object?, ghost xs: seq<object?>, ghost m: nat, ghost L: set<object>)
    requires Distinct(xs) && m < |xs| && a == xs[m] && NonNull(xs) <= L
    requires heap.live == L - NonNull(xs[..m])
    modifies heap
    ensures heap.calls == old(heap.calls)
    ensures heap.live == L - NonNull(xs[..m + 1])
  {
    FreeNext(xs, m);
    heap.Free(a);
  }

  /** Two callocs of load_ply in a row, the second made only when the
      first succeeded. */
  method AllocatePair<T>(heap: Heap, len: nat, zero: T) returns (x: array?<T>, y: array?<T>)
    modifies heap
    ensures old(heap.calls) < heap.calls <= old(heap.calls) + 2
    ensures y != null <==> NoneFail(heap, old(heap.calls), heap.calls)
    ensures y != null ==> heap.calls == old(heap.calls) + 2 && x != null && x.Length == len && y.Length == len
    ensures heap.live == old(heap.live) + NonNull([x, y])
    ensures fresh(NonNull([x, y])) && Apart([x, y], old(heap.live))
    ensures y != null ==> fresh(x) && fresh(y)
  {
    y := null;
    x := heap.Calloc(len, zero);
    if x != null {
      y := heap.Calloc(len, zero);
    }
  }

  /** Two runs of fresh blocks, the second allocated after the first. */
  lemma Join(p: seq<object?>, q: seq<object?>, L: set<object>)
    requires Apart(p, L) && Apart(q, L + NonNull(p))
    ensures Apart(p + q, L) && NonNull(p + q) == NonNull(p) + NonNull(q)
  {
    DistinctAppend(p, q);
  }

  /** The last pointer moved to the front keeps the blocks apart. */
  lemma Rotate(s: seq<object?>, x: object?, L: set<object>)
    requires Apart(s + [x], L)
    ensures Apart([x] + s, L) && NonNull([x] + s) == NonNull(s + [x])
  {
    var t := s + [x];
    var u := [x] + s;
    assert forall k | 0 <= k < |s| :: u[k + 1] == t[k];
    assert u[0] == t[|s|];
    forall i, j | 0 <= i < j < |u| && u[i] != null ensures u[i] != u[j] {
      if i == 0 {
        assert u[j] == t[j - 1];
      } else {
        assert u[i] == t[i - 1] && u[j] == t[j - 1];
      }
    }
    forall o: object | o in NonNull(t) ensures o in NonNull(u) {
      var k :| 0 <= k < |t| && t[k] == o;
      if k == |s| { assert u[0] == o; } else { assert u[k + 1] == o; }
    }
    forall o: object | o in NonNull(u) ensures o in NonNull(t) {
      var k :| 0 <= k < |u| && u[k] == o;
      if k == 0 { assert t[|s|] == o; } else { assert t[k - 1] == o; }
    }
  }

  /** Seven pointers to seven different blocks. */
  ghost predicate AllDifferent(p0: object?, p1: object?, p2: object?, p3: object?, p4: object?, p5: object?, p6: object?)
  {
    && p0 != p1 && p0 != p2 && p0 != p3 && p0 != p4 && p0 != p5 && p0 != p6
    && p1 != p2 && p1 != p3 && p1 != p4 && p1 != p5 && p1 != p6
    && p2 != p3 && p2 != p4 && p2 != p5 && p2 != p6
    && p3 != p4 && p3 != p5 && p3 != p6
    && p4 != p5 && p4 != p6
    && p5 != p6
  }

  lemma DifferentOf(xs: seq<object?>)
    requires |xs| == 7 && Distinct(xs) && forall i | 0 <= i < 7 :: xs[i] != null
    ensures AllDifferent(xs[0], xs[1], xs[2], xs[3], xs[4], xs[5], xs[6])
  {
  }

  /** The last three callocs: blue, alpha, face_idx. */
  method AllocateTail(heap: Heap, nv: nat, nf: nat) returns (b: array?<bv8>, a: array?<bv8>, idx: array?<array?<bv32>>)
    modifies heap
    ensures old(heap.calls) < heap.calls <= old(heap.calls) + 3
    ensures idx != null <==> NoneFail(heap, old(heap.calls), heap.calls)
    ensures idx != null ==> && b != null && a != null && b.Length == nv && a.Length == nv
                            && idx.Length == nf && forall i | 0 <= i < nf :: idx[i] == null
    ensures heap.live == old(heap.live) + NonNull([b as object?, a, idx])
    ensures fresh(NonNull([b as object?, a, idx])) && Apart([b as object?, a, idx], old(heap.live))
    ensures idx != null ==> fresh(b) && fresh(a) && fresh(idx)
  {
    idx := null;
    b, a := AllocatePair(heap, nv, 0 as bv8);
    ghost var c := heap.calls;
    if a != null {
      idx := heap.Calloc<array?<bv32>>(nf, null);
      NoneFailSplit(heap, old(heap.calls), c, heap.calls);
    }
    ghost var p: seq<object?> := [b, a];
    ghost var q: seq<object?> := [idx];
    Join(p, q, old(heap.live));
    assert p + q == [b as object?, a, idx];
  }

  /** The red and green callocs, then the tail. */
  method AllocateMid(heap: Heap, nv: nat, nf: nat)
    returns (r: array?<bv8>, g: array?<bv8>, b: array?<bv8>, a: array?<bv8>, idx: array?<array?<bv32>>)
    modifies heap
    ensures old(heap.calls) < heap.calls <= old(heap.calls) + 5
    ensures idx != null <==> NoneFail(heap, old(heap.calls), heap.calls)
    ensures idx != null ==> && r != null && g != null && b != null && a != null
                            && r.Length == nv && g.Length == nv && b.Length == nv && a.Length == nv
                            && idx.Length == nf && forall i | 0 <= i < nf :: idx[i] == null
    ensures heap.live == old(heap.live) + NonNull([r as object?, g, b, a, idx])
    ensures fresh(NonNull([r as object?, g, b, a, idx])) && Apart([r as object?, g, b, a, idx], old(heap.live))
    ensures idx != null ==> fresh(r) && fresh(g) && fresh(b) && fresh(a) && fresh(idx)
  {
    b, a, idx := null, null, null;
    r, g := AllocatePair(heap, nv, 0 as bv8);
    ghost var c := heap.calls;
    if g != null {
      b, a, idx := AllocateTail(heap, nv, nf);
      NoneFailSplit(heap, old(heap.calls), c, heap.calls);
    }
    ghost var p: seq<object?> := [r, g];
    ghost var q: seq<object?> := [b, a, idx];
    Join(p, q, old(heap.live));
    assert p + q == [r as object?, g, b, a, idx];
  }

  /** The seven callocs of load_ply in its order: vertex positions,
      normals, red, green, blue, alpha, face_idx; each is made only when
      the one before it succeeded. */
  method AllocateSeven(heap: Heap, nv: nat, nf: nat)
    returns (v: array?<Vec3>, n: array?<Vec3>, r: array?<bv8>, g: array?<bv8>, b: array?<bv8>, a: array?<bv8>,
             idx: array?<array?<bv32>>)
    modifies heap
    ensures old(heap.calls) < heap.calls <= old(heap.calls) + 7
    ensures idx != null <==> NoneFail(heap, old(heap.calls), heap.calls)
    ensures idx != null ==> && v != null && n != null && r != null && g != null && b != null && a != null
                            && v.Length == nv && n.Length == nv
                            && r.Length == nv && g.Length == nv && b.Length == nv && a.Length == nv
                            && idx.Length == nf && forall i | 0 <= i < nf :: idx[i] == null
    ensures heap.live == old(heap.live) + NonNull([idx as object?, v, n, r, g, b, a])
    ensures fresh(NonNull([idx as object?, v, n, r, g, b, a]))
    ensures Apart([idx as object?, v, n, r, g, b, a], old(heap.live))
    ensures idx != null ==> fresh(v) && fresh(n) && fresh(r) && fresh(g) && fresh(b) && fresh(a) && fresh(idx)
  {
    r, g, b, a, idx := null, null, null, null, null;
    v, n := AllocatePair(heap, nv, Vec3(0, 0, 0));
    ghost var c := heap.calls;
    if n != null {
      r, g, b, a, idx := AllocateMid(heap, nv, nf);
      NoneFailSplit(heap, old(heap.calls), c, heap.calls);
    }
    ghost var p: seq<object?> := [v, n];
    ghost var q: seq<object?> := [r, g, b, a, idx];
    Join(p, q, old(heap.live));
    ghost var s6: seq<object?> := [v as object?, n as object?, r as object?, g as object?, b as object?, a as object?];
    assert s6 + [idx] == p + q;
    Rotate(s6, idx, old(heap.live));
    assert [idx] + s6 == [idx as object?, v, n, r, g, b, a];
  }

  /** Storing a new block a into an empty slot of xs. */
  lemma StoreBlock(xs: seq<object?>, i: nat, a: object, L: set<object>)
    requires i < |xs| && xs[i] == null && Apart(xs, L) && a !in L + NonNull(xs)
    ensures NonNull(xs[i := a]) == NonNull(xs) + {a}
    ensures Apart(xs[i := a], L)
  {
    var ys := xs[i := a];
    assert ys[i] == a;
    forall o: object | o in NonNull(ys) ensures o in NonNull(xs) + {a} {
      var k :| 0 <= k < |ys| && ys[k] == o;
      if k != i {
        assert xs[k] == o;
      }
    }
    forall o: object | o in NonNull(xs) ensures o in NonNull(ys) {
      var k :| 0 <= k < |xs| && xs[k] == o;
      assert ys[k] == o;
    }
  }

  /** One face record as the face loop reads it: the count byte, the
      calloc of the list (one slot more than the count), the count stored
      in slot 0, the list stored into idx[i], then the corners.  The list
      stays in idx[i] when the corners cannot be read, so that free_ply
      frees it. */
  method ReadFace(f: PlyFile, heap: Heap, idx: array<array?<bv32>>, i: nat) returns (ok: bool)
    requires f.Valid() && i < idx.Length && idx[i] == null && idx in heap.live
    modifies f, heap, idx
    ensures f.Valid()
    ensures old(heap.calls) <= heap.calls <= old(heap.calls) + 1
    ensures ok <==> FaceAt(f.data, old(f.pos)).Some? && NoneFail(heap, old(heap.calls), heap.calls)
    ensures ok ==> idx[i] != null && FaceAt(f.data, old(f.pos)) == Some((idx[i][..], f.pos))
    ensures idx[..] == old(idx[..])[i := idx[i]]
    ensures heap.live == old(heap.live) + Opt(idx[i])
    ensures idx[i] != null ==> fresh(idx[i]) && idx[i] !in old(heap.live)
  {
    var read, len := f.ReadUchar();
    if !read {
      return false;
    }
    var list := heap.Calloc<bv32>(len as nat + 1, 0);
    if list == null {
      return false;
    }
    list[0] := len as bv32;
    idx[i] := list;
    ok := ReadCorners(f, list, len as nat);
  }

  /** The face lists idx holds after i passes of the face loop: lists,
      in its first i slots, and nothing after them. */
  ghost predicate ListsRead(idx: array<array?<bv32>>, i: nat, lists: seq<seq<bv32>>)
    reads idx, set k | 0 <= k < idx.Length :: idx[k]
  {
    && i <= idx.Length && |lists| == i
    && (forall k | 0 <= k < i :: idx[k] != null && idx[k][..] == lists[k])
    && forall k | i <= k < idx.Length :: idx[k] == null
  }

  /** One pass of the face loop, with what the loop keeps: the faces read
      so far are those Faces describes, the calls of calloc have all
      succeeded, and the lists are new blocks, all different. */
  method FaceStep(f: PlyFile, heap: Heap, idx: array<array?<bv32>>, i: nat,
                  ghost p: nat, ghost L: set<object>, ghost c0: nat, ghost lists: seq<seq<bv32>>)
    returns (ok: bool, ghost lists': seq<seq<bv32>>)
    requires f.Valid() && i < idx.Length && idx in L
    requires ListsRead(idx, i, lists) && Faces(f.data, p, i) == Some((lists, f.pos))
    requires c0 <= heap.calls && NoneFail(heap, c0, heap.calls)
    requires heap.live == L + NonNull(idx[..]) && Apart(idx[..], L)
    modifies f, heap, idx
    ensures f.Valid() && c0 <= heap.calls
    ensures heap.live == L + NonNull(idx[..]) && Apart(idx[..], L)
    ensures ok ==> && ListsRead(idx, i + 1, lists') && Faces(f.data, p, i + 1) == Some((lists', f.pos))
                   && NoneFail(heap, c0, heap.calls)
    ensures !ok ==> Faces(f.data, p, idx.Length).None? || !NoneFail(heap, c0, heap.calls)
  {
    ghost var c, q, before := heap.calls, f.pos, idx[..];
    ok := ReadFace(f, heap, idx, i);
    NoneFailSplit(heap, c0, c, heap.calls);
    if idx[i] != null {
      StoreBlock(before, i, idx[i], L);
    } else {
      assert idx[..] == before;
    }
    lists' := lists;
    if !ok {
      if FaceAt(f.data, q).None? {
        FacesStuck(f.data, p, i, idx.Length);
      }
      return;
    }
    FacesSnoc(f.data, p, i + 1, lists, q, idx[i][..], f.pos);
    lists' := lists + [idx[i][..]];
  }

  /** The tail of a run of different blocks is a run of different blocks. */
  lemma DistinctSuffix(xs: seq<object?>, ys: seq<object?>)
    requires Distinct(xs + ys)
    ensures Distinct(ys) && NonNull(ys) <= NonNull(xs + ys)
  {
    var zs := xs + ys;
    forall i, j | 0 <= i < j < |ys| && ys[i] != null ensures ys[i] != ys[j] {
      assert zs[|xs| + i] == ys[i] && zs[|xs| + j] == ys[j];
    }
    forall o: object | o in NonNull(ys) ensures o in NonNull(zs) {
      var k :| 0 <= k < |ys| && ys[k] == o;
      assert zs[|xs| + k] == o;
    }
  }

  /** New face lists, none of them among the live blocks L, put in front
      of seven blocks already owned: all the blocks stay different. */
  lemma OwnsLists(lists: seq<object?>, seven: seq<object?>, before: seq<object?>, L: set<object>)
    requires Distinct(before + seven) && NonNull(before + seven) <= L && Apart(lists, L)
    ensures Distinct(lists + seven) && NonNull(lists + seven) == NonNull(lists) + NonNull(seven)
    ensures NonNull(seven) <= L
  {
    DistinctSuffix(before, seven);
    DistinctAppend(lists, seven);
  }

  /** The loaded model: the counts, the per-vertex arrays and the face
      lists, each list being its corner count followed by the corners. */
  class StanfordPly {
    var numVertex: int
    var numFace: int
    var vertex: array?<Vec3>
    var normal: array?<Vec3>
    var cR: array?<bv8>
    var cG: array?<bv8>
    var cB: array?<bv8>
    var cA: array?<bv8>
    var faceIdx: array?<array?<bv32>>

    constructor ()
      ensures Cleared()
    {
      numVertex, numFace := -1, -1;
      vertex, normal := null, null;
      cR, cG, cB, cA := null, null, null, null;
      faceIdx := null;
    }

    /** The state load_ply starts from: no counts and no arrays. */
    predicate Cleared()
      reads this
    {
      && numVertex == -1 && numFace == -1
      && vertex == null && normal == null
      && cR == null && cG == null && cB == null && cA == null
      && faceIdx == null
    }

    /** Every array allocated with the length of its count. */
    predicate Shaped()
      reads this
    {
      && numVertex >= 0 && numFace >= 0
      && vertex != null && normal != null
      && cR != null && cG != null && cB != null && cA != null
      && faceIdx != null
      && vertex.Length == numVertex && normal.Length == numVertex
      && cR.Length == numVertex && cG.Length == numVertex
      && cB.Length == numVertex && cA.Length == numVertex
      && faceIdx.Length == numFace
    }

    /** A loaded model: shaped, and every face list present. */
    predicate Loaded()
      reads this, faceIdx
    {
      Shaped() && forall i | 0 <= i < numFace :: faceIdx[i] != null
    }

    /** The vertices the per-vertex arrays hold. */
    function VertexContents(): (vs: seq<Vertex>)
      requires Shaped()
      reads this, vertex, normal, cR, cG, cB, cA
      ensures |vs| == numVertex
    {
      Zip(vertex[..], normal[..], cR[..], cG[..], cB[..], cA[..])
    }

    /** The face lists face_idx points to. */
    function FaceContents(): (fs: seq<seq<bv32>>)
      requires Loaded()
      reads this, faceIdx, set i | 0 <= i < numFace :: faceIdx[i]
      ensures |fs| == numFace
    {
      ListsOf(faceIdx[..])
    }

    /** The model a loaded struct holds. */
    function Contents(): Ply
      requires Loaded()
      reads this, vertex, normal, cR, cG, cB, cA, faceIdx, set i | 0 <= i < numFace :: faceIdx[i]
    {
      Ply(VertexContents(), FaceContents())
    }

    /** The face lists face_idx points to, as pointers. */
    ghost function Lists(): seq<object?>
      reads this, faceIdx
    {
      if faceIdx == null then [] else faceIdx[..]
    }

    /** The seven pointers the struct holds, in the order free_ply frees them. */
    ghost function Seven(): seq<object?>
      reads this
    {
      [faceIdx as object?, vertex as object?, normal as object?,
       cR as object?, cG as object?, cB as object?, cA as object?]
    }

    /** The pointers free_ply frees, in the order it frees them. */
    ghost function Blocks(): seq<object?>
      reads this, faceIdx
    {
      Lists() + Seven()
    }

    /** The blocks the struct points to. */
    ghost function Footprint(): set<object>
      reads this, faceIdx
    {
      NonNull(Blocks())
    }

    /** Every block the struct points to is live, and none is pointed to
        twice, so that free_ply frees each exactly once. */
    ghost predicate Owns(heap: Heap)
      reads this, faceIdx, heap
    {
      && (faceIdx != null ==> numFace == faceIdx.Length)
      && Footprint() <= heap.live
      && Distinct(Blocks())
    }

    /** The seven callocs of load_ply; the counts are stored once all
        seven have succeeded. */
    method AllocateAll(heap: Heap, nv: nat, nf: nat) returns (ok: bool)
      requires Cleared()
      modifies this, heap
      ensures old(heap.calls) < heap.calls <= old(heap.calls) + 7
      ensures ok <==> NoneFail(heap, old(heap.calls), heap.calls)
      ensures ok ==> && Shaped() && Separate() && numVertex == nv && numFace == nf
                     && forall i | 0 <= i < nf :: faceIdx[i] == null
      ensures !ok ==> numVertex == -1 && numFace == -1 && faceIdx == null
      ensures ok ==> fresh(vertex) && fresh(normal) && fresh(cR) && fresh(cG) && fresh(cB) && fresh(cA) && fresh(faceIdx)
      ensures Owns(heap) && heap.live == old(heap.live) + Footprint() && heap.live - Footprint() == old(heap.live)
      ensures fresh(Footprint())
    {
      var v, n, r, g, b, a, idx := AllocateSeven(heap, nv, nf);
      vertex, normal, cR, cG, cB, cA, faceIdx := v, n, r, g, b, a, idx;
      ok := idx != null;
      if ok {
        numVertex, numFace := nv, nf;
        DifferentOf(Seven());
      }
      NullsFirst(Lists(), Seven());
    }

    /** The vertex the per-vertex arrays hold at index k. */
    ghost function VertexIn(k: nat): Vertex
      requires Shaped() && k < numVertex
      reads this, vertex, normal, cR, cG, cB, cA
    {
      Vertex(vertex[k], normal[k], cR[k], cG[k], cB[k], cA[k])
    }

    /** The stores of one pass of the vertex loop: the vertex v into
        index i of the six arrays. */
    method StoreVertex(i: nat, v: Vertex)
      requires Shaped() && Separate() && i < numVertex
      modifies vertex, normal, cR, cG, cB, cA
      ensures VertexIn(i) == v
      ensures forall k | 0 <= k < numVertex && k != i :: VertexIn(k) == old(VertexIn(k))
    {
      vertex[i] := v.position;
      normal[i] := v.normal;
      cR[i] := v.red;
      cG[i] := v.green;
      cB[i] := v.blue;
      cA[i] := v.alpha;
    }

    /** The vertex loop of load_ply: it reads what Vertices describes and
        leaves the vertices in the six arrays. */
    method ReadVertices(f: PlyFile) returns (ok: bool)
      requires f.Valid() && Shaped() && Separate()
      modifies f, vertex, normal, cR, cG, cB, cA
      ensures f.Valid()
      ensures ok <==> Vertices(f.data, old(f.pos), numVertex).Some?
      ensures ok ==> && Vertices(f.data, old(f.pos), numVertex) == Some(VertexContents())
                     && f.pos == old(f.pos) + VERTEX_BYTES * numVertex
    {
      ghost var p := f.pos;
      var i := 0;
      while i < numVertex
        invariant 0 <= i <= numVertex
        invariant f.Valid() && f.pos == p + VERTEX_BYTES * i
        invariant forall k | 0 <= k < i :: VertexNo(f.data, p, k) == Some(VertexIn(k))
      {
        var read, v := f.ReadVertexRecord();
        if !read {
          VerticesStuck(f.data, p, i, numVertex);
          return false;
        }
        StoreVertex(i, v);
        i := i + 1;
      }
      VerticesSpec(f.data, p, numVertex);
      assert Vertices(f.data, p, numVertex).value == VertexContents();
      ok := true;
    }

    /** The face loop of load_ply: it reads what Faces describes, and the
        lists it allocates are all stored in face_idx, new and different,
        whether or not it succeeds. */
    method ReadFaces(f: PlyFile, heap: Heap) returns (ok: bool)
      requires f.Valid() && Shaped() && faceIdx in heap.live
      requires forall i | 0 <= i < numFace :: faceIdx[i] == null
      modifies f, heap, faceIdx
      ensures f.Valid() && old(heap.calls) <= heap.calls
      ensures ok <==> Faces(f.data, old(f.pos), numFace).Some? && NoneFail(heap, old(heap.calls), heap.calls)
      ensures ok ==> Loaded() && Faces(f.data, old(f.pos), numFace).value.0 == FaceContents()
      ensures heap.live == old(heap.live) + NonNull(Lists())
      ensures Apart(Lists(), old(heap.live))
    {
      ghost var p, L, c0 := f.pos, heap.live, heap.calls;
      ghost var lists: seq<seq<bv32>> := [];
      assert NonNull(faceIdx[..]) == {};
      var i := 0;
      while i < numFace
        invariant 0 <= i <= numFace
        invariant f.Valid() && ListsRead(faceIdx, i, lists) && Faces(f.data, p, i) == Some((lists, f.pos))
        invariant c0 <= heap.calls && NoneFail(heap, c0, heap.calls)
        invariant heap.live == L + NonNull(faceIdx[..]) && Apart(faceIdx[..], L)
      {
        ok, lists := FaceStep(f, heap, faceIdx, i, p, L, c0, lists);
        if !ok {
          return;
        }
        i := i + 1;
      }
      assert lists == FaceContents();
      ok := true;
    }

    /** The vertex loop, then the face loop, on a freshly allocated
        struct: it reads what ParseBody describes.  The blocks it leaves
        behind are owned by the struct, and apart from them the heap is
        as before. */
    method ReadBody(f: PlyFile, heap: Heap) returns (ok: bool)
      requires f.Valid() && Shaped() && Separate() && Owns(heap)
      requires forall i | 0 <= i < numFace :: faceIdx[i] == null
      modifies f, heap, vertex, normal, cR, cG, cB, cA, faceIdx
      ensures f.Valid() && old(heap.calls) <= heap.calls
      ensures ok <==> && ParseBody(f.data, numVertex, numFace, old(f.pos)).Some?
                      && NoneFail(heap, old(heap.calls), heap.calls)
      ensures ok ==> Loaded() && ParseBody(f.data, numVertex, numFace, old(f.pos)) == Some(Contents())
      ensures Owns(heap) && heap.live - Footprint() == old(heap.live - Footprint())
    {
      ghost var L, before, p := heap.live, Lists(), f.pos;
      assert Blocks()[|before|] == faceIdx;
      ok := ReadVertices(f);
      if ok {
        ghost var vs := VertexContents();
        ok := ReadFaces(f, heap);
        assert Lists() == faceIdx[..];
        assert VertexContents() == vs;
        ParseBodyOf(f.data, numVertex, numFace, p, vs);
      }
      OwnsLists(Lists(), Seven(), before, L);
    }

    /** load_ply after its header: the seven callocs and the vertex and
        face loops, then free_ply when one of them fails.  It succeeds
        exactly when the body parses and no calloc fails. */
    method LoadBody(f: PlyFile, heap: Heap, nv: nat, nf: nat) returns (ok: bool)
      requires f.Valid() && Cleared()
      modifies this, f, heap
      ensures ok <==> ParseBody(f.data, nv, nf, old(f.pos)).Some? && NoneFail(heap, old(heap.calls), heap.calls)
      ensures ok ==> && Loaded() && ParseBody(f.data, nv, nf, old(f.pos)) == Some(Contents())
                     && Owns(heap) && heap.live == old(heap.live) + Footprint()
      ensures !ok ==> heap.live == old(heap.live)
    {
      ok := AllocateAll(heap, nv, nf);
      if ok {
        ghost var c1 := heap.calls;
        ok := ReadBody(f, heap);
        NoneFailSplit(heap, old(heap.calls), c1, heap.calls);
      }
      if !ok {
        FreePly(heap);
      }
    }

    /** load_ply.  f is the opened file, null when fopen failed.  The
        struct is cleared first; then the header is read, the seven arrays
        allocated and the vertex and face records read.  It succeeds
        exactly when the file parses (ParsePly) and no calloc fails, and
        then holds the parsed model and owns every block allocated; on
        failure free_ply has released all of them. */
    method LoadPly(f: PlyFile?, heap: Heap) returns (r: int)
      requires f != null ==> f.Valid() && f.pos == 0
      modifies this, f, heap
      ensures r == 0 || r == -1
      ensures r == 0 <==> f != null && ParsePly(f.data).Some? && NoneFail(heap, old(heap.calls), heap.calls)
      ensures r == 0 ==> && Loaded() && ParsePly(f.data) == Some(Contents())
                         && Owns(heap) && heap.live == old(heap.live) + Footprint()
      ensures r == -1 ==> heap.live == old(heap.live)
      ensures f == null ==> Cleared()
    {
      numVertex, numFace := -1, -1;
      vertex, normal, cR, cG, cB, cA, faceIdx := null, null, null, null, null, null, null;
      if f == null {
        return -1;
      }
      var ok, c := ReadHeader(f);
      if !ok {
        NullsFirst([], Seven());
        FreePly(heap);
        return -1;
      }
      ghost var body := f.pos;
      ok := LoadBody(f, heap, c.vertices as nat, c.faces as nat);
      if !ok {
        return -1;
      }
      ParsePlyOf(f.data, c.vertices as nat, c.faces as nat, body, Contents());
      r := 0;
    }

    /** free_ply: the face lists, face_idx, then the per-vertex arrays. */
    method FreePly(heap: Heap)
      requires Owns(heap)
      modifies heap
      ensures heap.calls == old(heap.calls)
      ensures heap.live == old(heap.live) - Footprint()
    {
      ghost var blocks := Blocks();
      ghost var L := heap.live;
      ghost var n := |blocks| - 7;
      if faceIdx != null {
        var i := 0;
        while i < numFace
          invariant 0 <= i <= numFace == n
          invariant heap.calls == old(heap.calls)
          invariant heap.live == L - NonNull(blocks[..i])
        {
          FreeNth(heap, faceIdx[i], blocks, i, L);
          i := i + 1;
        }
        FreeNth(heap, faceIdx, blocks, n, L);
      } else {
        FreeNext(blocks, 0);
      }
      FreeNth(heap, vertex, blocks, n + 1, L);
      FreeNth(heap, normal, blocks, n + 2, L);
      FreeNth(heap, cR, blocks, n + 3, L);
      FreeNth(heap, cG, blocks, n + 4, L);
      FreeNth(heap, cB, blocks, n + 5, L);
      FreeNth(heap, cA, blocks, n + 6, L);
      TakeAll(blocks);
    }

    /** The seven arrays are seven different blocks. */
    ghost predicate Separate()
      reads this
    {
      AllDifferent(faceIdx, vertex, normal, cR, cG, cB, cA)
    }

  }
}
