/**
 * Faces, the triangle index buffer and the vertex-to-face / vertex-to-vertex
 * adjacency that the mesh builds once at load time.  The imperative builders
 * are `MeshModel.Mesh.GetNeighboringFaces` and `MeshModel.Mesh.GetNeighbors`;
 * this module states what their results are.
 */
module Topology {

  /** A glm::ivec3 face: three signed vertex indices in winding order. */
  datatype Face = Face(x: int, y: int, z: int)

  const TwoTo32: int := 0x1_0000_0000

  predicate HasCorner(f: Face, v: int) {
    v == f.x || v == f.y || v == f.z
  }

  /** Corner `k` of a face: `x`, `y` or `z`. */
  function Corner(f: Face, k: int): int
    requires 0 <= k < 3
  {
    if k == 0 then f.x else if k == 1 then f.y else f.z
  }

  predicate DistinctCorners(f: Face) {
    f.x != f.y && f.y != f.z && f.x != f.z
  }

  predicate NoDuplicates(s: seq<int>) {
    forall i, j :: 0 <= i < j < |s| ==> s[i] != s[j]
  }

  /** Every entry of `s` is an index into a sequence of length `n`. */
  predicate InRange(s: seq<int>, n: int) {
    forall k :: 0 <= k < |s| ==> 0 <= s[k] < n
  }

  predicate StrictlyIncreasing(s: seq<int>) {
    forall i, j :: 0 <= i < j < |s| ==> s[i] < s[j]
  }

  /** The corners `get_neighbors` collects from face `f` for vertex `v`: the
    * first of `x`, `y`, `z` that equals `v` decides which two are taken, and a
    * face without `v` contributes nothing. */
  function OtherCorners(f: Face, v: int): (r: seq<int>)
    ensures |r| == 2 <==> HasCorner(f, v)
    ensures !HasCorner(f, v) ==> r == []
    ensures forall c :: c in r ==> HasCorner(f, c)
    ensures DistinctCorners(f) && HasCorner(f, v) ==>
      v !in r && multiset(r) + multiset{v} == multiset{f.x, f.y, f.z}
  {
    if v == f.x then [f.y, f.z]
    else if v == f.y then [f.x, f.z]
    else if v == f.z then [f.x, f.y]
    else []
  }

  /** A `std::find` followed by a `push_back` when the value is absent. */
  function AppendIfAbsent(s: seq<int>, c: int): (r: seq<int>)
    ensures c in r
    ensures forall x :: x in r <==> x in s || x == c
    ensures |s| <= |r| <= |s| + 1 && r[..|s|] == s
    ensures |r| == |s| + 1 <==> c !in s
    ensures NoDuplicates(s) ==> NoDuplicates(r)
  {
    if c in s then s else s + [c]
  }

  /** In a list without duplicates, entry `k` does not occur before `k`. */
  lemma NotInPrefix(s: seq<int>, k: int)
    requires NoDuplicates(s) && 0 <= k < |s|
    ensures s[k] !in s[..k]
  {
  }

  /** `s` is `prefix` followed by new entries that are pairwise distinct and
    * absent from `prefix`. */
  predicate ExtendsFresh(prefix: seq<int>, s: seq<int>) {
    && |prefix| <= |s|
    && s[..|prefix|] == prefix
    && NoDuplicates(s[|prefix|..])
    && (forall x :: x in s[|prefix|..] ==> x !in prefix)
  }

  /** `AppendIfAbsent` keeps the new entries fresh, adding at most `c`. */
  lemma AppendKeepsFresh(prefix: seq<int>, s: seq<int>, c: int)
    requires ExtendsFresh(prefix, s)
    ensures ExtendsFresh(prefix, AppendIfAbsent(s, c))
    ensures forall x :: x in AppendIfAbsent(s, c)[|prefix|..] ==> x in s[|prefix|..] || x == c
  {
    var n := |prefix|;
    if c !in s {
      var r := s + [c];
      assert r[n..] == s[n..] + [c];
      assert c !in s[n..] && c !in prefix by {
        assert s == prefix + s[n..];
      }
    }
  }

  /** The two `find`/`push_back` steps for one face keep the new entries
    * fresh, keep every old entry, add both corners and nothing else. */
  lemma AppendTwoKeepsFresh(prefix: seq<int>, s: seq<int>, a: int, b: int)
    requires ExtendsFresh(prefix, s)
    ensures var r := AppendIfAbsent(AppendIfAbsent(s, a), b);
      && ExtendsFresh(prefix, r)
      && (forall x :: x in s ==> x in r)
      && a in r && b in r
      && (forall x :: x in r[|prefix|..] ==> x in s[|prefix|..] || x == a || x == b)
  {
    AppendKeepsFresh(prefix, s, a);
    AppendKeepsFresh(prefix, AppendIfAbsent(s, a), b);
  }

  /** The conversion of a signed index to the `unsigned int` of the index
    * buffer: the value modulo 2^32. */
  function U32(v: int): (r: nat)
    ensures r < TwoTo32
    ensures (r - v) % TwoTo32 == 0
    ensures 0 <= v < TwoTo32 ==> r == v
  {
    v % TwoTo32
  }

  /** `faces` takes the loader's `indices` three at a time, in order. */
  predicate GroupsOfThree(indices: seq<int>, faces: seq<Face>) {
    && |faces| == |indices| / 3
    && forall f :: 0 <= f < |faces| ==>
      3 * f + 2 < |indices| && faces[f] == Face(indices[3 * f], indices[3 * f + 1], indices[3 * f + 2])
  }

  /** The faces the loader's `indices` describe. */
  function FacesOf(indices: seq<int>): (r: seq<Face>)
    requires |indices| % 3 == 0
    ensures GroupsOfThree(indices, r)
  {
    seq(|indices| / 3, f requires 0 <= f < |indices| / 3 =>
      Face(indices[3 * f], indices[3 * f + 1], indices[3 * f + 2]))
  }

  /** `FacesOf` is the only grouping of the indices three at a time. */
  lemma GroupsOfThreeUnique(indices: seq<int>, faces: seq<Face>)
    requires |indices| % 3 == 0 && GroupsOfThree(indices, faces)
    ensures faces == FacesOf(indices)
  {
  }

  /** The triangle index buffer: the faces' corners one after another. */
  function Flatten(faces: seq<Face>): (r: seq<nat>)
    ensures |r| == 3 * |faces|
    ensures forall i, k :: 0 <= i < |faces| && 0 <= k < 3 ==> r[3 * i + k] == U32(Corner(faces[i], k))
  {
    if faces == [] then []
    else
      var f := faces[|faces| - 1];
      Flatten(faces[..|faces| - 1]) + [U32(f.x), U32(f.y), U32(f.z)]
  }

  /** Appending a face appends its three corners to the index buffer. */
  lemma FlattenAppend(faces: seq<Face>, f: Face)
    ensures Flatten(faces + [f]) == Flatten(faces) + [U32(f.x), U32(f.y), U32(f.z)]
  {
    assert (faces + [f])[..|faces|] == faces;
  }

  /** `F` lists, in increasing order and once each, exactly the faces that
    * have `v` as a corner. */
  ghost predicate IsIncidentFaceList(faces: seq<Face>, v: int, F: seq<int>) {
    && StrictlyIncreasing(F)
    && (forall f :: f in F <==> 0 <= f < |faces| && HasCorner(faces[f], v))
  }

  /** Every corner `get_neighbors` collects from the faces in `F` is in `N`. */
  ghost predicate CoversFaces(faces: seq<Face>, v: int, F: seq<int>, N: seq<int>) {
    forall f, c :: f in F && 0 <= f < |faces| && c in OtherCorners(faces[f], v) ==> c in N
  }

  /** Every entry of `N` is a corner collected from some face in `F`. */
  ghost predicate JustifiedBy(faces: seq<Face>, v: int, F: seq<int>, N: seq<int>) {
    forall c :: c in N ==> exists f :: f in F && 0 <= f < |faces| && c in OtherCorners(faces[f], v)
  }

  /** `N` lists, once each, exactly the corners `get_neighbors` collects from
    * the faces in `F`. */
  ghost predicate IsNeighborList(faces: seq<Face>, v: int, F: seq<int>, N: seq<int>) {
    && NoDuplicates(N)
    && CoversFaces(faces, v, F, N)
    && JustifiedBy(faces, v, F, N)
  }

  /** For each of `n` vertices, `faceTable` lists its incident faces and
    * `vertexTable` its neighbours, with every entry a valid index. */
  ghost predicate AdjacencyTables(faces: seq<Face>, n: int, faceTable: seq<seq<int>>, vertexTable: seq<seq<int>>) {
    && |faceTable| == n
    && |vertexTable| == n
    && forall v :: 0 <= v < n ==>
      && IsIncidentFaceList(faces, v, faceTable[v])
      && IsNeighborList(faces, v, faceTable[v], vertexTable[v])
      && InRange(faceTable[v], |faces|)
      && InRange(vertexTable[v], n)
  }

  /** Handling a face that has `v` as a corner, by appending its other two
    * corners `a` and `b` where absent, keeps the collected list fresh,
    * covering and justified. */
  lemma AddCornersStep(faces: seq<Face>, v: int, F: seq<int>, prefix: seq<int>, s: seq<int>, f: int, a: int, b: int)
    requires ExtendsFresh(prefix, s)
    requires CoversFaces(faces, v, F, s) && JustifiedBy(faces, v, F, s[|prefix|..])
    requires 0 <= f < |faces| && OtherCorners(faces[f], v) == [a, b]
    ensures var r := AppendIfAbsent(AppendIfAbsent(s, a), b);
      && ExtendsFresh(prefix, r)
      && CoversFaces(faces, v, F + [f], r)
      && JustifiedBy(faces, v, F + [f], r[|prefix|..])
  {
    var r := AppendIfAbsent(AppendIfAbsent(s, a), b);
    AppendTwoKeepsFresh(prefix, s, a, b);
    CoversStep(faces, v, F, s, f, r);
    JustifiedStep(faces, v, F, s[|prefix|..], f, r[|prefix|..]);
  }

  /** A face without `v` adds nothing and leaves the list covering and
    * justified. */
  lemma SkipFaceStep(faces: seq<Face>, v: int, F: seq<int>, prefix: seq<int>, s: seq<int>, f: int)
    requires |prefix| <= |s|
    requires CoversFaces(faces, v, F, s) && JustifiedBy(faces, v, F, s[|prefix|..])
    requires 0 <= f < |faces| && !HasCorner(faces[f], v)
    ensures CoversFaces(faces, v, F + [f], s) && JustifiedBy(faces, v, F + [f], s[|prefix|..])
  {
    CoversStep(faces, v, F, s, f, s);
    JustifiedStep(faces, v, F, s[|prefix|..], f, s[|prefix|..]);
  }

  /** Every face's corners index a vertex table of length `n`. */
  predicate CornersInRange(faces: seq<Face>, n: int) {
    forall f :: 0 <= f < |faces| ==> 0 <= faces[f].x < n && 0 <= faces[f].y < n && 0 <= faces[f].z < n
  }

  /** Handling one more face keeps `N'` covering the faces seen so far. */
  lemma CoversStep(faces: seq<Face>, v: int, F: seq<int>, N: seq<int>, f: int, N': seq<int>)
    requires CoversFaces(faces, v, F, N)
    requires forall x :: x in N ==> x in N'
    requires 0 <= f < |faces| && forall c :: c in OtherCorners(faces[f], v) ==> c in N'
    ensures CoversFaces(faces, v, F + [f], N')
  {
    forall g, c | g in F + [f] && 0 <= g < |faces| && c in OtherCorners(faces[g], v)
      ensures c in N'
    {
      if g != f {
        assert g in F;
      }
    }
  }

  /** Entries added while handling face `f` are justified by `f`. */
  lemma JustifiedStep(faces: seq<Face>, v: int, F: seq<int>, N: seq<int>, f: int, N': seq<int>)
    requires JustifiedBy(faces, v, F, N)
    requires 0 <= f < |faces| && forall x :: x in N' ==> x in N || x in OtherCorners(faces[f], v)
    ensures JustifiedBy(faces, v, F + [f], N')
  {
    forall c | c in N'
      ensures exists g :: g in F + [f] && 0 <= g < |faces| && c in OtherCorners(faces[g], v)
    {
      if c in N {
        var g :| g in F && 0 <= g < |faces| && c in OtherCorners(faces[g], v);
        assert g in F + [f];
      } else {
        assert f in F + [f];
      }
    }
  }

  /** When every face's corners index the vertex table, so does every
    * neighbour list. */
  lemma NeighborsInRange(faces: seq<Face>, v: int, F: seq<int>, N: seq<int>, n: int)
    requires IsNeighborList(faces, v, F, N)
    requires CornersInRange(faces, n)
    ensures InRange(N, n)
  {
    forall k | 0 <= k < |N|
      ensures 0 <= N[k] < n
    {
      assert N[k] in N;
      var f :| f in F && 0 <= f < |faces| && N[k] in OtherCorners(faces[f], v);
      assert HasCorner(faces[f], N[k]);
    }
  }

  /** On faces with three distinct corners, no vertex is its own neighbour. */
  lemma NoSelfNeighbor(faces: seq<Face>, v: int, F: seq<int>, N: seq<int>)
    requires IsNeighborList(faces, v, F, N)
    requires forall f :: 0 <= f < |faces| ==> DistinctCorners(faces[f])
    ensures v !in N
  {
    forall c | c in N
      ensures c != v
    {
      var f :| f in F && 0 <= f < |faces| && c in OtherCorners(faces[f], v);
      assert DistinctCorners(faces[f]);
    }
  }

  /** One direction of symmetry: if `v` is collected as a neighbour of `u`
    * from a face they share, that face is incident to `v` and yields `u`. */
  lemma NeighborOfNeighbor(faces: seq<Face>, u: int, Fu: seq<int>, Nu: seq<int>,
                           v: int, Fv: seq<int>, Nv: seq<int>)
    requires forall f :: 0 <= f < |faces| ==> DistinctCorners(faces[f])
    requires IsIncidentFaceList(faces, u, Fu) && IsNeighborList(faces, u, Fu, Nu)
    requires IsIncidentFaceList(faces, v, Fv) && IsNeighborList(faces, v, Fv, Nv)
    ensures v in Nu ==> u in Nv
  {
    if v in Nu {
      var f :| f in Fu && 0 <= f < |faces| && v in OtherCorners(faces[f], u);
      var face := faces[f];
      assert HasCorner(face, u) && HasCorner(face, v) && u != v;
      assert f in Fv;
      assert u in OtherCorners(face, v);
    }
  }

  /** On faces with three distinct corners, adjacency is symmetric: `v` is a
    * neighbour of `u` exactly when `u` is a neighbour of `v`. */
  lemma AdjacencySymmetric(faces: seq<Face>, u: int, Fu: seq<int>, Nu: seq<int>,
                           v: int, Fv: seq<int>, Nv: seq<int>)
    requires forall f :: 0 <= f < |faces| ==> DistinctCorners(faces[f])
    requires IsIncidentFaceList(faces, u, Fu) && IsNeighborList(faces, u, Fu, Nu)
    requires IsIncidentFaceList(faces, v, Fv) && IsNeighborList(faces, v, Fv, Nv)
    ensures v in Nu <==> u in Nv
  {
    NeighborOfNeighbor(faces, u, Fu, Nu, v, Fv, Nv);
    NeighborOfNeighbor(faces, v, Fv, Nv, u, Fu, Nu);
  }

  /** The index buffer of the loaded faces holds the loader's indices in
    * order, each converted to `unsigned int`. */
  lemma IndexBufferHoldsIndices(indices: seq<int>)
    requires |indices| % 3 == 0
    ensures var index := Flatten(FacesOf(indices));
      |index| == |indices| && forall k :: 0 <= k < |indices| ==> index[k] == U32(indices[k])
  {
    var faces := FacesOf(indices);
    var index := Flatten(faces);
    forall k | 0 <= k < |indices|
      ensures index[k] == U32(indices[k])
    {
      var f, c := k / 3, k % 3;
      assert k == 3 * f + c;
      assert index[3 * f + c] == U32(Corner(faces[f], c));
    }
  }
}
