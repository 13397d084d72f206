/**
 * `Mesh`: the loader's construction of the geometry tables (faces, the
 * triangle index buffer, the per-vertex adjacency lists, the buffers resized
 * for later passes and the Taubin parameters) and the two adjacency builders
 * it calls for every vertex.
 *
 * The builders take the caller's vectors by reference and only `push_back`
 * into them; the model passes the vectors in and returns them extended.
 */
module MeshModel {
  import opened Linalg
  import opened Topology
  import opened GeometryModel

  class Mesh {
    const geom: Geometry

    /** `Mesh::Mesh` after the OBJ file is read: `vertices` are the positions
      * and `indices` the triangle corner indices, three per face. */
    constructor (vertices: seq<Vec3>, indices: seq<int>)
      requires |indices| % 3 == 0
      requires InRange(indices, |vertices|)
      ensures fresh(geom)
      ensures geom.vertices == vertices
      ensures geom.faces == FacesOf(indices)
      ensures geom.index == Flatten(geom.faces)
      ensures AdjacencyTables(geom.faces, |vertices|, geom.neighboringFaces, geom.neighboringVertices)
      ensures geom.TopologyValid()
      ensures geom.ResizedAndParameterised()
    {
      var faces, index := BuildFaces(indices, |vertices|);
      geom := new Geometry.Loaded(vertices, faces, index);
      new;
      var faceTable, vertexTable := BuildAdjacency();
      geom.SetAdjacency(faceTable, vertexTable);
    }

    /** The loop of `Mesh::Mesh` that fills, for every vertex, its incident
      * faces and its neighbouring vertices with `get_neighbors`. */
    method BuildAdjacency() returns (faceTable: seq<seq<int>>, vertexTable: seq<seq<int>>)
      requires CornersInRange(geom.faces, |geom.vertices|)
      ensures AdjacencyTables(geom.faces, |geom.vertices|, faceTable, vertexTable)
    {
      var fs, nv := geom.faces, |geom.vertices|;
      faceTable := Repeat([], nv);
      vertexTable := Repeat([], nv);
      var v := 0;
      while v < nv
        invariant 0 <= v <= nv
        invariant |faceTable| == nv && |vertexTable| == nv
        invariant forall u :: 0 <= u < v ==>
          && IsIncidentFaceList(fs, u, faceTable[u])
          && IsNeighborList(fs, u, faceTable[u], vertexTable[u])
          && InRange(faceTable[u], |fs|)
          && InRange(vertexTable[u], nv)
      {
        var neighboringVertices, neighboringFaces := GetNeighbors(v, [], []);
        assert neighboringFaces[0..] == neighboringFaces && neighboringVertices[0..] == neighboringVertices;
        NeighborsInRange(fs, v, neighboringFaces, neighboringVertices, nv);
        faceTable := faceTable[v := neighboringFaces];
        vertexTable := vertexTable[v := neighboringVertices];
        v := v + 1;
      }
    }

    /** `get_neighboring_faces`: append to `neighbors`, in increasing order,
      * the index of every face that has `vertexId` as a corner. */
    method GetNeighboringFaces(vertexId: int, neighbors: seq<int>) returns (result: seq<int>)
      ensures |neighbors| <= |result| && result[..|neighbors|] == neighbors
      ensures IsIncidentFaceList(geom.faces, vertexId, result[|neighbors|..])
    {
      result := neighbors;
      ghost var added: seq<int> := [];
      var i := 0;
      while i < |geom.faces|
        invariant 0 <= i <= |geom.faces|
        invariant result == neighbors + added
        invariant StrictlyIncreasing(added)
        invariant forall m :: 0 <= m < |added| ==> added[m] < i
        invariant forall f :: f in added <==> 0 <= f < i && HasCorner(geom.faces[f], vertexId)
      {
        var idv0, idv1, idv2 := geom.faces[i].x, geom.faces[i].y, geom.faces[i].z;
        if vertexId == idv0 || vertexId == idv1 || vertexId == idv2 {
          result := result + [i];
          added := added + [i];
        }
        i := i + 1;
      }
      assert result[|neighbors|..] == added;
    }

    /** `get_neighbors`: collect the incident faces, then, face by face, add
      * the two corners other than `vertexId` to `neighboringVertices` unless
      * they are already listed. */
    method GetNeighbors(vertexId: int, neighboringVertices: seq<int>, neighboringFaces: seq<int>)
      returns (vertices': seq<int>, faces': seq<int>)
      requires InRange(neighboringFaces, |geom.faces|)
      ensures |neighboringFaces| <= |faces'| && faces'[..|neighboringFaces|] == neighboringFaces
      ensures IsIncidentFaceList(geom.faces, vertexId, faces'[|neighboringFaces|..])
      ensures InRange(faces', |geom.faces|)
      ensures ExtendsFresh(neighboringVertices, vertices')
      ensures CoversFaces(geom.faces, vertexId, faces', vertices')
      ensures JustifiedBy(geom.faces, vertexId, faces', vertices'[|neighboringVertices|..])
    {
      var fs := geom.faces;
      faces' := GetNeighboringFaces(vertexId, neighboringFaces);
      forall k | 0 <= k < |faces'|
        ensures 0 <= faces'[k] < |fs|
      {
        if k >= |neighboringFaces| {
          assert faces'[k] in faces'[|neighboringFaces|..];
        }
      }
      var n := |neighboringVertices|;
      vertices' := neighboringVertices;
      var k := 0;
      while k < |faces'|
        invariant 0 <= k <= |faces'|
        invariant ExtendsFresh(neighboringVertices, vertices')
        invariant CoversFaces(fs, vertexId, faces'[..k], vertices')
        invariant JustifiedBy(fs, vertexId, faces'[..k], vertices'[n..])
      {
        var f := faces'[k];
        var idv0, idv1, idv2 := fs[f].x, fs[f].y, fs[f].z;
        assert faces'[..k + 1] == faces'[..k] + [f];
        if vertexId == idv0 {
          AddCornersStep(fs, vertexId, faces'[..k], neighboringVertices, vertices', f, idv1, idv2);
          vertices' := AppendIfAbsent(vertices', idv1);
          vertices' := AppendIfAbsent(vertices', idv2);
        } else if vertexId == idv1 {
          AddCornersStep(fs, vertexId, faces'[..k], neighboringVertices, vertices', f, idv0, idv2);
          vertices' := AppendIfAbsent(vertices', idv0);
          vertices' := AppendIfAbsent(vertices', idv2);
        } else if vertexId == idv2 {
          AddCornersStep(fs, vertexId, faces'[..k], neighboringVertices, vertices', f, idv0, idv1);
          vertices' := AppendIfAbsent(vertices', idv0);
          vertices' := AppendIfAbsent(vertices', idv1);
        } else {
          SkipFaceStep(fs, vertexId, faces'[..k], neighboringVertices, vertices', f);
        }
        k := k + 1;
      }
      assert faces'[..k] == faces';
    }
  }

  /** The face loop of `Mesh::Mesh`: three loader indices per face, each
    * also appended to the index buffer as an `unsigned int`. */
  method BuildFaces(indices: seq<int>, n: int) returns (faces: seq<Face>, index: seq<nat>)
    requires |indices| % 3 == 0
    requires InRange(indices, n)
    ensures faces == FacesOf(indices)
    ensures index == Flatten(faces)
    ensures CornersInRange(faces, n)
  {
    faces := [];
    index := [];
    var i := 0;
    while i < |indices|
      invariant 0 <= i <= |indices| && i % 3 == 0
      invariant |faces| == i / 3
      invariant forall f :: 0 <= f < |faces| ==> faces[f] == Face(indices[3 * f], indices[3 * f + 1], indices[3 * f + 2])
      invariant index == Flatten(faces)
      invariant CornersInRange(faces, n)
    {
      var v0, v1, v2 := indices[i], indices[i + 1], indices[i + 2];
      FlattenAppend(faces, Face(v0, v1, v2));
      faces := faces + [Face(v0, v1, v2)];
      index := index + [U32(v0), U32(v1), U32(v2)];
      i := i + 3;
    }
    GroupsOfThreeUnique(indices, faces);
  }
}
