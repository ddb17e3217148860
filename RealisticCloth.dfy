// The cloth component's integer state: the vertex buffers' layout, the
// triangle list, the spring network, the pin mask and the collider
// registry, built and updated as the component does it.

module Cloth {
  import opened Engine
  import opened ClothGrid
  import opened ColliderRegistry

  class RealisticCloth {
    // Inspector settings, fixed once the component starts.
    const widthSegments: nat
    const heightSegments: nat
    const collisionLayers: bv32
    /** The object the component sits on; its own collider is skipped. */
    const gameObject: GameObject

    /** The inspector's pin mask; it may be missing or of any length until
        InitializeCloth replaces it. */
    var pinnedVertices: array?<bool>
    /** Current and previous positions, each given by the vertex's cell. */
    var vertices: array<GridPoint>
    var previousVertices: array<GridPoint>
    var triangles: seq<int>
    var springs: seq<Spring>
    var colliders: seq<Collider>

    constructor (widthSegments: nat, heightSegments: nat, collisionLayers: bv32,
                 gameObject: GameObject, pinnedVertices: array?<bool>)
      ensures this.widthSegments == widthSegments && this.heightSegments == heightSegments
      ensures this.collisionLayers == collisionLayers && this.gameObject == gameObject
      ensures this.pinnedVertices == pinnedVertices
      ensures vertices.Length == 0 && previousVertices.Length == 0
      ensures triangles == [] && springs == [] && colliders == []
    {
      this.widthSegments := widthSegments;
      this.heightSegments := heightSegments;
      this.collisionLayers := collisionLayers;
      this.gameObject := gameObject;
      this.pinnedVertices := pinnedVertices;
      vertices := new GridPoint[0];
      previousVertices := new GridPoint[0];
      triangles, springs, colliders := [], [], [];
    }

    /** Build the grid, then register the scene's colliders. */
    method Start(scene: seq<Collider>)
      modifies this
      ensures vertices.Length == VertexCount(widthSegments, heightSegments)
      ensures forall i :: 0 <= i < vertices.Length ==> vertices[i] == CellOf(widthSegments, i)
      ensures triangles == TriangleList(widthSegments, heightSegments)
      ensures springs == SpringNetwork(widthSegments, heightSegments)
      ensures fresh(vertices) && fresh(previousVertices)
      ensures vertices != previousVertices && previousVertices.Length == vertices.Length
      ensures forall i :: 0 <= i < vertices.Length ==> previousVertices[i] == vertices[i]
      ensures pinnedVertices != null && pinnedVertices.Length == VertexCount(widthSegments, heightSegments)
      ensures old(pinnedVertices) != null && old(pinnedVertices.Length) == VertexCount(widthSegments, heightSegments) ==>
        pinnedVertices == old(pinnedVertices) && pinnedVertices[..] == old(pinnedVertices[..])
      ensures old(pinnedVertices) == null || old(pinnedVertices.Length) != VertexCount(widthSegments, heightSegments) ==>
        fresh(pinnedVertices) && pinnedVertices[..] == DefaultPinMask(widthSegments, heightSegments)
      ensures colliders == Selected(scene, gameObject, collisionLayers)
    {
      InitializeCloth();
      FindColliders(scene);
    }

    method InitializeCloth()
      modifies this
      ensures fresh(vertices) && fresh(previousVertices) && vertices != previousVertices
      ensures vertices.Length == VertexCount(widthSegments, heightSegments)
      ensures previousVertices.Length == vertices.Length
      ensures forall i :: 0 <= i < vertices.Length ==>
        vertices[i] == CellOf(widthSegments, i) && previousVertices[i] == vertices[i]
      ensures triangles == TriangleList(widthSegments, heightSegments)
      ensures springs == SpringNetwork(widthSegments, heightSegments)
      ensures colliders == old(colliders)
      ensures pinnedVertices != null && pinnedVertices.Length == VertexCount(widthSegments, heightSegments)
      ensures old(pinnedVertices) != null && old(pinnedVertices.Length) == VertexCount(widthSegments, heightSegments) ==>
        pinnedVertices == old(pinnedVertices) && pinnedVertices[..] == old(pinnedVertices[..])
      ensures old(pinnedVertices) == null || old(pinnedVertices.Length) != VertexCount(widthSegments, heightSegments) ==>
        fresh(pinnedVertices) && pinnedVertices[..] == DefaultPinMask(widthSegments, heightSegments)
    {
      var w: int, h: int := widthSegments, heightSegments;
      var vertexCount := (w + 1) * (h + 1);
      vertices, previousVertices := LayOutVertices(w, h);
      triangles := BuildTriangles(w, h);
      CreateSprings();

      // replace a missing or mis-sized pin mask by one pinning the top edge
      if pinnedVertices == null || pinnedVertices.Length != vertexCount {
        pinnedVertices := TopEdgePins(w, h);
      }
    }

    /** The vertex buffers: each vertex at its cell, row by row, and the
        previous positions a copy of the current ones (zero velocity). */
    static method LayOutVertices(w: int, h: int) returns (verts: array<GridPoint>, prev: array<GridPoint>)
      requires 0 <= w && 0 <= h
      ensures fresh(verts) && fresh(prev) && verts != prev
      ensures verts.Length == VertexCount(w, h) && prev.Length == verts.Length
      ensures forall i :: 0 <= i < verts.Length ==> verts[i] == CellOf(w, i) && prev[i] == verts[i]
    {
      var vertexCount := (w + 1) * (h + 1);
      verts := new GridPoint[vertexCount];
      prev := new GridPoint[vertexCount];
      ghost var cells := seq(vertexCount, i => CellOf(w, i));
      ghost var n := 0;
      var y := 0;
      while y <= h
        invariant 0 <= y <= h + 1 && n == VertexIndex(w, 0, y) && n <= vertexCount
        invariant forall i :: 0 <= i < n ==> verts[i] == cells[i] && prev[i] == cells[i]
        modifies verts, prev
      {
        var x := 0;
        while x <= w
          invariant 0 <= x <= w + 1 && n == VertexIndex(w, x, y) && n <= vertexCount
          invariant forall i :: 0 <= i < n ==> verts[i] == cells[i] && prev[i] == cells[i]
          modifies verts, prev
        {
          var index := y * (w + 1) + x;
          assert index < vertexCount && cells[index] == GridPoint(x, y) by {
            IndexOfCell(w, h, x, y);
          }
          verts[index] := GridPoint(x, y);
          prev[index] := verts[index];
          n := n + 1;
          x := x + 1;
        }
        MulSucc(y, w + 1);
        y := y + 1;
      }
      assert n == vertexCount;
    }

    /** Two triangles per cell, cells row by row. */
    static method BuildTriangles(w: nat, h: nat) returns (tris: seq<int>)
      ensures tris == TriangleList(w, h)
    {
      tris := [];
      var y := 0;
      while y < h
        invariant 0 <= y <= h
        invariant tris == TriangleRows(w, y)
      {
        var x := 0;
        while x < w
          invariant 0 <= x <= w
          invariant tris == TriangleRows(w, y) + RowTriangles(w, y, x)
        {
          var i := y * (w + 1) + x;
          ghost var before := tris;
          tris := tris + [i];
          tris := tris + [i + w + 1];
          tris := tris + [i + 1];
          tris := tris + [i + 1];
          tris := tris + [i + w + 1];
          tris := tris + [i + w + 2];
          assert tris == before + CellTriangles(w, i);
          x := x + 1;
        }
        y := y + 1;
      }
    }

    /** The default pin mask: the first row of vertices (y = 0) pinned. */
    static method TopEdgePins(w: nat, h: nat) returns (pins: array<bool>)
      ensures fresh(pins) && pins[..] == DefaultPinMask(w, h)
    {
      var vertexCount := (w + 1) * (h + 1);
      pins := new bool[vertexCount](i => false);
      MulMono(1, h + 1, w + 1);
      var x := 0;
      while x <= w
        invariant 0 <= x <= w + 1
        invariant forall i :: 0 <= i < vertexCount ==> pins[i] == (i < x)
        modifies pins
      {
        pins[x] := true;
        x := x + 1;
      }
    }

    method CreateSprings()
      requires vertices.Length == VertexCount(widthSegments, heightSegments)
      modifies this`springs
      ensures springs == SpringNetwork(widthSegments, heightSegments)
    {
      var w: int, h: int := widthSegments, heightSegments;
      springs := [];
      var y: int := 0;
      while y <= h
        invariant 0 <= y <= h + 1
        invariant springs == ScanRows(w, h, y)
      {
        var x: int := 0;
        while x <= w
          invariant 0 <= x <= w + 1
          invariant springs == ScanRow(ScanRows(w, h, y), w, h, y, x)
        {
          var index := y * (w + 1) + x;
          NeighbourIndices(w, h, x, y);
          ghost var before := springs;
          // structural
          if x < w {
            AddSpring(index, index + 1, Structural);
          }
          assert springs == VertexSteps(before, w, h, x, y, 1);
          if y < h {
            AddSpring(index, index + w + 1, Structural);
          }
          assert springs == VertexSteps(before, w, h, x, y, 2);
          // shear
          if x < w && y < h {
            AddSpring(index, index + w + 2, Shear);
            AddSpring(index + 1, index + w + 1, Shear);
          }
          assert springs == VertexSteps(before, w, h, x, y, 4);
          // bend
          if x < w - 1 {
            AddSpring(index, index + 2, Bend);
          }
          assert springs == VertexSteps(before, w, h, x, y, 5);
          if y < h - 1 {
            AddSpring(index, index + (w + 1) * 2, Bend);
          }
          assert springs == AddVertexSprings(before, w, h, x, y);
          x := x + 1;
        }
        y := y + 1;
      }
    }

    /** Append one spring; its rest length is read from both end vertices. */
    method AddSpring(a: int, b: int, kind: SpringKind)
      requires 0 <= a < vertices.Length && 0 <= b < vertices.Length
      modifies this`springs
      ensures springs == old(springs) + [Spring(a, b, kind)]
    {
      springs := springs + [Spring(a, b, kind)];
    }

    /** Register the scene's colliders that are not on this object and whose
        layer is in the collision mask. */
    method FindColliders(scene: seq<Collider>)
      modifies this`colliders
      ensures colliders == Selected(scene, gameObject, collisionLayers)
    {
      colliders := [];
      var k := 0;
      while k < |scene|
        invariant 0 <= k <= |scene|
        invariant colliders == Selected(scene[..k], gameObject, collisionLayers)
      {
        var col := scene[k];
        assert scene[..k + 1][..k] == scene[..k];
        if col.gameObject == gameObject {
          k := k + 1;
          continue;
        }
        if InLayerMask(col.gameObject.layer, collisionLayers) {
          colliders := colliders + [col];
        }
        k := k + 1;
      }
      assert scene[..|scene|] == scene;
    }

    method AddCollider(col: Collider?)
      modifies this`colliders
      ensures colliders == Added(old(colliders), col)
    {
      if col != null && col !in colliders {
        colliders := colliders + [col];
      }
    }

    method RemoveCollider(col: Collider?)
      modifies this`colliders
      ensures colliders == RemoveFirst(old(colliders), col)
    {
      // List.Remove: drop the first element equal to col, if any
      colliders := RemoveFirst(colliders, col);
    }

    method PinVertex(index: int, pin: bool)
      requires pinnedVertices != null
      modifies pinnedVertices
      ensures pinnedVertices[..] == PinUpdate(old(pinnedVertices[..]), index, pin)
    {
      if 0 <= index < pinnedVertices.Length {
        pinnedVertices[index] := pin;
      }
    }
  }
}
