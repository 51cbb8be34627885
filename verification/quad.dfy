/**
  The full-screen quad `GLRenderer` draws: `VERTEX_DATA`, four vertices of four floats
  each (position x, y, then texture coordinate s, t). Every value in it is -1, 0 or 1,
  so the model holds them as integers.
*/
module Quad {

  /** Floats per vertex: the attribute stride of 16 bytes is four 4-byte floats. */
  const Components: nat := 4

  /** Vertices drawn by the one `glDrawArrays` call. */
  const VertexCount: nat := 4

  /** Float offset of the texture coordinate within a vertex (the position is at 0). */
  const TexCoordOffset: nat := 2

  const VertexData: seq<int> := [
    -1, -1, 0, 1,
     1, -1, 1, 1,
    -1,  1, 0, 0,
     1,  1, 1, 0
  ]

  /** The two-component attribute of vertex `k`, read `offset` floats into the data at
      the vertex stride, as a `glVertexAttribPointer` of size 2 reads it. */
  function Attribute(data: seq<int>, offset: nat, k: nat): (int, int)
    requires offset + Components * k + 1 < |data|
  {
    (data[offset + Components * k], data[offset + Components * k + 1])
  }

  function Position(k: nat): (int, int)
    requires k < VertexCount
  {
    Attribute(VertexData, 0, k)
  }

  function TexCoord(k: nat): (int, int)
    requires k < VertexCount
  {
    Attribute(VertexData, TexCoordOffset, k)
  }

  /** The positions are the four corners of normalised device space, each exactly once,
      in strip order: vertices 1 and 2 are opposite corners, and so are 0 and 3. The
      strip's triangles (0, 1, 2) and (1, 2, 3) therefore share the diagonal from 1 to 2
      and lie on either side of it, covering the whole square. */
  lemma QuadCoversSurface()
    ensures |VertexData| == Components * VertexCount
    ensures forall k :: 0 <= k < VertexCount ==> Position(k).0 in {-1, 1} && Position(k).1 in {-1, 1}
    ensures forall i, j :: 0 <= i < j < VertexCount ==> Position(i) != Position(j)
    ensures Position(0) == (-Position(3).0, -Position(3).1)
    ensures Position(1) == (-Position(2).0, -Position(2).1)
  {
  }

  /** Each vertex samples s = (x + 1) / 2 and t = (1 - y) / 2: left-right is kept and
      the image is flipped vertically, so the buffer's first row lands at the top. */
  lemma TexCoordsFlipVertically()
    ensures forall k :: 0 <= k < VertexCount ==>
      2 * TexCoord(k).0 == Position(k).0 + 1 && 2 * TexCoord(k).1 == 1 - Position(k).1
  {
  }
}
