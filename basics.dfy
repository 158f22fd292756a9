// Value types shared by the graphics modules: colours, vectors, vertices,
// primitive types, blend modes and transforms.

module Basics {

  newtype uint8 = x: int | 0 <= x < 256

  /** 2^32: unsigned int arithmetic wraps modulo this. */
  const U32: int := 0x1_0000_0000

  datatype Option<T> = None | Some(value: T)

  datatype Color = Color(r: uint8, g: uint8, b: uint8, a: uint8)

  const White: Color := Color(255, 255, 255, 255)
  const Transparent: Color := Color(0, 0, 0, 0)

  datatype Vector2 = Vector2(x: real, y: real)
  datatype Vector3 = Vector3(x: real, y: real, z: real)

  const Zero2: Vector2 := Vector2(0.0, 0.0)
  const Zero3: Vector3 := Vector3(0.0, 0.0, 0.0)

  /** A point of a mesh: position, colour, texture coordinates and normal. */
  datatype Vertex = Vertex(position: Vector3, color: Color, texCoords: Vector2, normal: Vector3)

  /** What a default-constructed vertex holds. */
  const DefaultVertex: Vertex := Vertex(Zero3, White, Zero2, Zero3)

  datatype PrimitiveType = Points | Lines | LinesStrip | Triangles | TrianglesStrip | TrianglesFan | Quads

  datatype BlendMode = BlendAlpha | BlendAdd | BlendMultiply | BlendNone

  /** A 4x4 matrix, row by row. */
  datatype Transform = Transform(m: seq<real>)

  const Identity: Transform :=
    Transform([1.0, 0.0, 0.0, 0.0,
               0.0, 1.0, 0.0, 0.0,
               0.0, 0.0, 1.0, 0.0,
               0.0, 0.0, 0.0, 1.0])

  /** An integer rectangle: left, top, width, height. */
  datatype IntRect = IntRect(left: int, top: int, width: int, height: int)

  /** Regrouping appended logs; the solver finds this costly in a large
      context, so proofs call it where a log grows by several pieces. */
  lemma AppendAssoc<T>(a: seq<T>, b: seq<T>, c: seq<T>)
    ensures (a + b) + c == a + (b + c)
  {
  }
}
