// The vertex buffer: a vector of vertices, the GL buffer object that holds
// a copy of them, the dirty flag that says whether that copy is stale, the
// cache id the render target uses to recognise the buffer, and the map from
// (render target, shader) pairs to vertex array objects that the render
// target fills in.

module VertexBuffers {
  import opened Basics
  import opened Gl

  /** The key of the array-object map: the render target's id and the
      shader's id (0 for no shader). */
  datatype Key = Key(target: nat, shader: nat)

  /** `count` default-constructed vertices. */
  function Padding(count: nat): (r: seq<Vertex>)
    ensures |r| == count
    ensures forall i :: 0 <= i < count ==> r[i] == DefaultVertex
  {
    if count == 0 then [] else Padding(count - 1) + [DefaultVertex]
  }

  /** `std::vector::resize`: the first min(old, new) vertices are kept and,
      when growing, default vertices are added at the end. */
  function Resized(vs: seq<Vertex>, count: nat): (r: seq<Vertex>)
    ensures |r| == count
    ensures forall i :: 0 <= i < count && i < |vs| ==> r[i] == vs[i]
    ensures forall i :: |vs| <= i < count ==> r[i] == DefaultVertex
  {
    if count <= |vs| then vs[..count] else vs + Padding(count - |vs|)
  }

  /** Resizing to the current count changes nothing. */
  lemma ResizedSame(vs: seq<Vertex>)
    ensures Resized(vs, |vs|) == vs
  {
  }

  /** Growing and then shrinking back gives the original vertices. */
  lemma ResizedGrowShrink(vs: seq<Vertex>, count: nat)
    requires |vs| <= count
    ensures Resized(Resized(vs, count), |vs|) == vs
  {
    var grown := Resized(vs, count);
    assert grown[..|vs|] == vs;
  }

  /** Two resizes in a row are one resize when the first does not cut
      below the second. */
  lemma ResizedTwice(vs: seq<Vertex>, m: nat, n: nat)
    requires n <= m || |vs| <= m
    ensures Resized(Resized(vs, m), n) == Resized(vs, n)
  {
    var once := Resized(Resized(vs, m), n);
    var direct := Resized(vs, n);
    assert forall i :: 0 <= i < n ==> once[i] == direct[i];
  }

  class VertexBuffer {
    var vertices: seq<Vertex>
    var primitiveType: PrimitiveType
    /** The GL buffer name, 0 while there is none. */
    var bufferObject: nat
    var cacheId: nat
    var needUpload: bool
    var arrayObjects: map<Key, nat>

    /** The default constructor: no vertices, points, then `create`. */
    constructor(ids: IdCounter, gl: Driver, available: bool)
      modifies ids, gl
      ensures vertices == [] && primitiveType == Points && needUpload && arrayObjects == map[]
      ensures cacheId == old(ids.next) && ids.next == old(ids.next) + 1
      ensures available ==> bufferObject != 0 && Name(BufferObject, bufferObject) !in old(gl.live) &&
                            gl.live == old(gl.live) + {Name(BufferObject, bufferObject)}
      ensures !available ==> bufferObject == 0 && gl.live == old(gl.live)
      ensures gl.log == old(gl.log) && gl.program == old(gl.program)
    {
      vertices, primitiveType, bufferObject := [], Points, 0;
      var id := ids.Take();
      cacheId := id;
      needUpload := true;
      arrayObjects := map[];
      new;
      var _ := Create(gl, available);
    }

    /** The typed constructor: `vertexCount` default vertices of the given
        primitive type, then `create`. */
    constructor Typed(primitive: PrimitiveType, vertexCount: nat, ids: IdCounter, gl: Driver, available: bool)
      modifies ids, gl
      ensures vertices == Padding(vertexCount) && primitiveType == primitive && needUpload && arrayObjects == map[]
      ensures cacheId == old(ids.next) && ids.next == old(ids.next) + 1
      ensures available ==> bufferObject != 0 && Name(BufferObject, bufferObject) !in old(gl.live) &&
                            gl.live == old(gl.live) + {Name(BufferObject, bufferObject)}
      ensures !available ==> bufferObject == 0 && gl.live == old(gl.live)
      ensures gl.log == old(gl.log) && gl.program == old(gl.program)
    {
      vertices, primitiveType, bufferObject := Padding(vertexCount), primitive, 0;
      var id := ids.Take();
      cacheId := id;
      needUpload := true;
      arrayObjects := map[];
      new;
      var _ := Create(gl, available);
    }

    /** The copy constructor: the vertices and primitive type of `copy`,
        but a buffer name of its own, a fresh cache id and no array objects. */
    constructor Copy(copy: VertexBuffer, ids: IdCounter, gl: Driver, available: bool)
      modifies ids, gl
      ensures vertices == copy.vertices && primitiveType == copy.primitiveType
      ensures needUpload && arrayObjects == map[]
      ensures cacheId == old(ids.next) && ids.next == old(ids.next) + 1
      ensures available ==> bufferObject != 0 && Name(BufferObject, bufferObject) !in old(gl.live) &&
                            gl.live == old(gl.live) + {Name(BufferObject, bufferObject)}
      ensures available && Name(BufferObject, copy.bufferObject) in old(gl.live) ==> bufferObject != copy.bufferObject
      ensures !available ==> bufferObject == 0 && gl.live == old(gl.live)
      ensures gl.log == old(gl.log) && gl.program == old(gl.program)
    {
      vertices, primitiveType, bufferObject := copy.vertices, copy.primitiveType, 0;
      var id := ids.Take();
      cacheId := id;
      needUpload := true;
      arrayObjects := map[];
      new;
      var _ := Create(gl, available);
    }

    /** `create`: nothing happens when vertex buffers are unavailable;
        otherwise a GL name is generated if there is none yet and the
        vertices are marked for upload. */
    method Create(gl: Driver, available: bool) returns (ok: bool)
      modifies this, gl
      ensures ok == available
      ensures !ok ==> unchanged(this) && unchanged(gl)
      ensures ok ==> needUpload
      ensures ok && old(bufferObject) != 0 ==> bufferObject == old(bufferObject) && unchanged(gl)
      ensures ok && old(bufferObject) == 0 ==>
                bufferObject != 0 && Name(BufferObject, bufferObject) !in old(gl.live) &&
                gl.live == old(gl.live) + {Name(BufferObject, bufferObject)}
      ensures vertices == old(vertices) && primitiveType == old(primitiveType) && cacheId == old(cacheId)
      ensures arrayObjects == old(arrayObjects)
      ensures gl.log == old(gl.log) && gl.program == old(gl.program)
    {
      if !available {
        return false;
      }
      if bufferObject == 0 {
        bufferObject := gl.Gen(BufferObject);
      }
      needUpload := true;
      return true;
    }

    function VertexCount(): (n: nat)
      reads this
      ensures n == |vertices|
    {
      |vertices|
    }

    /** The const `operator[]`; the index must be below the vertex count. */
    function Get(index: nat): (v: Vertex)
      reads this
      requires index < |vertices|
      ensures v == vertices[index] && v in vertices
    {
      vertices[index]
    }

    /** The mutable `operator[]` used to write a vertex: handing out the
        reference marks the vertices for upload. */
    method Set(index: nat, vertex: Vertex)
      requires index < |vertices|
      modifies this
      ensures vertices == old(vertices)[index := vertex] && needUpload
      ensures |vertices| == |old(vertices)| && Get(index) == vertex
      ensures forall j :: 0 <= j < |vertices| && j != index ==> Get(j) == old(Get(j))
      ensures primitiveType == old(primitiveType) && bufferObject == old(bufferObject)
      ensures cacheId == old(cacheId) && arrayObjects == old(arrayObjects)
    {
      needUpload := true;
      vertices := vertices[index := vertex];
    }

    /** `clear`: the vertices are marked for upload only if there were any. */
    method Clear()
      modifies this
      ensures vertices == []
      ensures needUpload == (old(needUpload) || |old(vertices)| > 0)
      ensures primitiveType == old(primitiveType) && bufferObject == old(bufferObject)
      ensures cacheId == old(cacheId) && arrayObjects == old(arrayObjects)
    {
      if |vertices| > 0 {
        needUpload := true;
      }
      vertices := [];
    }

    /** `resize`: the vertices are marked for upload only if the count changes. */
    method Resize(vertexCount: nat)
      modifies this
      ensures vertices == Resized(old(vertices), vertexCount)
      ensures needUpload == (old(needUpload) || |old(vertices)| != vertexCount)
      ensures primitiveType == old(primitiveType) && bufferObject == old(bufferObject)
      ensures cacheId == old(cacheId) && arrayObjects == old(arrayObjects)
    {
      if |vertices| != vertexCount {
        needUpload := true;
      }
      vertices := Resized(vertices, vertexCount);
    }

    method Append(vertex: Vertex)
      modifies this
      ensures vertices == old(vertices) + [vertex] && needUpload
      ensures primitiveType == old(primitiveType) && bufferObject == old(bufferObject)
      ensures cacheId == old(cacheId) && arrayObjects == old(arrayObjects)
    {
      needUpload := true;
      vertices := vertices + [vertex];
    }

    /** The mutable `getPointer`: the caller may write through the pointer
        to the first vertex, so the vertices are marked for upload. The
        vertices it gives access to are all of them, none for an empty
        buffer. */
    method GetPointer() returns (data: seq<Vertex>)
      modifies this
      ensures data == vertices == old(vertices) && needUpload
      ensures primitiveType == old(primitiveType) && bufferObject == old(bufferObject)
      ensures cacheId == old(cacheId) && arrayObjects == old(arrayObjects)
    {
      needUpload := true;
      data := vertices;
    }

    /** The destructor: the GL buffer, if any, is deleted. */
    method Destroy(gl: Driver)
      modifies gl
      ensures bufferObject != 0 ==> gl.live == old(gl.live) - {Name(BufferObject, bufferObject)} &&
                                    gl.log == old(gl.log) + [DeleteObject(BufferObject, bufferObject)]
      ensures bufferObject == 0 ==> unchanged(gl)
      ensures gl.program == old(gl.program)
    {
      if bufferObject != 0 {
        gl.Delete(BufferObject, bufferObject);
      }
    }

    /** `operator=`: a temporary copy of `right` is made, its vertices and
        primitive type are swapped in, a fresh cache id is taken and the
        temporary's destructor deletes the name the temporary created. This
        buffer keeps its own buffer name and array objects. */
    method Assign(right: VertexBuffer, ids: IdCounter, gl: Driver, available: bool)
      modifies this, ids, gl
      ensures vertices == old(right.vertices) && primitiveType == old(right.primitiveType)
      ensures bufferObject == old(bufferObject) && arrayObjects == old(arrayObjects) && needUpload
      ensures cacheId == old(ids.next) + 1 && ids.next == old(ids.next) + 2
      ensures gl.live == old(gl.live) && gl.program == old(gl.program)
      ensures !available ==> gl.log == old(gl.log)
      ensures available ==> exists n :: n != 0 && gl.log == old(gl.log) + [DeleteObject(BufferObject, n)]
    {
      var temp := new VertexBuffer.Copy(right, ids, gl, available);
      vertices, temp.vertices := temp.vertices, vertices;
      primitiveType, temp.primitiveType := temp.primitiveType, primitiveType;
      cacheId := ids.Take();
      needUpload := true;
      temp.Destroy(gl);
    }
  }

  /** The calls of `VertexBuffer::bind`: the buffer's name, followed by an
      orphaning of the old storage and the upload of the vertices when they
      are marked; the name 0 when there is no buffer or it has no name. */
  function BufferBindCalls(buffer: VertexBuffer?, target: BufferTarget): (calls: seq<Call>)
    reads buffer
    ensures buffer != null && buffer.bufferObject != 0 ==>
              |calls| == (if buffer.needUpload then 3 else 1) &&
              calls[0] == BindBuffer(target, buffer.bufferObject)
    ensures buffer == null || buffer.bufferObject == 0 ==> calls == [BindBuffer(target, 0)]
  {
    if buffer != null && buffer.bufferObject != 0 then
      [BindBuffer(target, buffer.bufferObject)] +
      (if buffer.needUpload then [BufferOrphan(target, |buffer.vertices|), BufferData(target, buffer.vertices)] else [])
    else [BindBuffer(target, 0)]
  }

  /** `VertexBuffer::bind`: an upload clears the buffer's mark; with no
      buffer, or one without a name, no buffer is touched. */
  method Bind(buffer: VertexBuffer?, target: BufferTarget, gl: Driver)
    modifies buffer, gl
    ensures gl.log == old(gl.log) + old(BufferBindCalls(buffer, target))
    ensures buffer != null && buffer.bufferObject != 0 ==> !buffer.needUpload
    ensures buffer == null || buffer.bufferObject == 0 ==> buffer != null ==> unchanged(buffer)
    ensures buffer != null ==>
              buffer.vertices == old(buffer.vertices) && buffer.primitiveType == old(buffer.primitiveType) &&
              buffer.bufferObject == old(buffer.bufferObject) && buffer.cacheId == old(buffer.cacheId) &&
              buffer.arrayObjects == old(buffer.arrayObjects)
    ensures gl.live == old(gl.live) && gl.program == old(gl.program)
  {
    if buffer != null && buffer.bufferObject != 0 {
      gl.Emit(BindBuffer(target, buffer.bufferObject));
      if buffer.needUpload {
        gl.Emit(BufferOrphan(target, |buffer.vertices|));
        gl.Emit(BufferData(target, buffer.vertices));
        buffer.needUpload := false;
      }
    } else {
      gl.Emit(BindBuffer(target, 0));
    }
  }
}
