// The OpenGL driver as seen by the graphics module: a log of the calls
// whose presence or absence the caching logic decides, the program made
// current by glUseProgramObject, and the set of live object names.  Name
// generators hand out any positive name that is not live, so a name that
// was deleted may come back.
//
// Also the per-source-file `getUniqueId` counter (a static 64-bit value
// starting at 1, post-incremented under a lock).

module Gl {
  import opened Basics

  datatype Kind = BufferObject | ArrayObject | TextureObject | ProgramObject | ShaderObject

  datatype Name = Name(kind: Kind, id: nat)

  datatype BufferTarget = ArrayBuffer | UniformBuffer

  datatype TextureTarget = Texture1D | Texture2D | Texture3D

  datatype Call =
    | BindBuffer(buffer: BufferTarget, name: nat)
    | BufferOrphan(buffer: BufferTarget, count: nat)
    | BufferData(buffer: BufferTarget, vertices: seq<Vertex>)
    | BindBufferBase(buffer: BufferTarget, binding: int, name: nat)
    | UseProgram(program: nat)
    | Uniform1i(location: int, value: int)
    | ActiveTexture(unit: nat)
    | BindTexture(texture: TextureTarget, name: nat)
    | TexImage(texture: TextureTarget, width: nat, height: nat, depth: nat)
    | TexSubImage(texture: TextureTarget, x: nat, y: nat, z: nat, width: nat, height: nat, depth: nat, offset: nat)
    | CopyTexSubImage(x: nat, y: nat, width: nat, height: nat)
    | TexFilter(texture: TextureTarget, smooth: bool)
    | TexWrap(texture: TextureTarget, repeated: bool)
    | ClearColor(color: Color)
    | Clear(withDepth: bool)
    | Viewport(rect: IntRect)
    | BlendFunc(mode: BlendMode)
    | BindVertexArray(name: nat)
    | EnableAttribute(location: int)
    | DisableAttribute(location: int)
    | DrawArrays(primitive: PrimitiveType, count: nat)
    | DeleteObject(kind: Kind, name: nat)
    // fixed-function matrix loads: the view transform times a model
    // transform, the view's projection, and the view transform alone
    | LoadModelMatrix(transform: Transform)
    | LoadProjectionMatrix
    | LoadViewMatrix

  /** An upper bound on the numbers of a finite set of names. */
  ghost function Bound(s: set<Name>): (b: nat)
    ensures forall n :: n in s ==> n.id <= b
    decreases s
  {
    if s == {} then 0
    else
      var x :| x in s;
      var rest := Bound(s - {x});
      if x.id > rest then x.id else rest
  }

  lemma FreshExists(live: set<Name>, kind: Kind)
    ensures exists id: nat :: id > 0 && Name(kind, id) !in live
  {
    var b := Bound(live);
    assert Name(kind, b + 1) !in live;
  }

  class Driver {
    var log: seq<Call>
    var program: nat
    var live: set<Name>

    constructor()
      ensures log == [] && program == 0 && live == {}
    {
      log := [];
      program := 0;
      live := {};
    }

    /** glGen*: some positive name of this kind that is not live. */
    method Gen(kind: Kind) returns (id: nat)
      modifies this
      ensures id > 0 && Name(kind, id) !in old(live)
      ensures live == old(live) + {Name(kind, id)}
      ensures log == old(log) && program == old(program)
    {
      FreshExists(live, kind);
      id :| id > 0 && Name(kind, id) !in live;
      live := live + {Name(kind, id)};
    }

    /** glDelete*: the name is no longer live and may be handed out again. */
    method Delete(kind: Kind, id: nat)
      modifies this
      ensures live == old(live) - {Name(kind, id)}
      ensures log == old(log) + [DeleteObject(kind, id)] && program == old(program)
    {
      live := live - {Name(kind, id)};
      log := log + [DeleteObject(kind, id)];
    }

    method Emit(c: Call)
      modifies this
      ensures log == old(log) + [c] && program == old(program) && live == old(live)
    {
      log := log + [c];
    }

    /** glUseProgramObject: makes `p` the current program. */
    method Use(p: nat)
      modifies this
      ensures program == p && log == old(log) + [UseProgram(p)] && live == old(live)
    {
      program := p;
      log := log + [UseProgram(p)];
    }
  }

  type Positive = n: nat | n >= 1 witness 1

  /** The static counter behind one source file's `getUniqueId`: the first
      id is 1, and every call returns the counter and then increments it,
      so 0 is never issued. */
  class IdCounter {
    var next: Positive

    constructor()
      ensures next == 1
    {
      next := 1;
    }

    method Take() returns (id: Positive)
      modifies this
      ensures id == old(next) && next == id + 1
    {
      id := next;
      next := next + 1;
    }
  }
}
