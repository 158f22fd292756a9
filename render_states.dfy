// The states used when drawing: blend mode, transform, texture and shader.
// Every constructor starts from the defaults (alpha blending, identity
// transform, no texture, no shader) and sets only what it is given.

module RenderStatesModel {
  import opened Basics
  import opened Textures
  import opened Shaders

  datatype RenderStates = RenderStates(blendMode: BlendMode, transform: Transform, texture: Texture?, shader: Shader?)

  /** The default constructor. */
  function Defaults(): (r: RenderStates)
    ensures r.blendMode == BlendAlpha && r.transform == Identity && r.texture == null && r.shader == null
  {
    RenderStates(BlendAlpha, Identity, null, null)
  }

  /** `RenderStates::Default`: a default-constructed value. */
  const Default: RenderStates := Defaults()

  /** The constructor from a transform: the defaults but for the transform. */
  function WithTransform(transform: Transform): (r: RenderStates)
    ensures r.transform == transform
    ensures r.(transform := Identity) == Default
  {
    RenderStates(BlendAlpha, transform, null, null)
  }

  /** The constructor from a blend mode. */
  function WithBlendMode(mode: BlendMode): (r: RenderStates)
    ensures r.blendMode == mode
    ensures r.(blendMode := BlendAlpha) == Default
  {
    RenderStates(mode, Identity, null, null)
  }

  /** The constructor from a texture. */
  function WithTexture(texture: Texture?): (r: RenderStates)
    ensures r.texture == texture
    ensures r.(texture := null) == Default
  {
    RenderStates(BlendAlpha, Identity, texture, null)
  }

  /** The constructor from a shader. */
  function WithShader(shader: Shader?): (r: RenderStates)
    ensures r.shader == shader
    ensures r.(shader := null) == Default
  {
    RenderStates(BlendAlpha, Identity, null, shader)
  }

  /** The four-argument constructor stores exactly its arguments. */
  function Make(mode: BlendMode, transform: Transform, texture: Texture?, shader: Shader?): (r: RenderStates)
    ensures r.blendMode == mode && r.transform == transform && r.texture == texture && r.shader == shader
  {
    RenderStates(mode, transform, texture, shader)
  }

  /** Each one-argument constructor is the four-argument one with the
      defaults in the other places, and the defaults themselves are the
      four-argument constructor on the default values. */
  lemma ConstructorsAgree(mode: BlendMode, transform: Transform, texture: Texture?, shader: Shader?)
    ensures Default == Make(BlendAlpha, Identity, null, null)
    ensures WithTransform(transform) == Make(BlendAlpha, transform, null, null)
    ensures WithBlendMode(mode) == Make(mode, Identity, null, null)
    ensures WithTexture(texture) == Make(BlendAlpha, Identity, texture, null)
    ensures WithShader(shader) == Make(BlendAlpha, Identity, null, shader)
  {
  }

  /** A one-argument constructor gives the defaults exactly when its
      argument is the default value. */
  lemma DefaultArguments(mode: BlendMode, transform: Transform, texture: Texture?, shader: Shader?)
    ensures WithTransform(transform) == Default <==> transform == Identity
    ensures WithBlendMode(mode) == Default <==> mode == BlendAlpha
    ensures WithTexture(texture) == Default <==> texture == null
    ensures WithShader(shader) == Default <==> shader == null
  {
  }
}
