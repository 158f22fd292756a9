// The render target: the cache of GL state it last applied (blend mode,
// texture, vertex buffer, whether the view must be applied again), the last
// viewport and clear colour it sent, the view it draws with, the shaders of
// the non-legacy pipeline, and the age table of the vertex array objects it
// created. Drawing re-applies a piece of state only when it differs from
// the cached one.

module RenderTargets {
  import opened Basics
  import opened Gl
  import opened Textures
  import opened VertexBuffers
  import opened Shaders
  import opened RenderStatesModel
  import opened ArrayObjectCache

  /** What the target learns from its surroundings: whether `activate(true)`
      succeeds, its height in pixels (`getSize().y`), and whether shaders,
      vertex buffers and vertex array objects are available. */
  datatype Environment = Environment(active: bool, height: int, shadersAvailable: bool,
                                     buffersAvailable: bool, arrayObjectsAvailable: bool)

  /** The locations of the attributes `sf_Vertex`, `sf_Color`,
      `sf_MultiTexCoord0` and `sf_Normal`, in that order; -1 for none. */
  datatype Locations = Locations(vertex: int, color: int, texCoords: int, normal: int)

  const NoLocations: Locations := Locations(-1, -1, -1, -1)

  function LocationList(l: Locations): seq<int>
  {
    [l.vertex, l.color, l.texCoords, l.normal]
  }

  /** The four attribute lookups, one after the other, through a shader's
      attribute table; `answers` holds what the driver would report. */
  function AttributeLookups(table: map<string, int>, answers: Locations): (r: (Locations, map<string, int>))
    ensures r.1.Keys == table.Keys + {"sf_Vertex", "sf_Color", "sf_MultiTexCoord0", "sf_Normal"}
    ensures forall n :: n in table ==> r.1[n] == table[n]
    ensures r.0 == Locations(r.1["sf_Vertex"], r.1["sf_Color"], r.1["sf_MultiTexCoord0"], r.1["sf_Normal"])
    ensures "sf_Vertex" !in table ==> r.0.vertex == answers.vertex
    ensures "sf_Color" !in table ==> r.0.color == answers.color
    ensures "sf_MultiTexCoord0" !in table ==> r.0.texCoords == answers.texCoords
    ensures "sf_Normal" !in table ==> r.0.normal == answers.normal
  {
    var (v, t1) := Memo(table, "sf_Vertex", answers.vertex);
    var (c, t2) := Memo(t1, "sf_Color", answers.color);
    var (x, t3) := Memo(t2, "sf_MultiTexCoord0", answers.texCoords);
    var (n, t4) := Memo(t3, "sf_Normal", answers.normal);
    (Locations(v, c, x, n), t4)
  }

  /** The calls switching on (or off) each attribute that has a location,
      in order. */
  function AttributeCalls(locations: seq<int>, enable: bool): (calls: seq<Call>)
  {
    if locations == [] then []
    else AttributeCall(locations[0], enable) + AttributeCalls(locations[1..], enable)
  }

  /** The call for one attribute: none when it has no location. */
  function AttributeCall(location: int, enable: bool): (calls: seq<Call>)
  {
    if location >= 0 then [if enable then EnableAttribute(location) else DisableAttribute(location)] else []
  }

  /** The calls for a list are those of its first location, then those of
      the rest. */
  lemma AttributeCallsCons(location: int, rest: seq<int>, enable: bool)
    ensures AttributeCalls([location] + rest, enable) == AttributeCall(location, enable) + AttributeCalls(rest, enable)
  {
    assert ([location] + rest)[1..] == rest;
  }

  /** The calls for the four attributes of a draw, one after the other. */
  lemma AttributeCallsFour(l: Locations, enable: bool)
    ensures AttributeCalls(LocationList(l), enable) ==
              AttributeCall(l.vertex, enable) + AttributeCall(l.color, enable) +
              AttributeCall(l.texCoords, enable) + AttributeCall(l.normal, enable)
  {
    assert LocationList(l) == [l.vertex] + ([l.color] + ([l.texCoords] + ([l.normal] + [])));
    AttributeCallsCons(l.normal, [], enable);
    AttributeCallsCons(l.texCoords, [l.normal] + [], enable);
    AttributeCallsCons(l.color, [l.texCoords] + ([l.normal] + []), enable);
    AttributeCallsCons(l.vertex, [l.color] + ([l.texCoords] + ([l.normal] + [])), enable);
  }

  /** The attributes switched off after a draw are exactly those switched on
      for it, in the same order; only attributes with a location take part. */
  lemma {:induction false} AttributesPaired(locations: seq<int>)
    ensures |AttributeCalls(locations, true)| == |AttributeCalls(locations, false)|
    ensures forall i :: 0 <= i < |AttributeCalls(locations, true)| ==>
              AttributeCalls(locations, true)[i].EnableAttribute? &&
              AttributeCalls(locations, false)[i] == DisableAttribute(AttributeCalls(locations, true)[i].location)
    ensures forall c :: c in AttributeCalls(locations, true) ==> c.location >= 0 && c.location in locations
  {
    if locations != [] {
      AttributesPaired(locations[1..]);
      var on := AttributeCalls(locations[1..], true);
      var off := AttributeCalls(locations[1..], false);
      if locations[0] >= 0 {
        assert AttributeCalls(locations, true) == [EnableAttribute(locations[0])] + on;
        assert AttributeCalls(locations, false) == [DisableAttribute(locations[0])] + off;
      } else {
        assert AttributeCalls(locations, true) == on;
        assert AttributeCalls(locations, false) == off;
      }
    }
  }

  /** The cache id the target records for a texture; 0 for none. */
  function TextureId(texture: Texture?): (id: nat)
    reads texture
    ensures texture != null ==> id == texture.cacheId
    ensures texture == null ==> id == 0
  {
    if texture == null then 0 else texture.cacheId
  }

  /** The viewport in GL's coordinates, whose origin is the bottom-left
      corner of a target `height` pixels high. */
  function GlViewport(viewport: IntRect, height: int): (r: IntRect)
    ensures r.left == viewport.left && r.width == viewport.width && r.height == viewport.height
    ensures r.top + r.height == height - viewport.top
  {
    IntRect(viewport.left, height - (viewport.top + viewport.height), viewport.width, viewport.height)
  }

  /** Flipping the vertical axis twice gives back the viewport. */
  lemma GlViewportTwice(viewport: IntRect, height: int)
    ensures GlViewport(GlViewport(viewport, height), height) == viewport
  {
  }

  /** The calls only the legacy pipeline makes (the non-legacy pipeline,
      with its default shader, sets shader uniforms instead, which is not
      modelled). */
  function LegacyOnly(defaultShader: Shader?, calls: seq<Call>): (r: seq<Call>)
    ensures defaultShader == null ==> r == calls
    ensures defaultShader != null ==> r == []
  {
    if defaultShader == null then calls else []
  }

  /** The calls of `applyCurrentView`: the viewport, flipped to GL's
      coordinates, only when it differs from the one sent last. */
  function ViewCalls(defaultShader: Shader?, previous: IntRect, viewport: IntRect, height: int): (calls: seq<Call>)
    ensures viewport == previous ==> calls == LegacyOnly(defaultShader, [LoadProjectionMatrix])
    ensures viewport != previous ==> |calls| > 0 && calls[0] == Viewport(GlViewport(viewport, height))
  {
    (if viewport != previous then [Viewport(GlViewport(viewport, height))] else []) +
    LegacyOnly(defaultShader, [LoadProjectionMatrix])
  }

  /** The shader a non-legacy draw uses: the one of the states, or else the
      pipeline's. */
  function PipelineShader(shader: Shader?, defaultShader: Shader?): (r: Shader?)
    ensures shader != null ==> r == shader
    ensures shader == null ==> r == defaultShader
  {
    if shader != null then shader else defaultShader
  }

  /** Whether the legacy draw of a buffer binds it again, as written: only
      when another buffer was applied last, whatever happened to its
      vertices since. */
  function LegacyRebindsAsWritten(cacheId: nat, lastId: nat, needUpload: bool): (r: bool)
    ensures r <==> cacheId != lastId
  {
    cacheId != lastId
  }

  /** Whether the legacy draw of a buffer binds it again, as the non-legacy
      path does: also when its vertices changed since the last upload. */
  function LegacyRebinds(cacheId: nat, lastId: nat, needUpload: bool): (r: bool)
    ensures LegacyRebindsAsWritten(cacheId, lastId, needUpload) ==> r
    ensures needUpload ==> r
    ensures r ==> LegacyRebindsAsWritten(cacheId, lastId, needUpload) || needUpload
  {
    cacheId != lastId || needUpload
  }

  /** As written, a buffer changed after its last draw and drawn again
      before any other buffer is not bound again, so its new vertices are
      never uploaded for that draw; the corrected test binds it, which
      uploads them. */
  lemma LegacyStaleVertices(cacheId: nat)
    ensures !LegacyRebindsAsWritten(cacheId, cacheId, true)
    ensures LegacyRebinds(cacheId, cacheId, true)
  {
  }

  /** The calls of applying the default states: alpha blending, the
      identity transform and no texture. */
  function DefaultStateCalls(defaultShader: Shader?): (calls: seq<Call>)
    ensures |calls| > 0 && calls[0] == BlendFunc(BlendAlpha)
  {
    [BlendFunc(BlendAlpha)] + LegacyOnly(defaultShader, [LoadModelMatrix(Identity)]) +
    LegacyOnly(defaultShader, [BindTexture(Texture3D, 0), BindTexture(Texture2D, 0), BindTexture(Texture1D, 0)])
  }

  /** The calls of `resetGLStates` that the model logs, given those of
      binding the pipeline's shader. */
  function ResetCalls(defaultShader: Shader?, env: Environment, program: seq<Call>): (calls: seq<Call>)
    ensures |calls| > 0 && calls[0] == BlendFunc(BlendAlpha)
  {
    DefaultStateCalls(defaultShader) +
    (if env.shadersAvailable then program else []) +
    (if env.buffersAvailable then [BindBuffer(ArrayBuffer, 0)] else []) +
    LegacyOnly(defaultShader, [LoadViewMatrix])
  }

  /** A view, through the pixel viewport it covers on this target (the
      floating-point geometry that yields it is not modelled). */
  class View {
    var viewport: IntRect

    constructor(viewport: IntRect)
      ensures this.viewport == viewport
    {
      this.viewport := viewport;
    }

    constructor Copy(view: View)
      ensures viewport == view.viewport
    {
      viewport := view.viewport;
    }
  }

  /** The states the target last applied. */
  datatype StatesCache = StatesCache(glStatesSet: bool, viewChanged: bool, lastBlendMode: BlendMode,
                                     lastTextureId: nat, lastVertexBufferId: nat)

  class RenderTarget {
    const id: nat
    var cache: StatesCache
    var clearDepth: bool
    /** The shader of the non-legacy pipeline; null in legacy mode. */
    const defaultShader: Shader?
    var currentShader: Shader?
    var lastShader: Shader?
    var previousViewport: IntRect
    var previousClearColor: Color
    const defaultView: View
    var view: View
    /** The draws since each array object of this target was last used. */
    var arrayAges: map<nat, nat>

    /** The constructor followed by `initialize`: a fresh id, nothing applied
        yet, the view a copy of the default view. Whether the non-legacy
        pipeline can be set up is decided outside and passed as the default
        shader. */
    constructor(ids: IdCounter, defaultShader: Shader?, defaultViewport: IntRect)
      modifies ids
      ensures id == old(ids.next) && ids.next == old(ids.next) + 1
      ensures !cache.glStatesSet && !cache.viewChanged && cache.lastBlendMode == BlendAlpha
      ensures cache.lastTextureId == 0 && cache.lastVertexBufferId == 0
      ensures previousViewport == IntRect(-1, -1, -1, -1) && previousClearColor == Color(0, 0, 0, 0)
      ensures this.defaultShader == defaultShader && currentShader == null && lastShader == null
      ensures fresh(defaultView) && fresh(view) && view != defaultView
      ensures defaultView.viewport == defaultViewport && view.viewport == defaultViewport
      ensures arrayAges == map[] && !clearDepth
    {
      var taken := ids.Take();
      id := taken;
      cache := StatesCache(false, false, BlendAlpha, 0, 0);
      clearDepth := false;
      this.defaultShader := defaultShader;
      currentShader, lastShader := null, null;
      previousViewport := IntRect(-1, -1, -1, -1);
      previousClearColor := Color(0, 0, 0, 0);
      var d := new View(defaultViewport);
      defaultView := d;
      view := new View.Copy(d);
      arrayAges := map[];
    }

    /** `clear`: the clear colour is sent only when it differs from the last
        one sent, and recorded; then the target is cleared. */
    method Clear(color: Color, active: bool, gl: Driver)
      modifies this`previousClearColor, gl
      ensures active ==> previousClearColor == color &&
                         gl.log == old(gl.log) + (if color != old(previousClearColor) then [ClearColor(color)] else []) +
                                   [Call.Clear(clearDepth)]
      ensures !active ==> previousClearColor == old(previousClearColor) && gl.log == old(gl.log)
      ensures gl.live == old(gl.live) && gl.program == old(gl.program)
    {
      if active {
        if color != previousClearColor {
          gl.Emit(ClearColor(color));
          previousClearColor := color;
        }
        gl.Emit(Call.Clear(clearDepth));
      }
    }

    /** `applyTransform`. */
    method ApplyTransform(transform: Transform, gl: Driver)
      modifies gl
      ensures gl.log == old(gl.log) + LegacyOnly(defaultShader, [LoadModelMatrix(transform)])
      ensures gl.live == old(gl.live) && gl.program == old(gl.program)
    {
      if defaultShader == null {
        gl.Emit(LoadModelMatrix(transform));
      }
    }

    /** `setView`: the target's own view is kept as it is, any other view is
        copied; either way the view must be applied again. */
    method SetView(v: View, gl: Driver)
      modifies this`view, this`cache, gl
      ensures v == old(view) ==> view == old(view)
      ensures v != old(view) ==> fresh(view)
      ensures view.viewport == v.viewport
      ensures cache == old(cache).(viewChanged := true)
      ensures gl.log == old(gl.log) + LegacyOnly(defaultShader, [LoadViewMatrix])
      ensures gl.live == old(gl.live) && gl.program == old(gl.program)
    {
      if v != view {
        view := new View.Copy(v);
      }
      cache := cache.(viewChanged := true);
      // applyViewTransform
      if defaultShader == null {
        gl.Emit(LoadViewMatrix);
      }
    }

    /** `applyCurrentView`: the viewport is sent only when it differs from
        the last one sent, and recorded. */
    method ApplyCurrentView(height: int, gl: Driver)
      modifies this`previousViewport, this`cache, gl
      ensures previousViewport == view.viewport
      ensures cache == old(cache).(viewChanged := false)
      ensures gl.log == old(gl.log) + ViewCalls(defaultShader, old(previousViewport), view.viewport, height)
      ensures gl.live == old(gl.live) && gl.program == old(gl.program)
    {
      var viewport := view.viewport;
      if viewport != previousViewport {
        gl.Emit(Viewport(GlViewport(viewport, height)));
        previousViewport := viewport;
      }
      if defaultShader == null {
        gl.Emit(LoadProjectionMatrix);
      }
      cache := cache.(viewChanged := false);
    }

    /** `applyBlendMode`. */
    method ApplyBlendMode(mode: BlendMode, gl: Driver)
      modifies this`cache, gl
      ensures cache == old(cache).(lastBlendMode := mode)
      ensures gl.log == old(gl.log) + [BlendFunc(mode)]
      ensures gl.live == old(gl.live) && gl.program == old(gl.program)
    {
      gl.Emit(BlendFunc(mode));
      cache := cache.(lastBlendMode := mode);
    }

    /** `applyTexture`: the legacy pipeline binds the texture (the
        non-legacy one sets shader uniforms, not modelled); the texture's
        cache id, or 0, is recorded. */
    method ApplyTexture(texture: Texture?, gl: Driver)
      modifies this`cache, gl
      ensures cache == old(cache).(lastTextureId := TextureId(texture))
      ensures gl.log == old(gl.log) + LegacyOnly(defaultShader, BindCalls(texture))
      ensures gl.live == old(gl.live) && gl.program == old(gl.program)
    {
      if defaultShader == null {
        Textures.Bind(texture, gl);
      }
      cache := cache.(lastTextureId := TextureId(texture));
    }

    /** `applyVertexBuffer`: the buffer's cache id, or 0, is recorded. */
    method ApplyVertexBuffer(buffer: VertexBuffer?, gl: Driver)
      modifies this`cache, buffer, gl
      ensures cache == old(cache).(lastVertexBufferId := if buffer == null then 0 else buffer.cacheId)
      ensures gl.log == old(gl.log) + old(BufferBindCalls(buffer, ArrayBuffer))
      ensures buffer != null ==>
                buffer.vertices == old(buffer.vertices) && buffer.primitiveType == old(buffer.primitiveType) &&
                buffer.cacheId == old(buffer.cacheId) && buffer.arrayObjects == old(buffer.arrayObjects) &&
                buffer.bufferObject == old(buffer.bufferObject)
      ensures buffer != null && buffer.bufferObject != 0 ==> !buffer.needUpload
      ensures buffer != null && buffer.bufferObject == 0 ==> buffer.needUpload == old(buffer.needUpload)
      ensures gl.live == old(gl.live) && gl.program == old(gl.program)
    {
      VertexBuffers.Bind(buffer, ArrayBuffer, gl);
      cache := cache.(lastVertexBufferId := if buffer == null then 0 else buffer.cacheId);
    }

    /** The default states `resetGLStates` applies first: alpha blending,
        the identity transform and no texture. */
    method ApplyDefaultStates(gl: Driver)
      modifies this`cache, gl
      ensures cache == old(cache).(lastBlendMode := BlendAlpha, lastTextureId := 0)
      ensures gl.log == old(gl.log) + DefaultStateCalls(defaultShader)
      ensures gl.live == old(gl.live) && gl.program == old(gl.program)
    {
      ghost var log0 := gl.log;
      ApplyBlendMode(BlendAlpha, gl);
      ApplyTransform(Identity, gl);
      AppendAssoc(log0, [BlendFunc(BlendAlpha)], LegacyOnly(defaultShader, [LoadModelMatrix(Identity)]));
      ApplyTexture(null, gl);
      AppendAssoc(log0, [BlendFunc(BlendAlpha)] + LegacyOnly(defaultShader, [LoadModelMatrix(Identity)]),
                  LegacyOnly(defaultShader, BindCalls(null)));
    }

    /** `resetGLStates`, as it affects the cache and the calls modelled:
        the default states, the pipeline's shader and no vertex buffer when
        those are available, and a copy of the default view. */
    method ResetGLStates(env: Environment, gl: Driver)
      modifies this`cache, this`view, gl
      ensures env.active ==>
                cache == StatesCache(true, true, BlendAlpha, 0,
                                     if env.buffersAvailable then 0 else old(cache.lastVertexBufferId))
      ensures env.active ==> view.viewport == defaultView.viewport
      ensures !env.active ==> cache == old(cache) && view == old(view) && gl.log == old(gl.log)
      ensures gl.live == old(gl.live)
      ensures env.active ==> gl.log == old(gl.log) + ResetCalls(defaultShader, env, old(ProgramCalls(defaultShader)))
    {
      if env.active {
        ghost var program := ProgramCalls(defaultShader);
        ghost var log0 := gl.log;
        cache := cache.(glStatesSet := true);
        ApplyDefaultStates(gl);
        ghost var calls := DefaultStateCalls(defaultShader);
        assert program == ProgramCalls(defaultShader);
        if env.shadersAvailable {
          Shaders.Bind(defaultShader, gl);
        }
        AppendAssoc(log0, calls, if env.shadersAvailable then program else []);
        calls := calls + (if env.shadersAvailable then program else []);
        assert gl.log == log0 + calls;
        if env.buffersAvailable {
          ApplyVertexBuffer(null, gl);
        }
        AppendAssoc(log0, calls, if env.buffersAvailable then [BindBuffer(ArrayBuffer, 0)] else []);
        calls := calls + (if env.buffersAvailable then [BindBuffer(ArrayBuffer, 0)] else []);
        assert gl.log == log0 + calls;
        SetView(defaultView, gl);
        AppendAssoc(log0, calls, LegacyOnly(defaultShader, [LoadViewMatrix]));
        calls := calls + LegacyOnly(defaultShader, [LoadViewMatrix]);
        assert gl.log == log0 + calls;
        assert calls == ResetCalls(defaultShader, env, program);
      }
    }

    // -------------------------------------------------------------------
    // the steps of a draw
    // -------------------------------------------------------------------

    /** The view is applied again when the shader changed or the view did. */
    method UpdateView(shaderChanged: bool, height: int, gl: Driver)
      modifies this`previousViewport, this`cache, gl
      ensures cache == old(cache).(viewChanged := false)
      ensures shaderChanged || old(cache.viewChanged) ==>
                previousViewport == view.viewport &&
                gl.log == old(gl.log) + ViewCalls(defaultShader, old(previousViewport), view.viewport, height)
      ensures !shaderChanged && !old(cache.viewChanged) ==>
                previousViewport == old(previousViewport) && gl.log == old(gl.log)
      ensures gl.live == old(gl.live) && gl.program == old(gl.program)
    {
      if shaderChanged || cache.viewChanged {
        ApplyCurrentView(height, gl);
      }
    }

    /** The blend mode is applied only when it differs from the cached one;
        afterwards the cache holds it. */
    method UpdateBlendMode(mode: BlendMode, gl: Driver)
      modifies this`cache, gl
      ensures cache == old(cache).(lastBlendMode := mode)
      ensures gl.log == old(gl.log) + (if mode != old(cache.lastBlendMode) then [BlendFunc(mode)] else [])
      ensures gl.live == old(gl.live) && gl.program == old(gl.program)
    {
      if mode != cache.lastBlendMode {
        ApplyBlendMode(mode, gl);
      }
    }

    /** The texture is applied only when the shader changed or its cache id
        (0 for none) differs from the cached one; afterwards the cache holds
        that id. */
    method UpdateTexture(texture: Texture?, shaderChanged: bool, gl: Driver)
      modifies this`cache, gl
      ensures cache == old(cache).(lastTextureId := TextureId(texture))
      ensures gl.log == old(gl.log) +
                        (if shaderChanged || TextureId(texture) != old(cache.lastTextureId)
                         then LegacyOnly(defaultShader, BindCalls(texture)) else [])
      ensures gl.live == old(gl.live) && gl.program == old(gl.program)
    {
      var textureId := TextureId(texture);
      if shaderChanged || textureId != cache.lastTextureId {
        ApplyTexture(texture, gl);
      }
    }

    /** The states every draw applies before its shader: the transform, and
        the view, blend mode and texture when they changed. */
    method ApplyDrawStates(states: RenderStates, shaderChanged: bool, height: int, gl: Driver)
      modifies this`previousViewport, this`cache, gl
      ensures cache == old(cache).(viewChanged := false, lastBlendMode := states.blendMode,
                                   lastTextureId := TextureId(states.texture))
      ensures shaderChanged || old(cache.viewChanged) ==> previousViewport == view.viewport
      ensures !shaderChanged && !old(cache.viewChanged) ==> previousViewport == old(previousViewport)
      ensures gl.live == old(gl.live)
    {
      ApplyTransform(states.transform, gl);
      UpdateView(shaderChanged, height, gl);
      UpdateBlendMode(states.blendMode, gl);
      UpdateTexture(states.texture, shaderChanged, gl);
    }

    /** Entering the non-legacy pipeline: the shader is made current in the
        target and in its parameter block, and a shader of the states has
        its missing-parameter warnings silenced. */
    method EnterShader(current: Shader, fromStates: bool, gl: Driver) returns (previousWarn: bool)
      modifies this`currentShader, current`warn, current`parameterBlock, current`blockProgram, gl
      ensures currentShader == current && current.parameterBlock
      ensures fromStates ==> previousWarn == old(current.warn) && !current.warn
      ensures !fromStates ==> previousWarn && current.warn == old(current.warn)
      ensures gl.live == old(gl.live)
    {
      previousWarn := true;
      if fromStates {
        previousWarn := current.WarnMissing(false);
      }
      currentShader := current;
      current.BeginParameterBlock(gl);
    }

    /** Leaving the non-legacy pipeline: the parameter block ends, the
        warning setting is restored, and the shader becomes the last one. */
    method LeaveShader(current: Shader, fromStates: bool, previousWarn: bool, gl: Driver)
      modifies this`currentShader, this`lastShader, current`warn, current`parameterBlock, gl
      ensures currentShader == null && lastShader == current && !current.parameterBlock
      ensures fromStates ==> current.warn == previousWarn
      ensures !fromStates ==> current.warn == old(current.warn)
      ensures gl.live == old(gl.live)
    {
      current.EndParameterBlock(gl);
      if fromStates {
        var _ := current.WarnMissing(previousWarn);
      }
      lastShader := current;
      currentShader := null;
    }

    /** The four attribute lookups of a draw, and the enabling of each
        attribute found. */
    static method SetUpAttributes(shader: Shader, answers: Locations, gl: Driver) returns (locations: Locations)
      modifies shader`attributes, gl
      ensures (locations, shader.attributes) == AttributeLookups(old(shader.attributes), answers)
      ensures gl.log == old(gl.log) + AttributeCalls(LocationList(locations), true)
      ensures gl.live == old(gl.live) && gl.program == old(gl.program)
    {
      var v := shader.GetVertexAttributeLocation("sf_Vertex", answers.vertex);
      var c := shader.GetVertexAttributeLocation("sf_Color", answers.color);
      var t := shader.GetVertexAttributeLocation("sf_MultiTexCoord0", answers.texCoords);
      var n := shader.GetVertexAttributeLocation("sf_Normal", answers.normal);
      locations := Locations(v, c, t, n);
      SwitchAttributes(locations, true, gl);
    }

    /** Enabling (or disabling) each attribute with a location. */
    static method SwitchAttributes(locations: Locations, enable: bool, gl: Driver)
      modifies gl
      ensures gl.log == old(gl.log) + AttributeCalls(LocationList(locations), enable)
      ensures gl.live == old(gl.live) && gl.program == old(gl.program)
    {
      ghost var log0 := gl.log;
      AttributeCallsFour(locations, enable);
      SwitchAttribute(locations.vertex, enable, gl);
      SwitchAttribute(locations.color, enable, gl);
      SwitchAttribute(locations.texCoords, enable, gl);
      SwitchAttribute(locations.normal, enable, gl);
      assert gl.log == log0 + AttributeCall(locations.vertex, enable) + AttributeCall(locations.color, enable) +
                      AttributeCall(locations.texCoords, enable) + AttributeCall(locations.normal, enable);
    }

    /** Enabling (or disabling) one attribute, if it has a location. */
    static method SwitchAttribute(location: int, enable: bool, gl: Driver)
      modifies gl
      ensures gl.log == old(gl.log) + AttributeCall(location, enable)
      ensures gl.live == old(gl.live) && gl.program == old(gl.program)
    {
      if location >= 0 {
        gl.Emit(if enable then EnableAttribute(location) else DisableAttribute(location));
      }
    }

    /** The lookup of the array object for this target and a shader in the
        buffer's map: see `Select`; a name generated anew is registered. */
    method SelectArrayObject(buffer: VertexBuffer, shaderId: nat, gl: Driver)
      returns (arrayObject: nat, newArray: bool, needUpload: bool)
      modifies buffer`arrayObjects, this`arrayAges, gl
      ensures Selection(arrayObject, newArray, needUpload, buffer.arrayObjects, arrayAges) ==
              Select(old(buffer.arrayObjects), old(arrayAges), Key(id, shaderId), arrayObject, buffer.needUpload)
      ensures newArray ==> arrayObject > 0 && Name(ArrayObject, arrayObject) !in old(gl.live) &&
                           gl.live == old(gl.live) + {Name(ArrayObject, arrayObject)}
      ensures !newArray ==> gl.live == old(gl.live)
      ensures gl.log == old(gl.log) && gl.program == old(gl.program)
    {
      var key := Key(id, shaderId);
      newArray := true;
      needUpload := false;
      if key !in buffer.arrayObjects {
        arrayObject := gl.Gen(ArrayObject);
        buffer.arrayObjects := buffer.arrayObjects[key := arrayObject];
        arrayAges := arrayAges[arrayObject := 0];
      } else {
        arrayObject := buffer.arrayObjects[key];
        if arrayObject in arrayAges {
          newArray := false;
          needUpload := buffer.needUpload;
          arrayAges := arrayAges[arrayObject := 0];
        } else {
          arrayObject := gl.Gen(ArrayObject);
          buffer.arrayObjects := buffer.arrayObjects[key := arrayObject];
          arrayAges := arrayAges[arrayObject := 0];
        }
      }
    }

    /** `applyShader` for a draw: the shader of the states, or else the
        pipeline's; the legacy pipeline without one binds nothing. */
    method ApplyShader(shader: Shader?, gl: Driver)
      modifies gl
      ensures shader != null || defaultShader != null ==>
                gl.program == PipelineShader(shader, defaultShader).program &&
                gl.log == old(gl.log) + old(ProgramCalls(PipelineShader(shader, defaultShader)))
      ensures shader == null && defaultShader == null ==> gl.log == old(gl.log) && gl.program == old(gl.program)
      ensures gl.live == old(gl.live)
    {
      if shader != null {
        Shaders.Bind(shader, gl);
      } else if defaultShader != null {
        Shaders.Bind(defaultShader, gl);
      }
    }

    /** What every draw does before its vertices: the persistent states on
        the first draw, the entry into the shader's parameter block (see
        `EnterDraw`), the states that changed, and the shader. */
    method BeginDraw(states: RenderStates, env: Environment, gl: Driver) returns (previousWarn: bool)
      requires env.active
      modifies this`cache, this`view, this`previousViewport, this`currentShader, states.shader, defaultShader, gl
      ensures cache.glStatesSet && !cache.viewChanged
      ensures cache.lastBlendMode == states.blendMode && cache.lastTextureId == TextureId(states.texture)
      ensures cache.lastVertexBufferId ==
                if !old(cache.glStatesSet) && env.buffersAvailable then 0 else old(cache.lastVertexBufferId)
      ensures !old(cache.glStatesSet) ==> view.viewport == defaultView.viewport
      ensures old(cache.glStatesSet) ==> view == old(view)
      ensures defaultShader == null ==> currentShader == old(currentShader)
      ensures defaultShader != null ==>
                currentShader == PipelineShader(states.shader, defaultShader) && currentShader.parameterBlock
      ensures defaultShader != null && states.shader != null ==> previousWarn == old(states.shader.warn)
      ensures states.shader != null ==> states.shader.id == old(states.shader.id) &&
                                        states.shader.attributes == old(states.shader.attributes)
      ensures defaultShader != null ==> defaultShader.id == old(defaultShader.id) &&
                                        defaultShader.attributes == old(defaultShader.attributes)
      ensures states.shader != null || defaultShader != null ==>
                gl.program == PipelineShader(states.shader, defaultShader).program
      ensures gl.live == old(gl.live)
    {
      var shaderChanged;
      previousWarn, shaderChanged := EnterDraw(states, env, gl);
      ApplyDrawStates(states, shaderChanged, env.height, gl);
      ApplyShader(states.shader, gl);
    }

    /** The start of every draw: the persistent states on the first one,
        then, in the non-legacy pipeline, the shader of the states (or the
        pipeline's) becomes current and enters its parameter block; it
        counts as changed when it is not the last one used. */
    method EnterDraw(states: RenderStates, env: Environment, gl: Driver) returns (previousWarn: bool, shaderChanged: bool)
      requires env.active
      modifies this`cache, this`view, this`currentShader, states.shader, defaultShader, gl
      ensures cache.glStatesSet && cache.lastBlendMode == (if old(cache.glStatesSet) then old(cache.lastBlendMode) else BlendAlpha)
      ensures cache.viewChanged == (old(cache.viewChanged) || !old(cache.glStatesSet))
      ensures cache.lastTextureId == (if old(cache.glStatesSet) then old(cache.lastTextureId) else 0)
      ensures cache.lastVertexBufferId ==
                if !old(cache.glStatesSet) && env.buffersAvailable then 0 else old(cache.lastVertexBufferId)
      ensures !old(cache.glStatesSet) ==> view.viewport == defaultView.viewport
      ensures old(cache.glStatesSet) ==> view == old(view)
      ensures defaultShader == null ==> currentShader == old(currentShader) && !shaderChanged
      ensures defaultShader != null ==>
                currentShader == PipelineShader(states.shader, defaultShader) && currentShader.parameterBlock &&
                shaderChanged == (currentShader != lastShader)
      ensures defaultShader != null && states.shader != null ==> previousWarn == old(states.shader.warn)
      ensures states.shader != null ==> states.shader.id == old(states.shader.id) &&
                                        states.shader.attributes == old(states.shader.attributes)
      ensures defaultShader != null ==> defaultShader.id == old(defaultShader.id) &&
                                        defaultShader.attributes == old(defaultShader.attributes)
      ensures gl.live == old(gl.live)
    {
      if !cache.glStatesSet {
        ResetGLStates(env, gl);
      }
      shaderChanged := false;
      previousWarn := true;
      if defaultShader != null {
        var current := PipelineShader(states.shader, defaultShader);
        previousWarn := EnterShader(current, states.shader != null, gl);
        shaderChanged := current != lastShader;
      }
    }

    /** What every draw does after its vertices: the legacy pipeline unbinds
        the shader of the states; the non-legacy one leaves the parameter
        block and restores the warning setting. */
    method EndDraw(states: RenderStates, current: Shader?, previousWarn: bool, gl: Driver)
      requires defaultShader != null ==> current != null
      modifies this`currentShader, this`lastShader, current, gl
      ensures defaultShader == null ==> currentShader == old(currentShader) && lastShader == old(lastShader)
      ensures defaultShader == null && states.shader != null ==> gl.program == 0
      ensures defaultShader != null ==> currentShader == null && lastShader == current && !current.parameterBlock
      ensures defaultShader != null && states.shader != null ==> current.warn == previousWarn
      ensures defaultShader != null && states.shader == null ==> current.warn == old(current.warn)
      ensures current != null ==> current.attributes == old(current.attributes)
      ensures gl.live == old(gl.live)
    {
      if states.shader != null && defaultShader == null {
        Shaders.Bind(null, gl);
      }
      if defaultShader != null {
        LeaveShader(current, states.shader != null, previousWarn, gl);
      }
    }

    /** The legacy vertex path of a buffer draw: the buffer is applied only
        when it was not the last one applied (see `LegacyRebindsAsWritten`;
        a buffer changed since its last draw keeps its upload flag and is
        not uploaded, see `LegacyStaleVertices`), then its primitives are
        drawn. */
    method DrawLegacyBuffer(buffer: VertexBuffer, gl: Driver)
      modifies this`cache, buffer, gl
      ensures cache == old(cache).(lastVertexBufferId := buffer.cacheId)
      ensures buffer.vertices == old(buffer.vertices) && buffer.primitiveType == old(buffer.primitiveType) &&
              buffer.cacheId == old(buffer.cacheId) && buffer.bufferObject == old(buffer.bufferObject) &&
              buffer.arrayObjects == old(buffer.arrayObjects)
      ensures buffer.needUpload ==
                if LegacyRebindsAsWritten(buffer.cacheId, old(cache.lastVertexBufferId), old(buffer.needUpload)) &&
                   buffer.bufferObject != 0
                then false else old(buffer.needUpload)
      ensures gl.log == old(gl.log) +
                        (if LegacyRebindsAsWritten(buffer.cacheId, old(cache.lastVertexBufferId), old(buffer.needUpload))
                         then old(BufferBindCalls(buffer, ArrayBuffer)) else []) +
                        [DrawArrays(buffer.primitiveType, |buffer.vertices|)]
      ensures gl.live == old(gl.live) && gl.program == old(gl.program)
    {
      if LegacyRebindsAsWritten(buffer.cacheId, cache.lastVertexBufferId, buffer.needUpload) {
        ApplyVertexBuffer(buffer, gl);
      }
      gl.Emit(DrawArrays(buffer.primitiveType, |buffer.vertices|));
    }

    /** The array object of a non-legacy buffer draw. Where array objects
        are available it is looked up (see `Select`), bound, and the age
        table passes over its names; otherwise there is none, and the draw
        sets everything up anew. */
    method ChooseArrayObject(buffer: VertexBuffer, shaderId: nat, env: Environment, gl: Driver)
      returns (arrayObject: nat, newArray: bool, needUpload: bool)
      modifies buffer`arrayObjects, this`arrayAges, gl
      ensures env.arrayObjectsAvailable ==>
                var sel := Select(old(buffer.arrayObjects), old(arrayAges), Key(id, shaderId), arrayObject, buffer.needUpload);
                newArray == sel.newArray && needUpload == sel.needUpload &&
                buffer.arrayObjects == sel.objects && arrayAges == Aged(sel.ages) &&
                gl.log == old(gl.log) + [BindVertexArray(arrayObject)] + PurgeCalls(SortedKeys(sel.ages.Keys), sel.ages)
      ensures env.arrayObjectsAvailable && newArray ==> arrayObject > 0 && Name(ArrayObject, arrayObject) !in old(gl.live)
      ensures !env.arrayObjectsAvailable ==>
                arrayObject == 0 && newArray && !needUpload && gl.log == old(gl.log) &&
                buffer.arrayObjects == old(buffer.arrayObjects) && arrayAges == old(arrayAges)
      ensures gl.program == old(gl.program)
    {
      arrayObject, newArray, needUpload := 0, true, false;
      if env.arrayObjectsAvailable {
        arrayObject, newArray, needUpload := SelectArrayObject(buffer, shaderId, gl);
        gl.Emit(BindVertexArray(arrayObject));
        AgeAndPurge(gl);
      }
    }

    /** The rest of a non-legacy buffer draw: the buffer is applied for a new
        array object or changed vertices, a new array object has its
        attributes looked up and enabled, the primitives are drawn, and the
        array object and the attributes enabled are released. */
    method DrawArrayObject(buffer: VertexBuffer, current: Shader, arrayObject: nat, newArray: bool, needUpload: bool,
                           answers: Locations, gl: Driver)
      returns (locations: Locations)
      modifies this`cache, buffer, current`attributes, gl
      ensures newArray || needUpload ==> cache == old(cache).(lastVertexBufferId := buffer.cacheId)
      ensures !newArray && !needUpload ==> cache == old(cache) && buffer.needUpload == old(buffer.needUpload)
      ensures newArray || needUpload ==> buffer.bufferObject != 0 ==> !buffer.needUpload
      ensures buffer.vertices == old(buffer.vertices) && buffer.primitiveType == old(buffer.primitiveType) &&
              buffer.cacheId == old(buffer.cacheId) && buffer.bufferObject == old(buffer.bufferObject) &&
              buffer.arrayObjects == old(buffer.arrayObjects)
      ensures newArray ==> (locations, current.attributes) == AttributeLookups(old(current.attributes), answers)
      ensures !newArray ==> locations == NoLocations && current.attributes == old(current.attributes)
      ensures gl.log == old(gl.log) +
                        (if newArray || needUpload then old(BufferBindCalls(buffer, ArrayBuffer)) else []) +
                        AttributeCalls(LocationList(locations), true) +
                        [DrawArrays(buffer.primitiveType, |buffer.vertices|)] +
                        (if arrayObject != 0 then [BindVertexArray(0)] else []) +
                        AttributeCalls(LocationList(locations), false)
      ensures gl.live == old(gl.live) && gl.program == old(gl.program)
    {
      ghost var log0 := gl.log;
      ghost var bind := BufferBindCalls(buffer, ArrayBuffer);
      if newArray || needUpload {
        ApplyVertexBuffer(buffer, gl);
      }
      ghost var calls := if newArray || needUpload then bind else [];
      assert gl.log == log0 + calls;
      locations := NoLocations;
      if newArray {
        locations := SetUpAttributes(current, answers, gl);
      } else {
        AttributeCallsFour(locations, true);
      }
      AppendAssoc(log0, calls, AttributeCalls(LocationList(locations), true));
      calls := calls + AttributeCalls(LocationList(locations), true);
      assert gl.log == log0 + calls;
      gl.Emit(DrawArrays(buffer.primitiveType, |buffer.vertices|));
      AppendAssoc(log0, calls, [DrawArrays(buffer.primitiveType, |buffer.vertices|)]);
      calls := calls + [DrawArrays(buffer.primitiveType, |buffer.vertices|)];
      if arrayObject != 0 {
        gl.Emit(BindVertexArray(0));
      }
      AppendAssoc(log0, calls, if arrayObject != 0 then [BindVertexArray(0)] else []);
      calls := calls + (if arrayObject != 0 then [BindVertexArray(0)] else []);
      assert gl.log == log0 + calls;
      SwitchAttributes(locations, false, gl);
      AppendAssoc(log0, calls, AttributeCalls(LocationList(locations), false));
    }

    /** The non-legacy vertex path of a buffer draw with the shader `current`:
        the array object is chosen, then drawn with. */
    method DrawModernBuffer(buffer: VertexBuffer, current: Shader, env: Environment, answers: Locations, gl: Driver)
      returns (ghost generated: nat)
      modifies this`cache, this`arrayAges, buffer, current`attributes, gl
      ensures cache == old(cache).(lastVertexBufferId := cache.lastVertexBufferId)
      ensures env.arrayObjectsAvailable ==>
                var sel := Select(old(buffer.arrayObjects), old(arrayAges), Key(id, current.id), generated, old(buffer.needUpload));
                buffer.arrayObjects == sel.objects && arrayAges == Aged(sel.ages) &&
                (sel.newArray || sel.needUpload ==> cache.lastVertexBufferId == buffer.cacheId) &&
                (!sel.newArray && !sel.needUpload ==> cache.lastVertexBufferId == old(cache.lastVertexBufferId)) &&
                (sel.newArray ==> current.attributes == AttributeLookups(old(current.attributes), answers).1) &&
                (!sel.newArray ==> current.attributes == old(current.attributes))
      ensures !env.arrayObjectsAvailable ==>
                buffer.arrayObjects == old(buffer.arrayObjects) && arrayAges == old(arrayAges) &&
                cache.lastVertexBufferId == buffer.cacheId &&
                current.attributes == AttributeLookups(old(current.attributes), answers).1
      ensures gl.program == old(gl.program)
    {
      var arrayObject, newArray, needUpload := ChooseArrayObject(buffer, current.id, env, gl);
      generated := arrayObject;
      var _ := DrawArrayObject(buffer, current, arrayObject, newArray, needUpload, answers, gl);
    }

    /** `draw` of a vertex buffer. An empty buffer, or a target that cannot
        be activated, draws nothing and changes nothing. Otherwise the states
        are applied, and: in the legacy pipeline the buffer is applied when
        needed and drawn; in the non-legacy one the array object is chosen
        (through `Select` and the age pass where array objects exist), the
        buffer applied and the attributes set up as needed, and the shader
        becomes the last one used. `generated` stands for the name the
        driver would give a new array object. */
    method DrawBuffer(buffer: VertexBuffer, states: RenderStates, env: Environment, answers: Locations, gl: Driver)
      returns (ghost generated: nat)
      modifies this`cache, this`view, this`previousViewport, this`currentShader, this`lastShader, this`arrayAges,
               buffer, states.shader, defaultShader, gl
      ensures |old(buffer.vertices)| == 0 || !env.active ==>
                cache == old(cache) && arrayAges == old(arrayAges) && buffer.arrayObjects == old(buffer.arrayObjects) &&
                buffer.needUpload == old(buffer.needUpload) && gl.log == old(gl.log) &&
                currentShader == old(currentShader) && lastShader == old(lastShader)
      ensures |old(buffer.vertices)| > 0 && env.active ==>
                cache.glStatesSet && !cache.viewChanged &&
                cache.lastBlendMode == states.blendMode && cache.lastTextureId == TextureId(states.texture)
      ensures |old(buffer.vertices)| > 0 && env.active && defaultShader == null ==>
                cache.lastVertexBufferId == buffer.cacheId &&
                buffer.needUpload ==
                  (if LegacyRebindsAsWritten(buffer.cacheId,
                                             if !old(cache.glStatesSet) && env.buffersAvailable then 0
                                             else old(cache.lastVertexBufferId), old(buffer.needUpload)) &&
                      buffer.bufferObject != 0
                   then false else old(buffer.needUpload)) &&
                arrayAges == old(arrayAges) && buffer.arrayObjects == old(buffer.arrayObjects) &&
                currentShader == old(currentShader) && lastShader == old(lastShader)
      ensures |old(buffer.vertices)| > 0 && env.active && defaultShader != null ==>
                currentShader == null && lastShader == PipelineShader(states.shader, defaultShader) &&
                !lastShader.parameterBlock
      ensures |old(buffer.vertices)| > 0 && env.active && defaultShader != null && states.shader != null ==>
                states.shader.warn == old(states.shader.warn)
      ensures |old(buffer.vertices)| > 0 && env.active && defaultShader != null && env.arrayObjectsAvailable ==>
                var sel := Select(old(buffer.arrayObjects), old(arrayAges),
                                  Key(id, old(PipelineShader(states.shader, defaultShader).id)), generated, old(buffer.needUpload));
                buffer.arrayObjects == sel.objects && arrayAges == Aged(sel.ages) &&
                (sel.newArray || sel.needUpload ==> cache.lastVertexBufferId == buffer.cacheId) &&
                (!sel.newArray ==> lastShader.attributes == old(PipelineShader(states.shader, defaultShader).attributes))
      ensures |old(buffer.vertices)| > 0 && env.active && defaultShader != null && !env.arrayObjectsAvailable ==>
                buffer.arrayObjects == old(buffer.arrayObjects) && arrayAges == old(arrayAges) &&
                cache.lastVertexBufferId == buffer.cacheId
    {
      generated := 0;
      if |buffer.vertices| == 0 || !env.active {
        return;
      }
      var previousWarn := BeginDraw(states, env, gl);
      if defaultShader == null {
        DrawLegacyBuffer(buffer, gl);
      } else {
        // Light::addLightsToShader is not modelled
        generated := DrawModernBuffer(buffer, PipelineShader(states.shader, defaultShader), env, answers, gl);
      }
      EndDraw(states, PipelineShader(states.shader, defaultShader), previousWarn, gl);
    }

    /** The non-legacy vertex path of a draw from client memory with the
        shader `current`: the four attribute lookups, each attribute found
        switched on, the primitives drawn, the attributes switched off. */
    static method DrawVertexArray(current: Shader, primitive: PrimitiveType, count: nat, answers: Locations, gl: Driver)
      returns (locations: Locations)
      modifies current`attributes, gl
      ensures (locations, current.attributes) == AttributeLookups(old(current.attributes), answers)
      ensures gl.log == old(gl.log) + AttributeCalls(LocationList(locations), true) + [DrawArrays(primitive, count)] +
                        AttributeCalls(LocationList(locations), false)
      ensures gl.live == old(gl.live) && gl.program == old(gl.program)
    {
      locations := SetUpAttributes(current, answers, gl);
      gl.Emit(DrawArrays(primitive, count));
      SwitchAttributes(locations, false, gl);
    }

    /** `draw` of vertices from client memory (`None` for a null pointer).
        No vertices, or a target that cannot be activated, draws nothing
        and changes nothing. Otherwise the states are applied, any vertex
        buffer is unbound, and the primitives are drawn: directly in the
        legacy pipeline, through the attribute lookups of the shader in the
        non-legacy one, which then becomes the last one used. */
    method DrawVertices(vertices: Option<seq<Vertex>>, primitive: PrimitiveType, states: RenderStates,
                        env: Environment, answers: Locations, gl: Driver)
      modifies this`cache, this`view, this`previousViewport, this`currentShader, this`lastShader,
               states.shader, defaultShader, gl
      ensures vertices.None? || |vertices.value| == 0 || !env.active ==>
                cache == old(cache) && gl.log == old(gl.log) &&
                currentShader == old(currentShader) && lastShader == old(lastShader)
      ensures vertices.Some? && |vertices.value| > 0 && env.active ==>
                cache.glStatesSet && !cache.viewChanged && cache.lastVertexBufferId == 0 &&
                cache.lastBlendMode == states.blendMode && cache.lastTextureId == TextureId(states.texture)
      ensures vertices.Some? && |vertices.value| > 0 && env.active && defaultShader == null ==>
                currentShader == old(currentShader) && lastShader == old(lastShader)
      ensures vertices.Some? && |vertices.value| > 0 && env.active && defaultShader != null ==>
                currentShader == null && lastShader == PipelineShader(states.shader, defaultShader) &&
                !lastShader.parameterBlock &&
                lastShader.attributes == AttributeLookups(old(PipelineShader(states.shader, defaultShader).attributes), answers).1
      ensures vertices.Some? && |vertices.value| > 0 && env.active && defaultShader != null && states.shader != null ==>
                states.shader.warn == old(states.shader.warn)
    {
      if vertices.None? || |vertices.value| == 0 || !env.active {
        return;
      }
      var previousWarn := BeginDraw(states, env, gl);
      if cache.lastVertexBufferId != 0 {
        ApplyVertexBuffer(null, gl);
      }
      if defaultShader == null {
        gl.Emit(DrawArrays(primitive, |vertices.value|));
      } else {
        // Light::addLightsToShader is not modelled
        var _ := DrawVertexArray(PipelineShader(states.shader, defaultShader), primitive, |vertices.value|, answers, gl);
      }
      EndDraw(states, PipelineShader(states.shader, defaultShader), previousWarn, gl);
    }

    /** The pass over the age table, in key order: every age grows by one,
        and an array object whose age passes the limit is deleted and
        leaves the table. */
    method AgeAndPurge(gl: Driver)
      modifies this`arrayAges, gl
      ensures arrayAges == Aged(old(arrayAges))
      ensures gl.log == old(gl.log) + PurgeCalls(SortedKeys(old(arrayAges).Keys), old(arrayAges))
      ensures gl.live == old(gl.live) - ExpiredNames(old(arrayAges), old(arrayAges).Keys)
      ensures gl.program == old(gl.program)
    {
      ghost var ages := arrayAges;
      var keys := KeysInOrder(arrayAges.Keys);
      AgedPartNone(ages);
      var i := 0;
      while i < |keys|
        invariant 0 <= i <= |keys|
        invariant arrayAges == AgedPart(ages, Visited(keys, i))
        invariant gl.log + PurgeCalls(keys[i..], ages) == old(gl.log) + PurgeCalls(keys, ages)
        invariant gl.live == old(gl.live) - ExpiredNames(ages, Visited(keys, i))
        invariant gl.program == old(gl.program)
      {
        VisitStep(ages, keys, i, old(gl.log), old(gl.live), gl.log, gl.live);
        var k: nat := keys[i];
        AgeOne(k, gl);
        i := i + 1;
      }
      VisitedAll(ages.Keys);
      AgedPartAll(ages, Visited(keys, i));
    }

    /** The pass on one name: its age grows by one, and past the limit the
        array object is deleted and leaves the table. */
    method AgeOne(k: nat, gl: Driver)
      requires k in arrayAges
      modifies this`arrayAges, gl
      ensures arrayAges == AgeStep(old(arrayAges), k)
      ensures gl.log == old(gl.log) + PurgeCall(old(arrayAges), k)
      ensures gl.live == old(gl.live) - PurgedName(old(arrayAges), k)
      ensures gl.program == old(gl.program)
    {
      var age := arrayAges[k] + 1;
      if age > MaxArrayObjectAge {
        gl.Delete(ArrayObject, k);
        arrayAges := arrayAges - {k};
      } else {
        arrayAges := arrayAges[k := age];
      }
    }
  }
}
