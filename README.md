# SFML3D graphics bookkeeping, modelled in Dafny

SFML3D is a 3D fork of SFML. Most of its graphics module is OpenGL plumbing.
Inside that plumbing the library keeps its own bookkeeping, and this project
models that bookkeeping and proves what it promises:

- the render target's state cache: last blend mode, texture id, vertex
  buffer id, view flag, viewport and clear colour;
- the non-legacy array-object cache: each buffer maps (render-target id,
  shader id) to a vertex array object, and each render target keeps an age
  table that purges objects unused for 10000 draws;
- the vertex buffer's lifecycle: its upload flag, fresh cache ids, and a
  buffer-object name that copies never share;
- the shader's memoised lookup tables, its block-binding allocator, its
  texture-unit table, the parameter-block program switch, compilation
  outcomes and the version string;
- the texture's creation rules, area clamping, row copy out of a padded
  and possibly flipped read-back buffer, updates and filter flags;
- the `RenderStates` constructors;
- two text processors: the OBJ face-index parser and line dispatcher of
  the 3D example, and the match splicing and rename planning of
  `refactor.py`.

OpenGL is modelled as an oracle, `Gl.Driver`. It holds an append-only log of
the calls the library makes, the current program, and the set of live object
names. `Gen` hands out any positive name that is not live, so a deleted name
may come back. Everything the library asks of its surroundings is a
parameter:

- `activate(true)` and the availability queries are booleans;
- `getMaximumSize` is a number;
- `getValidSize` is `SizeRule` (any size, or the next power of two);
- the driver's answers to uniform and attribute lookups are integers;
- the readback of a texture is a byte sequence;
- regular-expression matches are a sorted list of non-overlapping spans;
- OBJ lines are a sequence of strings, and the float readers are functions.

Each source file's `getUniqueId` keeps its own counter. Each counter is one
`Gl.IdCounter` object. It issues 1 first and then counts up, so 0 is never an
id.

Modules follow the sources:

| module | file | models |
|---|---|---|
| `Basics` | `basics.dfy` | colours, vertices, blend modes, transforms, rectangles |
| `Gl` | `gl.dfy` | the driver oracle and the id counter |
| `VertexBuffers` | `vertex_buffers.dfy` | `VertexBuffer.cpp/.hpp` |
| `Textures` | `textures.dfy` | `Texture.cpp` |
| `Shaders` | `shaders.dfy` | `Shader.cpp/.hpp` |
| `RenderStatesModel` | `render_states.dfy` | `RenderStates.cpp` |
| `ArrayObjectCache` | `array_objects.dfy` | the array-object lookup, ageing and purge in `RenderTarget.cpp`, as values |
| `RenderTargets` | `render_target.dfy` | `RenderTarget.cpp`, `RenderTarget.inl` |
| `ObjModel` | `obj_model.dfy` | the OBJ loader in `examples/3d/3d.cpp` |
| `Refactor` | `refactor.dfy` | `refactor.py` |

The classes, `VertexBuffer`, `Texture`, `Shader`, `RenderTarget` and
`ObjModel`, keep the source's fields and update them in place. Their methods
state the whole new state.

## A hazard in the array-object cache

When the age table purges an array object, it deletes the GL name. The
buffers that registered that name are not told. The driver may then hand the
same name to another buffer's draw, and the name re-enters the age table. A
later draw of the first buffer finds its stale entry "alive" again. It then
reuses the other buffer's array object, without setting up attributes or
binding its own buffer. `ArrayObjectCache.StaleNameReused` exhibits this
sequence. The model keeps the source's behaviour here.

## Where the code and its description differ

- `Shader::getBlockBinding` refuses a new block once the table holds
  `maxBindings - 1` entries. The bindings it hands out are therefore below
  `maxBindings - 1`, not below `maxBindings`. The model follows the code.
- `getSupportedVersion` drops 15 characters whenever the driver string
  contains `"OpenGL ES GLSL "`, wherever it occurs, not only when the string
  starts with it. The model follows the code. `Shaders.StripLeadingDeclaration`
  states the documented case.
- `Texture::operator=` takes over the GL name of a temporary copy.
  `VertexBuffer::operator=` keeps its own buffer name. Each model follows its
  own code.
- A failed `Shader::compile` leaves the previous `m_id` in place, with the
  program set to 0.

## Model

| member | source | states |
|---|---|---|
| Gl.IdCounter.constructor | src/SFML3D/Graphics/RenderTarget.cpp:44-51 | the unique-id counter starts so that the first id issued is 1 |
| Gl.IdCounter.Take | src/SFML3D/Graphics/RenderTarget.cpp:44-51 | returns the counter and increments it, so ids are positive and strictly increasing |
| Gl.Driver.Gen | src/SFML3D/Graphics/VertexBuffer.cpp:93-98 | a generated GL name is positive and not live before, and is live after |
| Gl.Driver.Delete | src/SFML3D/Graphics/VertexBuffer.cpp:69-79 | a deleted name is no longer live and the delete is logged |
| RenderStatesModel.Defaults | src/SFML3D/Graphics/RenderStates.cpp:39-45 | default states are alpha blending, identity transform, no texture, no shader |
| RenderStatesModel.WithTransform | src/SFML3D/Graphics/RenderStates.cpp:49-55 | only the transform differs from the defaults |
| RenderStatesModel.WithBlendMode | src/SFML3D/Graphics/RenderStates.cpp:59-65 | only the blend mode differs from the defaults |
| RenderStatesModel.WithTexture | src/SFML3D/Graphics/RenderStates.cpp:69-75 | only the texture differs from the defaults |
| RenderStatesModel.WithShader | src/SFML3D/Graphics/RenderStates.cpp:79-85 | only the shader differs from the defaults |
| RenderStatesModel.Make | src/SFML3D/Graphics/RenderStates.cpp:89-96 | the four-argument constructor stores exactly its arguments |
| RenderStatesModel.ConstructorsAgree | src/SFML3D/Graphics/RenderStates.cpp:35-96 | `Default` and every one-argument constructor equal the four-argument one with default values elsewhere |
| RenderStatesModel.DefaultArguments | src/SFML3D/Graphics/RenderStates.cpp:39-85 | a one-argument constructor gives the defaults exactly when its argument is the default value |
| VertexBuffers.Resized | include/SFML3D/Graphics/VertexBuffer.hpp:122-134 | the resized list has the new count, keeps the first min(old, new) vertices and pads with default vertices |
| VertexBuffers.ResizedSame | include/SFML3D/Graphics/VertexBuffer.hpp:122-134 | resizing to the current count changes nothing |
| VertexBuffers.ResizedGrowShrink | include/SFML3D/Graphics/VertexBuffer.hpp:122-134 | growing and shrinking back restores the vertices |
| VertexBuffers.ResizedTwice | include/SFML3D/Graphics/VertexBuffer.hpp:122-134 | two resizes, the first not shrinking below the second, equal the last one |
| VertexBuffers.VertexBuffer.constructor | src/SFML3D/Graphics/VertexBuffer.cpp:30-39 | no vertices, points, upload flag set, fresh cache id, a new live buffer name when buffers are available |
| VertexBuffers.VertexBuffer.Typed | src/SFML3D/Graphics/VertexBuffer.cpp:43-52 | the given count of default vertices of the given type, upload flag set, fresh cache id |
| VertexBuffers.VertexBuffer.Copy | src/SFML3D/Graphics/VertexBuffer.cpp:56-65 | the source's vertices and type, a fresh cache id, an empty array-object map, and a buffer name different from the source's live one |
| VertexBuffers.VertexBuffer.Create | src/SFML3D/Graphics/VertexBuffer.cpp:83-104 | fails and changes nothing when buffers are unavailable; otherwise allocates a name only if none exists and sets the upload flag |
| VertexBuffers.VertexBuffer.VertexCount | src/SFML3D/Graphics/VertexBuffer.cpp:108-111 | the number of vertices held |
| VertexBuffers.VertexBuffer.Get | src/SFML3D/Graphics/VertexBuffer.cpp:124-127 | const indexing below the count returns the vertex at that index, without marking anything for upload |
| VertexBuffers.VertexBuffer.Set | src/SFML3D/Graphics/VertexBuffer.cpp:115-120 | mutable indexing replaces one vertex and sets the upload flag; reading that index back gives the new vertex, and every other index reads as before |
| VertexBuffers.VertexBuffer.Clear | src/SFML3D/Graphics/VertexBuffer.cpp:131-137 | no vertices remain; the upload flag is set exactly when some were held |
| VertexBuffers.VertexBuffer.Resize | src/SFML3D/Graphics/VertexBuffer.cpp:141-147 | the vertices become `Resized`; the upload flag is set exactly when the count changes |
| VertexBuffers.VertexBuffer.Append | src/SFML3D/Graphics/VertexBuffer.cpp:151-156 | the vertex is added last and the upload flag is set |
| VertexBuffers.VertexBuffer.GetPointer | src/SFML3D/Graphics/VertexBuffer.cpp:219-224 | gives access to all the vertices, none for an empty buffer, and sets the upload flag |
| VertexBuffers.VertexBuffer.Destroy | src/SFML3D/Graphics/VertexBuffer.cpp:69-79 | a held buffer name is deleted and no longer live |
| VertexBuffers.VertexBuffer.Assign | src/SFML3D/Graphics/VertexBuffer.cpp:242-253 | takes the other's vertices and type, keeps its own buffer name, sets the upload flag, takes a fresh cache id |
| VertexBuffers.BufferBindCalls | src/SFML3D/Graphics/VertexBuffer.cpp:271-293 | binding a buffer with a name binds that name; binding none binds 0 |
| VertexBuffers.Bind | src/SFML3D/Graphics/VertexBuffer.cpp:271-293 | a named buffer is uploaded only when flagged and its flag is cleared; binding none touches no flag |
| Textures.ValidSize | src/SFML3D/Graphics/Texture.cpp:686-700 | the valid size is at least the request; the request itself without power-of-two rules, else the least power of two not below it |
| Textures.ToUnsigned | src/SFML3D/Graphics/Texture.cpp:252 | the conversion to a 32-bit unsigned, which adds 2^32 to a negative value |
| Textures.ActualSize | src/SFML3D/Graphics/Texture.cpp:118 | the actual size covers the request, and zero dimensions stay zero |
| Textures.ClampArea | src/SFML3D/Graphics/Texture.cpp:240-249 | left and top are clamped to 0, right and bottom edges lie within the image, and an area inside the image is kept |
| Textures.RowUploads | src/SFML3D/Graphics/Texture.cpp:260-264 | one sub-image upload per row, row i starting i pitches into the image |
| Textures.CopiedRowIs | src/SFML3D/Graphics/Texture.cpp:318-339 | output row y is the first width*4 bytes of padded row y, or of row height-1-y when flipped |
| Textures.CopiedRowsPrefix | src/SFML3D/Graphics/Texture.cpp:322-339 | copying more rows extends the output of fewer rows |
| Textures.DirectCopy | src/SFML3D/Graphics/Texture.cpp:310-316 | an unpadded, unflipped texture gives the read-back bytes unchanged |
| Textures.CopyRows | src/SFML3D/Graphics/Texture.cpp:318-339 | the pointer-advancing row loop produces exactly the copied rows |
| Textures.Texture.constructor | src/SFML3D/Graphics/Texture.cpp:59-69 | no size, no name, flags cleared, a fresh cache id |
| Textures.Texture.Copy | src/SFML3D/Graphics/Texture.cpp:73-84 | the copy keeps the smooth and repeated flags, is not flipped and takes a fresh cache id; a 2D source is reloaded from its image at its size and padded size, under a newly live name exactly when that creation is accepted |
| Textures.Texture.Create | src/SFML3D/Graphics/Texture.cpp:102-186 | fails with nothing changed on a zero width, a zero height with nonzero depth or an oversize dimension; otherwise sets the size, clears the flip flag, takes a fresh id, allocates a name only if none exists, and picks 1D, 2D or 3D |
| Textures.Texture.LoadFromImage | src/SFML3D/Graphics/Texture.cpp:214-277 | creates at the whole image or at the clamped area, and succeeds exactly when that creation is accepted |
| Textures.Texture.LoadArea | src/SFML3D/Graphics/Texture.cpp:240-276 | the clamped area is created and its rows uploaded one by one |
| Textures.Texture.CopyToImage | src/SFML3D/Graphics/Texture.cpp:288-347 | an empty image without a texture or for a non-2D one, otherwise the copied rows of the read-back |
| Textures.Texture.Update1D | src/SFML3D/Graphics/Texture.cpp:364-382 | with texels and a texture, uploads the span, takes a fresh id and clears the flip flag; otherwise nothing changes |
| Textures.Texture.Update2D | src/SFML3D/Graphics/Texture.cpp:386-406 | as for 1D, over a rectangle that fits |
| Textures.Texture.Update3D | src/SFML3D/Graphics/Texture.cpp:410-431 | as for 1D, over a box that fits |
| Textures.Texture.UpdateAll | src/SFML3D/Graphics/Texture.cpp:351-360 | the whole-texture update, by dimensionality |
| Textures.Texture.UpdateFromImage | src/SFML3D/Graphics/Texture.cpp:435-446 | an image update is a 2D update of its pixels |
| Textures.Texture.UpdateFromWindow | src/SFML3D/Graphics/Texture.cpp:450-475 | when the window activates, copies from it, takes a fresh id and sets the flip flag; otherwise nothing changes |
| Textures.Texture.SetSmooth | src/SFML3D/Graphics/Texture.cpp:479-518 | the flag becomes the argument; the driver is called only when it changes and a texture exists |
| Textures.Texture.SetRepeated | src/SFML3D/Graphics/Texture.cpp:529-568 | as for the smooth flag |
| Textures.Texture.Destroy | src/SFML3D/Graphics/Texture.cpp:88-98 | a held texture name is deleted |
| Textures.Texture.Assign | src/SFML3D/Graphics/Texture.cpp:669-682 | through a temporary copy takes the other's flags, and for a named 2D texture its size, padded size and a new name exactly when the copy could be created; it is never flipped, takes a fresh cache id, frees its old name, and the live names lose the old and gain only the new one |
| Textures.BindCalls | src/SFML3D/Graphics/Texture.cpp:579-638 | a texture binds its name; none unbinds all three targets |
| Textures.Bind | src/SFML3D/Graphics/Texture.cpp:579-638 | logs exactly those binds |
| Shaders.Memo | src/SFML3D/Graphics/Shader.cpp:1032-1056 | a known name returns its cached location; a new one returns the driver's answer, -1 included, and caches it; nothing else changes |
| Shaders.MemoStable | src/SFML3D/Graphics/Shader.cpp:699-723 | once looked up, a name's location ignores later driver answers |
| Shaders.MemoSequence | src/SFML3D/Graphics/Shader.cpp:1032-1056 | a cached name keeps its location across any sequence of lookups |
| Shaders.BlockBinding | src/SFML3D/Graphics/Shader.cpp:1060-1105 | a known block returns its binding; a new one gets the table size, or -1 and nothing cached once the table holds maxBindings-1 entries |
| Shaders.BlockBindingValid | src/SFML3D/Graphics/Shader.cpp:1076-1101 | the bindings stay distinct and below maxBindings-1 |
| Shaders.TextureEntry | src/SFML3D/Graphics/Shader.cpp:613-634 | location -1 is ignored, a known location is replaced without a check, a new one is admitted only when size+1 < maxUnits |
| Shaders.TextureEntryFits | src/SFML3D/Graphics/Shader.cpp:613-634 | the texture table keeps fitting the available units |
| Shaders.SortedKeysOrdered | src/SFML3D/Graphics/Shader.cpp:1016-1027 | the key order walked by the table iterator: every key once, strictly increasing |
| Shaders.KeysInOrder | src/SFML3D/Graphics/Shader.cpp:1016-1027 | the loop that lists the keys yields that order |
| Shaders.UnitOfEntry | src/SFML3D/Graphics/Shader.cpp:1016-1027 | the i-th entry in key order is bound to unit i+1 |
| Shaders.TextureCalls | src/SFML3D/Graphics/Shader.cpp:1013-1028 | binding the textures makes calls exactly when the table is not empty |
| Shaders.AsWrittenRebindsForever | src/SFML3D/Graphics/Shader.cpp:674-683 | a cache id of 2^32 or more, stored in an unsigned int, never matches again |
| Shaders.AsWrittenBelowLimit | src/SFML3D/Graphics/Shader.cpp:674-683 | below 2^32 the stored id matches and the rebind is skipped |
| Shaders.RecordedSkips | src/SFML3D/Graphics/Shader.cpp:674-683 | storing the full id skips the rebind of the same block and buffer, and leaves other blocks alone |
| Shaders.SwitchTo | src/SFML3D/Graphics/Shader.cpp:299-317 | the program is switched exactly when it differs |
| Shaders.Around | src/SFML3D/Graphics/Shader.cpp:298-317 | outside a parameter block a parameter call switches to the shader and back; inside it does not switch |
| Shaders.EnterProgram | src/SFML3D/Graphics/Shader.cpp:299-303 | records the active program and switches to this one |
| Shaders.LeaveProgram | src/SFML3D/Graphics/Shader.cpp:313-317 | switches back to the recorded program |
| Shaders.BlockCalls | src/SFML3D/Graphics/Shader.cpp:672-686 | binding a block binds the buffer, binds its base only when needed, then unbinds |
| Shaders.SingleStage | src/SFML3D/Graphics/Shader.cpp:194-203 | loading one stage from memory sets exactly that stage's source |
| Shaders.StreamContents | src/SFML3D/Graphics/Shader.cpp:90-103 | reading succeeds when the stream is empty or fully read; the buffer is the data followed by a terminating zero |
| Shaders.StripEsDeclaration | src/SFML3D/Graphics/Shader.cpp:850-851 | the first 15 characters are dropped exactly when the ES declaration occurs |
| Shaders.StripLeadingDeclaration | include/SFML3D/Graphics/Shader.hpp:819-830 | a string starting with the declaration gives the rest, and an ES version starts with "ES " |
| Shaders.VersionQuery.constructor | src/SFML3D/Graphics/Shader.cpp:829-831 | the static query starts unchecked and empty |
| Shaders.VersionQuery.Get | src/SFML3D/Graphics/Shader.cpp:829-858 | the first call fixes the version, empty when unsupported; later calls return it unchanged |
| Shaders.Shader.constructor | include/SFML3D/Graphics/Shader.hpp:86-92 | a default shader is invalid: program 0, id 0, empty tables |
| Shaders.Shader.GetParamLocation | src/SFML3D/Graphics/Shader.cpp:1032-1056 | the uniform lookup is `Memo` on the parameter table |
| Shaders.Shader.GetVertexAttributeLocation | src/SFML3D/Graphics/Shader.cpp:699-723 | the attribute lookup is `Memo` on the attribute table |
| Shaders.Shader.GetBlockBinding | src/SFML3D/Graphics/Shader.cpp:1060-1105 | the block lookup is `BlockBinding` on the binding table |
| Shaders.Shader.SetParameterTexture | src/SFML3D/Graphics/Shader.cpp:606-637 | with a program, looks up the location and applies `TextureEntry`; without one nothing changes |
| Shaders.Shader.SetParameterCurrentTexture | src/SFML3D/Graphics/Shader.cpp:641-650 | records the location of the current-texture uniform |
| Shaders.Shader.SetParameterInt | src/SFML3D/Graphics/Shader.cpp:292-319 | sets the uniform inside the program switch of `Around` |
| Shaders.Shader.SetBlock | src/SFML3D/Graphics/Shader.cpp:654-695 | with uniform buffers and a program, binds the block when needed and records the low 32 bits of the buffer's cache id, as the `unsigned int` table does |
| Shaders.Shader.BindBlock | src/SFML3D/Graphics/Shader.cpp:672-686 | logs `BlockCalls`, rebinding exactly when the recorded, truncated id differs from the buffer's, and records the truncated id |
| Shaders.Shader.BindTextures | src/SFML3D/Graphics/Shader.cpp:1013-1028 | logs `TextureCalls` of the table |
| Shaders.Shader.WarnMissing | src/SFML3D/Graphics/Shader.cpp:727-732 | returns the previous flag and stores the new one |
| Shaders.Shader.BeginParameterBlock | src/SFML3D/Graphics/Shader.cpp:736-744 | records the active program and switches to this one |
| Shaders.Shader.EndParameterBlock | src/SFML3D/Graphics/Shader.cpp:748-754 | restores the recorded program if it differs |
| Shaders.Shader.ResetTables | src/SFML3D/Graphics/Shader.cpp:891-896 | all tables are cleared and the current texture is -1 |
| Shaders.Shader.CompileStages | src/SFML3D/Graphics/Shader.cpp:901-983 | succeeds exactly when every given stage compiles |
| Shaders.Shader.Compile | src/SFML3D/Graphics/Shader.cpp:874-1009 | unavailable: false, nothing changes; otherwise tables reset, any failure leaves program 0, success gives a nonzero program and a fresh id |
| Shaders.Shader.LoadFromMemory | src/SFML3D/Graphics/Shader.cpp:194-203 | compiles the one stage given |
| Shaders.Shader.LoadFromMemoryStages | src/SFML3D/Graphics/Shader.cpp:207-211 | compiles the given stages, the geometry one only when not empty |
| Shaders.Shader.LoadFromStream | src/SFML3D/Graphics/Shader.cpp:215-232 | a failed read changes nothing; otherwise compiles what was read |
| Shaders.Shader.LoadFromStreams | src/SFML3D/Graphics/Shader.cpp:236-288 | any failed read changes nothing; otherwise compiles every stage read |
| Shaders.Shader.Destroy | src/SFML3D/Graphics/Shader.cpp:130-137 | a held program is deleted |
| Shaders.ProgramCalls | src/SFML3D/Graphics/Shader.cpp:765-786 | binding uses the shader's program, or 0 for none |
| Shaders.Bind | src/SFML3D/Graphics/Shader.cpp:765-786 | the current program becomes the shader's, or 0 |
| ArrayObjectCache.Select | src/SFML3D/Graphics/RenderTarget.cpp:279-328 | a miss or a purged name registers the generated name at age 0 and sets up attributes; a live hit resets its age and uploads only when the buffer is flagged |
| ArrayObjectCache.Aged | src/SFML3D/Graphics/RenderTarget.cpp:337-352 | every entry ages by one and those past 10000 leave the table |
| ArrayObjectCache.PurgeCallsDelete | src/SFML3D/Graphics/RenderTarget.cpp:340-352 | the pass deletes every visited expiring name and nothing else |
| ArrayObjectCache.PurgeInOrder | src/SFML3D/Graphics/RenderTarget.cpp:340-352 | visiting the table in key order deletes exactly the expiring names |
| ArrayObjectCache.DrawAges | src/SFML3D/Graphics/RenderTarget.cpp:279-352 | after a draw the used entry has age 1, every entry is between 1 and 10000, and exactly those past the limit are gone |
| ArrayObjectCache.SelectMap | src/SFML3D/Graphics/RenderTarget.cpp:316-328 | a miss overwrites the key with the new name and keeps the other keys; a hit keeps the map |
| ArrayObjectCache.StaleNameReused | src/SFML3D/Graphics/RenderTarget.cpp:300-352 | a purged name handed to another buffer brings the first buffer's stale entry back to life |
| RenderTargets.AttributeLookups | src/SFML3D/Graphics/RenderTarget.cpp:370-400 | the four attribute locations are memoised in the shader's table |
| RenderTargets.AttributesPaired | src/SFML3D/Graphics/RenderTarget.cpp:370-418 | the attributes switched off after a draw are those switched on before it, in order |
| RenderTargets.TextureId | src/SFML3D/Graphics/RenderTarget.cpp:884 | the recorded texture id is the texture's cache id, or 0 for none |
| RenderTargets.GlViewport | src/SFML3D/Graphics/RenderTarget.cpp:726-731 | the viewport is flipped to GL's bottom-left origin |
| RenderTargets.GlViewportTwice | src/SFML3D/Graphics/RenderTarget.cpp:726-731 | flipping twice gives back the viewport |
| RenderTargets.ViewCalls | src/SFML3D/Graphics/RenderTarget.cpp:721-757 | the viewport is sent only when it differs from the previous one |
| RenderTargets.PipelineShader | src/SFML3D/Graphics/RenderTarget.cpp:206-224 | a non-legacy draw uses the states' shader, or else the default one |
| RenderTargets.LegacyRebindsAsWritten | src/SFML3D/Graphics/RenderTarget.cpp:256-258 | the legacy path rebinds exactly when the buffer's cache id differs from the last one |
| RenderTargets.LegacyRebinds | src/SFML3D/Graphics/RenderTarget.cpp:256-258 | the corrected test rebinds also when the buffer is flagged for upload, and only then |
| RenderTargets.LegacyStaleVertices | src/SFML3D/Graphics/RenderTarget.cpp:256-258 | a flagged buffer drawn twice is not rebound as written, and is rebound as corrected |
| RenderTargets.DefaultStateCalls | src/SFML3D/Graphics/RenderTarget.cpp:682-684 | applying the default states starts with alpha blending |
| RenderTargets.ResetCalls | src/SFML3D/Graphics/RenderTarget.cpp:647-700 | resetting the states starts with alpha blending |
| RenderTargets.View.Copy | include/SFML3D/Graphics/RenderTarget.inl:9-10 | the copy covers the same viewport |
| RenderTargets.RenderTarget.constructor | src/SFML3D/Graphics/RenderTarget.cpp:60-75 | a fresh target id, nothing applied yet, the default view held, an empty age table |
| RenderTargets.RenderTarget.Clear | src/SFML3D/Graphics/RenderTarget.cpp:88-100 | when active, sends the clear colour only when it differs from the cached one, then records it |
| RenderTargets.RenderTarget.ApplyTransform | src/SFML3D/Graphics/RenderTarget.cpp:801-827 | the legacy pipeline loads the model matrix |
| RenderTargets.RenderTarget.SetView | include/SFML3D/Graphics/RenderTarget.inl:5-17 | the held view is kept when it is the argument, else replaced by a copy; the view flag is always set and the view matrix applied |
| RenderTargets.RenderTarget.ApplyCurrentView | src/SFML3D/Graphics/RenderTarget.cpp:721-757 | records the viewport and clears the view flag |
| RenderTargets.RenderTarget.ApplyBlendMode | src/SFML3D/Graphics/RenderTarget.cpp:761-797 | sends the blend function and records the mode |
| RenderTargets.RenderTarget.ApplyTexture | src/SFML3D/Graphics/RenderTarget.cpp:841-885 | binds the texture in the legacy pipeline and records its id |
| RenderTargets.RenderTarget.ApplyVertexBuffer | src/SFML3D/Graphics/RenderTarget.cpp:896-901 | binds the buffer and records its cache id, or 0 for none |
| RenderTargets.RenderTarget.ApplyDefaultStates | src/SFML3D/Graphics/RenderTarget.cpp:682-684 | records alpha blending and no texture |
| RenderTargets.RenderTarget.ResetGLStates | src/SFML3D/Graphics/RenderTarget.cpp:647-700 | when active, applies the defaults, sets the default view and marks the states as set; otherwise nothing changes |
| RenderTargets.RenderTarget.UpdateView | src/SFML3D/Graphics/RenderTarget.cpp:229-230 | the view is applied only when the shader changed or the view flag is set |
| RenderTargets.RenderTarget.UpdateBlendMode | src/SFML3D/Graphics/RenderTarget.cpp:233-234 | the blend mode is sent only when it differs from the cached one, which then equals the states' mode |
| RenderTargets.RenderTarget.UpdateTexture | src/SFML3D/Graphics/RenderTarget.cpp:237-239 | the texture is applied only when the shader changed or its id differs, and the recorded id is then the texture's |
| RenderTargets.RenderTarget.ApplyDrawStates | src/SFML3D/Graphics/RenderTarget.cpp:226-239 | after the state checks the cache holds the states' blend mode and texture id |
| RenderTargets.RenderTarget.EnterShader | src/SFML3D/Graphics/RenderTarget.cpp:206-224 | the draw's shader becomes current inside a parameter block, with warnings off for a user shader |
| RenderTargets.RenderTarget.LeaveShader | src/SFML3D/Graphics/RenderTarget.cpp:425-434 | closes the block, restores the warning flag and remembers the shader |
| RenderTargets.RenderTarget.SetUpAttributes | src/SFML3D/Graphics/RenderTarget.cpp:370-400 | looks up the four attributes and enables those that exist |
| RenderTargets.RenderTarget.SelectArrayObject | src/SFML3D/Graphics/RenderTarget.cpp:276-328 | the buffer map and age table become those of `Select`, with a fresh name on a miss |
| RenderTargets.RenderTarget.ApplyShader | src/SFML3D/Graphics/RenderTarget.cpp:242-245 | binds the draw's shader, or the default one |
| RenderTargets.RenderTarget.BeginDraw | src/SFML3D/Graphics/RenderTarget.cpp:199-245 | the first draw resets the states; the cache then holds the states' blend mode and texture id |
| RenderTargets.RenderTarget.EnterDraw | src/SFML3D/Graphics/RenderTarget.cpp:199-224 | resets the states on first use, then enters the shader |
| RenderTargets.RenderTarget.EndDraw | src/SFML3D/Graphics/RenderTarget.cpp:422-434 | leaves the shader and unbinds the program in the legacy path |
| RenderTargets.RenderTarget.DrawLegacyBuffer | src/SFML3D/Graphics/RenderTarget.cpp:253-267 | rebinds (and so uploads) the buffer only when its cache id differs from the last one; otherwise its upload flag is kept; its id is recorded and the primitives drawn |
| RenderTargets.RenderTarget.ChooseArrayObject | src/SFML3D/Graphics/RenderTarget.cpp:276-353 | selects the array object, then ages and purges the table |
| RenderTargets.RenderTarget.DrawArrayObject | src/SFML3D/Graphics/RenderTarget.cpp:363-418 | attributes are set up only for a new array object, the buffer bound only when new or flagged |
| RenderTargets.RenderTarget.DrawModernBuffer | src/SFML3D/Graphics/RenderTarget.cpp:276-418 | the non-legacy draw through the array-object cache, or through attributes when array objects are unavailable |
| RenderTargets.RenderTarget.DrawBuffer | src/SFML3D/Graphics/RenderTarget.cpp:193-436 | an empty buffer or inactive target changes nothing; otherwise the states are applied and the buffer drawn by the legacy path, which keeps the upload flag of a buffer drawn last, or by the array-object path |
| RenderTargets.RenderTarget.DrawVertexArray | src/SFML3D/Graphics/RenderTarget.cpp:519-568 | the raw vertices are drawn through the four attributes, which are switched off again |
| RenderTargets.RenderTarget.DrawVertices | src/SFML3D/Graphics/RenderTarget.cpp:440-585 | null or no vertices changes nothing; otherwise the buffer is unbound and the recorded buffer id is 0 |
| RenderTargets.RenderTarget.AgeAndPurge | src/SFML3D/Graphics/RenderTarget.cpp:337-352 | the erase-while-iterating loop leaves `Aged` and deletes exactly the expiring names in key order |
| ObjModel.Pred32 | examples/3d/3d.cpp:46-48 | the unsigned index minus one, which wraps 0 to 2^32-1 |
| ObjModel.ParseIndicesOf | examples/3d/3d.cpp:36-43 | a token `p/t/n` of digit runs parses to its three decimal values |
| ObjModel.MakeVertex | examples/3d/3d.cpp:26-63 | the result is a default vertex or is built from the three lists and the model colour |
| ObjModel.MakeVertexOfIndices | examples/3d/3d.cpp:55-60 | a valid token takes position, texture coordinates and normal at index-1, and the model colour |
| ObjModel.MakeVertexZeroIndex | examples/3d/3d.cpp:46-53 | an index 0 gives a default vertex |
| ObjModel.MakeVertexOutOfRange | examples/3d/3d.cpp:50-53 | an index beyond a list gives a default vertex |
| ObjModel.MakeVertexBareNumber | examples/3d/3d.cpp:36-37 | a token without separators gives a default vertex |
| ObjModel.ValueDecimal | examples/3d/3d.cpp:36-43 | the decimal digits of a number read back as that number |
| ObjModel.PositionLine | examples/3d/3d.cpp:90-96 | a `v` line appends one position and nothing else |
| ObjModel.TexCoordLine | examples/3d/3d.cpp:97-103 | a `vt` line appends one texture coordinate and nothing else |
| ObjModel.NormalLine | examples/3d/3d.cpp:104-110 | a `vn` line appends one normal and nothing else |
| ObjModel.FaceLine | examples/3d/3d.cpp:111-129 | an `f` line appends three vertices and the face (n-3, n-2, n-1) over the new count n |
| ObjModel.OtherLine | examples/3d/3d.cpp:86-129 | a line with another word changes nothing |
| ObjModel.LoadLinesGrows | examples/3d/3d.cpp:78-130 | the lists only grow, and there are three vertices per face |
| ObjModel.ObjModel.constructor | examples/3d/3d.cpp:67-72 | an empty model with the given colour |
| ObjModel.ObjModel.LoadFromFile | examples/3d/3d.cpp:67-136 | an unopenable file gives false and nothing changes; otherwise true, whatever the lines hold, and the lines are dispatched with the directive word kept from line to line, so a blank line repeats the previous directive |
| ObjModel.BlankLineRepeatsDirective | examples/3d/3d.cpp:86-88 | as written, a blank line after a `v` line appends a second, zero position |
| ObjModel.SkippingAgrees | examples/3d/3d.cpp:86-88 | on files without blank lines the corrected loader and the written one agree |
| ObjModel.SkippingIgnoresBlank | examples/3d/3d.cpp:86-88 | the corrected loader ignores blank lines |
| Refactor.Join | refactor.py:8-15 | the loop builds the components joined by "/" |
| Refactor.JoinedSeparators | refactor.py:8-15 | k slash-free components give k-1 slashes |
| Refactor.JoinedEnds | refactor.py:8-15 | with non-empty first and last components there is no leading or trailing "/" |
| Refactor.SplitJoined | refactor.py:8-15 | splitting the joined slash-free components gives them back |
| Refactor.JoinedSplit | refactor.py:8-15 | joining the pieces of a split gives the string back |
| Refactor.Skip | refactor.py:33-42 | a file is skipped exactly when extensions are given and none is a proper suffix of its name; folders never |
| Refactor.SplicedLength | refactor.py:65-76 | the line's length loses the matched lengths and gains one replacement per match |
| Refactor.SplicedIdentity | refactor.py:57-58 | a line with no matches is unchanged |
| Refactor.SplicedKeepsEnds | refactor.py:65-76 | text before the first match and after the last is kept |
| Refactor.Splice | refactor.py:57-79 | the loop splices the replacement into every match, in order |
| Refactor.UntouchedContent | refactor.py:57-58 | with no matches the content is the lines unchanged |
| Refactor.CountZero | refactor.py:80-87 | the match count is 0 exactly when no line matched |
| Refactor.RewriteFile | refactor.py:49-87 | the new content is every line spliced, and the file is rewritten exactly when some line matched |
| Refactor.RenamedPath | refactor.py:88-112 | a matched path gives its entry with the spliced path; an unmatched one gives none |
| Refactor.Forward | refactor.py:115-116 | every backslash becomes "/" and nothing else changes |
| Refactor.ComponentRenamesOf | refactor.py:122-132 | a pair exists for each differing component, prefixed by the old components before it; the folder flag only on the last |
| Refactor.MismatchPlansNothing | refactor.py:121-136 | paths with different component counts plan nothing and count one error |
| Refactor.DedupSound | refactor.py:133-134 | the plan holds each candidate exactly once |
| Refactor.PlanEntry | refactor.py:122-134 | the inner loop adds the entry's candidates that are not yet planned |
| Refactor.PlanRenames | refactor.py:113-136 | the plan is every candidate, first occurrence only, with one error per mismatched entry |

## Left out

- OpenGL effects themselves are not modelled: uploads, uniform values, the
  compiler and linker, and `glCheck`. The log records which calls are made,
  with abstract arguments. The availability queries and name generators are
  parameters.
- The non-legacy uniforms and matrices of a draw, and `Light::addLightsToShader`,
  are not modelled. `Light` has no implementation in view.
- In the non-legacy path, `applyTexture`, `applyCurrentView` and
  `applyTransform` call `setParameter` on the shader with the `sf_*` names
  (RenderTarget.cpp:742-744, 812-821, 874-879). That caches those names in the
  shader's parameter table and puts `sf_Texture0` in its texture table. The
  model leaves the shader's tables unchanged there, so these entries are
  left out along with the uniform values.
- Floating-point geometry is not modelled: `getViewport`, the view and
  texture matrices, `getBounds`, colour normalisation and GLSL version
  parsing. A view is the pixel viewport it covers.
- `Texture::getValidSize` uses `log` and `ceil`. It is modelled as
  `SizeRule`: any size, or the least power of two not below the request.
- `Texture::bind` sets up a texture matrix and `Shader::bind` sets up
  uniforms; both are modelled as their bind calls only.
- The `TextureSaver` that preserves the bound texture is not modelled.
- The wrap and filter calls of `create`, `setSmooth` and `setRepeated` are
  logged as one call per parameter group.
- The GL enables in `resetGLStates`, the legacy pointer calls, and the
  client data of `glDrawArrays` in the raw-vertex draw are not logged.
- `pushGLStates` and `popGLStates` are left out; the attribute stacks live
  in the driver.
- `glUniformBlockBinding` in `getBlockBinding` is not logged.
- The shader source, compile and attach calls and `glFlush` are not logged.
  Only the deletion of each stage's shader object is.
- `include/SFML3D/Graphics/RenderTarget.hpp` is not part of this model. The
  age table is taken to be an ordered map, visited in increasing key order.
- The mutexes around the `getUniqueId` counters are left out; the counters
  are sequential.
- `Gl.IdCounter.Take`: does not model the 64-bit wrap-around of the counter,
  because no realistic run issues 2^64 ids.
- File and stream I/O are left out: `loadFromFile`, `getFileContents`, and
  the OBJ file open. The OBJ loader receives whether the file opened and
  its lines. A shader stream is its size, data and the count read.
- The `>>` float readers of the OBJ loader are functions given as
  parameters. `Model::addVertex`, `addFace` and `update` are appends to the
  model's lists.
- `refactor.py` takes `len(map(...))` (lines 55-56 and 90-91), which works
  only under Python 2, where `map` returns a list. The model assumes
  Python 2: the matches form a list.
- `os.walk`, `open`, `os.rename`, `print` and the regular-expression engine
  of `refactor.py` are left out. Matches are given as spans, and the plan
  is the list of renames.
- `RenderTargets.RenderTarget.DrawBuffer`: states the cache, table and
  buffer facts of a draw; the exact call log is stated by its helpers
  `EnterDraw`, `ApplyDrawStates`, `DrawLegacyBuffer`, `DrawArrayObject` and
  `EndDraw`.
- `RenderTargets.RenderTarget.DrawVertices`: states the cache facts; the
  call log is stated by `DrawVertexArray`.
- `Textures.Texture.LoadFromImage`: the calls of the creation itself are
  stated only to exist; `Texture.Create` states them exactly.
- `Shaders.Shader.Compile`: the deletes of the compiled stage objects are
  stated only to exist.
- `Audio`, window, platform, shape and drawable code is outside the modelled
  core.

## Findings

| source | as written | input that shows it | evidently intended | confidence | as-written member | corrected member |
|---|---|---|---|---|---|---|
| examples/3d/3d.cpp:86-88 | the directive word lives across lines, and `>>` on a blank line leaves it unchanged, so the line is dispatched again | the lines `v 1 2 3` then an empty line give two positions, the second zero | a blank line is ignored | not executed | ObjModel.BlankLineRepeatsDirective | ObjModel.SkippingIgnoresBlank |
| src/SFML3D/Graphics/Shader.cpp:674-683 | the table of bound buffers stores the 64-bit cache id in an `unsigned int` (include/SFML3D/Graphics/Shader.hpp:900) | a buffer whose cache id is 2^32 is rebound on every call | the stored id matches the buffer's, so the rebind is skipped | not executed | Shaders.AsWrittenRebindsForever | Shaders.RecordedSkips |
| src/SFML3D/Graphics/RenderTarget.cpp:256-258 | the legacy path rebinds a buffer only when its cache id differs from the last one drawn; mutators set the upload flag but keep the id | a buffer drawn, changed with `append`, then drawn again is not uploaded | a flagged buffer is uploaded before the draw | not executed | RenderTargets.LegacyStaleVertices | RenderTargets.LegacyRebinds |

The class methods follow the code as written: `ObjModel.ObjModel.LoadFromFile`
keeps the directive word across lines, `Shaders.Shader.SetBlock` stores the
truncated cache id, and `RenderTargets.RenderTarget.DrawLegacyBuffer` rebinds on
the id alone. The corrected members state what each should do instead.
