// The shader's bookkeeping around its GL program: the memoised uniform,
// attribute and uniform-block lookups, the uniform-block binding allocator,
// the table of texture parameters and the units they are bound to, the
// parameter block that saves and restores the current program, compilation
// (which resets every table), the load dispatch and the supported GLSL
// version string.

module Shaders {
  import opened Basics
  import opened Gl
  import opened Textures
  import opened VertexBuffers

  // ---------------------------------------------------------------------
  // memoised lookups
  // ---------------------------------------------------------------------

  /** A lookup through a cache table: a cached location is returned as it
      is; otherwise the driver's answer (-1 when not found) is returned and
      cached. */
  function Memo(table: map<string, int>, name: string, answer: int): (r: (int, map<string, int>))
    ensures name in r.1 && r.1[name] == r.0
    ensures name in table ==> r.0 == table[name]
    ensures name !in table ==> r.0 == answer
    ensures r.1.Keys == table.Keys + {name}
    ensures forall n :: n in table ==> r.1[n] == table[n]
  {
    if name in table then (table[name], table) else (answer, table[name := answer])
  }

  /** Once a name has been looked up, later lookups return the first
      answer, whatever the driver would say now, and change nothing. */
  lemma MemoStable(table: map<string, int>, name: string, first: int, later: int)
    ensures var (r, t) := Memo(table, name, first);
            Memo(t, name, later) == (r, t)
  {
  }

  /** Looking up other names never changes a cached location. */
  lemma {:induction false} MemoSequence(table: map<string, int>, names: seq<string>, answers: seq<int>, name: string)
    requires |names| == |answers| && name in table
    ensures name in MemoAll(table, names, answers) && MemoAll(table, names, answers)[name] == table[name]
    decreases |names|
  {
    if |names| > 0 {
      var t := Memo(table, names[0], answers[0]).1;
      MemoSequence(t, names[1..], answers[1..], name);
    }
  }

  /** The table after a run of lookups. */
  function MemoAll(table: map<string, int>, names: seq<string>, answers: seq<int>): (t: map<string, int>)
    requires |names| == |answers|
    ensures table.Keys <= t.Keys
    decreases |names|
  {
    if |names| == 0 then table
    else MemoAll(Memo(table, names[0], answers[0]).1, names[1..], answers[1..])
  }

  // ---------------------------------------------------------------------
  // uniform-block bindings
  // ---------------------------------------------------------------------

  /** `getBlockBinding`: a cached binding is returned as it is. Otherwise,
      when the table already holds maxBindings-1 entries, -1 is returned and
      nothing is cached; else a found block gets the table's size as its
      binding, an unknown block gets -1, and the answer is cached. */
  function BlockBinding(table: map<string, int>, name: string, found: bool, maxBindings: int): (r: (int, map<string, int>))
    ensures name in table ==> r == (table[name], table)
    ensures name !in table && |table| >= maxBindings - 1 ==> r == (-1, table)
    ensures name !in table && |table| < maxBindings - 1 ==>
              r.1 == table[name := r.0] && (found ==> r.0 == |table|) && (!found ==> r.0 == -1)
  {
    if name in table then (table[name], table)
    else if |table| >= maxBindings - 1 then (-1, table)
    else if found then (|table|, table[name := |table|])
    else (-1, table[name := -1])
  }

  /** The binding table's invariant: every entry is -1 or a binding below
      both the table's size and maxBindings-1, and no two blocks share a
      binding. */
  ghost predicate BindingsValid(table: map<string, int>, maxBindings: int)
  {
    (forall n :: n in table ==> table[n] == -1 || (0 <= table[n] < |table| && table[n] < maxBindings - 1)) &&
    (forall a, b :: a in table && b in table && table[a] >= 0 && table[a] == table[b] ==> a == b)
  }

  lemma EmptyBindingsValid(maxBindings: int)
    ensures BindingsValid(map[], maxBindings)
  {
  }

  lemma MapAddSize(table: map<string, int>, name: string, v: int)
    requires name !in table
    ensures |table[name := v]| == |table| + 1
  {
    assert table[name := v].Keys == table.Keys + {name};
  }

  /** Every lookup keeps the invariant, and what it returns is -1 or a
      binding below maxBindings-1. */
  lemma BlockBindingValid(table: map<string, int>, name: string, found: bool, maxBindings: int)
    requires BindingsValid(table, maxBindings)
    ensures var (b, t) := BlockBinding(table, name, found, maxBindings);
            BindingsValid(t, maxBindings) && (b == -1 || 0 <= b < maxBindings - 1)
  {
    var (b, t) := BlockBinding(table, name, found, maxBindings);
    if name !in table && |table| < maxBindings - 1 {
      MapAddSize(table, name, b);
      forall a, c | a in t && c in t && t[a] >= 0 && t[a] == t[c]
        ensures a == c
      {
        if a != name && c != name {
        } else if a == name && c != name {
          assert table[c] < |table|;
        } else if a != name && c == name {
          assert table[a] < |table|;
        }
      }
    }
  }

  // ---------------------------------------------------------------------
  // texture parameters
  // ---------------------------------------------------------------------

  /** `setParameter(name, texture)` on the table: location -1 is ignored, a
      location already in the table gets the new texture, and a new location
      is admitted only while size+1 stays below the number of units. */
  function TextureEntry(table: map<int, Texture>, location: int, texture: Texture, maxUnits: nat): (t: map<int, Texture>)
    ensures location == -1 ==> t == table
    ensures location != -1 && location in table ==> t == table[location := texture]
    ensures location != -1 && location !in table && |table| + 1 >= maxUnits ==> t == table
    ensures location != -1 && location !in table && |table| + 1 < maxUnits ==> t == table[location := texture]
  {
    if location == -1 then table
    else if location in table then table[location := texture]
    else if |table| + 1 >= maxUnits then table
    else table[location := texture]
  }

  /** The units the table needs, 1 to its size, are all below maxUnits. */
  ghost predicate UnitsFit(table: map<int, Texture>, maxUnits: nat)
  {
    |table| == 0 || |table| < maxUnits
  }

  lemma TextureEntryFits(table: map<int, Texture>, location: int, texture: Texture, maxUnits: nat)
    requires UnitsFit(table, maxUnits)
    ensures UnitsFit(TextureEntry(table, location, texture, maxUnits), maxUnits)
    ensures TextureEntry(table, location, texture, maxUnits).Keys <= table.Keys + {location}
  {
    if location != -1 && location in table {
      assert table[location := texture].Keys == table.Keys;
    } else if location != -1 && location !in table && |table| + 1 < maxUnits {
      assert table[location := texture].Keys == table.Keys + {location};
    }
  }

  /** The least element of a finite set of locations. */
  ghost function MinKey(s: set<int>): (m: int)
    requires s != {}
    ensures m in s && forall y :: y in s ==> m <= y
  {
    MinExists(s);
    var m :| m in s && forall y :: y in s ==> m <= y;
    m
  }

  lemma {:induction false} MinExists(s: set<int>)
    requires s != {}
    ensures exists m :: m in s && forall y :: y in s ==> m <= y
    decreases |s|
  {
    if forall z :: z !in s {
      // a non-empty set has an element
      assert false;
    }
    var x :| x in s;
    var rest := s - {x};
    if rest == {} {
      forall y | y in s
        ensures x <= y
      {
        assert y !in rest;
      }
    } else {
      assert |rest| < |s|;
      MinExists(rest);
      var m :| m in rest && forall y :: y in rest ==> m <= y;
      var least := if x < m then x else m;
      forall y | y in s
        ensures least <= y
      {
        if y != x {
          assert y in rest;
        }
      }
      assert least in s;
    }
  }

  /** The keys of a texture table in the order a `std::map` visits them. */
  ghost function SortedKeys(s: set<int>): (r: seq<int>)
    ensures forall i :: 0 <= i < |r| ==> r[i] in s
    decreases |s|
  {
    if s == {} then []
    else
      var m := MinKey(s);
      [m] + SortedKeys(s - {m})
  }

  /** The visit covers every key once, in increasing order. */
  lemma SortedKeysOrdered(s: set<int>)
    ensures |SortedKeys(s)| == |s|
    ensures forall k :: k in s ==> k in SortedKeys(s)
    ensures forall i, j :: 0 <= i < j < |SortedKeys(s)| ==> SortedKeys(s)[i] < SortedKeys(s)[j]
  {
    SortedKeysCover(s);
    SortedKeysIncreasing(s);
  }

  /** The visit has one entry per key and reaches every key. */
  lemma {:induction false} SortedKeysCover(s: set<int>)
    ensures |SortedKeys(s)| == |s|
    ensures forall k :: k in s ==> k in SortedKeys(s)
    decreases |s|
  {
    if s != {} {
      var m := MinKey(s);
      var r := SortedKeys(s - {m});
      SortedKeysCover(s - {m});
      assert SortedKeys(s) == [m] + r;
      forall k | k in s
        ensures k in SortedKeys(s)
      {
        if k != m {
          assert k in r;
        }
      }
    }
  }

  /** The visit is strictly increasing. */
  lemma {:induction false} SortedKeysIncreasing(s: set<int>)
    ensures forall i, j :: 0 <= i < j < |SortedKeys(s)| ==> SortedKeys(s)[i] < SortedKeys(s)[j]
    decreases |s|
  {
    if s != {} {
      var m := MinKey(s);
      var r := SortedKeys(s - {m});
      SortedKeysIncreasing(s - {m});
      assert SortedKeys(s) == [m] + r;
      forall i, j | 0 <= i < j < |SortedKeys(s)|
        ensures SortedKeys(s)[i] < SortedKeys(s)[j]
      {
        if i == 0 {
          assert SortedKeys(s)[j] == r[j - 1] && r[j - 1] in s - {m};
        } else {
          assert SortedKeys(s)[i] == r[i - 1] && SortedKeys(s)[j] == r[j - 1];
        }
      }
    }
  }

  /** Visiting a map starts with its least key: after the keys already
      visited, the least remaining key comes next. */
  lemma SortedKeysStep(done: seq<int>, s: set<int>, k: int)
    requires k in s && forall y :: y in s ==> k <= y
    ensures done + SortedKeys(s) == (done + [k]) + SortedKeys(s - {k})
  {
    var m := MinKey(s);
    assert m <= k && k <= m;
    assert SortedKeys(s) == [k] + SortedKeys(s - {k});
  }

  /** The order in which a `std::map` with these keys is visited. */
  method KeysInOrder(s: set<int>) returns (keys: seq<int>)
    ensures keys == SortedKeys(s)
  {
    var rest := s;
    keys := [];
    while rest != {}
      invariant SortedKeys(s) == keys + SortedKeys(rest)
      decreases |rest|
    {
      MinExists(rest);
      var k :| k in rest && forall y :: y in rest ==> k <= y;
      SortedKeysStep(keys, rest, k);
      keys := keys + [k];
      rest := rest - {k};
    }
    assert keys + [] == keys;
  }

  /** The calls binding the given table locations to units `unit`,
      `unit`+1, ...: the uniform gets the unit number, the unit is made
      active and the texture is bound on it. (Only locations of the table
      are ever given; any other one is passed over.) */
  function UnitCalls(keys: seq<int>, table: map<int, Texture>, unit: nat): (calls: seq<Call>)
    reads table.Values
    decreases |keys|
  {
    if keys == [] then []
    else if keys[0] !in table then UnitCalls(keys[1..], table, unit + 1)
    else [Uniform1i(keys[0], unit), ActiveTexture(unit)] + BindCalls(table[keys[0]]) + UnitCalls(keys[1..], table, unit + 1)
  }

  /** The calls of two runs of locations follow each other, the second
      run starting where the first one's units end. */
  lemma {:induction false} UnitCallsAppend(a: seq<int>, b: seq<int>, table: map<int, Texture>, unit: nat)
    ensures UnitCalls(a + b, table, unit) == UnitCalls(a, table, unit) + UnitCalls(b, table, unit + |a|)
    decreases |a|
  {
    if a != [] {
      assert (a + b)[1..] == a[1..] + b;
      UnitCallsAppend(a[1..], b, table, unit + 1);
    } else {
      assert a + b == b;
    }
  }

  /** The i-th location in key order is bound to unit `unit`+i; with
      `unit` 1, unit 0 stays free for the current texture. */
  lemma UnitOfEntry(keys: seq<int>, table: map<int, Texture>, unit: nat, i: nat)
    requires i < |keys| && keys[i] in table
    ensures UnitCalls(keys, table, unit) ==
              UnitCalls(keys[..i], table, unit) +
              [Uniform1i(keys[i], unit + i), ActiveTexture(unit + i)] + BindCalls(table[keys[i]]) +
              UnitCalls(keys[i + 1..], table, unit + i + 1)
  {
    assert keys == keys[..i] + keys[i..];
    UnitCallsAppend(keys[..i], keys[i..], table, unit);
    assert keys[i..][1..] == keys[i + 1..];
  }

  /** Everything `bindTextures` issues for a table. */
  ghost function TextureCalls(table: map<int, Texture>): (calls: seq<Call>)
    reads table.Values
    ensures |table| == 0 <==> calls == []
  {
    UnitCalls(SortedKeys(table.Keys), table, 1) + (if |table| == 0 then [] else [ActiveTexture(0)])
  }

  // ---------------------------------------------------------------------
  // uniform-buffer bindings
  // ---------------------------------------------------------------------

  /** `setBlock` rebinds a block when the table has no buffer for it or a
      different one. */
  predicate NeedsBinding(bound: map<string, nat>, name: string, cacheId: nat)
  {
    name !in bound || bound[name] != cacheId
  }

  /** As written, the table's values are `unsigned int` while cache ids are
      64-bit, so the id is stored truncated. */
  function RecordAsWritten(bound: map<string, nat>, name: string, cacheId: nat): (t: map<string, nat>)
    ensures name in t && t[name] < U32
  {
    bound[name := ToUnsigned(cacheId)]
  }

  /** Below 2^32 the truncation is harmless: recording makes the next
      `setBlock` with the same buffer a no-op. */
  lemma AsWrittenBelowLimit(bound: map<string, nat>, name: string, cacheId: nat)
    requires cacheId < U32
    ensures !NeedsBinding(RecordAsWritten(bound, name, cacheId), name, cacheId)
  {
  }

  /** From 2^32 on, the recorded id never equals the buffer's own, so the
      same buffer is rebound on every call. */
  lemma AsWrittenRebindsForever(bound: map<string, nat>, name: string, cacheId: nat)
    requires U32 <= cacheId < 2 * U32
    ensures NeedsBinding(RecordAsWritten(bound, name, cacheId), name, cacheId)
  {
    assert ToUnsigned(cacheId) == ToUnsigned(cacheId - U32) == cacheId - U32;
  }

  /** Recording the full id: a buffer that was just bound is not rebound,
      and other blocks keep their buffers. */
  lemma RecordedSkips(bound: map<string, nat>, name: string, cacheId: nat, other: string, otherId: nat)
    requires other != name
    ensures !NeedsBinding(bound[name := cacheId], name, cacheId)
    ensures NeedsBinding(bound[name := cacheId], other, otherId) == NeedsBinding(bound, other, otherId)
  {
  }

  // ---------------------------------------------------------------------
  // program switching
  // ---------------------------------------------------------------------

  /** The glUseProgramObject call made when `from` is not already `to`. */
  function SwitchTo(from: nat, to: nat): (calls: seq<Call>)
    ensures from == to <==> calls == []
    ensures from != to ==> calls == [UseProgram(to)]
  {
    if from != to then [UseProgram(to)] else []
  }

  /** The calls of a parameter setter whose own work is `inner`: outside a
      parameter block the shader's program is made current first and the
      previous program restored afterwards; inside one neither happens. */
  function Around(inBlock: bool, current: nat, program: nat, inner: seq<Call>): (calls: seq<Call>)
    ensures inBlock ==> calls == inner
    ensures !inBlock && current == program ==> calls == inner
    ensures !inBlock && current != program ==> calls == [UseProgram(program)] + inner + [UseProgram(current)]
  {
    (if inBlock then [] else SwitchTo(current, program)) + inner + (if inBlock then [] else SwitchTo(program, current))
  }

  /** The first half of the save/restore pattern. */
  method EnterProgram(inBlock: bool, program: nat, gl: Driver) returns (saved: nat)
    modifies gl
    ensures saved == (if inBlock then 0 else old(gl.program))
    ensures gl.log == old(gl.log) + (if inBlock then [] else SwitchTo(old(gl.program), program))
    ensures gl.program == (if inBlock then old(gl.program) else program)
    ensures gl.live == old(gl.live)
  {
    saved := 0;
    if !inBlock {
      saved := gl.program;
      if saved != program {
        gl.Use(program);
      }
    }
  }

  /** The second half of the save/restore pattern. */
  method LeaveProgram(inBlock: bool, program: nat, saved: nat, gl: Driver)
    requires !inBlock ==> gl.program == program
    modifies gl
    ensures gl.log == old(gl.log) + (if inBlock then [] else SwitchTo(program, saved))
    ensures gl.program == (if inBlock then old(gl.program) else saved)
    ensures gl.live == old(gl.live)
  {
    if !inBlock {
      if saved != program {
        gl.Use(saved);
      }
    }
  }

  /** Enter, work, leave: the log is the work wrapped by Around. */
  lemma AroundLog(log: seq<Call>, enter: seq<Call>, inner: seq<Call>, leave: seq<Call>,
                  inBlock: bool, current: nat, program: nat)
    requires enter == (if inBlock then [] else SwitchTo(current, program))
    requires leave == (if inBlock then [] else SwitchTo(program, current))
    ensures log + enter + inner + leave == log + Around(inBlock, current, program, inner)
  {
    AppendAssoc(log, enter, inner);
    AppendAssoc(log, enter + inner, leave);
  }

  /** What `setBlock` issues between saving and restoring the program: the
      buffer's bind (with its pending upload), the block binding when it is
      needed and known, and the unbind. */
  function BlockCalls(bind: seq<Call>, rebind: bool, binding: int, bufferObject: nat): (calls: seq<Call>)
    ensures |calls| == |bind| + (if rebind then 2 else 1)
    ensures calls[..|bind|] == bind && calls[|calls| - 1] == BindBuffer(UniformBuffer, 0)
    ensures rebind ==> calls[|bind|] == BindBufferBase(UniformBuffer, binding, bufferObject)
  {
    bind + (if rebind then [BindBufferBase(UniformBuffer, binding, bufferObject)] else []) + [BindBuffer(UniformBuffer, 0)]
  }

  // ---------------------------------------------------------------------
  // sources and streams
  // ---------------------------------------------------------------------

  datatype Stage = VertexStage | FragmentStage | GeometryStage

  /** The code handed to `compile` for each stage; None is a null pointer. */
  datatype Sources = Sources(vertex: Option<string>, fragment: Option<string>, geometry: Option<string>)

  /** The driver's compile status for each stage. */
  datatype Status = Status(vertex: bool, fragment: bool, geometry: bool)

  /** Whether `compile` succeeds: every stage that is given compiles, and
      the program links. */
  predicate CompileSucceeds(sources: Sources, status: Status, links: bool)
  {
    (sources.vertex.None? || status.vertex) &&
    (sources.fragment.None? || status.fragment) &&
    (sources.geometry.None? || status.geometry) &&
    links
  }

  /** The sources of a one-stage load. */
  function SingleStage(code: string, stage: Stage): (s: Sources)
    ensures stage == VertexStage <==> s.vertex == Some(code)
    ensures stage == FragmentStage <==> s.fragment == Some(code)
    ensures stage == GeometryStage <==> s.geometry == Some(code)
    ensures s.vertex.None? || s.fragment.None?
  {
    match stage
    case VertexStage => Sources(Some(code), None, None)
    case FragmentStage => Sources(None, Some(code), None)
    case GeometryStage => Sources(None, None, Some(code))
  }

  /** An input stream as `getStreamContents` sees it: what `getSize` and
      `read` return, and the characters `read` stores. */
  datatype InputStream = InputStream(size: int, readCount: int, data: seq<char>)

  function Zeros(n: nat): (r: seq<char>)
    ensures |r| == n && forall i :: 0 <= i < n ==> r[i] == '\0'
  {
    if n == 0 then [] else Zeros(n - 1) + ['\0']
  }

  /** `getStreamContents`: a buffer of `size` characters (those read, the
      rest left '\0') plus a terminating '\0', and whether the read returned
      the whole size. An empty or failing size reads nothing and succeeds. */
  function StreamContents(stream: InputStream): (r: (bool, seq<char>))
    ensures r.0 <==> stream.size <= 0 || stream.readCount == stream.size
    ensures |r.1| == (if stream.size > 0 then stream.size else 0) + 1 && r.1[|r.1| - 1] == '\0'
    ensures stream.size > 0 && r.0 && stream.size <= |stream.data| ==> r.1[..stream.size] == stream.data[..stream.size]
  {
    if stream.size <= 0 then (true, ['\0'])
    else
      var n := if stream.readCount < 0 then 0
               else if stream.readCount > stream.size then stream.size
               else stream.readCount;
      var got := if n <= |stream.data| then n else |stream.data|;
      (stream.readCount == stream.size, stream.data[..got] + Zeros(stream.size - got) + ['\0'])
  }

  // ---------------------------------------------------------------------
  // the supported version
  // ---------------------------------------------------------------------

  const EsDeclaration: string := "OpenGL ES GLSL "

  predicate OccursAt(s: string, part: string, i: int)
  {
    0 <= i && i + |part| <= |s| && s[i .. i + |part|] == part
  }

  /** `std::string::find` succeeds. */
  predicate Contains(s: string, part: string)
  {
    exists i :: 0 <= i <= |s| - |part| && OccursAt(s, part, i)
  }

  /** Drops the first 15 characters when the string contains the ES
      declaration anywhere. */
  function StripEsDeclaration(s: string): (r: string)
    ensures Contains(s, EsDeclaration) ==> |s| >= 15 && r == s[15..]
    ensures !Contains(s, EsDeclaration) ==> r == s
  {
    if Contains(s, EsDeclaration) then s[15..] else s
  }

  /** A driver string that starts with the ES declaration loses exactly
      the declaration, so an ES version keeps its "ES " prefix. */
  lemma StripLeadingDeclaration(rest: string)
    ensures StripEsDeclaration(EsDeclaration + rest) == rest
    ensures |rest| >= 3 && rest[..3] == "ES " ==> StripEsDeclaration(EsDeclaration + rest)[..3] == "ES "
  {
    var s := EsDeclaration + rest;
    assert s[0 .. 0 + |EsDeclaration|] == EsDeclaration;
    assert OccursAt(s, EsDeclaration, 0);
    assert s[15..] == rest;
  }

  /** The static state of `getSupportedVersion`: queried once, then fixed. */
  class VersionQuery {
    var checked: bool
    var supported: string

    constructor()
      ensures !checked && supported == ""
    {
      checked := false;
      supported := "";
    }

    /** `available` is Shader::isAvailable and `driver` what
        glGetString returns (None for a null pointer). */
    method Get(available: bool, driver: Option<string>) returns (version: string)
      modifies this
      ensures checked
      ensures version == supported
      ensures old(checked) ==> unchanged(this)
      ensures !old(checked) && available && driver.Some? ==> supported == StripEsDeclaration(driver.value)
      ensures !old(checked) && (!available || driver.None?) ==> supported == old(supported)
    {
      if !checked {
        checked := true;
        if available {
          if driver.None? {
            return supported;
          }
          supported := StripEsDeclaration(driver.value);
        }
      }
      return supported;
    }
  }

  // ---------------------------------------------------------------------
  // the shader
  // ---------------------------------------------------------------------

  class Shader {
    /** The GL program, 0 while there is none. */
    var program: nat
    var currentTexture: int
    var textures: map<int, Texture>
    var params: map<string, int>
    var attributes: map<string, int>
    var blockBindings: map<string, int>
    var boundBuffers: map<string, nat>
    var warn: bool
    /** Identifies the compiled and linked program to the render target. */
    var id: nat
    var parameterBlock: bool
    var blockProgram: nat

    /** The default constructor makes an invalid shader. */
    constructor()
      ensures program == 0 && currentTexture == -1 && id == 0
      ensures textures == map[] && params == map[] && attributes == map[]
      ensures blockBindings == map[] && boundBuffers == map[]
      ensures warn && !parameterBlock && blockProgram == 0
    {
      program, currentTexture, id := 0, -1, 0;
      textures, params, attributes := map[], map[], map[];
      blockBindings, boundBuffers := map[], map[];
      warn, parameterBlock, blockProgram := true, false, 0;
    }

    /** `getParamLocation`; `answer` is what glGetUniformLocation returns. */
    method GetParamLocation(name: string, answer: int) returns (location: int)
      modifies this`params
      ensures (location, params) == Memo(old(params), name, answer)
    {
      if name in params {
        return params[name];
      }
      location := answer;
      params := params[name := location];
    }

    /** `getVertexAttributeLocation`; `answer` is what glGetAttribLocation returns. */
    method GetVertexAttributeLocation(name: string, answer: int) returns (location: int)
      modifies this`attributes
      ensures (location, attributes) == Memo(old(attributes), name, answer)
    {
      if name in attributes {
        return attributes[name];
      }
      location := answer;
      attributes := attributes[name := location];
    }

    /** `getBlockBinding`; `found` is whether glGetUniformBlockIndex finds
        the block, `maxBindings` is GL_MAX_UNIFORM_BUFFER_BINDINGS. */
    method GetBlockBinding(name: string, found: bool, maxBindings: int) returns (binding: int)
      modifies this`blockBindings
      ensures (binding, blockBindings) == BlockBinding(old(blockBindings), name, found, maxBindings)
    {
      if name in blockBindings {
        return blockBindings[name];
      }
      binding := -1;
      if |blockBindings| >= maxBindings - 1 {
        return binding;
      }
      if found {
        binding := |blockBindings|;
      }
      blockBindings := blockBindings[name := binding];
    }

    /** `setParameter(name, texture)`; `answer` is the driver's uniform
        location and `maxUnits` GL_MAX_TEXTURE_COORDS. */
    method SetParameterTexture(name: string, texture: Texture, answer: int, maxUnits: nat)
      modifies this`params, this`textures
      ensures program == 0 ==> params == old(params) && textures == old(textures)
      ensures program != 0 ==>
                var (location, table) := Memo(old(params), name, answer);
                params == table && textures == TextureEntry(old(textures), location, texture, maxUnits)
    {
      if program != 0 {
        var location := GetParamLocation(name, answer);
        if location != -1 {
          if location !in textures {
            if |textures| + 1 >= maxUnits {
              return;
            }
            textures := textures[location := texture];
          } else {
            textures := textures[location := texture];
          }
        }
      }
    }

    /** `setParameter(name, CurrentTexture)`: remembers the location that
        receives unit 0. */
    method SetParameterCurrentTexture(name: string, answer: int)
      modifies this`params, this`currentTexture
      ensures program == 0 ==> params == old(params) && currentTexture == old(currentTexture)
      ensures program != 0 ==> (currentTexture, params) == Memo(old(params), name, answer)
    {
      if program != 0 {
        currentTexture := GetParamLocation(name, answer);
      }
    }

    /** `setParameter(name, x)` for an int, the pattern every scalar and
        vector overload follows: outside a parameter block the shader's
        program is made current for the call and the previous one restored. */
    method SetParameterInt(name: string, x: int, answer: int, gl: Driver)
      modifies this`params, gl
      ensures program == 0 ==> params == old(params) && unchanged(gl)
      ensures program != 0 ==>
                var (location, table) := Memo(old(params), name, answer);
                params == table &&
                gl.log == old(gl.log) + Around(parameterBlock, old(gl.program), program,
                                               if location != -1 then [Uniform1i(location, x)] else [])
      ensures gl.program == old(gl.program) && gl.live == old(gl.live)
    {
      if program != 0 {
        var saved := EnterProgram(parameterBlock, program, gl);
        ghost var entered := gl.log;
        var location := GetParamLocation(name, answer);
        if location != -1 {
          gl.Emit(Uniform1i(location, x));
        }
        ghost var inner := gl.log[|entered|..];
        assert gl.log == entered + inner;
        LeaveProgram(parameterBlock, program, saved, gl);
        AroundLog(old(gl.log), entered[|old(gl.log)|..], inner, gl.log[|entered| + |inner|..],
                  parameterBlock, old(gl.program), program);
      }
    }

    /** `setBlock(name, buffer)`: the buffer is bound to the uniform-buffer
        target around the binding, and the block is rebound only when the
        table does not already hold this buffer. `uniformAvailable` is
        isUniformBufferAvailable, `found` and `maxBindings` as for
        GetBlockBinding. The table keeps only the low 32 bits of the buffer's
        cache id (see RecordAsWritten), so a buffer whose id is 2^32 or more
        is rebound on every call (see AsWrittenRebindsForever). */
    method SetBlock(name: string, buffer: VertexBuffer, uniformAvailable: bool, found: bool, maxBindings: int,
                    gl: Driver)
      modifies this`blockBindings, this`boundBuffers, buffer, gl
      ensures !uniformAvailable || program == 0 ==>
                blockBindings == old(blockBindings) && boundBuffers == old(boundBuffers) &&
                unchanged(buffer) && unchanged(gl)
      ensures uniformAvailable && program != 0 ==>
                var needs := NeedsBinding(old(boundBuffers), name, buffer.cacheId);
                var (binding, table) := BlockBinding(old(blockBindings), name, found, maxBindings);
                var rebind := needs && binding != -1;
                blockBindings == (if needs then table else old(blockBindings)) &&
                boundBuffers == (if rebind then RecordAsWritten(old(boundBuffers), name, buffer.cacheId) else old(boundBuffers)) &&
                gl.log == old(gl.log) + Around(parameterBlock, old(gl.program), program,
                            BlockCalls(old(BufferBindCalls(buffer, UniformBuffer)), rebind, binding, buffer.bufferObject))
      ensures gl.program == old(gl.program) && gl.live == old(gl.live)
      ensures buffer.vertices == old(buffer.vertices) && buffer.bufferObject == old(buffer.bufferObject)
      ensures buffer.cacheId == old(buffer.cacheId) && buffer.arrayObjects == old(buffer.arrayObjects)
      ensures buffer.primitiveType == old(buffer.primitiveType)
    {
      if !uniformAvailable || program == 0 {
        return;
      }
      var saved := EnterProgram(parameterBlock, program, gl);
      ghost var entered := gl.log;
      BindBlock(name, buffer, found, maxBindings, gl);
      ghost var inner := gl.log[|entered|..];
      assert gl.log == entered + inner;
      LeaveProgram(parameterBlock, program, saved, gl);
      AroundLog(old(gl.log), entered[|old(gl.log)|..], inner, gl.log[|entered| + |inner|..],
                parameterBlock, old(gl.program), program);
    }

    /** The part of `setBlock` between saving and restoring the program. */
    method BindBlock(name: string, buffer: VertexBuffer, found: bool, maxBindings: int, gl: Driver)
      modifies this`blockBindings, this`boundBuffers, buffer, gl
      ensures var needs := NeedsBinding(old(boundBuffers), name, buffer.cacheId);
              var (binding, table) := BlockBinding(old(blockBindings), name, found, maxBindings);
              var rebind := needs && binding != -1;
              blockBindings == (if needs then table else old(blockBindings)) &&
              boundBuffers == (if rebind then RecordAsWritten(old(boundBuffers), name, buffer.cacheId) else old(boundBuffers)) &&
              gl.log == old(gl.log) +
                        BlockCalls(old(BufferBindCalls(buffer, UniformBuffer)), rebind, binding, buffer.bufferObject)
      ensures gl.program == old(gl.program) && gl.live == old(gl.live)
      ensures buffer.vertices == old(buffer.vertices) && buffer.bufferObject == old(buffer.bufferObject)
      ensures buffer.cacheId == old(buffer.cacheId) && buffer.arrayObjects == old(buffer.arrayObjects)
      ensures buffer.primitiveType == old(buffer.primitiveType)
    {
      ghost var bind := BufferBindCalls(buffer, UniformBuffer);
      VertexBuffers.Bind(buffer, UniformBuffer, gl);
      ghost var middle: seq<Call> := [];
      if NeedsBinding(boundBuffers, name, buffer.cacheId) {
        var binding := GetBlockBinding(name, found, maxBindings);
        if binding != -1 {
          gl.Emit(BindBufferBase(UniformBuffer, binding, buffer.bufferObject));
          middle := [BindBufferBase(UniformBuffer, binding, buffer.bufferObject)];
          boundBuffers := RecordAsWritten(boundBuffers, name, buffer.cacheId);
        }
      }
      VertexBuffers.Bind(null, UniformBuffer, gl);
      AppendAssoc(old(gl.log), bind, middle);
      AppendAssoc(old(gl.log), bind + middle, [BindBuffer(UniformBuffer, 0)]);
    }

    /** `bindTextures`: the i-th table entry in key order goes to unit i+1,
        then unit 0 is made active again. */
    method BindTextures(gl: Driver)
      modifies gl
      ensures gl.log == old(gl.log) + TextureCalls(textures)
      ensures gl.live == old(gl.live) && gl.program == old(gl.program)
    {
      var keys := KeysInOrder(textures.Keys);
      BindUnits(textures, keys, gl);
      if |textures| != 0 {
        gl.Emit(ActiveTexture(0));
      }
    }

    /** The loop of `bindTextures`, over the keys in map order. */
    static method BindUnits(table: map<int, Texture>, keys: seq<int>, gl: Driver)
      requires forall i :: 0 <= i < |keys| ==> keys[i] in table
      modifies gl
      ensures gl.log == old(gl.log) + UnitCalls(keys, table, 1)
      ensures gl.live == old(gl.live) && gl.program == old(gl.program)
    {
      for i := 0 to |keys|
        invariant gl.log + UnitCalls(keys[i..], table, 1 + i) == old(gl.log) + UnitCalls(keys, table, 1)
        invariant gl.live == old(gl.live) && gl.program == old(gl.program)
      {
        BindUnit(table, keys[i..], i + 1, gl);
        assert keys[i..][1..] == keys[i + 1..];
      }
      assert gl.log + [] == gl.log;
    }

    /** One entry of `bindTextures`: what is left to issue shrinks by the
        first remaining location. */
    static method BindUnit(table: map<int, Texture>, rest: seq<int>, unit: nat, gl: Driver)
      requires rest != [] && rest[0] in table
      modifies gl
      ensures gl.log + UnitCalls(rest[1..], table, unit + 1) == old(gl.log) + UnitCalls(rest, table, unit)
      ensures gl.live == old(gl.live) && gl.program == old(gl.program)
    {
      var k := rest[0];
      gl.Emit(Uniform1i(k, unit));
      gl.Emit(ActiveTexture(unit));
      Textures.Bind(table[k], gl);
      var head := [Uniform1i(k, unit), ActiveTexture(unit)] + BindCalls(table[k]);
      assert UnitCalls(rest, table, unit) == head + UnitCalls(rest[1..], table, unit + 1);
      AppendAssoc(old(gl.log), head, UnitCalls(rest[1..], table, unit + 1));
    }

    /** `warnMissing(w)`: stores w and returns the previous setting. */
    method WarnMissing(w: bool) returns (previous: bool)
      modifies this`warn
      ensures previous == old(warn) && warn == w
    {
      previous := warn;
      warn := w;
    }

    /** `beginParameterBlock`: remembers the current program and makes the
        shader's current. */
    method BeginParameterBlock(gl: Driver)
      modifies this`parameterBlock, this`blockProgram, gl
      ensures parameterBlock && blockProgram == old(gl.program)
      ensures gl.log == old(gl.log) + SwitchTo(old(gl.program), program)
      ensures gl.program == program && gl.live == old(gl.live)
    {
      parameterBlock := true;
      blockProgram := gl.program;
      if blockProgram != program {
        gl.Use(program);
      }
    }

    /** `endParameterBlock`: the program remembered at the start is made
        current again. */
    method EndParameterBlock(gl: Driver)
      modifies this`parameterBlock, gl
      ensures !parameterBlock
      ensures gl.log == old(gl.log) + SwitchTo(program, blockProgram)
      ensures blockProgram != program ==> gl.program == blockProgram
      ensures old(gl.program) == program ==> gl.program == blockProgram
      ensures gl.live == old(gl.live)
    {
      parameterBlock := false;
      if blockProgram != program {
        gl.Use(blockProgram);
      }
    }

    /** One stage of `compile`: a shader object is created for given code
        and deleted again once it is compiled (and attached) or not. */
    static method CompileStage(code: Option<string>, compiles: bool, gl: Driver) returns (ok: bool)
      modifies gl
      ensures ok == (code.None? || compiles)
      ensures code.None? ==> unchanged(gl)
      ensures code.Some? ==> exists s :: gl.log == old(gl.log) + [DeleteObject(ShaderObject, s)]
      ensures gl.live == old(gl.live) && gl.program == old(gl.program)
    {
      if code.None? {
        return true;
      }
      var s := gl.Gen(ShaderObject);
      gl.Delete(ShaderObject, s);
      assert gl.log == old(gl.log) + [DeleteObject(ShaderObject, s)];
      return compiles;
    }

    /** The stages in order; the first one that fails stops the others. */
    static method CompileStages(sources: Sources, status: Status, gl: Driver) returns (ok: bool)
      modifies gl
      ensures ok == ((sources.vertex.None? || status.vertex) &&
                     (sources.fragment.None? || status.fragment) &&
                     (sources.geometry.None? || status.geometry))
      ensures gl.live == old(gl.live) && gl.program == old(gl.program)
    {
      ok := CompileStage(sources.vertex, status.vertex, gl);
      if ok {
        ok := CompileStage(sources.fragment, status.fragment, gl);
      }
      if ok {
        ok := CompileStage(sources.geometry, status.geometry, gl);
      }
    }

    /** `compile` starts by forgetting every location, binding and texture. */
    method ResetTables()
      modifies this`currentTexture, this`textures, this`params, this`attributes, this`blockBindings,
               this`boundBuffers
      ensures currentTexture == -1 && textures == map[] && params == map[] && attributes == map[]
      ensures blockBindings == map[] && boundBuffers == map[]
    {
      currentTexture := -1;
      textures, params, attributes := map[], map[], map[];
      blockBindings, boundBuffers := map[], map[];
    }

    /** `compile`. `available` is Shader::isAvailable, `status` the
        driver's compile status per stage and `links` its link status. */
    method Compile(available: bool, sources: Sources, status: Status, links: bool, ids: IdCounter, gl: Driver)
      returns (ok: bool)
      modifies this, ids, gl
      ensures ok == (available && CompileSucceeds(sources, status, links))
      ensures !available ==> unchanged(this) && unchanged(ids) && unchanged(gl)
      ensures available ==>
                currentTexture == -1 && textures == map[] && params == map[] && attributes == map[] &&
                blockBindings == map[] && boundBuffers == map[]
      ensures available && !ok ==> program == 0 && id == old(id) && unchanged(ids)
      ensures ok ==> program != 0 && id == old(ids.next) && ids.next == old(ids.next) + 1
      ensures available ==>
                var kept := if old(program) != 0 then old(gl.live) - {Name(ProgramObject, old(program))} else old(gl.live);
                gl.live == (if ok then kept + {Name(ProgramObject, program)} else kept) &&
                (ok ==> Name(ProgramObject, program) !in kept)
      ensures gl.program == old(gl.program)
      ensures warn == old(warn) && parameterBlock == old(parameterBlock) && blockProgram == old(blockProgram)
    {
      if !available {
        return false;
      }
      if program != 0 {
        gl.Delete(ProgramObject, program);
      }
      ResetTables();
      program := gl.Gen(ProgramObject);
      ok := CompileStages(sources, status, gl);
      ok := ok && links;
      if !ok {
        gl.Delete(ProgramObject, program);
        program := 0;
        return false;
      }
      id := ids.Take();
    }

    /** `loadFromMemory(code, type)`: one stage. */
    method LoadFromMemory(code: string, stage: Stage, available: bool, status: Status, links: bool,
                          ids: IdCounter, gl: Driver) returns (ok: bool)
      modifies this, ids, gl
      ensures ok == (available && CompileSucceeds(SingleStage(code, stage), status, links))
      ensures available && !ok ==> program == 0
    {
      ok := Compile(available, SingleStage(code, stage), status, links, ids, gl);
    }

    /** `loadFromMemory(vertex, fragment, geometry)`: an empty geometry
        string means no geometry stage. */
    method LoadFromMemoryStages(vertex: string, fragment: string, geometry: string, available: bool,
                                status: Status, links: bool, ids: IdCounter, gl: Driver) returns (ok: bool)
      modifies this, ids, gl
      ensures var sources := Sources(Some(vertex), Some(fragment), if geometry == "" then None else Some(geometry));
              ok == (available && CompileSucceeds(sources, status, links))
      ensures available && !ok ==> program == 0
    {
      ok := Compile(available, Sources(Some(vertex), Some(fragment), if geometry == "" then None else Some(geometry)),
                    status, links, ids, gl);
    }

    /** `loadFromStream(stream, type)`: a failed read returns false before
        anything is compiled. */
    method LoadFromStream(stream: InputStream, stage: Stage, available: bool, status: Status, links: bool,
                          ids: IdCounter, gl: Driver) returns (ok: bool)
      modifies this, ids, gl
      ensures !StreamContents(stream).0 ==> !ok && unchanged(this) && unchanged(ids) && unchanged(gl)
      ensures StreamContents(stream).0 ==>
                ok == (available && CompileSucceeds(SingleStage(StreamContents(stream).1, stage), status, links))
    {
      var (read, code) := StreamContents(stream);
      if !read {
        return false;
      }
      ok := Compile(available, SingleStage(code, stage), status, links, ids, gl);
    }

    /** `loadFromStream(vertex, fragment[, geometry])`: the streams are read
        in order and the first failed read returns false with the shader
        untouched; a geometry stream is given only in the three-stream form. */
    method LoadFromStreams(vertex: InputStream, fragment: InputStream, geometry: Option<InputStream>, available: bool,
                           status: Status, links: bool, ids: IdCounter, gl: Driver) returns (ok: bool)
      modifies this, ids, gl
      ensures var allRead := StreamContents(vertex).0 && StreamContents(fragment).0 &&
                             (geometry.None? || StreamContents(geometry.value).0);
              (!allRead ==> !ok && unchanged(this) && unchanged(ids) && unchanged(gl)) &&
              (allRead ==> ok == (available && CompileSucceeds(
                  Sources(Some(StreamContents(vertex).1), Some(StreamContents(fragment).1),
                          if geometry.None? then None else Some(StreamContents(geometry.value).1)),
                  status, links)))
    {
      var (vertexRead, vertexCode) := StreamContents(vertex);
      if !vertexRead {
        return false;
      }
      var (fragmentRead, fragmentCode) := StreamContents(fragment);
      if !fragmentRead {
        return false;
      }
      var geometryCode: Option<string> := None;
      if geometry.Some? {
        var (geometryRead, code) := StreamContents(geometry.value);
        if !geometryRead {
          return false;
        }
        geometryCode := Some(code);
      }
      ok := Compile(available, Sources(Some(vertexCode), Some(fragmentCode), geometryCode), status, links, ids, gl);
    }

    /** The destructor: the program, if any, is deleted. */
    method Destroy(gl: Driver)
      modifies gl
      ensures program != 0 ==> gl.live == old(gl.live) - {Name(ProgramObject, program)} &&
                               gl.log == old(gl.log) + [DeleteObject(ProgramObject, program)]
      ensures program == 0 ==> unchanged(gl)
      ensures gl.program == old(gl.program)
    {
      if program != 0 {
        gl.Delete(ProgramObject, program);
      }
    }
  }

  /** The calls of `Shader::bind`: a shader with a program is made current,
      its texture table is bound to units 1 and up, and the current-texture
      uniform, if any, gets unit 0; otherwise program 0 is made current. */
  ghost function ProgramCalls(shader: Shader?): (calls: seq<Call>)
    reads shader, if shader != null then shader.textures.Values else {}
    ensures |calls| > 0 && calls[0] == UseProgram(if shader != null then shader.program else 0)
    ensures shader == null || shader.program == 0 ==> calls == [UseProgram(0)]
  {
    if shader != null && shader.program != 0 then
      [UseProgram(shader.program)] + TextureCalls(shader.textures) +
      (if shader.currentTexture != -1 then [Uniform1i(shader.currentTexture, 0)] else [])
    else [UseProgram(0)]
  }

  /** `Shader::bind`. */
  method Bind(shader: Shader?, gl: Driver)
    modifies gl
    ensures gl.log == old(gl.log) + ProgramCalls(shader)
    ensures gl.program == (if shader != null then shader.program else 0)
    ensures gl.live == old(gl.live)
  {
    if shader != null && shader.program != 0 {
      var tail := if shader.currentTexture != -1 then [Uniform1i(shader.currentTexture, 0)] else [];
      gl.Use(shader.program);
      shader.BindTextures(gl);
      EmitAll(gl, tail);
      AppendAssoc(old(gl.log) + [UseProgram(shader.program)], TextureCalls(shader.textures), tail);
      AppendAssoc(old(gl.log), [UseProgram(shader.program)], TextureCalls(shader.textures) + tail);
    } else {
      gl.Use(0);
    }
  }
}
