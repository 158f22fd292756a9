// The Wavefront OBJ loader of the 3D example: the `p/t/n` face-index parser
// and the line-by-line directive dispatch.
//
// Stream extraction follows the C++ standard library: `>>` into an
// unsigned int skips white space, takes an optional sign and decimal digits,
// wraps a negated value modulo 2^32, fails (value 0) when there are no digits
// and fails (value 2^32-1) on overflow; the end-of-file flag is raised when
// the scan runs into the end of the text. An extraction on a stream that is
// not good fails and leaves its target alone.

module ObjModel {
  import opened Basics

  type Str = seq<char>

  predicate IsSpace(c: char)
  {
    c == ' ' || c == '\t' || c == '\n' || c == '\r' || c == '\U{000B}' || c == '\U{000C}'
  }

  predicate IsDigit(c: char) { '0' <= c <= '9' }

  function DigitValue(c: char): nat
    requires IsDigit(c)
  {
    (c as int - '0' as int) as nat
  }

  /** An input string stream: text, read position and the fail and eof flags. */
  datatype Stream = Stream(text: Str, pos: nat, fail: bool, eof: bool)
  {
    predicate Good() { !fail && !eof }
  }

  function Open(text: Str): Stream { Stream(text, 0, false, false) }

  /** The first position at or after `pos` that is not white space. */
  function SkipSpace(text: Str, pos: nat): (p: nat)
    requires pos <= |text|
    ensures pos <= p <= |text|
    ensures p < |text| ==> !IsSpace(text[p])
    ensures forall k :: pos <= k < p ==> IsSpace(text[k])
    decreases |text| - pos
  {
    if pos < |text| && IsSpace(text[pos]) then SkipSpace(text, pos + 1) else pos
  }

  /** The maximal run of digits at `pos`, accumulated into `acc`. */
  function ScanDigits(text: Str, pos: nat, acc: nat): (r: (nat, nat))
    requires pos <= |text|
    ensures pos <= r.0 <= |text|
    ensures r.0 < |text| ==> !IsDigit(text[r.0])
    decreases |text| - pos
  {
    if pos < |text| && IsDigit(text[pos]) then ScanDigits(text, pos + 1, acc * 10 + DigitValue(text[pos]))
    else (pos, acc)
  }

  /** `stream >> value` for an unsigned int; `value` is the target's current content. */
  function ExtractUnsigned(st: Stream, value: nat): (r: (Stream, nat))
    requires st.pos <= |st.text|
    ensures r.0.pos <= |r.0.text| && r.0.text == st.text
    ensures !st.Good() ==> r == (st.(fail := true), value)
    ensures r.0.Good() ==> r.1 < U32
    ensures value < U32 ==> r.1 < U32
  {
    if !st.Good() then (st.(fail := true), value)
    else
      var p := SkipSpace(st.text, st.pos);
      if p == |st.text| then (Stream(st.text, p, true, true), value)
      else
        var negative := st.text[p] == '-';
        var q := if st.text[p] == '-' || st.text[p] == '+' then p + 1 else p;
        var (e, n) := ScanDigits(st.text, q, 0);
        var atEnd := e == |st.text|;
        if e == q then (Stream(st.text, e, true, atEnd), 0)
        else if n >= U32 then (Stream(st.text, e, true, atEnd), U32 - 1)
        else (Stream(st.text, e, false, atEnd), if negative then (U32 - n) % U32 else n)
  }

  /** `stream >> c` for a char. */
  function ExtractChar(st: Stream, c: char): (r: (Stream, char))
    requires st.pos <= |st.text|
    ensures r.0.pos <= |r.0.text| && r.0.text == st.text
    ensures r.0.Good() ==> st.Good()
  {
    if !st.Good() then (st.(fail := true), c)
    else
      var p := SkipSpace(st.text, st.pos);
      if p == |st.text| then (Stream(st.text, p, true, true), c)
      else (Stream(st.text, p + 1, false, false), st.text[p])
  }

  /** Unsigned `i - 1`: 0 wraps around to 2^32-1. */
  function Pred32(i: nat): (r: nat)
    requires i < U32
    ensures r < U32
    ensures i > 0 ==> r == i - 1
    ensures i == 0 ==> r == U32 - 1
  {
    (i + U32 - 1) % U32
  }

  /** The three parsed indices of a face token, when its extraction succeeds. */
  function ParseIndices(token: Str): (r: Option<(nat, nat, nat)>)
    ensures r.Some? ==> r.value.0 < U32 && r.value.1 < U32 && r.value.2 < U32
  {
    var s0 := Open(token);
    var (s1, position) := ExtractUnsigned(s0, 0);
    var (s2, _) := ExtractChar(s1, 0 as char);
    if !s2.Good() then None
    else
      var (s3, texCoord) := ExtractUnsigned(s2, 0);
      var (s4, _) := ExtractChar(s3, 0 as char);
      if !s4.Good() then None
      else
        var (s5, normal) := ExtractUnsigned(s4, 0);
        if !s5.eof then None
        else Some((position, texCoord, normal))
  }

  /** `makeVertex`: the vertex a face token names, or a default vertex. */
  function MakeVertex(token: Str, positions: seq<Vector3>, texCoords: seq<Vector2>,
                      normals: seq<Vector3>, color: Color): (v: Vertex)
    ensures v == DefaultVertex ||
            exists i, j, k :: 0 <= i < |positions| && 0 <= j < |texCoords| && 0 <= k < |normals| &&
              v == Vertex(positions[i], color, texCoords[j], normals[k])
  {
    match ParseIndices(token)
    case None => DefaultVertex
    case Some((p, t, n)) =>
      var (pi, ti, ni) := (Pred32(p), Pred32(t), Pred32(n));
      if pi >= |positions| || ti >= |texCoords| || ni >= |normals| then DefaultVertex
      else Vertex(positions[pi], color, texCoords[ti], normals[ni])
  }

  // ---------------------------------------------------------------------
  // reading back decimal indices
  // ---------------------------------------------------------------------

  /** A non-empty run of decimal digits. */
  predicate Digits(s: Str) { |s| > 0 && forall k :: 0 <= k < |s| ==> IsDigit(s[k]) }

  /** The number a run of digits spells. */
  function Value(s: Str): nat
    requires forall k :: 0 <= k < |s| ==> IsDigit(s[k])
  {
    if |s| == 0 then 0 else Value(s[..|s| - 1]) * 10 + DigitValue(s[|s| - 1])
  }

  function DigitChar(d: nat): (c: char)
    requires d < 10
    ensures IsDigit(c) && DigitValue(c) == d
  {
    ('0' as int + d) as char
  }

  /** The decimal spelling of n, without leading zeros. */
  function Decimal(n: nat): (s: Str)
    ensures Digits(s)
  {
    if n < 10 then [DigitChar(n)] else Decimal(n / 10) + [DigitChar(n % 10)]
  }

  /** The spelling reads back as the number. */
  lemma {:induction false} ValueDecimal(n: nat)
    ensures Value(Decimal(n)) == n
  {
    if n >= 10 {
      ValueDecimal(n / 10);
      var s := Decimal(n);
      assert s[..|s| - 1] == Decimal(n / 10);
    }
  }

  lemma {:induction false} ScanDigitRun(text: Str, ds: Str, start: nat, i: nat)
    requires start + |ds| <= |text| && i <= |ds|
    requires text[start..start + |ds|] == ds
    requires forall k :: 0 <= k < |ds| ==> IsDigit(ds[k])
    requires start + |ds| < |text| ==> !IsDigit(text[start + |ds|])
    ensures ScanDigits(text, start + i, Value(ds[..i])) == (start + |ds|, Value(ds))
    decreases |ds| - i
  {
    if i < |ds| {
      assert text[start + i] == ds[i];
      assert ds[..i + 1][..i] == ds[..i];
      ScanDigitRun(text, ds, start, i + 1);
    } else {
      assert ds[..i] == ds;
    }
  }

  /** Extracting an unsigned int from a run of digits that fits gives the number it spells. */
  lemma ExtractDigits(text: Str, pos: nat, ds: Str)
    requires Digits(ds) && Value(ds) < U32
    requires pos + |ds| <= |text| && text[pos..pos + |ds|] == ds
    requires pos + |ds| < |text| ==> !IsDigit(text[pos + |ds|])
    ensures ExtractUnsigned(Stream(text, pos, false, false), 0)
         == (Stream(text, pos + |ds|, false, pos + |ds| == |text|), Value(ds))
  {
    assert text[pos] == ds[0];
    assert ds[..0] == [];
    ScanDigitRun(text, ds, pos, 0);
  }

  /** The "/" separator is read as it stands. */
  lemma ExtractSlash(text: Str, pos: nat)
    requires pos < |text| && text[pos] == '/'
    ensures ExtractChar(Stream(text, pos, false, false), 0 as char) == (Stream(text, pos + 1, false, false), '/')
  {
    assert SkipSpace(text, pos) == pos;
  }

  /** `token` is three runs of digits separated by "/" at `a` and `b`. */
  predicate FaceToken(token: Str, a: nat, b: nat)
  {
    a < b < |token| && token[a] == '/' && token[b] == '/' &&
    Digits(token[..a]) && Digits(token[a + 1..b]) && Digits(token[b + 1..])
  }

  /** The first digit run of a face token, up to the "/" at `a`. */
  lemma FirstField(token: Str, a: nat)
    requires a < |token| && token[a] == '/' && Digits(token[..a]) && Value(token[..a]) < U32
    ensures ExtractUnsigned(Open(token), 0) == (Stream(token, a, false, false), Value(token[..a]))
  {
    assert token[0..a] == token[..a];
    ExtractDigits(token, 0, token[..a]);
  }

  /** The middle digit run, between the "/" at `a` and the one at `b`. */
  lemma MiddleField(token: Str, a: nat, b: nat)
    requires a < b < |token| && token[b] == '/' && Digits(token[a + 1..b]) && Value(token[a + 1..b]) < U32
    ensures ExtractUnsigned(Stream(token, a + 1, false, false), 0) == (Stream(token, b, false, false), Value(token[a + 1..b]))
  {
    ExtractDigits(token, a + 1, token[a + 1..b]);
  }

  /** The last digit run, from after the "/" at `b` to the end of the token. */
  lemma LastField(token: Str, b: nat)
    requires b < |token| && Digits(token[b + 1..]) && Value(token[b + 1..]) < U32
    ensures ExtractUnsigned(Stream(token, b + 1, false, false), 0) == (Stream(token, |token|, false, true), Value(token[b + 1..]))
  {
    assert token[b + 1..|token|] == token[b + 1..];
    ExtractDigits(token, b + 1, token[b + 1..]);
  }

  /** A token `x/y/z` of three digit runs parses to the three numbers. */
  lemma ParseIndicesOf(token: Str, a: nat, b: nat)
    requires FaceToken(token, a, b)
    requires Value(token[..a]) < U32 && Value(token[a + 1..b]) < U32 && Value(token[b + 1..]) < U32
    ensures ParseIndices(token) == Some((Value(token[..a]), Value(token[a + 1..b]), Value(token[b + 1..])))
  {
    FirstField(token, a);
    MiddleField(token, a, b);
    LastField(token, b);
    ExtractSlash(token, a);
    ExtractSlash(token, b);
  }

  /** A well-formed `p/t/n` token names the vertex built from entries p-1, t-1 and n-1. */
  lemma MakeVertexOfIndices(token: Str, a: nat, b: nat, positions: seq<Vector3>, texCoords: seq<Vector2>,
                            normals: seq<Vector3>, color: Color)
    requires FaceToken(token, a, b)
    requires var (p, t, n) := (Value(token[..a]), Value(token[a + 1..b]), Value(token[b + 1..]));
      1 <= p <= |positions| && 1 <= t <= |texCoords| && 1 <= n <= |normals| &&
      p < U32 && t < U32 && n < U32
    ensures var (p, t, n) := (Value(token[..a]), Value(token[a + 1..b]), Value(token[b + 1..]));
      MakeVertex(token, positions, texCoords, normals, color)
         == Vertex(positions[p - 1], color, texCoords[t - 1], normals[n - 1])
  {
    ParseIndicesOf(token, a, b);
    MakeVertexOfParsed(token, Value(token[..a]), Value(token[a + 1..b]), Value(token[b + 1..]),
                       positions, texCoords, normals, color);
  }

  lemma MakeVertexOfParsed(token: Str, p: nat, t: nat, n: nat, positions: seq<Vector3>, texCoords: seq<Vector2>,
                           normals: seq<Vector3>, color: Color)
    requires ParseIndices(token) == Some((p, t, n))
    requires 1 <= p <= |positions| && 1 <= t <= |texCoords| && 1 <= n <= |normals|
    ensures MakeVertex(token, positions, texCoords, normals, color)
         == Vertex(positions[p - 1], color, texCoords[t - 1], normals[n - 1])
  {
  }

  /** Index 0 wraps around to 2^32-1 and yields a default vertex. */
  lemma MakeVertexZeroIndex(token: Str, a: nat, b: nat, positions: seq<Vector3>, texCoords: seq<Vector2>,
                            normals: seq<Vector3>, color: Color)
    requires FaceToken(token, a, b)
    requires Value(token[..a]) == 0 && Value(token[a + 1..b]) < U32 && Value(token[b + 1..]) < U32
    requires |positions| < U32
    ensures MakeVertex(token, positions, texCoords, normals, color) == DefaultVertex
  {
    ParseIndicesOf(token, a, b);
  }

  /** An index past the end of its list yields a default vertex. */
  lemma MakeVertexOutOfRange(token: Str, a: nat, b: nat, positions: seq<Vector3>, texCoords: seq<Vector2>,
                             normals: seq<Vector3>, color: Color)
    requires FaceToken(token, a, b)
    requires Value(token[..a]) < U32 && Value(token[a + 1..b]) < U32 && Value(token[b + 1..]) < U32
    requires Value(token[b + 1..]) > |normals|
    ensures MakeVertex(token, positions, texCoords, normals, color) == DefaultVertex
  {
    ParseIndicesOf(token, a, b);
  }

  /** A bare number, with no separators, yields a default vertex. */
  lemma MakeVertexBareNumber(dp: Str, positions: seq<Vector3>, texCoords: seq<Vector2>,
                             normals: seq<Vector3>, color: Color)
    requires Digits(dp) && Value(dp) < U32
    ensures MakeVertex(dp, positions, texCoords, normals, color) == DefaultVertex
  {
    assert dp[0..|dp|] == dp;
    ExtractDigits(dp, 0, dp);
  }

  // ---------------------------------------------------------------------
  // the line dispatcher
  // ---------------------------------------------------------------------

  /** A face: three indices into the model's vertex list. */
  datatype Face = Face(i0: nat, i1: nat, i2: nat)

  /** What the loader has built: its three attribute lists and the mesh. */
  datatype Mesh = Mesh(positions: seq<Vector3>, texCoords: seq<Vector2>, normals: seq<Vector3>,
                       vertices: seq<Vertex>, faces: seq<Face>)

  /** The end of the white-space free word starting at `pos`. */
  function WordEnd(text: Str, pos: nat): (e: nat)
    requires pos <= |text|
    ensures pos <= e <= |text|
    ensures forall k :: pos <= k < e ==> !IsSpace(text[k])
    ensures e < |text| ==> IsSpace(text[e])
    decreases |text| - pos
  {
    if pos < |text| && !IsSpace(text[pos]) then WordEnd(text, pos + 1) else pos
  }

  /** `stream >> word` for a string: the word and the stream after it, or a failed stream. */
  function ExtractWord(st: Stream, word: Str): (r: (Stream, Str))
    requires st.pos <= |st.text|
    ensures r.0.pos <= |r.0.text| && r.0.text == st.text
    ensures r.0.fail ==> r.1 == word
    ensures !r.0.fail ==> |r.1| > 0
  {
    if !st.Good() then (st.(fail := true), word)
    else
      var p := SkipSpace(st.text, st.pos);
      if p == |st.text| then (Stream(st.text, p, true, true), word)
      else
        var e := WordEnd(st.text, p);
        (Stream(st.text, e, false, e == |st.text|), st.text[p..e])
  }

  /** The readers of `>>` into floats: text left on the line to the parsed vector. */
  datatype Readers = Readers(vector3: Str -> Vector3, vector2: Str -> Vector2)

  function Rest(st: Stream): Str
    requires st.pos <= |st.text|
  {
    st.text[st.pos..]
  }

  /** The effect of one directive, given the line's stream after the directive word. */
  function Dispatch(m: Mesh, token: Str, st: Stream, read: Readers, color: Color): (r: Mesh)
    requires st.pos <= |st.text|
  {
    if token == "v" then
      m.(positions := m.positions + [if st.Good() then read.vector3(Rest(st)) else Zero3])
    else if token == "vt" then
      m.(texCoords := m.texCoords + [if st.Good() then read.vector2(Rest(st)) else Zero2])
    else if token == "vn" then
      m.(normals := m.normals + [if st.Good() then read.vector3(Rest(st)) else Zero3])
    else if token == "f" then
      var (s1, w0) := ExtractWord(st, "");
      var (s2, w1) := ExtractWord(s1, "");
      var (_, w2) := ExtractWord(s2, "");
      var v0 := MakeVertex(w0, m.positions, m.texCoords, m.normals, color);
      var v1 := MakeVertex(w1, m.positions, m.texCoords, m.normals, color);
      var v2 := MakeVertex(w2, m.positions, m.texCoords, m.normals, color);
      var n := |m.vertices| + 3;
      m.(vertices := m.vertices + [v0, v1, v2], faces := m.faces + [Face(n - 3, n - 2, n - 1)])
    else m
  }

  /**
   * One line as the loader treats it: the directive word is read into a
   * string that lives across lines, so a line with no word leaves the
   * previous directive in place.
   */
  function LineStep(m: Mesh, token: Str, line: Str, read: Readers, color: Color): (r: (Mesh, Str))
  {
    var (st, word) := ExtractWord(Open(line), token);
    (Dispatch(m, word, st, read, color), word)
  }

  /** The whole dispatch loop over the lines of the file. */
  function LoadLines(m: Mesh, token: Str, lines: seq<Str>, read: Readers, color: Color): (r: Mesh)
    decreases |lines|
  {
    if |lines| == 0 then m
    else
      var (m', token') := LineStep(m, token, lines[0], read, color);
      LoadLines(m', token', lines[1..], read, color)
  }

  predicate Blank(line: Str) { forall k :: 0 <= k < |line| ==> IsSpace(line[k]) }

  /** A line with a word on it: the word is its first one, whatever came before. */
  lemma WordOfNonBlank(token: Str, line: Str)
    requires !Blank(line)
    ensures !ExtractWord(Open(line), token).0.fail
  {
  }

  lemma BlankWord(token: Str, line: Str)
    requires Blank(line)
    ensures ExtractWord(Open(line), token).0.fail
    ensures ExtractWord(Open(line), token).1 == token
  {
  }

  /** A `v` line appends one position and changes nothing else. */
  lemma PositionLine(m: Mesh, token: Str, rest: Str, read: Readers, color: Color)
    requires |rest| > 0 && IsSpace(rest[0])
    ensures var r := LineStep(m, token, "v" + rest, read, color).0;
      |r.positions| == |m.positions| + 1 && r.positions[..|m.positions|] == m.positions &&
      r.texCoords == m.texCoords && r.normals == m.normals &&
      r.vertices == m.vertices && r.faces == m.faces
  {
    var line := "v" + rest;
    assert SkipSpace(line, 0) == 0;
    assert WordEnd(line, 1) == 1;
    assert line[0..1] == "v";
  }

  /** A `vt` line appends one texture coordinate and changes nothing else. */
  lemma TexCoordLine(m: Mesh, token: Str, rest: Str, read: Readers, color: Color)
    requires |rest| > 0 && IsSpace(rest[0])
    ensures var r := LineStep(m, token, "vt" + rest, read, color).0;
      |r.texCoords| == |m.texCoords| + 1 && r.texCoords[..|m.texCoords|] == m.texCoords &&
      r.positions == m.positions && r.normals == m.normals &&
      r.vertices == m.vertices && r.faces == m.faces
  {
    var line := "vt" + rest;
    assert SkipSpace(line, 0) == 0;
    assert WordEnd(line, 2) == 2;
    assert WordEnd(line, 1) == 2;
    assert line[0..2] == "vt";
  }

  /** A `vn` line appends one normal and changes nothing else. */
  lemma NormalLine(m: Mesh, token: Str, rest: Str, read: Readers, color: Color)
    requires |rest| > 0 && IsSpace(rest[0])
    ensures var r := LineStep(m, token, "vn" + rest, read, color).0;
      |r.normals| == |m.normals| + 1 && r.normals[..|m.normals|] == m.normals &&
      r.positions == m.positions && r.texCoords == m.texCoords &&
      r.vertices == m.vertices && r.faces == m.faces
  {
    var line := "vn" + rest;
    assert SkipSpace(line, 0) == 0;
    assert WordEnd(line, 2) == 2;
    assert WordEnd(line, 1) == 2;
    assert line[0..2] == "vn";
  }

  /** An `f` line appends three vertices and the face over them. */
  lemma FaceLine(m: Mesh, token: Str, rest: Str, read: Readers, color: Color)
    requires |rest| > 0 && IsSpace(rest[0])
    ensures var r := LineStep(m, token, "f" + rest, read, color).0;
      var n := |m.vertices| + 3;
      |r.vertices| == n && r.vertices[..|m.vertices|] == m.vertices &&
      r.faces == m.faces + [Face(n - 3, n - 2, n - 1)] &&
      r.positions == m.positions && r.texCoords == m.texCoords && r.normals == m.normals
  {
    var line := "f" + rest;
    assert SkipSpace(line, 0) == 0;
    assert WordEnd(line, 1) == 1;
    assert line[0..1] == "f";
  }

  /** A line whose word is no directive (a comment, a group, a material) changes nothing. */
  lemma OtherLine(m: Mesh, token: Str, line: Str, read: Readers, color: Color)
    requires !Blank(line)
    requires var w := ExtractWord(Open(line), token).1; w != "v" && w != "vt" && w != "vn" && w != "f"
    ensures LineStep(m, token, line, read, color).0 == m
  {
  }

  /** The lines loaded after each other: the counts of a run only grow. */
  lemma {:induction false} LoadLinesGrows(m: Mesh, token: Str, lines: seq<Str>, read: Readers, color: Color)
    ensures var r := LoadLines(m, token, lines, read, color);
      |r.positions| >= |m.positions| && |r.vertices| >= |m.vertices| && |r.faces| >= |m.faces| &&
      |r.vertices| == |m.vertices| + 3 * (|r.faces| - |m.faces|)
    decreases |lines|
  {
    if |lines| > 0 {
      var (m', token') := LineStep(m, token, lines[0], read, color);
      LoadLinesGrows(m', token', lines[1..], read, color);
    }
  }

  /** The model the example loads on top of `sf3d::Model`. */
  class ObjModel {
    var positions: seq<Vector3>
    var texCoords: seq<Vector2>
    var normals: seq<Vector3>
    var vertices: seq<Vertex>
    var faces: seq<Face>
    var color: Color

    function Contents(): Mesh
      reads this
    {
      Mesh(positions, texCoords, normals, vertices, faces)
    }

    constructor (color: Color)
      ensures Contents() == Mesh([], [], [], [], []) && this.color == color
    {
      positions, texCoords, normals, vertices, faces := [], [], [], [], [];
      this.color := color;
    }

    /**
     * `loadFromFile` over the lines of a file; `isOpen` is whether the file
     * could be opened. The directive word is kept from line to line, so a
     * blank line repeats the previous directive (see
     * BlankLineRepeatsDirective); on a file without blank lines this is
     * the blank-skipping loader (see SkippingAgrees).
     */
    method LoadFromFile(isOpen: bool, lines: seq<Str>, read: Readers) returns (ok: bool)
      modifies this
      ensures ok == isOpen
      ensures color == old(color)
      ensures Contents() == if isOpen then LoadLines(old(Contents()), "", lines, read, color) else old(Contents())
    {
      if !isOpen {
        return false;
      }
      var token := "";
      var i := 0;
      while i < |lines|
        invariant 0 <= i <= |lines| && color == old(color)
        invariant LoadLines(Contents(), token, lines[i..], read, color) == LoadLines(old(Contents()), "", lines, read, color)
      {
        var (lineStream, word) := ExtractWord(Open(lines[i]), token);
        token := word;
        var next := Dispatch(Contents(), word, lineStream, read, color);
        positions, texCoords, normals, vertices, faces :=
          next.positions, next.texCoords, next.normals, next.vertices, next.faces;
        assert lines[i..][1..] == lines[i + 1..];
        i := i + 1;
      }
      return true;
    }
  }

  // ---------------------------------------------------------------------
  // blank lines
  // ---------------------------------------------------------------------

  /** As written, a blank line after a `v` line appends a second, zero position. */
  lemma BlankLineRepeatsDirective(read: Readers, color: Color)
    ensures |LoadLines(Mesh([], [], [], [], []), "", ["v 1 2 3", ""], read, color).positions| == 2
    ensures LoadLines(Mesh([], [], [], [], []), "", ["v 1 2 3", ""], read, color).positions[1] == Zero3
  {
    var m0 := Mesh([], [], [], [], []);
    PositionLine(m0, "", " 1 2 3", read, color);
    assert "v" + " 1 2 3" == "v 1 2 3";
    var (m1, t1) := LineStep(m0, "", "v 1 2 3", read, color);
    assert t1 == "v" by {
      var line := "v 1 2 3";
      assert SkipSpace(line, 0) == 0;
      assert WordEnd(line, 1) == 1;
    }
    BlankWord(t1, "");
  }

  /** The loader with blank lines ignored, as the directive dispatch evidently intends. */
  function LoadLinesSkippingBlank(m: Mesh, lines: seq<Str>, read: Readers, color: Color): (r: Mesh)
    decreases |lines|
  {
    if |lines| == 0 then m
    else if Blank(lines[0]) then LoadLinesSkippingBlank(m, lines[1..], read, color)
    else LoadLinesSkippingBlank(LineStep(m, "", lines[0], read, color).0, lines[1..], read, color)
  }

  function NonBlank(lines: seq<Str>): (r: seq<Str>)
    ensures forall k :: 0 <= k < |r| ==> !Blank(r[k])
  {
    if |lines| == 0 then [] else (if Blank(lines[0]) then [] else [lines[0]]) + NonBlank(lines[1..])
  }

  lemma {:induction false} StepIgnoresToken(m: Mesh, token: Str, other: Str, line: Str, read: Readers, color: Color)
    requires !Blank(line)
    ensures LineStep(m, token, line, read, color) == LineStep(m, other, line, read, color)
  {
    WordOfNonBlank(token, line);
    WordOfNonBlank(other, line);
  }

  /** On a file without blank lines both loaders agree. */
  lemma {:induction false} SkippingAgrees(m: Mesh, token: Str, lines: seq<Str>, read: Readers, color: Color)
    requires forall k :: 0 <= k < |lines| ==> !Blank(lines[k])
    ensures LoadLines(m, token, lines, read, color) == LoadLinesSkippingBlank(m, lines, read, color)
    decreases |lines|
  {
    if |lines| > 0 {
      StepIgnoresToken(m, token, "", lines[0], read, color);
      var (m', token') := LineStep(m, token, lines[0], read, color);
      SkippingAgrees(m', token', lines[1..], read, color);
    }
  }

  /** With blank lines ignored, inserting or removing blank lines changes nothing. */
  lemma {:induction false} SkippingIgnoresBlank(m: Mesh, lines: seq<Str>, read: Readers, color: Color)
    ensures LoadLinesSkippingBlank(m, lines, read, color) == LoadLinesSkippingBlank(m, NonBlank(lines), read, color)
    decreases |lines|
  {
    if |lines| > 0 {
      var rest := NonBlank(lines[1..]);
      if Blank(lines[0]) {
        SkippingIgnoresBlank(m, lines[1..], read, color);
        assert NonBlank(lines) == rest;
      } else {
        var m' := LineStep(m, "", lines[0], read, color).0;
        SkippingIgnoresBlank(m', lines[1..], read, color);
        assert NonBlank(lines) == [lines[0]] + rest;
        assert ([lines[0]] + rest)[1..] == rest;
      }
    }
  }
}
