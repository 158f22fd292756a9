// The rename-and-rewrite script: joining path components, the extension
// filter, splicing a replacement into the spans a pattern matched, and
// planning the renames of path components.
//
// The regular-expression engine is an oracle: each line or path comes with
// the spans of its matches, sorted and non-overlapping.

module Refactor {
  import Basics

  type Str = seq<char>

  // ---------------------------------------------------------------------
  // join / split on "/"
  // ---------------------------------------------------------------------

  /** The components separated by single "/" characters. */
  function Joined(parts: seq<Str>): (r: Str)
    decreases |parts|
  {
    if |parts| == 0 then ""
    else if |parts| == 1 then parts[0]
    else parts[0] + "/" + Joined(parts[1..])
  }

  /** Python's `s.split("/")`: one more piece than there are separators. */
  function Split(s: Str): (r: seq<Str>)
    ensures |r| >= 1
  {
    if |s| == 0 then [""]
    else
      var rest := Split(s[1..]);
      if s[0] == '/' then [""] + rest
      else [[s[0]] + rest[0]] + rest[1..]
  }

  predicate SlashFree(s: Str) { forall k :: 0 <= k < |s| ==> s[k] != '/' }

  function Slashes(s: Str): (n: nat)
    ensures n <= |s|
  {
    if |s| == 0 then 0 else (if s[0] == '/' then 1 else 0) + Slashes(s[1..])
  }

  lemma {:induction false} JoinedSnoc(parts: seq<Str>, x: Str)
    requires |parts| >= 1
    ensures Joined(parts + [x]) == Joined(parts) + "/" + x
    decreases |parts|
  {
    if |parts| == 1 {
      assert parts + [x] == [parts[0], x];
      assert [parts[0], x][1..] == [x];
    } else {
      assert (parts + [x])[1..] == parts[1..] + [x];
      JoinedSnoc(parts[1..], x);
    }
  }

  /** `join` as the script writes it: a separator after every component but the last. */
  method Join(path: seq<Str>) returns (result: Str)
    ensures result == Joined(path)
  {
    result := "";
    var length := |path|;
    for i := 0 to length
      invariant result == if i == 0 then "" else Joined(path[..i]) + (if i < length then "/" else "")
    {
      result := result + path[i];
      if i != length - 1 {
        result := result + "/";
      }
      if i > 0 {
        JoinedSnoc(path[..i], path[i]);
        assert path[..i] + [path[i]] == path[..i + 1];
      } else {
        assert path[..1] == [path[0]];
      }
    }
    assert path[..length] == path;
  }

  lemma {:induction false} SlashesAppend(a: Str, b: Str)
    ensures Slashes(a + b) == Slashes(a) + Slashes(b)
    decreases |a|
  {
    if |a| > 0 {
      assert (a + b)[1..] == a[1..] + b;
      SlashesAppend(a[1..], b);
    } else {
      assert a + b == b;
    }
  }

  lemma {:induction false} SlashFreeCount(s: Str)
    requires SlashFree(s)
    ensures Slashes(s) == 0
    decreases |s|
  {
    if |s| > 0 { SlashFreeCount(s[1..]); }
  }

  /** `join` of k slash-free components holds exactly k-1 separators. */
  lemma {:induction false} JoinedSeparators(parts: seq<Str>)
    requires |parts| >= 1
    requires forall j :: 0 <= j < |parts| ==> SlashFree(parts[j])
    ensures Slashes(Joined(parts)) == |parts| - 1
    decreases |parts|
  {
    SlashFreeCount(parts[0]);
    if |parts| > 1 {
      JoinedSeparators(parts[1..]);
      SlashesAppend(parts[0], "/");
      SlashesAppend(parts[0] + "/", Joined(parts[1..]));
    }
  }

  /** No leading or trailing separator when the outer components are non-empty. */
  lemma JoinedEnds(parts: seq<Str>)
    requires |parts| >= 1 && |parts[0]| > 0 && |parts[|parts| - 1]| > 0
    ensures |Joined(parts)| > 0
    ensures Joined(parts)[0] == parts[0][0]
    ensures Joined(parts)[|Joined(parts)| - 1] == parts[|parts| - 1][|parts[|parts| - 1]| - 1]
  {
    var n := |parts|;
    if n > 1 {
      JoinedSnoc(parts[..n - 1], parts[n - 1]);
      assert parts[..n - 1] + [parts[n - 1]] == parts;
    }
  }

  lemma {:induction false} SplitSlashFreePrefix(a: Str, rest: Str)
    requires SlashFree(a)
    ensures Split(a + rest) == [a + Split(rest)[0]] + Split(rest)[1..]
    decreases |a|
  {
    if |a| == 0 {
      assert a + rest == rest;
      assert a + Split(rest)[0] == Split(rest)[0];
      assert [Split(rest)[0]] + Split(rest)[1..] == Split(rest);
    } else {
      assert (a + rest)[1..] == a[1..] + rest;
      SplitSlashFreePrefix(a[1..], rest);
      assert [a[0]] + (a[1..] + Split(rest)[0]) == a + Split(rest)[0];
    }
  }

  /** Splitting a join of slash-free components gives the components back. */
  lemma {:induction false} SplitJoined(parts: seq<Str>)
    requires |parts| >= 1
    requires forall j :: 0 <= j < |parts| ==> SlashFree(parts[j])
    ensures Split(Joined(parts)) == parts
    decreases |parts|
  {
    if |parts| == 1 {
      SplitSlashFreePrefix(parts[0], "");
      assert parts[0] + "" == parts[0];
    } else {
      var tail := "/" + Joined(parts[1..]);
      assert Joined(parts) == parts[0] + tail;
      SplitSlashFreePrefix(parts[0], tail);
      assert tail[0] == '/' && tail[1..] == Joined(parts[1..]);
      SplitJoined(parts[1..]);
      assert Split(tail) == [""] + parts[1..];
      assert parts[0] + "" == parts[0];
      assert [parts[0]] + parts[1..] == parts;
    }
  }

  /** Joining what split produced gives the original string. */
  lemma {:induction false} JoinedSplit(s: Str)
    ensures Joined(Split(s)) == s
    ensures forall j :: 0 <= j < |Split(s)| ==> SlashFree(Split(s)[j])
    decreases |s|
  {
    if |s| > 0 {
      JoinedSplit(s[1..]);
      var rest := Split(s[1..]);
      if s[0] == '/' {
        assert ([""] + rest)[1..] == rest;
      } else {
        var r := [[s[0]] + rest[0]] + rest[1..];
        assert r[1..] == rest[1..];
        assert Joined(r) == [s[0]] + Joined(rest);
        assert s == [s[0]] + s[1..];
      }
    }
  }

  // ---------------------------------------------------------------------
  // extension filter
  // ---------------------------------------------------------------------

  /** `ext` is a proper suffix of `name`. */
  predicate HasExtension(name: Str, ext: Str)
  {
    |name| > |ext| && name[|name| - |ext|..] == ext
  }

  /** A file takes part iff no extension is given or one of them ends its name. */
  predicate Selected(name: Str, extensions: seq<Str>)
  {
    |extensions| == 0 || exists j :: 0 <= j < |extensions| && HasExtension(name, extensions[j])
  }

  /** The filter in front of each directory entry: folders are never skipped. */
  method Skip(name: Str, folder: bool, extensions: seq<Str>) returns (skip: bool)
    ensures skip <==> !folder && !Selected(name, extensions)
  {
    skip := false;
    if !folder && |extensions| != 0 {
      skip := true;
      var j := 0;
      while j < |extensions|
        invariant 0 <= j <= |extensions|
        invariant skip <==> forall k :: 0 <= k < j ==> !HasExtension(name, extensions[k])
        decreases |extensions| - j
      {
        var extension := extensions[j];
        if |name| > |extension| && name[|name| - |extension|..] == extension {
          skip := false;
          j := j + 1;
          break;
        }
        j := j + 1;
      }
    }
  }

  // ---------------------------------------------------------------------
  // splicing the replacement into the matched spans
  // ---------------------------------------------------------------------

  datatype Span = Span(start: nat, end: nat)

  /** What `re.finditer` yields: in range, in order, not overlapping. */
  predicate WellFormed(spans: seq<Span>, n: nat)
  {
    (forall i :: 0 <= i < |spans| ==> spans[i].start <= spans[i].end <= n) &&
    (forall i, j :: 0 <= i < j < |spans| ==> spans[i].end <= spans[j].start)
  }

  /** Reference: the text from `from` on, with the spans `k..` replaced by `rep`. */
  function SplicedFrom(s: Str, spans: seq<Span>, rep: Str, k: nat, from: nat): (r: Str)
    requires WellFormed(spans, |s|) && k <= |spans| && from <= |s|
    requires k < |spans| ==> from <= spans[k].start
    decreases |spans| - k
  {
    if k == |spans| then s[from..]
    else s[from..spans[k].start] + rep + SplicedFrom(s, spans, rep, k + 1, spans[k].end)
  }

  /** The line with every matched span replaced by `rep`. */
  function Spliced(s: Str, spans: seq<Span>, rep: Str): Str
    requires WellFormed(spans, |s|)
  {
    SplicedFrom(s, spans, rep, 0, 0)
  }

  /** The total length of the spans `k..`. */
  function MatchedLength(spans: seq<Span>, k: nat): int
    decreases |spans| - k
  {
    if k >= |spans| then 0 else spans[k].end - spans[k].start + MatchedLength(spans, k + 1)
  }

  /** The matched spans from `k` on fit between `from` and the end of the text. */
  lemma {:induction false} MatchedLengthBound(spans: seq<Span>, n: nat, k: nat, from: nat)
    requires WellFormed(spans, n) && k <= |spans| && from <= n
    requires k < |spans| ==> from <= spans[k].start
    ensures 0 <= MatchedLength(spans, k) <= n - from
    decreases |spans| - k
  {
    if k < |spans| {
      assert spans[k].start <= spans[k].end <= n;
      if k + 1 < |spans| {
        assert spans[k].end <= spans[k + 1].start;
      }
      MatchedLengthBound(spans, n, k + 1, spans[k].end);
    }
  }

  lemma {:induction false} SplicedFromLength(s: Str, spans: seq<Span>, rep: Str, k: nat, from: nat)
    requires WellFormed(spans, |s|) && k <= |spans| && from <= |s|
    requires k < |spans| ==> from <= spans[k].start
    ensures 0 <= MatchedLength(spans, k) <= |s| - from
    ensures |SplicedFrom(s, spans, rep, k, from)| == |s| - from - MatchedLength(spans, k) + (|spans| - k) * |rep|
    decreases |spans| - k
  {
    MatchedLengthBound(spans, |s|, k, from);
    if k < |spans| {
      assert spans[k].start <= spans[k].end <= |s|;
      if k + 1 < |spans| {
        assert spans[k].end <= spans[k + 1].start;
      }
      SplicedFromLength(s, spans, rep, k + 1, spans[k].end);
      var rest := SplicedFrom(s, spans, rep, k + 1, spans[k].end);
      assert SplicedFrom(s, spans, rep, k, from) == s[from..spans[k].start] + rep + rest;
      assert (|spans| - k) * |rep| == |rep| + (|spans| - (k + 1)) * |rep|;
    }
  }

  /** The new length: the old one, less the matched text, plus one replacement per match. */
  lemma SplicedLength(s: Str, spans: seq<Span>, rep: Str)
    requires WellFormed(spans, |s|)
    ensures 0 <= MatchedLength(spans, 0) <= |s|
    ensures |Spliced(s, spans, rep)| == |s| - MatchedLength(spans, 0) + |spans| * |rep|
  {
    SplicedFromLength(s, spans, rep, 0, 0);
  }

  lemma {:induction false} SplicedFromIdentity(s: Str, spans: seq<Span>, rep: Str, k: nat, from: nat)
    requires WellFormed(spans, |s|) && k <= |spans| && from <= |s|
    requires k < |spans| ==> from <= spans[k].start
    requires forall i :: 0 <= i < |spans| ==> s[spans[i].start..spans[i].end] == rep
    ensures SplicedFrom(s, spans, rep, k, from) == s[from..]
    decreases |spans| - k
  {
    if k < |spans| {
      SplicedFromIdentity(s, spans, rep, k + 1, spans[k].end);
      var a, b := spans[k].start, spans[k].end;
      assert s[from..] == s[from..a] + s[a..b] + s[b..];
    }
  }

  /** Replacing every match by the very text it matched gives the line back. */
  lemma SplicedIdentity(s: Str, spans: seq<Span>, rep: Str)
    requires WellFormed(spans, |s|)
    requires forall i :: 0 <= i < |spans| ==> s[spans[i].start..spans[i].end] == rep
    ensures Spliced(s, spans, rep) == s
  {
    SplicedFromIdentity(s, spans, rep, 0, 0);
  }

  lemma {:induction false} SplicedFromTail(s: Str, spans: seq<Span>, rep: Str, k: nat, from: nat)
    requires WellFormed(spans, |s|) && k < |spans| && from <= spans[k].start
    ensures var r := SplicedFrom(s, spans, rep, k, from);
      var e := spans[|spans| - 1].end;
      |r| >= |s| - e && r[|r| - (|s| - e)..] == s[e..]
    decreases |spans| - k
  {
    var r := SplicedFrom(s, spans, rep, k, from);
    var rest := SplicedFrom(s, spans, rep, k + 1, spans[k].end);
    var front := s[from..spans[k].start] + rep;
    var n := |s| - spans[|spans| - 1].end;
    assert r == front + rest;
    if k + 1 < |spans| {
      SplicedFromTail(s, spans, rep, k + 1, spans[k].end);
    } else {
      assert rest == s[spans[k].end..];
    }
    assert r[|r| - n..] == rest[|rest| - n..];
  }

  /** The text in front of the first match and after the last one is kept as it was. */
  lemma SplicedKeepsEnds(s: Str, spans: seq<Span>, rep: Str)
    requires WellFormed(spans, |s|) && |spans| > 0
    ensures var r := Spliced(s, spans, rep);
      var e := spans[|spans| - 1].end;
      |r| >= spans[0].start && r[..spans[0].start] == s[..spans[0].start] &&
      |r| >= |s| - e && r[|r| - (|s| - e)..] == s[e..]
  {
    SplicedFromTail(s, spans, rep, 0, 0);
  }

  lemma SpliceStep(s: Str, spans: seq<Span>, rep: Str, i: nat, prev: nat, done: Str)
    requires WellFormed(spans, |s|) && i < |spans| && prev <= spans[i].start
    ensures done + SplicedFrom(s, spans, rep, i, prev)
         == (done + s[prev..spans[i].start] + rep) + SplicedFrom(s, spans, rep, i + 1, spans[i].end)
  {
  }

  /** The splicing loop the script runs over each line and each path. */
  method Splice(s: Str, spans: seq<Span>, replacement: Str) returns (result: Str)
    requires WellFormed(spans, |s|)
    ensures result == Spliced(s, spans, replacement)
    ensures |spans| == 0 ==> result == s
  {
    var count := |spans|;
    if count == 0 {
      result := s;
      return;
    }
    result := "";
    var prev: nat := 0;  // where the previous match ended
    for i := 0 to count
      invariant prev <= |s|
      invariant prev == if i == 0 then 0 else spans[i - 1].end
      invariant i < count ==> prev <= spans[i].start
      invariant result + SplicedFrom(s, spans, replacement, i, prev) == Spliced(s, spans, replacement)
    {
      var start := spans[i].start;
      ghost var before := result;
      if i == 0 {
        if start != 0 {
          result := result + s[0..start];
        } else {
          assert s[0..start] == [];
        }
      } else {
        result := result + s[spans[i - 1].end..start];
      }
      result := result + replacement;
      assert result == before + s[prev..start] + replacement;
      SpliceStep(s, spans, replacement, i, prev, before);
      prev := spans[i].end;
    }
    result := result + s[spans[count - 1].end..];
  }

  // ---------------------------------------------------------------------
  // rewriting one file
  // ---------------------------------------------------------------------

  function Concat(lines: seq<Str>): Str
  {
    if |lines| == 0 then "" else Concat(lines[..|lines| - 1]) + lines[|lines| - 1]
  }

  function Count(matches: seq<seq<Span>>): nat
  {
    if |matches| == 0 then 0 else Count(matches[..|matches| - 1]) + |matches[|matches| - 1]|
  }

  predicate AllWellFormed(lines: seq<Str>, matches: seq<seq<Span>>)
  {
    |matches| == |lines| && forall i :: 0 <= i < |lines| ==> WellFormed(matches[i], |lines[i]|)
  }

  /** No match anywhere: the file would be written back as it was. */
  lemma {:induction false} UntouchedContent(lines: seq<Str>, matches: seq<seq<Span>>, rep: Str)
    requires AllWellFormed(lines, matches)
    requires forall i :: 0 <= i < |lines| ==> |matches[i]| == 0
    ensures Count(matches) == 0
    ensures SplicedContent(lines, matches, rep) == Concat(lines)
    decreases |lines|
  {
    if |lines| > 0 {
      var n := |lines| - 1;
      UntouchedContent(lines[..n], matches[..n], rep);
    }
  }

  function SplicedContent(lines: seq<Str>, matches: seq<seq<Span>>, rep: Str): Str
    requires AllWellFormed(lines, matches)
  {
    if |lines| == 0 then ""
    else
      var n := |lines| - 1;
      SplicedContent(lines[..n], matches[..n], rep) + Spliced(lines[n], matches[n], rep)
  }

  lemma {:induction false} CountZero(matches: seq<seq<Span>>)
    ensures Count(matches) == 0 <==> forall i :: 0 <= i < |matches| ==> |matches[i]| == 0
    decreases |matches|
  {
    if |matches| > 0 {
      var n := |matches| - 1;
      CountZero(matches[..n]);
      assert forall i :: 0 <= i < n ==> matches[..n][i] == matches[i];
    }
  }

  /** One file: the new content, the number of matches, and whether it is written back. */
  method RewriteFile(lines: seq<Str>, matches: seq<seq<Span>>, replacement: Str)
    returns (content: Str, total: nat, rewrite: bool)
    requires AllWellFormed(lines, matches)
    ensures content == SplicedContent(lines, matches, replacement)
    ensures total == Count(matches)
    ensures rewrite <==> exists i :: 0 <= i < |lines| && |matches[i]| > 0
  {
    content := "";
    total := 0;
    for index := 0 to |lines|
      invariant content == SplicedContent(lines[..index], matches[..index], replacement)
      invariant total == Count(matches[..index])
    {
      var line := lines[index];
      var newLine := Splice(line, matches[index], replacement);
      total := total + |matches[index]|;
      content := content + newLine;
      assert lines[..index + 1][..index] == lines[..index];
      assert matches[..index + 1][..index] == matches[..index];
    }
    assert lines[..|lines|] == lines;
    assert matches[..|lines|] == matches;
    rewrite := total > 0;
    CountZero(matches);
  }

  // ---------------------------------------------------------------------
  // planning the renames
  // ---------------------------------------------------------------------

  /** A directory entry whose path matched: old path, new path, is-a-folder. */
  datatype Entry = Entry(oldPath: Str, newPath: Str, folder: bool)

  /** One planned `os.rename(from, to)`; `folder` is the flag the plan carries. */
  datatype Rename = Rename(source: Str, target: Str, folder: bool)

  /** The renamed path of a directory entry, or nothing when the pattern did not match it. */
  method RenamedPath(path: Str, spans: seq<Span>, replacement: Str, folder: bool)
    returns (entry: Option<Entry>)
    requires WellFormed(spans, |path|)
    ensures |spans| == 0 <==> entry.None?
    ensures entry.Some? ==> entry.value == Entry(path, Spliced(path, spans, replacement), folder)
  {
    var newPath := Splice(path, spans, replacement);
    if |spans| == 0 {
      entry := None;
    } else {
      entry := Some(Entry(path, newPath, folder));
    }
  }

  datatype Option<T> = None | Some(value: T)

  /** `str.replace("\\", "/")`. */
  function Forward(s: Str): (r: Str)
    ensures |r| == |s|
    ensures forall k :: 0 <= k < |s| ==> r[k] == (if s[k] == '\\' then '/' else s[k])
  {
    if |s| == 0 then "" else [if s[0] == '\\' then '/' else s[0]] + Forward(s[1..])
  }

  /** The candidate renames for components `i..` of one entry. */
  function ComponentRenames(olds: seq<Str>, news: seq<Str>, folder: bool, i: nat): (r: seq<Rename>)
    requires |olds| == |news| && i <= |olds|
    decreases |olds| - i
  {
    if i == |olds| then []
    else ComponentRename(olds, news, folder, i) + ComponentRenames(olds, news, folder, i + 1)
  }

  /** The candidate rename for component `i`: none when it is unchanged;
      otherwise the pair under the old components before it. */
  function ComponentRename(olds: seq<Str>, news: seq<Str>, folder: bool, i: nat): (r: seq<Rename>)
    requires |olds| == |news| && i < |olds|
  {
    if olds[i] == news[i] then []
    else
      var prefix := Joined(olds[..i]);
      [Rename(prefix + "/" + olds[i], prefix + "/" + news[i], if i == |olds| - 1 then folder else true)]
  }

  /** The candidate renames of a list of entries, in order; entries whose component counts differ give none. */
  function Candidates(paths: seq<Entry>): seq<Rename>
  {
    if |paths| == 0 then []
    else
      var n := |paths| - 1;
      var olds := Split(Forward(paths[n].oldPath));
      var news := Split(Forward(paths[n].newPath));
      Candidates(paths[..n]) + (if |olds| == |news| then ComponentRenames(olds, news, paths[n].folder, 0) else [])
  }

  function Mismatches(paths: seq<Entry>): nat
  {
    if |paths| == 0 then 0
    else
      var n := |paths| - 1;
      Mismatches(paths[..n]) + (if |Split(Forward(paths[n].oldPath))| == |Split(Forward(paths[n].newPath))| then 0 else 1)
  }

  /** Appending a pair to the list unless the list already holds it. */
  function Dedup(xs: seq<Rename>): seq<Rename>
  {
    if |xs| == 0 then []
    else
      var d := Dedup(xs[..|xs| - 1]);
      if xs[|xs| - 1] in d then d else d + [xs[|xs| - 1]]
  }

  /** The plan holds each candidate once and nothing else. */
  lemma {:induction false} DedupSound(xs: seq<Rename>)
    ensures forall i, j :: 0 <= i < j < |Dedup(xs)| ==> Dedup(xs)[i] != Dedup(xs)[j]
    ensures forall x :: x in Dedup(xs) <==> x in xs
    decreases |xs|
  {
    if |xs| > 0 {
      var n := |xs| - 1;
      DedupSound(xs[..n]);
      assert xs == xs[..n] + [xs[n]];
    }
  }

  /** `r` is the rename of component `j`: the component differs, both paths
      share the old components before it, and the folder flag is the
      entry's only for the last component. */
  predicate PairFor(olds: seq<Str>, news: seq<Str>, folder: bool, j: nat, r: Rename)
    requires |olds| == |news| && j < |olds|
  {
    olds[j] != news[j] &&
    r == Rename(Joined(olds[..j]) + "/" + olds[j], Joined(olds[..j]) + "/" + news[j],
                if j == |olds| - 1 then folder else true)
  }

  /** The candidates of components `i..` are exactly the renames of the
      components from `i` on that differ. */
  lemma {:induction false} ComponentRenamesOf(olds: seq<Str>, news: seq<Str>, folder: bool, i: nat, r: Rename)
    requires |olds| == |news| && i <= |olds|
    ensures r in ComponentRenames(olds, news, folder, i) <==>
            exists j :: i <= j < |olds| && PairFor(olds, news, folder, j, r)
    decreases |olds| - i
  {
    if i < |olds| {
      ComponentRenamesOf(olds, news, folder, i + 1, r);
      assert r in ComponentRename(olds, news, folder, i) <==> PairFor(olds, news, folder, i, r);
      if !PairFor(olds, news, folder, i, r) {
        assert (exists j :: i <= j < |olds| && PairFor(olds, news, folder, j, r)) ==>
               (exists j :: i + 1 <= j < |olds| && PairFor(olds, news, folder, j, r));
      }
    }
  }

  /** An entry whose paths have different numbers of components plans no rename. */
  lemma MismatchPlansNothing(done: seq<Entry>, e: Entry)
    requires |Split(Forward(e.oldPath))| != |Split(Forward(e.newPath))|
    ensures Candidates(done + [e]) == Candidates(done)
    ensures Mismatches(done + [e]) == Mismatches(done) + 1
  {
    assert (done + [e])[..|done|] == done;
  }

  /** The candidates of components `0..i`. */
  function ComponentRenamesUpTo(olds: seq<Str>, news: seq<Str>, folder: bool, i: nat): seq<Rename>
    requires |olds| == |news| && i <= |olds|
  {
    if i == 0 then []
    else ComponentRenamesUpTo(olds, news, folder, i - 1) + ComponentRename(olds, news, folder, i - 1)
  }

  /** One more component puts its candidate after those already seen. */
  lemma UpToStep(done: seq<Rename>, olds: seq<Str>, news: seq<Str>, folder: bool, i: nat)
    requires |olds| == |news| && i < |olds|
    ensures done + ComponentRenamesUpTo(olds, news, folder, i + 1)
         == (done + ComponentRenamesUpTo(olds, news, folder, i)) + ComponentRename(olds, news, folder, i)
  {
    Basics.AppendAssoc(done, ComponentRenamesUpTo(olds, news, folder, i), ComponentRename(olds, news, folder, i));
  }

  lemma {:induction false} ComponentRenamesSplit(olds: seq<Str>, news: seq<Str>, folder: bool, lo: nat, i: nat)
    requires |olds| == |news| && lo == 0 && i <= |olds|
    ensures ComponentRenames(olds, news, folder, lo)
         == ComponentRenamesUpTo(olds, news, folder, i) + ComponentRenames(olds, news, folder, i)
    decreases i
  {
    if i > 0 {
      ComponentRenamesSplit(olds, news, folder, lo, i - 1);
    }
  }

  lemma DedupSnoc(xs: seq<Rename>, x: Rename)
    ensures Dedup(xs + [x]) == if x in Dedup(xs) then Dedup(xs) else Dedup(xs) + [x]
  {
    assert (xs + [x])[..|xs|] == xs;
  }

  /** The inner loop of the plan: the candidates of one entry whose component counts agree. */
  method PlanEntry(replacements: seq<Rename>, ghost done: seq<Rename>, olds: seq<Str>, news: seq<Str>, folder: bool)
    returns (planned: seq<Rename>)
    requires |olds| == |news|
    requires replacements == Dedup(done)
    ensures planned == Dedup(done + ComponentRenames(olds, news, folder, 0))
  {
    planned := replacements;
    var length := |olds|;
    assert done + ComponentRenamesUpTo(olds, news, folder, 0) == done;
    for i := 0 to length
      invariant planned == Dedup(done + ComponentRenamesUpTo(olds, news, folder, i))
    {
      ghost var before := done + ComponentRenamesUpTo(olds, news, folder, i);
      UpToStep(done, olds, news, folder, i);
      if olds[i] != news[i] {
        var prefix := Join(olds[0..i]);
        var pair := Rename(prefix + "/" + olds[i], prefix + "/" + news[i],
                           if i == length - 1 then folder else true);
        assert olds[0..i] == olds[..i];
        assert ComponentRename(olds, news, folder, i) == [pair];
        DedupSnoc(before, pair);
        if pair !in planned {
          planned := planned + [pair];
        }
      } else {
        assert before + ComponentRename(olds, news, folder, i) == before;
      }
    }
    ComponentRenamesSplit(olds, news, folder, 0, length);
    assert ComponentRenamesUpTo(olds, news, folder, length) + [] == ComponentRenamesUpTo(olds, news, folder, length);
  }

  /** The rename plan: every candidate, first occurrence only, and one error per mismatched entry. */
  method PlanRenames(paths: seq<Entry>) returns (replacements: seq<Rename>, errors: nat)
    ensures replacements == Dedup(Candidates(paths))
    ensures errors == Mismatches(paths)
  {
    replacements := [];
    errors := 0;
    for p := 0 to |paths|
      invariant replacements == Dedup(Candidates(paths[..p]))
      invariant errors == Mismatches(paths[..p])
    {
      var path := paths[p];
      var olds := Split(Forward(path.oldPath));
      var news := Split(Forward(path.newPath));
      assert paths[..p + 1][..p] == paths[..p];
      assert paths[..p + 1][p] == paths[p];
      ghost var done := Candidates(paths[..p]);
      if |olds| == |news| {
        assert Candidates(paths[..p + 1]) == done + ComponentRenames(olds, news, path.folder, 0);
        replacements := PlanEntry(replacements, done, olds, news, path.folder);
      } else {
        assert Candidates(paths[..p + 1]) == done + [];
        assert done + [] == done;
        errors := errors + 1;
      }
    }
    assert paths[..|paths|] == paths;
  }
}
