/**
 * Preparing a shader source for one pipeline stage: the stage's definitions
 * are spliced in right after the `#version` line, which has to stay the first
 * directive of the source.
 *
 * Strings are `seq<char>`; `std::string::find` is the function `Find`.
 */
module ShaderSource {

  datatype Option<T> = None | Some(value: T)

  /** `p` occurs in `s` starting at index `k`. */
  predicate OccursAt(s: seq<char>, p: seq<char>, k: nat)
  {
    k + |p| <= |s| && s[k..k + |p|] == p
  }

  /** `p` occurs somewhere in `s`. */
  ghost predicate Contains(s: seq<char>, p: seq<char>)
  {
    exists k: nat :: OccursAt(s, p, k)
  }

  /**
   * The first occurrence of `p` in `s` at or after `from`, or `None` (the
   * `npos` of `std::string::find`).
   */
  function Find(s: seq<char>, p: seq<char>, from: nat): (r: Option<nat>)
    ensures r.Some? ==> from <= r.value && OccursAt(s, p, r.value)
    ensures r.Some? ==> forall k: nat :: from <= k < r.value ==> !OccursAt(s, p, k)
    ensures r.None? ==> forall k: nat :: from <= k ==> !OccursAt(s, p, k)
    decreases |s| - from
  {
    if from + |p| > |s| then None
    else if s[from..from + |p|] == p then Some(from)
    else Find(s, p, from + 1)
  }

  /** `Find` returns the first occurrence and nothing else. */
  lemma FindIsFirst(s: seq<char>, p: seq<char>, from: nat, k: nat)
    requires from <= k && OccursAt(s, p, k)
    requires forall j: nat :: from <= j < k ==> !OccursAt(s, p, j)
    ensures Find(s, p, from) == Some(k)
  {
  }

  /** `Find(s, p, 0)` is `None` exactly when `p` does not occur in `s`. */
  lemma FindNone(s: seq<char>, p: seq<char>)
    ensures Find(s, p, 0).None? <==> !Contains(s, p)
  {
    if Find(s, p, 0).Some? {
      assert OccursAt(s, p, Find(s, p, 0).value);
    }
  }

  const VersionDirective: seq<char> := "#version"

  /**
   * How `prepare_source` cuts a file before assembling the result:
   * `Rejected` (empty file, no `#version`, or a second `#version` below the
   * version line), `NoNewline` (`#version` is found but no newline follows
   * it, so the file stays whole), or `Versioned`: everything up to and
   * including the newline that ends the first `#version` line, and the rest.
   */
  datatype Split = Rejected | NoNewline | Versioned(version: seq<char>, rest: seq<char>)

  function SplitVersion(file: seq<char>): Split
  {
    if |file| == 0 then Rejected
    else match Find(file, VersionDirective, 0)
      case None => Rejected
      case Some(b) =>
        match Find(file, "\n", b)
        case None => NoNewline
        case Some(e) =>
          if Find(file[e + 1..], VersionDirective, 0).Some? then Rejected
          else Versioned(file[..e + 1], file[e + 1..])
  }

  /** The newline that ends a `#version` line lies past the directive itself. */
  lemma NewlineAfterDirective(file: seq<char>, b: nat, e: nat)
    requires OccursAt(file, VersionDirective, b) && OccursAt(file, "\n", e) && b <= e
    ensures b + |VersionDirective| <= e
  {
    assert file[e] == file[e..e + 1][0] == '\n';
    forall j | b <= j < b + |VersionDirective| ensures file[j] != '\n' {
      assert file[j] == file[b..b + |VersionDirective|][j - b];
    }
  }

  /** No character between `from` and the first newline found from there is a newline. */
  lemma NoNewlineBefore(file: seq<char>, from: nat, e: nat)
    requires Find(file, "\n", from) == Some(e)
    ensures forall k :: from <= k < e ==> file[k] != '\n'
  {
    forall k | from <= k < e ensures file[k] != '\n' {
      assert !OccursAt(file, "\n", k);
      assert file[k..k + 1] == [file[k]];
    }
  }

  /**
   * The version line of an accepted file: the cut is after a newline, the
   * first `#version` lies in the version part with no newline after it but
   * the final one, and the rest holds no `#version` at all.
   */
  lemma SplitVersionParts(file: seq<char>)
    requires SplitVersion(file).Versioned?
    ensures var v, r := SplitVersion(file).version, SplitVersion(file).rest;
      v + r == file && |v| > 0 && v[|v| - 1] == '\n' &&
      Find(v, VersionDirective, 0) == Find(file, VersionDirective, 0) &&
      Find(v, VersionDirective, 0).Some? &&
      (forall k :: Find(v, VersionDirective, 0).value <= k < |v| - 1 ==> v[k] != '\n') &&
      !Contains(r, VersionDirective)
  {
    var b := Find(file, VersionDirective, 0).value;
    var e := Find(file, "\n", b).value;
    var v, r := file[..e + 1], file[e + 1..];
    assert v + r == file;
    NewlineAfterDirective(file, b, e);
    assert file[e] == file[e..e + 1][0];
    FindInPrefix(file, v, VersionDirective, e + 1);
    NoNewlineBefore(file, b, e);
    FindNone(r, VersionDirective);
  }

  /**
   * The result of `prepare_source` as written: the version part, the
   * definitions and a newline, then the rest, except that with empty
   * definitions the version part is dropped.
   */
  function Prepared(file: seq<char>, definitions: seq<char>): seq<char>
  {
    match SplitVersion(file)
    case Rejected => []
    case NoNewline => if |definitions| > 0 then definitions + "\n" + file else file
    case Versioned(version, rest) =>
      if |definitions| > 0 then version + definitions + "\n" + rest else rest
  }

  /**
   * `prepare_source` step by step: the file is cut at its version line, then
   * the result is assembled from the pieces.
   */
  method PrepareSource(file: seq<char>, definitions: seq<char>) returns (source: seq<char>)
    ensures source == Prepared(file, definitions)
  {
    var ok, version, rest := CutVersion(file);
    if !ok {
      return [];
    }
    source := Assemble(version, definitions, rest);
    if SplitVersion(file) == NoNewline {
      assert source == Prepared(file, definitions);
    }
  }

  /**
   * The checks and the cut of `prepare_source`: `ok` is false where the
   * function gives up; otherwise `version` is the text up to and including
   * the newline ending the first `#version` line (empty when there is no such
   * newline) and `file` is what is left of the file.
   */
  method CutVersion(file0: seq<char>) returns (ok: bool, version: seq<char>, file: seq<char>)
    ensures !ok <==> SplitVersion(file0) == Rejected
    ensures SplitVersion(file0) == NoNewline ==> version == [] && file == file0
    ensures SplitVersion(file0).Versioned? ==> version == SplitVersion(file0).version && file == SplitVersion(file0).rest
  {
    file := file0;
    version := [];
    if |file| == 0 {
      return false, version, file;
    }
    var b := Find(file, VersionDirective, 0);
    if b.Some? {
      var e := Find(file, "\n", b.value);
      if e.Some? {
        version := file[..e.value + 1];
        file := file[e.value + 1..];
        if Find(file, VersionDirective, 0).Some? {
          return false, version, file;
        }
      }
    } else {
      return false, version, file;
    }
    ok := true;
  }

  /** The last step of `prepare_source`: the result is assembled from its parts. */
  method Assemble(version: seq<char>, definitions: seq<char>, file: seq<char>) returns (source: seq<char>)
    ensures source == if |definitions| > 0 then version + definitions + "\n" + file else file
  {
    source := [];
    if |definitions| > 0 {
      source := source + version;
      assert source == version;
      source := source + definitions + "\n";
      source := source + file;
    } else {
      source := source + version;
      source := file;
    }
  }

  /** Files without a `#version` directive, and empty files, are rejected. */
  lemma PreparedNeedsVersion(file: seq<char>, definitions: seq<char>)
    requires !Contains(file, VersionDirective)
    ensures Prepared(file, definitions) == []
  {
    FindNone(file, VersionDirective);
  }

  /** A second `#version` below the version line rejects the file. */
  lemma PreparedRejectsDuplicate(file: seq<char>, definitions: seq<char>, b: nat, e: nat, k: nat)
    requires Find(file, VersionDirective, 0) == Some(b) && Find(file, "\n", b) == Some(e)
    requires e < k && OccursAt(file, VersionDirective, k)
    ensures Prepared(file, definitions) == []
  {
    var rest := file[e + 1..];
    assert rest[k - (e + 1)..k - (e + 1) + |VersionDirective|] == file[k..k + |VersionDirective|];
    assert OccursAt(rest, VersionDirective, k - (e + 1));
  }

  /**
   * With a version line that ends in a newline and definitions, the
   * definitions and a newline are inserted right after the version line,
   * and cutting them out again gives back the file.
   */
  lemma PreparedSplice(file: seq<char>, definitions: seq<char>)
    requires SplitVersion(file).Versioned? && |definitions| > 0
    ensures var v := SplitVersion(file).version;
      Prepared(file, definitions) == v + definitions + "\n" + file[|v|..] &&
      Prepared(file, definitions)[..|v|] + Prepared(file, definitions)[|v| + |definitions| + 1..] == file
  {
    SplitVersionParts(file);
    var v, r := SplitVersion(file).version, SplitVersion(file).rest;
    var out := Prepared(file, definitions);
    assert out == v + definitions + "\n" + r;
    assert r == file[|v|..];
    assert out[..|v|] == v;
    assert out[|v| + |definitions| + 1..] == r;
  }

  /** Two strings with a common prefix agree on every slice inside it. */
  lemma SliceInPrefix(s: seq<char>, t: seq<char>, m: nat, j: nat, n: nat)
    requires m <= |s| && m <= |t| && s[..m] == t[..m] && j + n <= m
    ensures s[j..j + n] == t[j..j + n]
  {
    assert s[j..j + n] == s[..m][j..j + n];
    assert t[j..j + n] == t[..m][j..j + n];
  }

  /** Two strings with a common prefix share every occurrence of `p` that lies inside it. */
  lemma FindInPrefix(s: seq<char>, t: seq<char>, p: seq<char>, m: nat)
    requires m <= |s| && m <= |t| && s[..m] == t[..m]
    requires Find(s, p, 0).Some? && Find(s, p, 0).value + |p| <= m
    ensures Find(t, p, 0) == Find(s, p, 0)
  {
    var b := Find(s, p, 0).value;
    NoOccurrenceInPrefix(s, t, p, m, b);
    forall j: nat | j < b ensures !OccursAt(t, p, j) {
      NoOccurrenceInPrefix(s, t, p, m, j);
    }
    FindIsFirst(t, p, 0, b);
  }

  /** An occurrence inside a common prefix is in both strings or in neither. */
  lemma NoOccurrenceInPrefix(s: seq<char>, t: seq<char>, p: seq<char>, m: nat, j: nat)
    requires m <= |s| && m <= |t| && s[..m] == t[..m] && j + |p| <= m
    ensures OccursAt(t, p, j) <==> OccursAt(s, p, j)
  {
    SliceInPrefix(s, t, m, j, |p|);
  }

  /** With definitions, the first `#version` of the result is the file's own. */
  lemma PreparedKeepsVersionFirst(file: seq<char>, definitions: seq<char>)
    requires SplitVersion(file).Versioned? && |definitions| > 0
    ensures Find(Prepared(file, definitions), VersionDirective, 0) == Find(file, VersionDirective, 0)
  {
    SplitVersionParts(file);
    PreparedSplice(file, definitions);
    var v := SplitVersion(file).version;
    var out := Prepared(file, definitions);
    assert out[..|v|] == v == file[..|v|];
    FindInPrefix(file, out, VersionDirective, |v|);
  }

  /**
   * As written, empty definitions make `prepare_source` drop the whole version
   * part: the result of an accepted file holds no `#version` at all.
   */
  lemma PreparedDropsVersion(file: seq<char>)
    requires SplitVersion(file).Versioned?
    ensures Prepared(file, []) == file[|SplitVersion(file).version|..]
    ensures !Contains(Prepared(file, []), VersionDirective)
  {
    SplitVersionParts(file);
  }

  /** A concrete instance: of the two-line file `#version` / `x` only `x` is left. */
  lemma PreparedDropsVersionExample()
    ensures Prepared("#version\nx", []) == "x"
  {
    var file := "#version\nx";
    assert file[0..8] == VersionDirective;
    FindIsFirst(file, VersionDirective, 0, 0);
    forall j: nat | j < 8 ensures !OccursAt(file, "\n", j) {
      assert file[j..j + 1] == [file[j]];
    }
    assert file[8..9] == "\n";
    FindIsFirst(file, "\n", 0, 8);
    assert file[9..] == "x";
  }

  /**
   * `prepare_source` as intended: with empty definitions the version part is
   * kept and the file comes back unchanged.
   */
  function PreparedIntended(file: seq<char>, definitions: seq<char>): seq<char>
  {
    match SplitVersion(file)
    case Rejected => []
    case NoNewline => if |definitions| > 0 then definitions + "\n" + file else file
    case Versioned(version, rest) =>
      if |definitions| > 0 then version + definitions + "\n" + rest else version + rest
  }

  /** The intended version returns an accepted file unchanged when there is nothing to insert. */
  lemma PreparedIntendedKeepsFile(file: seq<char>)
    requires SplitVersion(file).Versioned?
    ensures PreparedIntended(file, []) == file
    ensures Find(PreparedIntended(file, []), VersionDirective, 0) == Find(file, VersionDirective, 0)
  {
    SplitVersionParts(file);
  }

  /** The intended version and the code agree whenever there are definitions. */
  lemma PreparedIntendedAgrees(file: seq<char>, definitions: seq<char>)
    requires |definitions| > 0
    ensures PreparedIntended(file, definitions) == Prepared(file, definitions)
  {
  }

  /** GL enumerants of the six shader stages (`GL_VERTEX_SHADER` and so on). */
  const GlVertexShader: int := 0x8B31
  const GlFragmentShader: int := 0x8B30
  const GlGeometryShader: int := 0x8DD9
  const GlTessControlShader: int := 0x8E88
  const GlTessEvaluationShader: int := 0x8E87
  const GlComputeShader: int := 0x91B9

  /** The macro names that mark each stage in a shared source file. */
  const ShaderKeys: seq<seq<char>> := ["VERTEX_SHADER", "FRAGMENT_SHADER", "GEOMETRY_SHADER",
    "TESSELATION_CONTROL", "EVALUATION_CONTROL", "COMPUTE_SHADER"]

  /** The stage compiled for each key, with the OpenGL 4.3 stages available. */
  const ShaderTypes: seq<int> := [GlVertexShader, GlFragmentShader, GlGeometryShader,
    GlTessControlShader, GlTessEvaluationShader, GlComputeShader]

  /** The name of a stage in error messages; unknown types are plain "shader". */
  function ShaderName(shaderType: int): (name: seq<char>)
    ensures |name| > 0
    ensures shaderType !in ShaderTypes <==> name == "shader"
  {
    if shaderType == GlVertexShader then "vertex shader"
    else if shaderType == GlFragmentShader then "fragment shader"
    else if shaderType == GlGeometryShader then "geometry shader"
    else if shaderType == GlTessControlShader then "control shader"
    else if shaderType == GlTessEvaluationShader then "evaluation shader"
    else if shaderType == GlComputeShader then "compute shader"
    else "shader"
  }

  /** Every stage has a name of its own, different from the fallback. */
  lemma StageNamesDistinct(i: nat, j: nat)
    requires i < |ShaderTypes| && j < |ShaderTypes|
    ensures ShaderName(ShaderTypes[i]) != "shader"
    ensures i != j ==> ShaderName(ShaderTypes[i]) != ShaderName(ShaderTypes[j])
  {
  }

  /** The definitions for stage `i`: the caller's, then `#define <key>` and a newline. */
  function StageDefinitions(definitions: seq<char>, i: nat): (d: seq<char>)
    requires i < |ShaderKeys|
    ensures |d| == |definitions| + 9 + |ShaderKeys[i]| && d[|d| - 1] == '\n'
    ensures d[..|definitions|] == definitions
  {
    definitions + "#define " + ShaderKeys[i] + "\n"
  }

  /** The source compiled for stage `i` of a shared file. */
  function StageSource(common: seq<char>, definitions: seq<char>, i: nat): seq<char>
    requires i < |ShaderKeys|
  {
    Prepared(common, StageDefinitions(definitions, i))
  }

  /** The stage's `#define <key>` follows the caller's definitions right after the version part. */
  lemma StageSourceHasKey(common: seq<char>, definitions: seq<char>, i: nat)
    requires i < |ShaderKeys| && SplitVersion(common).Versioned?
    ensures OccursAt(StageSource(common, definitions, i), "#define " + ShaderKeys[i],
                     |SplitVersion(common).version| + |definitions|)
  {
    var sp := SplitVersion(common);
    KeyAfterDefinitions(sp.version, definitions, ShaderKeys[i], sp.rest);
  }

  /** In `v + (definitions + "#define " + key + "\n") + "\n" + rest` the define line starts after `v + definitions`. */
  lemma KeyAfterDefinitions(v: seq<char>, definitions: seq<char>, key: seq<char>, rest: seq<char>)
    ensures OccursAt(v + (definitions + "#define " + key + "\n") + "\n" + rest, "#define " + key, |v| + |definitions|)
  {
    var s := v + (definitions + "#define " + key + "\n") + "\n" + rest;
    var line := "#define " + key;
    var k := |v| + |definitions|;
    forall t | 0 <= t < |line| ensures s[k + t] == line[t] {
      if t < 8 {
        assert s[k + t] == "#define "[t];
      } else {
        assert s[k + t] == key[t - 8];
      }
    }
    assert s[k..k + |line|] == line;
  }

  /**
   * Stage definitions are never empty, so the dropped version line cannot
   * happen for a stage source, which keeps the file's `#version` first.
   */
  lemma StageSourceKeepsVersion(common: seq<char>, definitions: seq<char>, i: nat)
    requires i < |ShaderKeys| && SplitVersion(common).Versioned?
    ensures StageSource(common, definitions, i) == PreparedIntended(common, StageDefinitions(definitions, i))
    ensures Find(StageSource(common, definitions, i), VersionDirective, 0) == Find(common, VersionDirective, 0)
  {
    var d := StageDefinitions(definitions, i);
    PreparedIntendedAgrees(common, d);
    PreparedKeepsVersionFirst(common, d);
  }
}
