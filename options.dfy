/** The invocation line of the cell magic: the `-GPUInfo` flag, the
    repeatable `-co <token>` compiler option and the `-cudaPath <dir>`
    header directory (src/xmagics/nvrtc.cpp, getCompileOptions and
    getCudaIncludePath). */
module OptionLine {
  import opened Wrappers
  import opened Text
  import opened Patterns

  /** A whitespace-delimited token: what `\S+` captures. */
  predicate IsToken(t: string) {
    t != [] && forall k :: 0 <= k < |t| ==> !IsSpace(t[k])
  }

  /** The tokens after each `-co`, left to right, duplicates kept. */
  function CompileOptionsOf(line: string): seq<string> {
    Captures(AllMatches(MatchTable(CompilerOption, line), 0))
  }

  /** Whether `-GPUInfo` is found followed by whitespace or the end. */
  function HasGpuInfoFlag(line: string): bool {
    Search(MatchTable(GpuInfoFlag, line), 0).Some?
  }

  /** `-GPUInfo` at `i`, followed by a space character or the end of the line. */
  predicate GpuInfoFlagAt(line: string, i: nat) {
    HasAt(line, i, "-GPUInfo") && (i + 8 == |line| || IsSpace(line[i + 8]))
  }

  /** Makes a directory name start and end with `/`, adding only what is missing. */
  function NormalizeIncludeDir(path: string): (r: string)
    requires path != []
    ensures r != [] && r[0] == '/' && r[|r| - 1] == '/'
    ensures |r| == |path| + (if path[0] == '/' then 0 else 1) + (if path[|path| - 1] == '/' then 0 else 1)
    ensures r[(if path[0] == '/' then 0 else 1)..][..|path|] == path
  {
    var p := if path[|path| - 1] != '/' then path + "/" else path;
    if p[0] != '/' then "/" + p else p
  }

  /** The normalised directory of the first `-cudaPath <token>`, or "" when
      there is none. */
  function CudaIncludePath(line: string): (r: string)
    ensures r == "" <==> Search(MatchTable(CudaPathOption, line), 0).None?
    ensures r != "" ==> r[0] == '/' && r[|r| - 1] == '/'
  {
    match Search(MatchTable(CudaPathOption, line), 0)
    case None => ""
    case Some(m) =>
      TableAt(CudaPathOption, line, m.start);
      NormalizeIncludeDir(m.capture)
  }

  /** Every option the line yields is a whole non-empty token. */
  lemma CompileOptionsAreTokens(line: string)
    ensures forall k :: 0 <= k < |CompileOptionsOf(line)| ==> IsToken(CompileOptionsOf(line)[k])
  {
    var t := MatchTable(CompilerOption, line);
    var ms := AllMatches(t, 0);
    AllMatchesIsScan(t, 0);
    forall k | 0 <= k < |ms| ensures IsToken(ms[k].capture) {
      TableAt(CompilerOption, line, ms[k].start);
      KeyedTokenIsToken(line, ms[k].start, "-co");
    }
  }

  /** The flag is set exactly when `-GPUInfo` is somewhere followed by a
      space character or the end of the line (no left word boundary). */
  lemma {:induction false} GpuInfoFlagIff(line: string)
    ensures HasGpuInfoFlag(line) <==> exists i :: 0 <= i <= |line| && GpuInfoFlagAt(line, i)
  {
    var t := MatchTable(GpuInfoFlag, line);
    if HasGpuInfoFlag(line) {
      var i := Search(t, 0).value.start;
      TableAt(GpuInfoFlag, line, i);
      assert GpuInfoFlagAt(line, i);
    }
    if exists i :: 0 <= i <= |line| && GpuInfoFlagAt(line, i) {
      var i :| 0 <= i <= |line| && GpuInfoFlagAt(line, i);
      TableAt(GpuInfoFlag, line, i);
      assert t[i].Some?;
    }
  }

  /** A normalised directory is left alone by normalisation. */
  lemma NormalizeIdempotent(path: string)
    requires path != []
    ensures NormalizeIncludeDir(NormalizeIncludeDir(path)) == NormalizeIncludeDir(path)
    ensures path[0] == '/' && path[|path| - 1] == '/' ==> NormalizeIncludeDir(path) == path
  {
  }

  /** `key`, one space and a whole token at `i` make one match whose
      group is that token. */
  lemma KeyedTokenHere(s: string, i: nat, key: string, tok: string)
    requires key != [] && IsToken(tok) && HasAt(s, i, key + " " + tok)
    requires i + |key| + 1 + |tok| == |s| || IsSpace(s[i + |key| + 1 + |tok|])
    ensures KeyedTokenAt(s, i, key) == Some(Match(i, i + |key| + 1 + |tok|, tok))
  {
    var k := i + |key|;
    var e := k + 1 + |tok|;
    var w := key + " " + tok;
    assert s[i..e] == w;
    assert HasAt(s, i, key) by {
      assert s[i..k] == w[..|key|];
    }
    assert IsSpace(s[k]) by {
      assert s[k] == w[|key|];
    }
    assert s[k + 1..e] == tok by {
      assert s[k + 1..e] == w[|key| + 1..];
    }
    assert forall t :: k + 1 <= t < e ==> !IsSpace(s[t]) by {
      forall t | k + 1 <= t < e ensures !IsSpace(s[t]) {
        assert s[t] == tok[t - k - 1];
      }
    }
    RunEndIs(s, k, Space, k + 1);
    RunEndIs(s, k + 1, NonSpace, e);
  }

  /** `key`, a non-empty run of white space and a whole token at `i` make
      one match whose group is that token. */
  lemma KeyedTokenSpaced(s: string, i: nat, key: string, k: nat, e: nat)
    requires HasAt(s, i, key) && i + |key| < k < e <= |s|
    requires forall t :: i + |key| <= t < k ==> IsSpace(s[t])
    requires forall t :: k <= t < e ==> !IsSpace(s[t])
    requires e == |s| || IsSpace(s[e])
    ensures KeyedTokenAt(s, i, key) == Some(Match(i, e, s[k..e]))
  {
    RunEndIs(s, i + |key|, Space, k);
    RunEndIs(s, k, NonSpace, e);
  }

  /** The first `-cudaPath`, any run of white space, and a token ending at
      `e`: the result is that token, normalised. */
  lemma CudaIncludePathFirst(line: string, i: nat, k: nat, e: nat)
    requires HasAt(line, i, "-cudaPath") && i + 9 < k < e <= |line|
    requires forall t :: i + 9 <= t < k ==> IsSpace(line[t])
    requires forall t :: k <= t < e ==> !IsSpace(line[t])
    requires e == |line| || IsSpace(line[e])
    requires forall j :: 0 <= j < i ==> MatchAt(CudaPathOption, line, j).None?
    ensures CudaIncludePath(line) == NormalizeIncludeDir(line[k..e])
  {
    var t := MatchTable(CudaPathOption, line);
    KeyedTokenSpaced(line, i, "-cudaPath", k, e);
    TableAll(CudaPathOption, line);
    SearchFinds(t, 0, i);
  }

  /** `-cudaPath` twice, the first followed by a space and a tab: the
      first directory is the one used, and a trailing `/` is added. */
  lemma CudaIncludePathTabExample()
    ensures CudaIncludePath("-cudaPath" + " \t" + "/opt/cuda" + " -cudaPath /x/") == "/opt/cuda/"
  {
    var key, gap, dir, tail := "-cudaPath", " \t", "/opt/cuda", " -cudaPath /x/";
    var line := key + gap + dir + tail;
    assert line[..9] == key;
    assert line[9..11] == gap;
    assert line[11..20] == dir;
    assert line[20] == tail[0];
    assert forall t :: 11 <= t < 20 ==> line[t] == dir[t - 11];
    CudaIncludePathFirst(line, 0, 11, 20);
  }

  /** Tokens written as `-co t1 -co t2 ...`. */
  function JoinOptions(ts: seq<string>): string {
    if ts == [] then ""
    else if |ts| == 1 then "-co " + ts[0]
    else "-co " + ts[0] + " " + JoinOptions(ts[1..])
  }

  /** One `-co <token>` at the start of a line, followed by a space or the end. */
  lemma OptionFirst(tok: string, rest: string)
    requires IsToken(tok) && (rest == [] || rest[0] == ' ')
    ensures MatchAt(CompilerOption, "-co " + tok + rest, 0) == Some(Match(0, |"-co " + tok|, tok))
  {
    var s := "-co " + tok + rest;
    assert HasAt(s, 0, "-co " + tok) by {
      assert s[..4 + |tok|] == "-co " + tok;
    }
    if rest != [] {
      assert s[4 + |tok|] == rest[0];
    }
    KeyedTokenHere(s, 0, "-co", tok);
  }

  /** Reading one option off the front of a line. */
  lemma CompileOptionsCons(tok: string, rest: string)
    requires IsToken(tok) && (rest == [] || rest[0] == ' ')
    ensures CompileOptionsOf("-co " + tok + rest) == [tok] + CompileOptionsOf(rest)
  {
    OptionFirst(tok, rest);
    assert "-co " + tok + rest == ("-co " + tok) + rest;
    MatchThenRest(CompilerOption, "-co " + tok, tok, rest);
  }

  /** A space where an option could begin is skipped. */
  lemma CompileOptionsSpace(rest: string)
    ensures CompileOptionsOf(" " + rest) == CompileOptionsOf(rest)
  {
    NotAt(" " + rest, 0, "-co");
    NoMatchThenRest(CompilerOption, ' ', rest);
  }

  /** Round trip: the options written out one `-co` each are read back in
      order, duplicates and all, even when a token is itself `-co`. */
  lemma {:induction false} CompileOptionsRoundTrip(ts: seq<string>)
    requires forall k :: 0 <= k < |ts| ==> IsToken(ts[k])
    ensures CompileOptionsOf(JoinOptions(ts)) == ts
    decreases |ts|
  {
    if ts == [] {
      CompileOptionsEmpty();
    } else if |ts| == 1 {
      assert JoinOptions(ts) == "-co " + ts[0] + "";
      CompileOptionsCons(ts[0], "");
      CompileOptionsEmpty();
    } else {
      var more := JoinOptions(ts[1..]);
      assert CompileOptionsOf(JoinOptions(ts)) == [ts[0]] + CompileOptionsOf(more) by {
        assert JoinOptions(ts) == "-co " + ts[0] + (" " + more);
        CompileOptionsCons(ts[0], " " + more);
        CompileOptionsSpace(more);
      }
      CompileOptionsRoundTrip(ts[1..]);
      assert ts == [ts[0]] + ts[1..];
    }
  }

  lemma CompileOptionsEmpty()
    ensures CompileOptionsOf("") == []
  {
    TableAt(CompilerOption, "", 0);
    NoMatchesUnchanged(MatchTable(CompilerOption, ""), "", 0);
  }

  /** No option begins inside a lone token: the key needs a space after it. */
  lemma TokenHasNoOption(tok: string)
    requires IsToken(tok)
    ensures forall i :: 0 <= i < |tok| ==> MatchAt(CompilerOption, tok, i).None?
  {
    forall i | 0 <= i < |tok| ensures MatchAt(CompilerOption, tok, i).None? {
      if HasAt(tok, i, "-co") {
        RunEndSpan(tok, i + 3, Space);
      }
    }
  }

  /** Matches do not overlap: in `-co -co x` the second `-co` is the first
      option's token, and what follows it yields nothing. */
  lemma CoAsToken(tok: string)
    requires IsToken(tok)
    ensures CompileOptionsOf("-co -co " + tok) == ["-co"]
  {
    assert IsToken("-co");
    assert "-co -co " + tok == "-co " + "-co" + (" " + tok);
    CompileOptionsCons("-co", " " + tok);
    CompileOptionsSpace(tok);
    TokenHasNoOption(tok);
    assert tok + "" == tok;
    NoMatchPrefix(CompilerOption, tok, "");
    CompileOptionsEmpty();
  }
}
