/** The fixed regular expressions of the cell magic, each written as a
    deterministic matcher at one position, with the leftmost search
    (std::regex_search), the non-overlapping left-to-right enumeration
    (std::sregex_iterator) and deletion of every match (std::regex_replace
    with an empty replacement) built once on top of them. */
module Patterns {
  import opened Wrappers
  import opened Text

  datatype Pattern =
    | GpuInfoFlag       // -GPUInfo(\s|$)
    | CompilerOption    // -co\s+(\S+)
    | CudaPathOption    // -cudaPath\s+(\S+)
    | IncludeDirective  // #include\s*<([^>]+)>|#include\s*"([^"]+)"
    | GloblMarker       // \/\/ .globl\s(\w*)
    | LineComment       // //.*
    | BlockComment      // /\*[\s\S]*?\*/

  /** A match occupies `s[start..end]`; `capture` is its first matched group. */
  datatype Match = Match(start: nat, end: nat, capture: string)

  /** `key\s+(\S+)` at `i`: the key, a non-empty run of spaces, and the
      whole following run of non-space characters as the group. */
  function KeyedTokenAt(s: string, i: nat, key: string): (r: Option<Match>)
    requires i <= |s|
    ensures r.Some? ==> r.value.start == i && i < r.value.end <= |s|
  {
    if !HasAt(s, i, key) then None
    else TokenAfter(s, i, i + |key|, RunEnd(s, i + |key|, Space))
  }

  /** The group of a keyed option that starts at `i`, whose spaces run
      from `p` to `k`: there must be at least one, and a token after them. */
  function TokenAfter(s: string, i: nat, p: nat, k: nat): (r: Option<Match>)
    requires i <= p <= k <= |s|
    ensures r.Some? ==> r.value.start == i && k < r.value.end <= |s|
  {
    if k == p || k == |s| || IsSpace(s[k]) then None
    else
      var e := RunEnd(s, k, NonSpace);
      Some(Match(i, e, s[k..e]))
  }

  // First block-comment closer (star, slash) starting at or after `j`.
  function FindCloser(s: string, j: nat): (r: Option<nat>)
    requires j <= |s|
    ensures r.Some? ==> j <= r.value && r.value + 2 <= |s|
    decreases |s| - j
  {
    if HasAt(s, j, "*/") then Some(j)
    else if j == |s| then None
    else FindCloser(s, j + 1)
  }

  /** The closer found is a closer, and there is none before it. */
  lemma {:induction false} FindCloserFirst(s: string, j: nat)
    requires j <= |s|
    ensures FindCloser(s, j).Some? ==> HasAt(s, FindCloser(s, j).value, "*/")
    ensures FindCloser(s, j).Some? ==> forall t :: j <= t < FindCloser(s, j).value ==> !HasAt(s, t, "*/")
    ensures FindCloser(s, j).None? ==> forall t :: j <= t <= |s| ==> !HasAt(s, t, "*/")
    decreases |s| - j
  {
    if !HasAt(s, j, "*/") && j < |s| {
      FindCloserFirst(s, j + 1);
    }
  }

  /** The closer search stops at the first closer. */
  lemma {:induction false} FindCloserIs(s: string, j: nat, e: nat)
    requires j <= e && HasAt(s, e, "*/")
    requires forall t :: j <= t < e ==> !HasAt(s, t, "*/")
    ensures FindCloser(s, j) == Some(e)
    decreases e - j
  {
    if j < e {
      FindCloserIs(s, j + 1, e);
    }
  }

  /** `#include\s*<([^>]+)>` or `#include\s*"([^"]+)"` at `i`; the first
      alternative is tried first, and at most one can apply. */
  function IncludeAt(s: string, i: nat): (r: Option<Match>)
    requires i <= |s|
    ensures r.Some? ==> r.value.start == i && i < r.value.end <= |s|
  {
    if !HasAt(s, i, "#include") then None
    else DelimitedAt(s, i, RunEnd(s, i + 8, Space))
  }

  /** The delimited name of an include directive starting at `i` whose
      opening `<` or `"` is expected at `k`. */
  function DelimitedAt(s: string, i: nat, k: nat): (r: Option<Match>)
    requires i < k <= |s|
    ensures r.Some? ==> r.value.start == i && k < r.value.end <= |s|
  {
    if k == |s| || (s[k] != '<' && s[k] != '"') then None
    else
      var close := if s[k] == '<' then '>' else '"';
      var e := RunEnd(s, k + 1, Except(close));
      if e == |s| || e == k + 1 then None
      else Some(Match(i, e + 1, s[k + 1..e]))
  }

  /** `\/\/ .globl\s(\w*)` at `i`: the unescaped `.` accepts any character
      but a line break, `\s` is exactly one space character, and the group
      is the (possibly empty) run of word characters that follows. */
  function GloblAt(s: string, i: nat): (r: Option<Match>)
    requires i <= |s|
    ensures r.Some? ==> r.value.start == i && i < r.value.end <= |s|
  {
    if HasAt(s, i, "// ") && i + 10 <= |s| && !IsLineBreak(s[i + 3])
       && HasAt(s, i + 4, "globl") && IsSpace(s[i + 9])
    then
      var e := RunEnd(s, i + 10, Word);
      Some(Match(i, e, s[i + 10..e]))
    else None
  }

  /** The group of a keyed option is a whole non-empty token. */
  lemma KeyedTokenIsToken(s: string, i: nat, key: string)
    requires i <= |s| && KeyedTokenAt(s, i, key).Some?
    ensures var c := KeyedTokenAt(s, i, key).value.capture;
      c != [] && forall t :: 0 <= t < |c| ==> !IsSpace(c[t])
  {
    var k := RunEnd(s, i + |key|, Space);
    RunEndSpan(s, k, NonSpace);
  }

  /** The group of a marker is made of word characters only. */
  lemma GloblIsWord(s: string, i: nat)
    requires i <= |s| && GloblAt(s, i).Some?
    ensures var c := GloblAt(s, i).value.capture;
      forall t :: 0 <= t < |c| ==> IsWordChar(c[t])
  {
    RunEndSpan(s, i + 10, Word);
  }

  /** `-GPUInfo(\s|$)` at `i`: the flag and one following space, or the
      flag at the very end. */
  function GpuFlagAt(s: string, i: nat): (r: Option<Match>)
    requires i <= |s|
    ensures r.Some? ==> r.value.start == i && i < r.value.end <= |s|
  {
    if !HasAt(s, i, "-GPUInfo") then None
    else if i + 8 < |s| && IsSpace(s[i + 8]) then Some(Match(i, i + 9, ""))
    else if i + 8 == |s| then Some(Match(i, i + 8, ""))
    else None
  }

  /** `//.*` at `i`: up to, not including, the next line break. */
  function LineCommentAt(s: string, i: nat): (r: Option<Match>)
    requires i <= |s|
    ensures r.Some? ==> r.value.start == i && i < r.value.end <= |s|
  {
    if HasAt(s, i, "//") then Some(Match(i, RunEnd(s, i + 2, NotLineBreak), "")) else None
  }

  /** `/\*[\s\S]*?\*` + `/` at `i`: lazily, up to the first closer after the opener. */
  function BlockCommentAt(s: string, i: nat): (r: Option<Match>)
    requires i <= |s|
    ensures r.Some? ==> r.value.start == i && i < r.value.end <= |s|
  {
    if !HasAt(s, i, "/*") then None
    else
      match FindCloser(s, i + 2)
      case None => None
      case Some(j) => Some(Match(i, j + 2, ""))
  }

  /** The match of pattern `p` that begins at position `i`, if any. */
  function MatchAt(p: Pattern, s: string, i: nat): (r: Option<Match>)
    requires i <= |s|
    ensures r.Some? ==> r.value.start == i && i < r.value.end <= |s|
  {
    match p
    case GpuInfoFlag => GpuFlagAt(s, i)
    case CompilerOption => KeyedTokenAt(s, i, "-co")
    case CudaPathOption => KeyedTokenAt(s, i, "-cudaPath")
    case IncludeDirective => IncludeAt(s, i)
    case GloblMarker => GloblAt(s, i)
    case LineComment => LineCommentAt(s, i)
    case BlockComment => BlockCommentAt(s, i)
  }

  /** MatchAt at every position of `s`, the end position included. The
      search machinery below works on such a table, so that its lemmas hold
      for every pattern alike; TableAt reads one entry back. */
  function MatchTable(p: Pattern, s: string): (t: seq<Option<Match>>)
    ensures |t| == |s| + 1 && WellFormed(t)
  {
    TableFrom(p, s, 0)
  }

  function TableFrom(p: Pattern, s: string, j: nat): (t: seq<Option<Match>>)
    requires j <= |s| + 1
    ensures |t| == |s| + 1 - j
    ensures forall k :: 0 <= k < |t| && t[k].Some? ==> t[k].value.start == j + k && j + k < t[k].value.end <= |s|
    decreases |s| + 1 - j
  {
    if j == |s| + 1 then [] else [MatchAt(p, s, j)] + TableFrom(p, s, j + 1)
  }

  lemma {:induction false} TableFromAt(p: Pattern, s: string, j: nat, k: nat)
    requires j <= k <= |s|
    ensures TableFrom(p, s, j)[k - j] == MatchAt(p, s, k)
    decreases k - j
  {
    if j < k {
      TableFromAt(p, s, j + 1, k);
    }
  }

  /** The table holds the match at each position. */
  lemma TableAt(p: Pattern, s: string, j: nat)
    requires j <= |s|
    ensures MatchTable(p, s)[j] == MatchAt(p, s, j)
  {
    TableFromAt(p, s, 0, j);
  }

  lemma TableAll(p: Pattern, s: string)
    ensures forall j :: 0 <= j <= |s| ==> MatchTable(p, s)[j] == MatchAt(p, s, j)
  {
    forall j | 0 <= j <= |s| ensures MatchTable(p, s)[j] == MatchAt(p, s, j) {
      TableAt(p, s, j);
    }
  }

  /** Every entry is a non-empty match beginning at its own position. */
  predicate WellFormed(t: seq<Option<Match>>) {
    forall j :: 0 <= j < |t| && t[j].Some? ==> t[j].value.start == j && j < t[j].value.end < |t|
  }

  /** std::regex_search from `from`: the leftmost match. */
  function Search(t: seq<Option<Match>>, from: nat): (r: Option<Match>)
    requires WellFormed(t) && from < |t|
    ensures r.Some? ==> from <= r.value.start < |t| && t[r.value.start] == r
    ensures r.Some? ==> forall j :: from <= j < r.value.start ==> t[j].None?
    ensures r.None? ==> forall j :: from <= j < |t| ==> t[j].None?
    decreases |t| - from
  {
    if t[from].Some? then t[from]
    else if from == |t| - 1 then None
    else Search(t, from + 1)
  }

  /** The leftmost match is the first position that matches. */
  lemma {:induction false} SearchFinds(t: seq<Option<Match>>, from: nat, i: nat)
    requires WellFormed(t) && from <= i < |t| && t[i].Some?
    requires forall j :: from <= j < i ==> t[j].None?
    ensures Search(t, from) == t[i]
    decreases i - from
  {
    if from < i {
      SearchFinds(t, from + 1, i);
    }
  }

  /** std::sregex_iterator from `from`: every match, left to right, the
      scan resuming where the previous match ended, and moving on by one
      character where nothing matches. */
  function AllMatches(t: seq<Option<Match>>, from: nat): seq<Match>
    requires WellFormed(t) && from < |t|
    decreases |t| - from
  {
    match t[from]
    case Some(m) => [m] + AllMatches(t, m.end)
    case None => if from + 1 == |t| then [] else AllMatches(t, from + 1)
  }

  /** The first group of every match. */
  function Captures(ms: seq<Match>): (r: seq<string>)
    ensures |r| == |ms| && forall k :: 0 <= k < |ms| ==> r[k] == ms[k].capture
  {
    if ms == [] then [] else [ms[0].capture] + Captures(ms[1..])
  }

  lemma CapturesCons(m: Match, ms: seq<Match>)
    ensures Captures([m] + ms) == [m.capture] + Captures(ms)
  {
    assert ([m] + ms)[1..] == ms;
  }

  /** std::regex_replace(s[from..], p, ""): every character where no match
      begins is copied, every match is skipped as a whole. */
  function RemoveMatches(t: seq<Option<Match>>, s: string, from: nat): string
    requires WellFormed(t) && |t| == |s| + 1 && from <= |s|
    decreases |s| - from
  {
    if from == |s| then []
    else
      match t[from]
      case Some(m) => RemoveMatches(t, s, m.end)
      case None => [s[from]] + RemoveMatches(t, s, from + 1)
  }

  /** Enumeration is repeated leftmost search: the first match is the one
      std::regex_search finds, and the next search starts at its end. */
  lemma {:induction false} AllMatchesSearch(t: seq<Option<Match>>, from: nat)
    requires WellFormed(t) && from < |t|
    ensures AllMatches(t, from) == match Search(t, from) case None => [] case Some(m) => [m] + AllMatches(t, m.end)
    decreases |t| - from
  {
    if t[from].None? && from + 1 < |t| {
      AllMatchesSearch(t, from + 1);
    }
  }

  /** The groups of the enumeration, one search at a time. */
  lemma CapturesSearch(t: seq<Option<Match>>, from: nat)
    requires WellFormed(t) && from < |t|
    ensures Search(t, from).None? ==> Captures(AllMatches(t, from)) == []
    ensures Search(t, from).Some? ==> var m := Search(t, from).value;
      from < m.end < |t| &&
      Captures(AllMatches(t, from)) == [m.capture] + Captures(AllMatches(t, m.end))
  {
    AllMatchesSearch(t, from);
    if Search(t, from).Some? {
      var m := Search(t, from).value;
      CapturesCons(m, AllMatches(t, m.end));
    }
  }

  /** Deletion keeps the text up to the leftmost match and goes on after it. */
  lemma RemoveMatchesSearch(t: seq<Option<Match>>, s: string, from: nat)
    requires WellFormed(t) && |t| == |s| + 1 && from <= |s|
    ensures Search(t, from).None? ==> RemoveMatches(t, s, from) == s[from..]
    ensures Search(t, from).Some? ==> var m := Search(t, from).value;
      RemoveMatches(t, s, from) == s[from..m.start] + RemoveMatches(t, s, m.end)
  {
    if Search(t, from).None? {
      NoMatchesUnchanged(t, s, from);
    } else {
      var m := Search(t, from).value;
      KeepUntil(t, s, from, m.start);
    }
  }

  /** Characters where no match begins are copied one by one. */
  lemma {:induction false} KeepUntil(t: seq<Option<Match>>, s: string, from: nat, i: nat)
    requires WellFormed(t) && |t| == |s| + 1 && from <= i <= |s|
    requires forall j :: from <= j < i ==> t[j].None?
    ensures RemoveMatches(t, s, from) == s[from..i] + RemoveMatches(t, s, i)
    decreases i - from
  {
    if from < i {
      var rest := RemoveMatches(t, s, i);
      assert RemoveMatches(t, s, from) == [s[from]] + RemoveMatches(t, s, from + 1);
      KeepUntil(t, s, from + 1, i);
      assert RemoveMatches(t, s, from + 1) == s[from + 1..i] + rest;
      assert s[from..i] == [s[from]] + s[from + 1..i];
      assert [s[from]] + (s[from + 1..i] + rest) == ([s[from]] + s[from + 1..i]) + rest;
    }
  }

  /** What the iterator yields: each element is the match the table holds
      at its start, ... */
  predicate AreMatches(t: seq<Option<Match>>, ms: seq<Match>) {
    forall k :: 0 <= k < |ms| ==> ms[k].start < |t| && t[ms[k].start] == Some(ms[k])
  }

  /** ... they come in increasing, non-overlapping order from `from` on, and
      no match begins in a gap between them (so none is skipped). */
  predicate Gaps(t: seq<Option<Match>>, from: nat, ms: seq<Match>)
    decreases |ms|
  {
    if ms == [] then forall j :: from <= j < |t| ==> t[j].None?
    else
      && from <= ms[0].start
      && (forall j :: from <= j < ms[0].start && j < |t| ==> t[j].None?)
      && Gaps(t, ms[0].end, ms[1..])
  }

  predicate IsScan(t: seq<Option<Match>>, from: nat, ms: seq<Match>) {
    AreMatches(t, ms) && Gaps(t, from, ms)
  }

  /** AllMatches is exactly the non-overlapping leftmost enumeration. */
  lemma {:induction false} AllMatchesIsScan(t: seq<Option<Match>>, from: nat)
    requires WellFormed(t) && from < |t|
    ensures IsScan(t, from, AllMatches(t, from))
    decreases |t| - from
  {
    match t[from]
    case None =>
      if from + 1 < |t| {
        AllMatchesIsScan(t, from + 1);
      }
    case Some(m) =>
      AllMatchesIsScan(t, m.end);
      var rest := AllMatches(t, m.end);
      assert AllMatches(t, from) == [m] + rest;
      assert ([m] + rest)[1..] == rest;
  }

  /** A position where nothing matches can be skipped. */
  lemma SkipNoMatch(t: seq<Option<Match>>, s: string, from: nat)
    requires WellFormed(t) && |t| == |s| + 1 && from < |s| && t[from].None?
    ensures AllMatches(t, from) == AllMatches(t, from + 1)
    ensures RemoveMatches(t, s, from) == [s[from]] + RemoveMatches(t, s, from + 1)
  {
  }

  /** A match at the scan position is the first one enumerated. */
  lemma TakeMatch(t: seq<Option<Match>>, s: string, from: nat)
    requires WellFormed(t) && |t| == |s| + 1 && from <= |s| && t[from].Some?
    ensures AllMatches(t, from) == [t[from].value] + AllMatches(t, t[from].value.end)
    ensures RemoveMatches(t, s, from) == RemoveMatches(t, s, t[from].value.end)
  {
  }

  /** A text in which no match begins is left alone by the deletion and
      yields no matches. */
  lemma {:induction false} NoMatchesUnchanged(t: seq<Option<Match>>, s: string, from: nat)
    requires WellFormed(t) && |t| == |s| + 1 && from <= |s|
    requires forall j :: from <= j <= |s| ==> t[j].None?
    ensures RemoveMatches(t, s, from) == s[from..]
    ensures AllMatches(t, from) == []
    decreases |s| - from
  {
    if from < |s| {
      NoMatchesUnchanged(t, s, from + 1);
      assert s[from..] == [s[from]] + s[from + 1..];
    }
  }

  // Locality: every pattern looks only to the right of where it starts, so
  // a suffix of a text is scanned as if it stood alone.

  function Shift(r: Option<Match>, d: nat): Option<Match> {
    match r
    case None => None
    case Some(m) => Some(Match(m.start + d, m.end + d, m.capture))
  }

  lemma HasAtSuffix(s: string, i: nat, j: nat, w: string)
    requires i + j <= |s|
    ensures HasAt(s, i + j, w) == HasAt(s[i..], j, w)
  {
    if i + j + |w| <= |s| {
      assert s[i + j..i + j + |w|] == s[i..][j..j + |w|];
    }
  }

  lemma {:induction false} RunEndSuffix(s: string, i: nat, j: nat, k: CharClass)
    requires i + j <= |s|
    ensures RunEnd(s, i + j, k) == i + RunEnd(s[i..], j, k)
    decreases |s| - (i + j)
  {
    if i + j < |s| {
      assert s[i + j] == s[i..][j];
      if InClass(s[i + j], k) {
        RunEndSuffix(s, i, j + 1, k);
      }
    }
  }

  lemma {:induction false} FindCloserSuffix(s: string, i: nat, j: nat)
    requires i + j <= |s|
    ensures FindCloser(s, i + j) == (match FindCloser(s[i..], j) case None => None case Some(c) => Some(c + i))
    decreases |s| - (i + j)
  {
    HasAtSuffix(s, i, j, "*/");
    if !HasAt(s, i + j, "*/") && i + j < |s| {
      FindCloserSuffix(s, i, j + 1);
    }
  }

  lemma MatchAtSuffix(p: Pattern, s: string, i: nat, j: nat)
    requires i + j <= |s|
    ensures MatchAt(p, s, i + j) == Shift(MatchAt(p, s[i..], j), i)
  {
    match p
    case GpuInfoFlag => GpuFlagSuffix(s, i, j);
    case CompilerOption => KeyedTokenSuffix(s, i, j, "-co");
    case CudaPathOption => KeyedTokenSuffix(s, i, j, "-cudaPath");
    case IncludeDirective => IncludeSuffix(s, i, j);
    case GloblMarker => GloblSuffix(s, i, j);
    case LineComment => LineCommentSuffix(s, i, j);
    case BlockComment => BlockCommentSuffix(s, i, j);
  }

  lemma GpuFlagSuffix(s: string, i: nat, j: nat)
    requires i + j <= |s|
    ensures GpuFlagAt(s, i + j) == Shift(GpuFlagAt(s[i..], j), i)
  {
    HasAtSuffix(s, i, j, "-GPUInfo");
    if i + j + 8 < |s| {
      assert s[i + j + 8] == s[i..][j + 8];
    }
  }

  lemma GloblSuffix(s: string, i: nat, j: nat)
    requires i + j <= |s|
    ensures GloblAt(s, i + j) == Shift(GloblAt(s[i..], j), i)
  {
    var u := s[i..];
    var a := i + j;
    HasAtSuffix(s, i, j, "// ");
    if a + 10 <= |s| {
      HasAtSuffix(s, i, j + 4, "globl");
      assert s[a + 3] == u[j + 3] && s[a + 9] == u[j + 9];
      if HasAt(u, j, "// ") && !IsLineBreak(u[j + 3]) && HasAt(u, j + 4, "globl") && IsSpace(u[j + 9]) {
        GloblTailSuffix(s, i, j + 10);
      }
    }
  }

  lemma GloblTailSuffix(s: string, i: nat, k: nat)
    requires i + k <= |s|
    ensures var e := RunEnd(s[i..], k, Word);
      RunEnd(s, i + k, Word) == i + e && s[i + k..i + e] == s[i..][k..e]
  {
    RunEndSuffix(s, i, k, Word);
  }

  lemma LineCommentSuffix(s: string, i: nat, j: nat)
    requires i + j <= |s|
    ensures LineCommentAt(s, i + j) == Shift(LineCommentAt(s[i..], j), i)
  {
    HasAtSuffix(s, i, j, "//");
    if HasAt(s, i + j, "//") {
      RunEndSuffix(s, i, j + 2, NotLineBreak);
    }
  }

  lemma BlockCommentSuffix(s: string, i: nat, j: nat)
    requires i + j <= |s|
    ensures BlockCommentAt(s, i + j) == Shift(BlockCommentAt(s[i..], j), i)
  {
    HasAtSuffix(s, i, j, "/*");
    if HasAt(s, i + j, "/*") {
      FindCloserSuffix(s, i, j + 2);
    }
  }

  lemma KeyedTokenSuffix(s: string, i: nat, j: nat, key: string)
    requires i + j <= |s|
    ensures KeyedTokenAt(s, i + j, key) == Shift(KeyedTokenAt(s[i..], j, key), i)
  {
    HasAtSuffix(s, i, j, key);
    if HasAt(s, i + j, key) {
      RunEndSuffix(s, i, j + |key|, Space);
      TokenAfterSuffix(s, i, j, j + |key|, RunEnd(s[i..], j + |key|, Space));
    }
  }

  lemma TokenAfterSuffix(s: string, i: nat, j: nat, p: nat, k: nat)
    requires j <= p <= k && i + k <= |s|
    ensures TokenAfter(s, i + j, i + p, i + k) == Shift(TokenAfter(s[i..], j, p, k), i)
  {
    if i + k < |s| {
      assert s[i + k] == s[i..][k];
      RunEndSuffix(s, i, k, NonSpace);
      var e := RunEnd(s[i..], k, NonSpace);
      assert s[i + k..i + e] == s[i..][k..e];
    }
  }

  lemma IncludeSuffix(s: string, i: nat, j: nat)
    requires i + j <= |s|
    ensures IncludeAt(s, i + j) == Shift(IncludeAt(s[i..], j), i)
  {
    HasAtSuffix(s, i, j, "#include");
    if HasAt(s, i + j, "#include") {
      RunEndSuffix(s, i, j + 8, Space);
      DelimitedSuffix(s, i, j, RunEnd(s[i..], j + 8, Space));
    }
  }

  lemma DelimitedSuffix(s: string, i: nat, j: nat, k: nat)
    requires j < k && i + k <= |s|
    ensures DelimitedAt(s, i + j, i + k) == Shift(DelimitedAt(s[i..], j, k), i)
  {
    var u := s[i..];
    if k < |u| {
      assert s[i + k] == u[k];
      if u[k] == '<' || u[k] == '"' {
        var close := if u[k] == '<' then '>' else '"';
        RunEndSuffix(s, i, k + 1, Except(close));
        var e := RunEnd(u, k + 1, Except(close));
        if e < |u| && e != k + 1 {
          assert s[i + k + 1..i + e] == u[k + 1..e];
        }
      }
    }
  }

  /** Table `t` of a text holds, from `i` on, the entries of table `u` of
      the text's suffix at `i`, relocated. */
  predicate Shifted(t: seq<Option<Match>>, u: seq<Option<Match>>, i: nat) {
    |t| == |u| + i && forall j {:trigger u[j]} :: 0 <= j < |u| ==> t[i + j] == Shift(u[j], i)
  }

  lemma {:induction false} CapturesShifted(t: seq<Option<Match>>, u: seq<Option<Match>>, i: nat, j: nat)
    requires WellFormed(t) && WellFormed(u) && Shifted(t, u, i) && j < |u|
    ensures Captures(AllMatches(t, i + j)) == Captures(AllMatches(u, j))
    decreases |u| - j
  {
    assert t[i + j] == Shift(u[j], i);
    if u[j].Some? {
      var m := u[j].value;
      var n := t[i + j].value;
      assert AllMatches(t, i + j) == [n] + AllMatches(t, n.end);
      assert AllMatches(u, j) == [m] + AllMatches(u, m.end);
      CapturesShifted(t, u, i, m.end);
      CapturesCons(n, AllMatches(t, n.end));
      CapturesCons(m, AllMatches(u, m.end));
    } else if j + 1 < |u| {
      assert Search(t, i + j) == Search(t, i + j + 1);
      assert Search(u, j) == Search(u, j + 1);
      CapturesShifted(t, u, i, j + 1);
    } else {
      assert Search(t, i + j).None?;
    }
  }

  lemma {:induction false} RemoveShifted(t: seq<Option<Match>>, u: seq<Option<Match>>, s: string, i: nat, j: nat)
    requires WellFormed(t) && WellFormed(u) && |t| == |s| + 1 && Shifted(t, u, i) && j < |u|
    ensures RemoveMatches(t, s, i + j) == RemoveMatches(u, s[i..], j)
    decreases |u| - j
  {
    var w := s[i..];
    assert t[i + j] == Shift(u[j], i);
    if u[j].Some? {
      var m := u[j].value;
      TakeMatch(t, s, i + j);
      TakeMatch(u, w, j);
      RemoveShifted(t, u, s, i, m.end);
      assert RemoveMatches(t, s, i + j) == RemoveMatches(u, w, j);
    } else if j + 1 < |u| {
      assert s[i + j] == w[j];
      SkipNoMatch(t, s, i + j);
      SkipNoMatch(u, w, j);
      RemoveShifted(t, u, s, i, j + 1);
      assert RemoveMatches(t, s, i + j) == RemoveMatches(u, w, j);
    } else {
      NoMatchesUnchanged(t, s, i + j);
      NoMatchesUnchanged(u, w, j);
      assert RemoveMatches(t, s, i + j) == [] == RemoveMatches(u, w, j);
    }
  }

  lemma TableSuffix(p: Pattern, s: string, i: nat)
    requires i <= |s|
    ensures Shifted(MatchTable(p, s), MatchTable(p, s[i..]), i)
  {
    forall j | 0 <= j < |s| - i + 1
      ensures MatchTable(p, s)[i + j] == Shift(MatchTable(p, s[i..])[j], i)
    {
      TableAt(p, s, i + j);
      TableAt(p, s[i..], j);
      MatchAtSuffix(p, s, i, j);
    }
  }

  /** A suffix of a text is scanned as the whole text is from that point on:
      the same groups, and the deletion keeps the same characters. */
  lemma ScanSuffix(p: Pattern, s: string, i: nat)
    requires i <= |s|
    ensures Captures(AllMatches(MatchTable(p, s), i)) == Captures(AllMatches(MatchTable(p, s[i..]), 0))
    ensures RemoveMatches(MatchTable(p, s), s, i) == RemoveMatches(MatchTable(p, s[i..]), s[i..], 0)
  {
    TableSuffix(p, s, i);
    CapturesShifted(MatchTable(p, s), MatchTable(p, s[i..]), i, 0);
    RemoveShifted(MatchTable(p, s), MatchTable(p, s[i..]), s, i, 0);
  }

  /** A text that begins with one whole match `w`: the match comes first,
      and the scan goes on in what follows as if it stood alone. */
  lemma MatchThenRest(p: Pattern, w: string, cap: string, rest: string)
    requires MatchAt(p, w + rest, 0) == Some(Match(0, |w|, cap))
    ensures Captures(AllMatches(MatchTable(p, w + rest), 0)) == [cap] + Captures(AllMatches(MatchTable(p, rest), 0))
    ensures RemoveMatches(MatchTable(p, w + rest), w + rest, 0) == RemoveMatches(MatchTable(p, rest), rest, 0)
  {
    var s := w + rest;
    var t := MatchTable(p, s);
    TableAt(p, s, 0);
    TakeMatch(t, s, 0);
    CapturesCons(Match(0, |w|, cap), AllMatches(t, |w|));
    ScanSuffix(p, s, |w|);
    assert s[|w|..] == rest;
  }

  /** A text that begins with a character where nothing matches: that
      character is kept and the scan goes on in what follows. */
  lemma NoMatchThenRest(p: Pattern, c: char, rest: string)
    requires MatchAt(p, [c] + rest, 0).None?
    ensures Captures(AllMatches(MatchTable(p, [c] + rest), 0)) == Captures(AllMatches(MatchTable(p, rest), 0))
    ensures RemoveMatches(MatchTable(p, [c] + rest), [c] + rest, 0) == [c] + RemoveMatches(MatchTable(p, rest), rest, 0)
  {
    var s := [c] + rest;
    var t := MatchTable(p, s);
    TableAt(p, s, 0);
    SkipNoMatch(t, s, 0);
    ScanSuffix(p, s, 1);
    assert s[1..] == rest;
  }

  /** A text that begins with a stretch where no match starts: the stretch
      is kept and contributes no group. */
  lemma NoMatchPrefix(p: Pattern, a: string, rest: string)
    requires forall i :: 0 <= i < |a| ==> MatchAt(p, a + rest, i).None?
    ensures Captures(AllMatches(MatchTable(p, a + rest), 0)) == Captures(AllMatches(MatchTable(p, rest), 0))
    ensures RemoveMatches(MatchTable(p, a + rest), a + rest, 0) == a + RemoveMatches(MatchTable(p, rest), rest, 0)
  {
    NoMatchPrefixCaptures(p, a, rest);
    NoMatchPrefixRemove(p, a, rest);
  }

  lemma {:induction false} NoMatchPrefixCaptures(p: Pattern, a: string, rest: string)
    requires forall i :: 0 <= i < |a| ==> MatchAt(p, a + rest, i).None?
    ensures Captures(AllMatches(MatchTable(p, a + rest), 0)) == Captures(AllMatches(MatchTable(p, rest), 0))
    decreases |a|
  {
    if a == [] {
      assert a + rest == rest;
    } else {
      var tail := a[1..] + rest;
      assert a + rest == [a[0]] + tail;
      NoMatchTail(p, a, rest);
      NoMatchThenRest(p, a[0], tail);
      NoMatchPrefixCaptures(p, a[1..], rest);
    }
  }

  lemma {:induction false} NoMatchPrefixRemove(p: Pattern, a: string, rest: string)
    requires forall i :: 0 <= i < |a| ==> MatchAt(p, a + rest, i).None?
    ensures RemoveMatches(MatchTable(p, a + rest), a + rest, 0) == a + RemoveMatches(MatchTable(p, rest), rest, 0)
    decreases |a|
  {
    if a == [] {
      assert a + rest == rest;
    } else {
      var tail := a[1..] + rest;
      assert a + rest == [a[0]] + tail;
      NoMatchTail(p, a, rest);
      NoMatchThenRest(p, a[0], tail);
      NoMatchPrefixRemove(p, a[1..], rest);
      assert a == [a[0]] + a[1..];
    }
  }

  lemma NoMatchTail(p: Pattern, a: string, rest: string)
    requires a != [] && forall i :: 0 <= i < |a| ==> MatchAt(p, a + rest, i).None?
    ensures forall i :: 0 <= i < |a[1..]| ==> MatchAt(p, a[1..] + rest, i).None?
  {
    var s := a + rest;
    assert s[1..] == a[1..] + rest;
    forall i | 0 <= i < |a| - 1 ensures MatchAt(p, a[1..] + rest, i).None? {
      MatchAtSuffix(p, s, 1, i);
    }
  }
}
