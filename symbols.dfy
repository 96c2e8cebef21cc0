/** Kernel symbols read off the PTX text (src/xmagics/nvrtc.cpp,
    extractFunctionNames): the word after every `// .globl` marker. */
module Symbols {
  import opened Wrappers
  import opened Text
  import opened Patterns

  /** One entry per non-overlapping marker, in the order of the text,
      duplicates and empty names kept. */
  function ExtractFunctionNames(ptx: string): seq<string> {
    Captures(AllMatches(MatchTable(GloblMarker, ptx), 0))
  }

  predicate IsWord(n: string) {
    forall t :: 0 <= t < |n| ==> IsWordChar(n[t])
  }

  /** Every extracted name consists of word characters only (it may be empty). */
  lemma NamesAreWords(ptx: string)
    ensures forall k :: 0 <= k < |ExtractFunctionNames(ptx)| ==> IsWord(ExtractFunctionNames(ptx)[k])
  {
    var t := MatchTable(GloblMarker, ptx);
    var ms := AllMatches(t, 0);
    AllMatchesIsScan(t, 0);
    forall k | 0 <= k < |ms| ensures IsWord(ms[k].capture) {
      TableAt(GloblMarker, ptx, ms[k].start);
      GloblIsWord(ptx, ms[k].start);
    }
  }

  /** A marker: `// `, any character but a line break, `globl`, one space
      character, then the name. */
  function Marker(c: char, sp: char, name: string): string {
    "// " + [c] + "globl" + [sp] + name
  }

  /** The marker at the front of a text matches as a whole when no word
      character follows the name. */
  lemma MarkerHere(c: char, sp: char, name: string, rest: string)
    requires !IsLineBreak(c) && IsSpace(sp) && IsWord(name)
    requires rest == [] || !IsWordChar(rest[0])
    ensures MatchAt(GloblMarker, Marker(c, sp, name) + rest, 0) == Some(Match(0, |Marker(c, sp, name)|, name))
  {
    var w := Marker(c, sp, name);
    var s := w + rest;
    assert HasAt(s, 0, "// ") by {
      assert s[..3] == "// ";
    }
    assert HasAt(s, 4, "globl") by {
      assert s[4..9] == "globl";
    }
    assert s[3] == c && s[9] == sp;
    forall t | 10 <= t < |w| ensures InClass(s[t], Word) {
      assert s[t] == name[t - 10];
    }
    if rest != [] {
      assert s[|w|] == rest[0];
    }
    RunEndIs(s, 10, Word, |w|);
    assert s[10..|w|] == name;
  }

  /** Reading one marker off the front of the text. */
  lemma MarkerRead(c: char, sp: char, name: string, rest: string)
    requires !IsLineBreak(c) && IsSpace(sp) && IsWord(name)
    requires rest == [] || !IsWordChar(rest[0])
    ensures ExtractFunctionNames(Marker(c, sp, name) + rest) == [name] + ExtractFunctionNames(rest)
  {
    MarkerHere(c, sp, name, rest);
    MatchThenRest(GloblMarker, Marker(c, sp, name), name, rest);
  }

  /** Text without a `/` contributes no name. */
  lemma PlainTextSkipped(a: string, rest: string)
    requires forall k :: 0 <= k < |a| ==> a[k] != '/'
    ensures ExtractFunctionNames(a + rest) == ExtractFunctionNames(rest)
  {
    forall i | 0 <= i < |a| ensures MatchAt(GloblMarker, a + rest, i).None? {
      NotAt(a + rest, i, "// ");
    }
    NoMatchPrefix(GloblMarker, a, rest);
  }

  lemma ExtractEmpty()
    ensures ExtractFunctionNames("") == []
  {
    TableAt(GloblMarker, "", 0);
    NoMatchesUnchanged(MatchTable(GloblMarker, ""), "", 0);
  }

  /** A PTX text with one `// .globl <name>` line per name. */
  function MarkerLines(names: seq<string>): string {
    if names == [] then "" else Marker('.', ' ', names[0]) + "\n" + MarkerLines(names[1..])
  }

  /** Round trip: the names written one marker per line are read back in
      order, repeated and empty names included. */
  lemma {:induction false} MarkerLinesRoundTrip(names: seq<string>)
    requires forall k :: 0 <= k < |names| ==> IsWord(names[k])
    ensures ExtractFunctionNames(MarkerLines(names)) == names
    decreases |names|
  {
    if names == [] {
      ExtractEmpty();
    } else {
      var more := MarkerLines(names[1..]);
      assert MarkerLines(names) == Marker('.', ' ', names[0]) + ("\n" + more);
      MarkerRead('.', ' ', names[0], "\n" + more);
      PlainTextSkipped("\n", more);
      MarkerLinesRoundTrip(names[1..]);
      assert names == [names[0]] + names[1..];
    }
  }
}
