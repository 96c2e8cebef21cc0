/** Comment stripping before include discovery (src/xmagics/nvrtc.cpp,
    removeComments): first every `//` comment is deleted, then every block
    comment of what is left. */
module Comments {
  import opened Wrappers
  import opened Text
  import opened Patterns

  /** The first pass: `//.*` replaced by nothing. */
  function RemoveLineComments(code: string): string {
    RemoveMatches(MatchTable(LineComment, code), code, 0)
  }

  /** The second pass: lazy block comments replaced by nothing. */
  function RemoveBlockComments(code: string): string {
    RemoveMatches(MatchTable(BlockComment, code), code, 0)
  }

  /** removeComments: line comments first, block comments of the result. */
  function RemoveComments(code: string): (r: string)
    ensures |r| <= |code|
  {
    RemoveLengthBound(MatchTable(LineComment, code), code, 0);
    var x := RemoveLineComments(code);
    RemoveLengthBound(MatchTable(BlockComment, x), x, 0);
    RemoveBlockComments(x)
  }

  /** Deletion never lengthens a text. */
  lemma {:induction false} RemoveLengthBound(t: seq<Option<Match>>, s: string, from: nat)
    requires WellFormed(t) && |t| == |s| + 1 && from <= |s|
    ensures |RemoveMatches(t, s, from)| <= |s| - from
    decreases |s| - from
  {
    if from < |s| {
      match t[from]
      case None => RemoveLengthBound(t, s, from + 1);
      case Some(m) => RemoveLengthBound(t, s, m.end);
    }
  }

  /** The two characters `a` and `b` never stand side by side in `s`. */
  predicate NoPair(s: string, a: char, b: char) {
    forall k :: 0 <= k && k + 1 < |s| ==> !(s[k] == a && s[k + 1] == b)
  }

  /** Text in which no comment can open, and which does not end in a `/`
      that could open one with what follows. */
  predicate OpenerFree(a: string) {
    NoPair(a, '/', '/') && NoPair(a, '/', '*') && (a == [] || a[|a| - 1] != '/')
  }

  /** A block comment needs a slash followed by a star. */
  lemma NoBlockOpenerAt(s: string, i: nat)
    requires i < |s|
    requires s[i] != '/' || i + 1 == |s| || s[i + 1] != '*'
    ensures MatchAt(BlockComment, s, i).None?
  {
    if i + 2 <= |s| {
      assert s[i..i + 2][0] == s[i] && s[i..i + 2][1] == s[i + 1];
    }
  }

  /** A line comment needs two slashes in a row. */
  lemma SlashPairAt(s: string, i: nat)
    requires i < |s|
    requires s[i] != '/' || i + 1 == |s| || s[i + 1] != '/'
    ensures MatchAt(LineComment, s, i).None?
  {
    if i + 2 <= |s| {
      assert s[i..i + 2][0] == s[i] && s[i..i + 2][1] == s[i + 1];
    }
  }

  /** Text in which no comment opens, in front of the rest, is kept as it
      is; a lone `/` (a path separator, say) opens nothing. */
  lemma PlainPrefixKept(a: string, rest: string)
    requires OpenerFree(a)
    ensures RemoveComments(a + rest) == a + RemoveComments(rest)
  {
    forall i | 0 <= i < |a| ensures MatchAt(LineComment, a + rest, i).None? {
      var s := a + rest;
      assert s[i] == a[i];
      if i + 1 < |a| {
        assert s[i + 1] == a[i + 1];
      }
      SlashPairAt(s, i);
    }
    NoMatchPrefix(LineComment, a, rest);
    var x := RemoveLineComments(rest);
    forall i | 0 <= i < |a| ensures MatchAt(BlockComment, a + x, i).None? {
      var s := a + x;
      assert s[i] == a[i];
      if i + 1 < |a| {
        assert s[i + 1] == a[i + 1];
      }
      NoBlockOpenerAt(s, i);
    }
    NoMatchPrefix(BlockComment, a, x);
  }

  lemma RemoveCommentsEmpty()
    ensures RemoveComments("") == ""
  {
    TableAt(LineComment, "", 0);
    NoMatchesUnchanged(MatchTable(LineComment, ""), "", 0);
    TableAt(BlockComment, "", 0);
    NoMatchesUnchanged(MatchTable(BlockComment, ""), "", 0);
  }

  /** Code without any `/` has no comment and is left unchanged. */
  lemma NoSlashUnchanged(code: string)
    requires forall k :: 0 <= k < |code| ==> code[k] != '/'
    ensures RemoveComments(code) == code
  {
    assert OpenerFree(code);
    PlainPrefixKept(code, "");
    RemoveCommentsEmpty();
    assert code + "" == code;
  }

  /** A `//` comment runs to the line break, which is kept. */
  lemma LineCommentDropped(c: string, rest: string)
    requires forall k :: 0 <= k < |c| ==> !IsLineBreak(c[k])
    requires rest == [] || IsLineBreak(rest[0])
    ensures RemoveComments("//" + c + rest) == RemoveComments(rest)
  {
    var w := "//" + c;
    var s := w + rest;
    assert "//" + c + rest == s;
    assert HasAt(s, 0, "//") by {
      assert s[..2] == "//";
    }
    forall t | 2 <= t < |w| ensures InClass(s[t], NotLineBreak) {
      assert s[t] == c[t - 2];
    }
    if rest != [] {
      assert s[|w|] == rest[0];
    }
    RunEndIs(s, 2, NotLineBreak, |w|);
    MatchThenRest(LineComment, w, "", rest);
  }

  /** An opener, a body and a closer: the block comment goes as a whole,
      unless the body holds a closer of its own, or a `//` the line pass
      cuts it at, or the closer's `/` starts a `//` with what follows. */
  lemma BlockCommentDropped(c: string, rest: string)
    requires NoPair(c, '/', '/') && NoPair(c, '*', '/')
    requires rest == [] || rest[0] != '/'
    ensures RemoveComments("/*" + c + "*/" + rest) == RemoveComments(rest)
  {
    var w := "/*" + c + "*/";
    var s := w + rest;
    assert "/*" + c + "*/" + rest == s;
    forall i | 0 <= i < |w| ensures MatchAt(LineComment, s, i).None? {
      if i < 2 {
        assert s[1] == '*';
      } else if i + 1 < |c| + 2 {
        assert s[i] == c[i - 2] && s[i + 1] == c[i - 1];
      } else if i == |c| + 1 {
        assert s[i + 1] == '*';
      } else if i == |c| + 2 {
        assert s[i] == '*';
      } else if i + 1 < |s| {
        assert s[i + 1] == rest[0];
      }
      SlashPairAt(s, i);
    }
    NoMatchPrefix(LineComment, w, rest);
    var x := RemoveLineComments(rest);
    BlockCommentHere(c, x);
    MatchThenRest(BlockComment, w, "", x);
  }

  /** The block comment at the front of `"/*" + c + "*/" + x` is exactly that prefix. */
  lemma BlockCommentHere(c: string, x: string)
    requires NoPair(c, '*', '/')
    ensures MatchAt(BlockComment, "/*" + c + "*/" + x, 0) == Some(Match(0, |c| + 4, ""))
  {
    var s := "/*" + c + "*/" + x;
    var e := |c| + 2;
    assert HasAt(s, 0, "/*") by {
      assert s[..2] == "/*";
    }
    assert HasAt(s, e, "*/") by {
      assert s[e..e + 2] == "*/";
    }
    forall t | 2 <= t < e ensures !HasAt(s, t, "*/") {
      if t + 1 < e {
        assert s[t] == c[t - 2] && s[t + 1] == c[t - 1];
      } else {
        assert s[t + 1] == '*';
      }
      assert s[t..t + 2][0] == s[t] && s[t..t + 2][1] == s[t + 1];
    }
    FindCloserIs(s, 2, e);
  }
}
