/** Header discovery of the cell magic (src/xmagics/nvrtc.cpp,
    getIncludePaths and readFileToString), as a function of the file
    system, given as a map from path to content. */
module Includes {
  import opened Wrappers
  import opened Text
  import opened Patterns
  import opened Comments

  /** The header names of the include directives of a text once its
      comments are stripped, in order, repeats kept. */
  function IncludeNames(content: string): seq<string> {
    Captures(AllMatches(MatchTable(IncludeDirective, RemoveComments(content)), 0))
  }

  function Names(s: seq<string>): set<string> {
    set n | n in s
  }

  /** Headers recorded so far, in the order they were first met, and the
      header whose file could not be read, if the walk stopped on one. */
  datatype Discovery = Discovery(found: seq<string>, missing: Option<string>)

  /** Walks the includes of `content` depth first after the headers
      `found`; a header is recorded before its own includes are walked, so
      a header is never walked twice and include cycles end. */
  function Discover(files: map<string, string>, content: string, found: seq<string>): (d: Discovery)
    ensures found <= d.found
    ensures forall k :: |found| <= k < |d.found| ==> d.found[k] in files
    ensures NoDup(found) ==> NoDup(d.found)
    ensures d.missing.Some? ==> d.missing.value !in files && d.missing.value !in found
    decreases files.Keys - Names(found), 1, 0
  {
    DiscoverNames(files, IncludeNames(content), found)
  }

  /** The walk over one file's include names, left to right. */
  function DiscoverNames(files: map<string, string>, names: seq<string>, found: seq<string>): (d: Discovery)
    ensures found <= d.found
    ensures forall k :: |found| <= k < |d.found| ==> d.found[k] in files
    ensures NoDup(found) ==> NoDup(d.found)
    ensures d.missing.Some? ==> d.missing.value !in files && d.missing.value !in found
    decreases files.Keys - Names(found), 0, |names|
  {
    if names == [] then Discovery(found, None)
    else if names[0] in found then DiscoverNames(files, names[1..], found)
    else if names[0] !in files then Discovery(found, Some(names[0]))
    else
      NamesShrink(files, found, found + [names[0]], |found|);
      var inner := Discover(files, files[names[0]], found + [names[0]]);
      if inner.missing.Some? then inner
      else
        NamesGrow(files, found, inner.found);
        DiscoverNames(files, names[1..], inner.found)
  }

  /** One step of the walk over a file's include names. */
  lemma DiscoverNamesCons(files: map<string, string>, n: string, rest: seq<string>, found: seq<string>)
    ensures DiscoverNames(files, [n] + rest, found) ==
      if n in found then DiscoverNames(files, rest, found)
      else if n !in files then Discovery(found, Some(n))
      else
        var inner := Discover(files, files[n], found + [n]);
        if inner.missing.Some? then inner else DiscoverNames(files, rest, inner.found)
  {
    assert ([n] + rest)[0] == n && ([n] + rest)[1..] == rest;
  }

  /** Recording more headers never adds to the files not yet recorded... */
  lemma NamesGrow(files: map<string, string>, a: seq<string>, b: seq<string>)
    requires a <= b
    ensures files.Keys - Names(b) <= files.Keys - Names(a)
  {
    forall n | n in a ensures n in b {
      var k :| 0 <= k < |a| && a[k] == n;
      assert b[k] == n;
    }
  }

  /** ... and recording a new file takes it away. */
  lemma NamesShrink(files: map<string, string>, a: seq<string>, b: seq<string>, k: nat)
    requires a <= b && |a| <= k < |b| && b[k] in files && b[k] !in a
    ensures files.Keys - Names(b) < files.Keys - Names(a)
  {
    NamesGrow(files, a, b);
    assert b[k] in files.Keys - Names(a);
  }

  /** Every header recorded from position `from` on is a readable file
      whose own includes are all recorded. */
  predicate IncludesRecorded(files: map<string, string>, fs: seq<string>, from: nat) {
    forall k :: from <= k < |fs| ==> fs[k] in files && forall n :: n in IncludeNames(files[fs[k]]) ==> n in fs
  }

  lemma PrefixHolds(a: seq<string>, b: seq<string>)
    requires a <= b
    ensures forall n :: n in a ==> n in b
  {
    forall n | n in a ensures n in b {
      var k :| 0 <= k < |a| && a[k] == n;
      assert b[k] == n;
    }
  }

  /** Recorded-ness carries over to a longer list of headers. */
  lemma RecordedGrow(files: map<string, string>, a: seq<string>, b: seq<string>, from: nat)
    requires a <= b && IncludesRecorded(files, a, from)
    ensures forall k :: from <= k < |a| ==> b[k] in files && forall n :: n in IncludeNames(files[b[k]]) ==> n in b
  {
    PrefixHolds(a, b);
  }

  /** A walk that ends without a missing header is closed: every include
      of the text and of every header it recorded is recorded. */
  lemma {:induction false} DiscoverClosed(files: map<string, string>, content: string, found: seq<string>)
    requires Discover(files, content, found).missing.None?
    ensures forall n :: n in IncludeNames(content) ==> n in Discover(files, content, found).found
    ensures IncludesRecorded(files, Discover(files, content, found).found, |found|)
    decreases files.Keys - Names(found), 1, 0
  {
    DiscoverNamesClosed(files, IncludeNames(content), found);
  }

  lemma {:induction false} DiscoverNamesClosed(files: map<string, string>, names: seq<string>, found: seq<string>)
    requires DiscoverNames(files, names, found).missing.None?
    ensures forall n :: n in names ==> n in DiscoverNames(files, names, found).found
    ensures IncludesRecorded(files, DiscoverNames(files, names, found).found, |found|)
    decreases files.Keys - Names(found), 0, |names|
  {
    var d := DiscoverNames(files, names, found);
    if names == [] {
    } else if names[0] in found {
      DiscoverNamesClosed(files, names[1..], found);
      PrefixHolds(found, d.found);
      assert names == [names[0]] + names[1..];
    } else {
      var n := names[0];
      var f1 := found + [n];
      NamesShrink(files, found, f1, |found|);
      var inner := Discover(files, files[n], f1);
      DiscoverClosed(files, files[n], f1);
      NamesGrow(files, found, inner.found);
      DiscoverNamesClosed(files, names[1..], inner.found);
      assert d == DiscoverNames(files, names[1..], inner.found);
      ClosedJoin(files, found, n, names[1..], inner.found, d.found);
      assert names == [n] + names[1..];
    }
  }

  /** The closure of a new header's walk and of the walk of the names
      after it make the closure of the whole. */
  lemma ClosedJoin(files: map<string, string>, found: seq<string>, n: string, more: seq<string>,
                   mid: seq<string>, last: seq<string>)
    requires found + [n] <= mid <= last && n in files
    requires forall x :: x in IncludeNames(files[n]) ==> x in mid
    requires IncludesRecorded(files, mid, |found| + 1)
    requires forall x :: x in more ==> x in last
    requires IncludesRecorded(files, last, |mid|)
    ensures n in last && IncludesRecorded(files, last, |found|)
  {
    PrefixHolds(mid, last);
    RecordedGrow(files, mid, last, |found| + 1);
    assert last[|found|] == n by {
      assert (found + [n])[|found|] == n;
    }
  }

  /** `x` is one of `names`, or an include of a readable header recorded at
      a position in `from..upto`. */
  predicate NamedBy(files: map<string, string>, names: seq<string>, fs: seq<string>, from: nat, upto: nat, x: string) {
    x in names ||
    exists j :: from <= j < upto && j < |fs| && fs[j] in files && x in IncludeNames(files[fs[j]])
  }

  /** Every header recorded from position `from` on was named by `names` or by
      a header recorded before it. */
  predicate Reached(files: map<string, string>, names: seq<string>, fs: seq<string>, from: nat) {
    forall k :: from <= k < |fs| ==> NamedBy(files, names, fs, from, k, fs[k])
  }

  /** The converse of closure: a walk records nothing, and reports nothing
      missing, that the text or a header recorded earlier in the walk does
      not name. */
  lemma {:induction false} DiscoverReachable(files: map<string, string>, content: string, found: seq<string>)
    ensures var d := Discover(files, content, found);
      Reached(files, IncludeNames(content), d.found, |found|) &&
      (d.missing.Some? ==> NamedBy(files, IncludeNames(content), d.found, |found|, |d.found|, d.missing.value))
    decreases files.Keys - Names(found), 1, 0
  {
    DiscoverNamesReachable(files, IncludeNames(content), found);
  }

  lemma {:induction false} DiscoverNamesReachable(files: map<string, string>, names: seq<string>, found: seq<string>)
    ensures var d := DiscoverNames(files, names, found);
      Reached(files, names, d.found, |found|) &&
      (d.missing.Some? ==> NamedBy(files, names, d.found, |found|, |d.found|, d.missing.value))
    decreases files.Keys - Names(found), 0, |names|
  {
    var d := DiscoverNames(files, names, found);
    if names == [] {
    } else if names[0] in found {
      DiscoverNamesReachable(files, names[1..], found);
      forall k, x | |found| <= k <= |d.found| && NamedBy(files, names[1..], d.found, |found|, k, x)
        ensures NamedBy(files, names, d.found, |found|, k, x)
      {
        if x in names[1..] {
          assert x in names;
        }
      }
    } else if names[0] !in files {
    } else {
      var n := names[0];
      var f1 := found + [n];
      NamesShrink(files, found, f1, |found|);
      var inner := Discover(files, files[n], f1);
      DiscoverReachable(files, files[n], f1);
      InnerReached(files, names, found, inner.found, d.found);
      if inner.missing.None? {
        NamesGrow(files, found, inner.found);
        DiscoverNamesReachable(files, names[1..], inner.found);
        assert d == DiscoverNames(files, names[1..], inner.found);
        forall k, x | |inner.found| <= k <= |d.found| && NamedBy(files, names[1..], d.found, |inner.found|, k, x)
          ensures NamedBy(files, names, d.found, |found|, k, x)
        {
          if x in names[1..] {
            assert x in names;
          }
        }
      } else {
        assert d == inner;
      }
    }
  }

  /** What the walk of a new header's own includes names is named, one level
      up, by that header: it stands at position `|found|`. */
  lemma InnerReached(files: map<string, string>, names: seq<string>, found: seq<string>, mid: seq<string>, last: seq<string>)
    requires names != [] && names[0] in files && found + [names[0]] <= mid <= last
    ensures forall k, x :: |found| < k <= |mid| && NamedBy(files, IncludeNames(files[names[0]]), mid, |found| + 1, k, x) ==>
      NamedBy(files, names, last, |found|, k, x)
    ensures |found| < |last| && NamedBy(files, names, last, |found|, |found|, last[|found|])
  {
    var n := names[0];
    assert last[|found|] == n by {
      assert mid[|found|] == (found + [n])[|found|];
    }
    forall k, x | |found| < k <= |mid| && NamedBy(files, IncludeNames(files[n]), mid, |found| + 1, k, x)
      ensures NamedBy(files, names, last, |found|, k, x)
    {
      if x in IncludeNames(files[n]) {
        assert last[|found|] in files && x in IncludeNames(files[last[|found|]]);
      } else {
        var j :| |found| + 1 <= j < k && j < |mid| && mid[j] in files && x in IncludeNames(files[mid[j]]);
        assert last[j] == mid[j];
      }
    }
  }

  /** A header named by the text itself that is not a readable file stops
      the walk with an error. */
  lemma MissingHeaderReported(files: map<string, string>, content: string, n: string)
    requires n in IncludeNames(content) && n !in files
    ensures Discover(files, content, []).missing.Some?
  {
    var d := Discover(files, content, []);
    if d.missing.None? {
      DiscoverClosed(files, content, []);
    }
  }

  /** Every file includes only readable files. */
  predicate FilesClosed(files: map<string, string>) {
    forall f :: f in files ==> forall n :: n in IncludeNames(files[f]) ==> n in files
  }

  /** When every header met is readable the walk never reports one missing. */
  lemma {:induction false} ClosedNoMissing(files: map<string, string>, content: string, found: seq<string>)
    requires FilesClosed(files)
    requires forall n :: n in IncludeNames(content) ==> n in files
    ensures Discover(files, content, found).missing.None?
    decreases files.Keys - Names(found), 1, 0
  {
    ClosedNamesNoMissing(files, IncludeNames(content), found);
  }

  lemma {:induction false} ClosedNamesNoMissing(files: map<string, string>, names: seq<string>, found: seq<string>)
    requires FilesClosed(files)
    requires forall n :: n in names ==> n in files
    ensures DiscoverNames(files, names, found).missing.None?
    decreases files.Keys - Names(found), 0, |names|
  {
    if names != [] {
      var n := names[0];
      assert forall m :: m in names[1..] ==> m in names;
      if n in found {
        ClosedNamesNoMissing(files, names[1..], found);
      } else {
        var f1 := found + [n];
        NamesShrink(files, found, f1, |found|);
        ClosedNoMissing(files, files[n], f1);
        var inner := Discover(files, files[n], f1);
        NamesGrow(files, found, inner.found);
        ClosedNamesNoMissing(files, names[1..], inner.found);
      }
    }
  }

  /** Two headers that include each other: each is walked once. */
  lemma CycleEnds(files: map<string, string>, content: string, x: string, y: string)
    requires x != y && x in files && y in files
    requires IncludeNames(content) == [x]
    requires IncludeNames(files[x]) == [y] && IncludeNames(files[y]) == [x]
    ensures Discover(files, content, []) == Discovery([x, y], None)
  {
    assert [x][1..] == [] && [y][1..] == [];
    NamesShrink(files, [], [x], 0);
    NamesShrink(files, [x], [x, y], 1);
    assert [] + [x] == [x] && [x] + [y] == [x, y];
    assert DiscoverNames(files, [x], [x, y]) == Discovery([x, y], None);
    assert Discover(files, files[y], [x, y]) == Discovery([x, y], None);
    assert DiscoverNames(files, [y], [x]) == Discovery([x, y], None);
    assert Discover(files, files[x], [x]) == Discovery([x, y], None);
    assert DiscoverNames(files, [x], []) == Discovery([x, y], None);
  }

  /** Two headers that share a third: it is recorded once, after the first
      header that includes it, in depth-first order. */
  lemma DiamondOnce(files: map<string, string>, content: string, x: string, y: string, z: string)
    requires x != y && y != z && x != z && x in files && y in files && z in files
    requires IncludeNames(content) == [x, y]
    requires IncludeNames(files[x]) == [z] && IncludeNames(files[y]) == [z] && IncludeNames(files[z]) == []
    ensures Discover(files, content, []) == Discovery([x, z, y], None)
  {
    assert [x, y][1..] == [y] && [y][1..] == [] && [z][1..] == [];
    assert [] + [x] == [x] && [x] + [z] == [x, z] && [x, z] + [y] == [x, z, y];
    NamesShrink(files, [], [x], 0);
    NamesShrink(files, [x], [x, z], 1);
    NamesShrink(files, [x, z], [x, z, y], 2);
    assert Discover(files, files[z], [x, z]) == Discovery([x, z], None);
    assert DiscoverNames(files, [z], [x]) == Discovery([x, z], None);
    assert Discover(files, files[x], [x]) == Discovery([x, z], None);
    assert DiscoverNames(files, [z], [x, z, y]) == Discovery([x, z, y], None);
    assert Discover(files, files[y], [x, z, y]) == Discovery([x, z, y], None);
    assert DiscoverNames(files, [y], [x, z]) == Discovery([x, z, y], None);
  }

  /** The closing delimiter of an include directive opened by `open`. */
  function Closer(open: char): char {
    if open == '<' then '>' else '"'
  }

  /** `#include <n>` or `#include "n"` at the front of a text. */
  lemma DirectiveHere(open: char, n: string, x: string)
    requires open == '<' || open == '"'
    requires n != [] && forall k :: 0 <= k < |n| ==> n[k] != Closer(open)
    ensures var w := "#include " + [open] + n + [Closer(open)];
      MatchAt(IncludeDirective, w + x, 0) == Some(Match(0, |w|, n))
  {
    var w := "#include " + [open] + n + [Closer(open)];
    var s := w + x;
    var e := 10 + |n|;
    assert HasAt(s, 0, "#include") by {
      assert s[..8] == "#include";
    }
    assert s[8] == ' ' && s[9] == open;
    assert !IsSpace(s[9]);
    RunEndIs(s, 8, Space, 9);
    forall t | 10 <= t < e ensures InClass(s[t], Except(Closer(open))) {
      assert s[t] == n[t - 10];
    }
    assert s[e] == Closer(open);
    RunEndIs(s, 10, Except(Closer(open)), e);
    assert s[10..e] == n;
  }

  /** A directive whose name holds no closing delimiter, no `//` and no
      comment opener (path separators are fine) is read off the front of a text, and
      discovery goes on after it. */
  lemma DirectiveRead(open: char, n: string, rest: string)
    requires open == '<' || open == '"'
    requires n != [] && forall k :: 0 <= k < |n| ==> n[k] != Closer(open)
    requires NoPair(n, '/', '/') && NoPair(n, '/', '*')
    ensures IncludeNames("#include " + [open] + n + [Closer(open)] + rest) == [n] + IncludeNames(rest)
  {
    var w := "#include " + [open] + n + [Closer(open)];
    assert w[..10] == "#include " + [open];
    forall k | 0 <= k && k + 1 < |w| ensures !(w[k] == '/' && (w[k + 1] == '/' || w[k + 1] == '*')) {
      if k < 10 {
        assert w[k] == w[..10][k];
      } else if k + 1 < |w| - 1 {
        assert w[k] == n[k - 10] && w[k + 1] == n[k - 9];
      } else {
        assert w[k + 1] == Closer(open);
      }
    }
    assert OpenerFree(w);
    PlainPrefixKept(w, rest);
    var x := RemoveComments(rest);
    DirectiveHere(open, n, x);
    MatchThenRest(IncludeDirective, w, n, x);
  }

  /** An include behind `//` is not discovered. */
  lemma LineCommentedInclude(c: string, rest: string)
    requires forall k :: 0 <= k < |c| ==> !IsLineBreak(c[k])
    requires rest == [] || IsLineBreak(rest[0])
    ensures IncludeNames("//" + c + rest) == IncludeNames(rest)
  {
    LineCommentDropped(c, rest);
  }

  /** An include inside a block comment is not discovered. */
  lemma BlockCommentedInclude(c: string, rest: string)
    requires NoPair(c, '/', '/') && NoPair(c, '*', '/')
    requires rest == [] || rest[0] != '/'
    ensures IncludeNames("/*" + c + "*/" + rest) == IncludeNames(rest)
  {
    BlockCommentDropped(c, rest);
  }
}
