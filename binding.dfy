/** The registration rule of generateKernelFunction (src/xmagics/nvrtc.cpp):
    every kernel symbol of the cell gets one `CUfunction` handle per device
    the first time it is seen, and is looked up in every device's module on
    every cell. */
module Binding {
  import opened Text
  import opened Demangler
  import opened Session

  /** The handle of symbol `s` on device `i` when there are `n` devices:
      the demangled name alone for a single device, suffixed by `_GPU<i>`
      otherwise. */
  function HandleName(s: string, i: nat, n: nat): string
    requires CanDemangle(s)
  {
    if n == 1 then DemangledName(s) else DemangledName(s) + "_GPU" + NatToString(i)
  }

  /** The handles of one symbol on several devices never clash. */
  lemma HandlesDistinct(s: string, i: nat, j: nat, n: nat)
    requires CanDemangle(s) && i < n && j < n
    requires HandleName(s, i, n) == HandleName(s, j, n)
    ensures i == j
  {
    if n > 1 {
      var p := |DemangledName(s)| + 4;
      assert HandleName(s, i, n)[p..] == NatToString(i);
      assert HandleName(s, j, n)[p..] == NatToString(j);
      NatToStringInjective(i, j);
    }
  }

  /** The `CUfunction` declarations of `s` on devices 0 to k-1. */
  function DeclareHandles(s: string, n: nat, k: nat): (r: seq<Request>)
    requires k > 0 ==> CanDemangle(s)
    ensures |r| == k
    decreases k
  {
    if k == 0 then [] else DeclareHandles(s, n, k - 1) + [DeclareHandle(HandleName(s, k - 1, n))]
  }

  /** The `cuModuleGetFunction` lookups of `s` on devices 0 to k-1, each in
      that device's own module. */
  function ResolveHandles(s: string, n: nat, k: nat): (r: seq<Request>)
    requires k > 0 ==> CanDemangle(s)
    ensures |r| == k
    decreases k
  {
    if k == 0 then [] else ResolveHandles(s, n, k - 1) + [ResolveFunction(HandleName(s, k - 1, n), k - 1, s)]
  }

  /** One more device loop iteration, after the requests made before the loop. */
  lemma DeclareHandlesStep(pre: seq<Request>, s: string, n: nat, i: nat)
    requires CanDemangle(s)
    ensures pre + DeclareHandles(s, n, i) + [DeclareHandle(HandleName(s, i, n))]
         == pre + DeclareHandles(s, n, i + 1)
  {
    assert DeclareHandles(s, n, i + 1) == DeclareHandles(s, n, i) + [DeclareHandle(HandleName(s, i, n))];
  }

  lemma ResolveHandlesStep(pre: seq<Request>, s: string, n: nat, i: nat)
    requires CanDemangle(s)
    ensures pre + ResolveHandles(s, n, i) + [ResolveFunction(HandleName(s, i, n), i, s)]
         == pre + ResolveHandles(s, n, i + 1)
  {
    assert ResolveHandles(s, n, i + 1) == ResolveHandles(s, n, i) + [ResolveFunction(HandleName(s, i, n), i, s)];
  }

  /** Device `t` gets its own declaration and its own lookup, in device order. */
  lemma {:induction false} HandlesPerDevice(s: string, n: nat, k: nat, t: nat)
    requires k > 0 ==> CanDemangle(s)
    requires t < k
    ensures DeclareHandles(s, n, k)[t] == DeclareHandle(HandleName(s, t, n))
    ensures ResolveHandles(s, n, k)[t] == ResolveFunction(HandleName(s, t, n), t, s)
    decreases k
  {
    if t < k - 1 {
      HandlesPerDevice(s, n, k - 1, t);
    }
  }

  /** The PTX buffer loaded into the module of devices 0 to k-1. */
  function ModuleLoads(buffer: string, k: nat): (r: seq<Request>)
    ensures |r| == k
    decreases k
  {
    if k == 0 then [] else ModuleLoads(buffer, k - 1) + [LoadModule(k - 1, buffer)]
  }

  /** Device `t`'s module is the `t`-th to get the buffer. */
  lemma {:induction false} ModuleLoadsIndexed(buffer: string, k: nat, t: nat)
    requires t < k
    ensures ModuleLoads(buffer, k)[t] == LoadModule(t, buffer)
    decreases k
  {
    if t < k - 1 {
      ModuleLoadsIndexed(buffer, k - 1, t);
    }
  }

  /** What binding a list of symbols leaves behind. `aborted` is the
      exception `demangle` throws out of the magic on a symbol it cannot
      take apart. */
  datatype Binding = Binding(registered: seq<string>, requests: seq<Request>, aborted: bool)

  /** The requests for one symbol that demangles: declarations when it is
      new, lookups always. */
  function BindOne(registered: seq<string>, s: string, n: nat): seq<Request>
    requires n > 0 ==> CanDemangle(s)
  {
    (if s in registered then [] else DeclareHandles(s, n, n)) + ResolveHandles(s, n, n)
  }

  /** The registered list after `s`: appended unless already there. */
  function Register(registered: seq<string>, s: string): seq<string> {
    if s in registered then registered else registered + [s]
  }

  /** The requests `reqs` issued ahead of a binding. */
  function Ahead(reqs: seq<Request>, b: Binding): Binding {
    Binding(b.registered, reqs + b.requests, b.aborted)
  }

  /** The symbols of a cell bound one after the other with `n` devices. */
  function Bind(registered: seq<string>, names: seq<string>, n: nat): Binding
    decreases |names|
  {
    if names == [] then Binding(registered, [], false)
    else if n > 0 && !CanDemangle(names[0]) then Binding(registered, [], true)
    else Ahead(BindOne(registered, names[0], n), Bind(Register(registered, names[0]), names[1..], n))
  }

  /** The registered list only grows. */
  lemma {:induction false} BindGrows(registered: seq<string>, names: seq<string>, n: nat)
    ensures registered <= Bind(registered, names, n).registered
    decreases |names|
  {
    if names != [] && !(n > 0 && !CanDemangle(names[0])) {
      var s := names[0];
      var next := Register(registered, s);
      BindGrows(next, names[1..], n);
    }
  }

  /** A registered list without duplicates keeps none. */
  lemma {:induction false} BindNoDup(registered: seq<string>, names: seq<string>, n: nat)
    requires NoDup(registered)
    ensures NoDup(Bind(registered, names, n).registered)
    decreases |names|
  {
    if names != [] && !(n > 0 && !CanDemangle(names[0])) {
      var s := names[0];
      var next := Register(registered, s);
      assert NoDup(next) by {
        if s !in registered {
          forall i, j | 0 <= i < j < |next| ensures next[i] != next[j] {
            if j == |registered| {
              assert next[i] == registered[i];
            }
          }
        }
      }
      BindNoDup(next, names[1..], n);
    }
  }

  /** Binding aborts exactly when there is a device and some symbol does
      not demangle. */
  lemma {:induction false} BindAbortIff(registered: seq<string>, names: seq<string>, n: nat)
    ensures Bind(registered, names, n).aborted <==>
      n > 0 && exists k :: 0 <= k < |names| && !CanDemangle(names[k])
    decreases |names|
  {
    if names != [] && !(n > 0 && !CanDemangle(names[0])) {
      var s := names[0];
      var next := Register(registered, s);
      BindAbortIff(next, names[1..], n);
      if n > 0 && exists k :: 0 <= k < |names| && !CanDemangle(names[k]) {
        var k :| 0 <= k < |names| && !CanDemangle(names[k]);
        assert names[1..][k - 1] == names[k];
      }
      if n > 0 && exists k :: 0 <= k < |names[1..]| && !CanDemangle(names[1..][k]) {
        var k :| 0 <= k < |names[1..]| && !CanDemangle(names[1..][k]);
        assert names[k + 1] == names[1..][k];
      }
    }
  }

  /** Unless the binding aborts, every symbol of the cell ends up
      registered, and nothing else is added. */
  lemma {:induction false} BindRegistersAll(registered: seq<string>, names: seq<string>, n: nat)
    ensures var b := Bind(registered, names, n);
      !b.aborted ==> forall k :: 0 <= k < |names| ==> names[k] in b.registered
    ensures forall x :: x in Bind(registered, names, n).registered ==> x in registered || x in names
    decreases |names|
  {
    if names != [] && !(n > 0 && !CanDemangle(names[0])) {
      var s := names[0];
      var next := Register(registered, s);
      BindRegistersAll(next, names[1..], n);
      BindGrows(next, names[1..], n);
      var b := Bind(registered, names, n);
      assert s in next;
      forall k | 1 <= k < |names| ensures names[k] == names[1..][k - 1] {
      }
      forall x | x in b.registered ensures x in registered || x in names {
        if x in names[1..] {
          var k :| 0 <= k < |names[1..]| && names[1..][k] == x;
          assert names[k + 1] == x;
        }
      }
    }
  }

  /** The handle declarations among some requests, in order. */
  function Declarations(reqs: seq<Request>): seq<Request>
    decreases |reqs|
  {
    if reqs == [] then []
    else (if reqs[0].DeclareHandle? then [reqs[0]] else []) + Declarations(reqs[1..])
  }

  /** The function lookups among some requests, in order. */
  function Lookups(reqs: seq<Request>): seq<Request>
    decreases |reqs|
  {
    if reqs == [] then []
    else (if reqs[0].ResolveFunction? then [reqs[0]] else []) + Lookups(reqs[1..])
  }

  lemma {:induction false} FilterAppend(a: seq<Request>, b: seq<Request>)
    ensures Declarations(a + b) == Declarations(a) + Declarations(b)
    ensures Lookups(a + b) == Lookups(a) + Lookups(b)
    decreases |a|
  {
    if a == [] {
      assert a + b == b;
    } else {
      var ab := a + b;
      assert ab[0] == a[0] && ab[1..] == a[1..] + b;
      FilterAppend(a[1..], b);
      var d := if a[0].DeclareHandle? then [a[0]] else [];
      var l := if a[0].ResolveFunction? then [a[0]] else [];
      assert Declarations(ab) == d + Declarations(a[1..] + b);
      assert Declarations(a) == d + Declarations(a[1..]);
      assert Lookups(ab) == l + Lookups(a[1..] + b);
      assert Lookups(a) == l + Lookups(a[1..]);
    }
  }

  lemma {:induction false} DeclareHandlesFilter(s: string, n: nat, k: nat)
    requires k > 0 ==> CanDemangle(s)
    ensures Declarations(DeclareHandles(s, n, k)) == DeclareHandles(s, n, k)
    ensures Lookups(DeclareHandles(s, n, k)) == []
    decreases k
  {
    if k > 0 {
      DeclareHandlesFilter(s, n, k - 1);
      FilterAppend(DeclareHandles(s, n, k - 1), [DeclareHandle(HandleName(s, k - 1, n))]);
    }
  }

  lemma {:induction false} ResolveHandlesFilter(s: string, n: nat, k: nat)
    requires k > 0 ==> CanDemangle(s)
    ensures Declarations(ResolveHandles(s, n, k)) == []
    ensures Lookups(ResolveHandles(s, n, k)) == ResolveHandles(s, n, k)
    decreases k
  {
    if k > 0 {
      ResolveHandlesFilter(s, n, k - 1);
      FilterAppend(ResolveHandles(s, n, k - 1), [ResolveFunction(HandleName(s, k - 1, n), k - 1, s)]);
    }
  }

  /** Every symbol that demangles, on `n` devices. */
  predicate AllDemangle(names: seq<string>, n: nat) {
    n > 0 ==> forall k :: 0 <= k < |names| ==> CanDemangle(names[k])
  }

  /** The declarations for a list of symbols: one handle per device each. */
  function DeclarationsFor(names: seq<string>, n: nat): seq<Request>
    requires AllDemangle(names, n)
    decreases |names|
  {
    if names == [] then [] else DeclareHandles(names[0], n, n) + DeclarationsFor(names[1..], n)
  }

  /** The lookups for a list of symbols: one per device each. */
  function LookupsFor(names: seq<string>, n: nat): seq<Request>
    requires AllDemangle(names, n)
    decreases |names|
  {
    if names == [] then [] else ResolveHandles(names[0], n, n) + LookupsFor(names[1..], n)
  }

  lemma BindOneFilter(registered: seq<string>, s: string, n: nat)
    requires n > 0 ==> CanDemangle(s)
    ensures Declarations(BindOne(registered, s, n)) == if s in registered then [] else DeclareHandles(s, n, n)
    ensures Lookups(BindOne(registered, s, n)) == ResolveHandles(s, n, n)
  {
    var d := if s in registered then [] else DeclareHandles(s, n, n);
    FilterAppend(d, ResolveHandles(s, n, n));
    DeclareHandlesFilter(s, n, n);
    ResolveHandlesFilter(s, n, n);
  }

  /** What one step of the binding adds to the registered list. */
  lemma BindStepAdded(registered: seq<string>, names: seq<string>, n: nat)
    requires names != [] && (n > 0 ==> CanDemangle(names[0]))
    ensures var s := names[0];
      var next := Register(registered, s);
      next <= Bind(next, names[1..], n).registered &&
      Bind(registered, names, n).registered[|registered|..] ==
        (if s in registered then [] else [s]) + Bind(next, names[1..], n).registered[|next|..]
  {
    var s := names[0];
    var next := Register(registered, s);
    BindGrows(next, names[1..], n);
    var r := Bind(next, names[1..], n).registered;
    assert Bind(registered, names, n).registered == r;
    if s !in registered {
      assert r[|registered|..] == [s] + r[|next|..] by {
        assert r[..|next|] == next;
      }
    }
  }

  lemma AllDemangleTail(names: seq<string>, n: nat)
    requires names != [] && AllDemangle(names, n)
    ensures AllDemangle(names[1..], n) && (n > 0 ==> CanDemangle(names[0]))
  {
    forall k | 0 <= k < |names[1..]| && n > 0 ensures CanDemangle(names[1..][k]) {
      assert names[1..][k] == names[k + 1];
    }
  }

  /** The symbols a binding registers come from the cell. */
  lemma {:induction false} AddedFromNames(registered: seq<string>, names: seq<string>, n: nat)
    ensures registered <= Bind(registered, names, n).registered
    ensures forall x :: x in Bind(registered, names, n).registered[|registered|..] ==> x in names
    decreases |names|
  {
    BindGrows(registered, names, n);
    if names != [] && (n > 0 ==> CanDemangle(names[0])) {
      var s := names[0];
      var next := Register(registered, s);
      AddedFromNames(next, names[1..], n);
      BindStepAdded(registered, names, n);
      var added := Bind(registered, names, n).registered[|registered|..];
      var more := Bind(next, names[1..], n).registered[|next|..];
      forall x | x in added ensures x in names {
        if x != s {
          assert x in more;
          var k :| 0 <= k < |names[1..]| && names[1..][k] == x;
          assert names[k + 1] == x;
        }
      }
    }
  }

  /** The symbols a binding registers all demangle when the cell's do. */
  lemma AddedDemangle(registered: seq<string>, names: seq<string>, n: nat)
    requires AllDemangle(names, n)
    ensures registered <= Bind(registered, names, n).registered
    ensures AllDemangle(Bind(registered, names, n).registered[|registered|..], n)
  {
    AddedFromNames(registered, names, n);
    var added := Bind(registered, names, n).registered[|registered|..];
    forall k | 0 <= k < |added| && n > 0 ensures CanDemangle(added[k]) {
      assert added[k] in names;
    }
  }

  /** Handles are declared exactly for the symbols registered by this
      binding, each on every device, in the order they are registered. */
  lemma {:induction false} DeclaredOnlyWhenNew(registered: seq<string>, names: seq<string>, n: nat)
    requires AllDemangle(names, n)
    ensures var b := Bind(registered, names, n);
      registered <= b.registered &&
      AllDemangle(b.registered[|registered|..], n) &&
      Declarations(b.requests) == DeclarationsFor(b.registered[|registered|..], n)
    decreases |names|
  {
    AddedDemangle(registered, names, n);
    var b := Bind(registered, names, n);
    if names == [] {
      assert b.registered[|registered|..] == [];
    } else {
      var s := names[0];
      AllDemangleTail(names, n);
      var next := Register(registered, s);
      DeclaredOnlyWhenNew(next, names[1..], n);
      var rest := Bind(next, names[1..], n);
      BindOneFilter(registered, s, n);
      FilterAppend(BindOne(registered, s, n), rest.requests);
      BindStepAdded(registered, names, n);
      var added := b.registered[|registered|..];
      if s !in registered {
        assert added[1..] == rest.registered[|next|..];
      }
    }
  }

  /** Every symbol of the cell is looked up on every device, new or not,
      in the order of the cell. */
  lemma {:induction false} EverySymbolLookedUp(registered: seq<string>, names: seq<string>, n: nat)
    requires AllDemangle(names, n)
    ensures Lookups(Bind(registered, names, n).requests) == LookupsFor(names, n)
    decreases |names|
  {
    if names != [] {
      var s := names[0];
      var next := Register(registered, s);
      assert AllDemangle(names[1..], n) by {
        forall k | 0 <= k < |names[1..]| && n > 0 ensures CanDemangle(names[1..][k]) {
          assert names[1..][k] == names[k + 1];
        }
      }
      EverySymbolLookedUp(next, names[1..], n);
      BindOneFilter(registered, s, n);
      FilterAppend(BindOne(registered, s, n), Bind(next, names[1..], n).requests);
    }
  }

  /** Binding the same symbols a second time registers and declares
      nothing new. */
  lemma {:induction false} RebindDeclaresNothing(registered: seq<string>, names: seq<string>, n: nat)
    requires forall k :: 0 <= k < |names| ==> names[k] in registered
    ensures Bind(registered, names, n).registered == registered
    ensures Declarations(Bind(registered, names, n).requests) == []
    decreases |names|
  {
    if names != [] && !(n > 0 && !CanDemangle(names[0])) {
      assert forall k :: 0 <= k < |names[1..]| ==> names[1..][k] == names[k + 1];
      RebindDeclaresNothing(registered, names[1..], n);
      BindOneFilter(registered, names[0], n);
      FilterAppend(BindOne(registered, names[0], n), Bind(registered, names[1..], n).requests);
    }
  }
}
