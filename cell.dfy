/** What one `%%nvrtc` cell asks of the interpreter (src/xmagics/nvrtc.cpp,
    generateNVRTC and the steps it calls), as functions of what the
    previous cells left behind, and what holds of a session of cells. */
module Cell {
  import opened Text
  import opened Symbols
  import opened Demangler
  import opened Session
  import opened Binding
  import OptionLine

  /** How a cell ends: run to the end, stopped by a step that returned
      ERROR_CODE, or cut short by an exception that leaves the magic. */
  datatype Outcome =
    | Completed
    | SetupFailed
    | DeviceInfoFailed
    | DeviceNamesFailed
    | HeaderMissing(header: string)   // readFileToString throws
    | DemangleFailed                  // a substr inside demangle throws

  /** The header contents are those of the files the headers name. */
  predicate Parallel(files: map<string, string>, headers: seq<string>, contents: seq<string>) {
    |headers| == |contents| &&
    forall k :: 0 <= k < |headers| ==> headers[k] in files && contents[k] == files[headers[k]]
  }

  /** Four checked chains run one after the other: each runs only when the
      ones before it succeeded. */
  lemma FourChains(a: seq<Request>, b: seq<Request>, c: seq<Request>, d: seq<Request>, failing: set<Request>)
    ensures AllSucceed(a + b + c + d, failing) <==>
      AllSucceed(a, failing) && AllSucceed(b, failing) && AllSucceed(c, failing) && AllSucceed(d, failing)
    ensures Attempted(a + b + c + d, failing) ==
      if !AllSucceed(a, failing) then Attempted(a, failing)
      else if !AllSucceed(b, failing) then a + Attempted(b, failing)
      else if !AllSucceed(c, failing) then a + b + Attempted(c, failing)
      else a + b + c + Attempted(d, failing)
  {
    AttemptedAppend(a, b, failing);
    AttemptedAppend(a + b, c, failing);
    AttemptedAppend(a + b + c, d, failing);
  }

  /** The checked setup as four chains run one after the other. */
  lemma SetupChain(includePath: string, failing: set<Request>)
    ensures var libs, headers, checks := LibraryRequests(), IncludeRequests(includePath), CheckErrorRequests();
      var all := CheckedSetup(includePath);
      (AllSucceed(all, failing) <==>
        AllSucceed(libs, failing) && AllSucceed(headers, failing) && AllSucceed(checks, failing) && DeclareResultVar !in failing) &&
      Attempted(all, failing) ==
        if !AllSucceed(libs, failing) then Attempted(libs, failing)
        else if !AllSucceed(headers, failing) then libs + Attempted(headers, failing)
        else if !AllSucceed(checks, failing) then libs + headers + Attempted(checks, failing)
        else libs + headers + checks + Attempted([DeclareResultVar], failing)
  {
    FourChains(LibraryRequests(), IncludeRequests(includePath), CheckErrorRequests(), [DeclareResultVar], failing);
    assert AllSucceed([DeclareResultVar], failing) <==> DeclareResultVar !in failing by {
      assert [DeclareResultVar][0] == DeclareResultVar;
    }
  }

  /** The headers loadIncludes asks for, whatever the invocation line: two
      absolute paths in one directory, `nvrtc.h` then `cuda.h`; the default
      directory when the line gives no `-cudaPath`. */
  lemma HeaderPathsFromLine(line: string)
    ensures var reqs := IncludeRequests(OptionLine.CudaIncludePath(line));
      |reqs| == 2 && reqs[0].LoadHeader? && reqs[1].LoadHeader? &&
      AbsoluteIn(reqs[0].header, "nvrtc.h") && AbsoluteIn(reqs[1].header, "cuda.h") &&
      reqs[0].header[..|reqs[0].header| - 7] == reqs[1].header[..|reqs[1].header| - 6]
    ensures OptionLine.CudaIncludePath(line) == "" ==>
      IncludeRequests(OptionLine.CudaIncludePath(line)) ==
        [LoadHeader("/usr/local/cuda/include/nvrtc.h"), LoadHeader("/usr/local/cuda/include/cuda.h")]
  {
    var dir := OptionLine.CudaIncludePath(line);
    IncludeRequestsAbsolute(dir);
    if dir == "" {
      DefaultIncludeRequests();
    }
  }

  /** The header definitions of nvrtcCreateProgram for headers 0 to k-1. */
  function HeaderNameRequests(headers: seq<string>, k: nat): (r: seq<Request>)
    requires k <= |headers|
    ensures |r| == k
    decreases k
  {
    if k == 0 then [] else HeaderNameRequests(headers, k - 1) + [DefineHeaderName(k - 1, headers[k - 1])]
  }

  function HeaderContentRequests(contents: seq<string>, k: nat): (r: seq<Request>)
    requires k <= |contents|
    ensures |r| == k
    decreases k
  {
    if k == 0 then [] else HeaderContentRequests(contents, k - 1) + [DefineHeaderContent(k - 1, contents[k - 1])]
  }

  /** Header `t` is defined at position `t` of both tables, under its own
      name and with its own content. */
  lemma {:induction false} HeaderTablesIndexed(headers: seq<string>, contents: seq<string>, k: nat, t: nat)
    requires k <= |headers| && k <= |contents| && t < k
    ensures HeaderNameRequests(headers, k)[t] == DefineHeaderName(t, headers[t])
    ensures HeaderContentRequests(contents, k)[t] == DefineHeaderContent(t, contents[t])
    decreases k
  {
    if t < k - 1 {
      HeaderTablesIndexed(headers, contents, k - 1, t);
    }
  }

  /** The header tables of nvrtcCreateProgram: every name, the name
      array, every content, the content array. */
  function HeaderTables(headers: seq<string>, contents: seq<string>): seq<Request>
    requires |headers| == |contents|
  {
    HeaderNameRequests(headers, |headers|) + [DefineHeaderNames]
    + HeaderContentRequests(contents, |contents|) + [DefineHeaderContents]
  }

  /** Creating program `prog`: with the header tables and their count when
      headers were found, with count 0 and no tables otherwise. */
  function CreateRequests(prog: string, headers: seq<string>, contents: seq<string>): seq<Request>
    requires |headers| == |contents|
  {
    if headers == [] then [CreateProgram(prog, 0, false)]
    else HeaderTables(headers, contents) + [CreateProgram(prog, |headers|, true)]
  }

  /** Compiling program `prog` (with the option array and its count when
      there are options, count 0 otherwise), the error report and the PTX
      read into `buffer`. */
  function CompileRequests(prog: string, buffer: string, options: seq<string>): seq<Request> {
    (if options == [] then [CompileProgram(prog, 0, false)]
     else [DefineOptions(options), CompileProgram(prog, |options|, true)])
    + [ReportCompileErrors(prog), ReadPtx(prog, buffer)]
  }

  /** The requests of definePTX for cell number `n`. */
  function PtxRequests(n: nat, code: string, headers: seq<string>, contents: seq<string>, options: seq<string>): seq<Request>
    requires |headers| == |contents|
  {
    [DeclareProgram(n), StoreSource(n, code)]
    + CreateRequests(ProgramName(n), headers, contents)
    + CompileRequests(ProgramName(n), PtxBuffer(n), options)
  }

  /** definePTX declares the program of cell `n` first and stores the code
      with it; it creates the program with every header found, each defined
      at its own position with its own content and counted in the call (0
      when there is none), and compiles it with all the options given. */
  lemma PtxRequestsShape(n: nat, code: string, headers: seq<string>, contents: seq<string>, options: seq<string>)
    requires |headers| == |contents|
    ensures var p := PtxRequests(n, code, headers, contents, options);
      p[0] == DeclareProgram(n) && p[1] == StoreSource(n, code) &&
      CreateProgram(ProgramName(n), |headers|, headers != []) in p &&
      CompileProgram(ProgramName(n), |options|, options != []) in p &&
      forall t :: 0 <= t < |headers| ==> DefineHeaderName(t, headers[t]) in p && DefineHeaderContent(t, contents[t]) in p
  {
    var head: seq<Request> := [DeclareProgram(n), StoreSource(n, code)];
    var create := CreateRequests(ProgramName(n), headers, contents);
    var compile := CompileRequests(ProgramName(n), PtxBuffer(n), options);
    var p := PtxRequests(n, code, headers, contents, options);
    assert p == head + create + compile;
    assert CreateProgram(ProgramName(n), |headers|, headers != []) in create;
    assert CompileProgram(ProgramName(n), |options|, options != []) in compile;
    forall t | 0 <= t < |headers| ensures DefineHeaderName(t, headers[t]) in p && DefineHeaderContent(t, contents[t]) in p {
      HeaderTablesIndexed(headers, contents, |headers|, t);
      var names := HeaderNameRequests(headers, |headers|);
      var bodies := HeaderContentRequests(contents, |contents|);
      assert create == names + [DefineHeaderNames] + bodies + [DefineHeaderContents] + [CreateProgram(ProgramName(n), |headers|, true)];
      assert names[t] in create && bodies[t] in create;
    }
  }

  /** The requests of the one-time setup: none once it has succeeded, all
      of them with the device initialization when every checked call
      succeeds, and up to the first failing one otherwise. */
  function SetupRequests(initialized: bool, includePath: string, env: Interpreter): seq<Request> {
    if initialized then []
    else if AllSucceed(CheckedSetup(includePath), env.failing) then CheckedSetup(includePath) + InitRequests(env.deviceCount)
    else Attempted(CheckedSetup(includePath), env.failing)
  }

  /** The device report: the inventory when `-GPUInfo` was given, then the
      name listing when there are several devices; a failure stops it. */
  function ReportRequests(printInfo: bool, devices: int, env: Interpreter): seq<Request> {
    if printInfo && ShowDeviceInfo in env.failing then [ShowDeviceCount, ShowDeviceInfo]
    else (if printInfo then [ShowDeviceCount, ShowDeviceInfo] else []) + (if devices > 1 then [ShowDeviceNames] else [])
  }

  predicate ReportSucceeds(printInfo: bool, devices: int, env: Interpreter) {
    !(printInfo && ShowDeviceInfo in env.failing) && !(devices > 1 && ShowDeviceNames in env.failing)
  }

  /** What one cell carries over to the next. */
  datatype Carried = Carried(initialized: bool, index: nat, registered: seq<string>, devices: int)

  /** What one cell does: how it ends, the requests it makes, what it
      leaves for the next cell, and whether it got as far as definePTX. */
  datatype CellEffect = CellEffect(outcome: Outcome, requests: seq<Request>, after: Carried, compiled: bool)

  /** The requests `reqs` made ahead of the rest of a cell. */
  function Prepend(reqs: seq<Request>, e: CellEffect): CellEffect {
    CellEffect(e.outcome, reqs + e.requests, e.after, e.compiled)
  }

  /** definePTX and generateKernelFunction, from the state `c` the setup
      left: the cell number goes up by one, the program is created and
      compiled, loaded into every device's module and its symbols bound. */
  function CompileStage(c: Carried, env: Interpreter, headers: seq<string>, contents: seq<string>,
                        options: seq<string>, cell: string): CellEffect
    requires |headers| == |contents|
  {
    var n := c.index + 1;
    var b := Bind(c.registered, ExtractFunctionNames(env.ptx), Devices(c.devices));
    CellEffect(if b.aborted then DemangleFailed else Completed,
               PtxRequests(n, cell, headers, contents, options) + ModuleLoads(PtxBuffer(n), Devices(c.devices)) + b.requests,
               Carried(c.initialized, n, b.registered, c.devices), true)
  }

  /** The device report, whose failure ends the cell, then the compile stage. */
  function ReportStage(c: Carried, env: Interpreter, info: bool, headers: seq<string>, contents: seq<string>,
                       options: seq<string>, cell: string): CellEffect
    requires |headers| == |contents|
  {
    var report := ReportRequests(info, c.devices, env);
    if !ReportSucceeds(info, c.devices, env) then
      CellEffect(if info && ShowDeviceInfo in env.failing then DeviceInfoFailed else DeviceNamesFailed, report, c, false)
    else Prepend(report, CompileStage(c, env, headers, contents, options, cell))
  }

  /** The one-time setup, whose failure ends the cell and leaves the magic
      uninitialized, then the report and compile stages; `path` is the
      `-cudaPath` directory and `info` the `-GPUInfo` flag. */
  function SetupStage(c: Carried, env: Interpreter, path: string, info: bool, headers: seq<string>,
                      contents: seq<string>, options: seq<string>, cell: string): CellEffect
    requires |headers| == |contents|
  {
    if !c.initialized && !AllSucceed(CheckedSetup(path), env.failing) then
      CellEffect(SetupFailed, Attempted(CheckedSetup(path), env.failing), c, false)
    else
      var ready := if c.initialized then c else Carried(true, c.index, c.registered, env.deviceCount);
      Prepend(SetupRequests(c.initialized, path, env), ReportStage(ready, env, info, headers, contents, options, cell))
  }


  lemma AppendAssoc<T>(a: seq<T>, b: seq<T>, c: seq<T>)
    ensures (a + b) + c == a + (b + c)
  {
  }

  lemma PrefixTrans<T>(a: seq<T>, b: seq<T>, c: seq<T>)
    requires a <= b && b <= c
    ensures a <= c
  {
    assert c[..|a|] == b[..|a|];
  }

  /** A call the one-time setup makes: library and header loading, the
      error checkers, the result variable and the device variables. */
  predicate IsSetupRequest(r: Request) {
    r.LoadLibrary? || r.LoadHeader? || r.DefineCheckError? || r.DeclareResultVar? ||
    r.InitCuda? || r.CountDevices? || r.DeclareDevice? || r.GetDevice? ||
    r.DeclareContext? || r.CreateContext? || r.DeclareModule?
  }

  predicate NoSetup(reqs: seq<Request>) {
    forall k :: 0 <= k < |reqs| ==> !IsSetupRequest(reqs[k])
  }

  lemma NoSetupAppend(a: seq<Request>, b: seq<Request>)
    requires NoSetup(a) && NoSetup(b)
    ensures NoSetup(a + b)
  {
    forall k | 0 <= k < |a + b| ensures !IsSetupRequest((a + b)[k]) {
      if k >= |a| {
        assert (a + b)[k] == b[k - |a|];
      }
    }
  }

  /** The header tables hold definitions only. */
  lemma TablesNoSetup(headers: seq<string>, contents: seq<string>)
    requires |headers| == |contents|
    ensures NoSetup(HeaderTables(headers, contents))
  {
    var names := HeaderNameRequests(headers, |headers|);
    var bodies := HeaderContentRequests(contents, |contents|);
    forall t | 0 <= t < |headers| ensures !IsSetupRequest(names[t]) && !IsSetupRequest(bodies[t]) {
      HeaderTablesIndexed(headers, contents, |headers|, t);
    }
    NoSetupAppend(names, [DefineHeaderNames]);
    NoSetupAppend(names + [DefineHeaderNames], bodies);
    NoSetupAppend(names + [DefineHeaderNames] + bodies, [DefineHeaderContents]);
  }

  /** definePTX declares, creates and compiles; it sets nothing up. */
  lemma PtxNoSetup(n: nat, code: string, headers: seq<string>, contents: seq<string>, options: seq<string>)
    requires |headers| == |contents|
    ensures NoSetup(PtxRequests(n, code, headers, contents, options))
  {
    var create := CreateRequests(ProgramName(n), headers, contents);
    if headers != [] {
      TablesNoSetup(headers, contents);
      NoSetupAppend(HeaderTables(headers, contents), [CreateProgram(ProgramName(n), |headers|, true)]);
    }
    var head: seq<Request> := [DeclareProgram(n), StoreSource(n, code)];
    var compile := CompileRequests(ProgramName(n), PtxBuffer(n), options);
    assert NoSetup(compile);
    NoSetupAppend(head, create);
    NoSetupAppend(head + create, compile);
  }

  /** Binding symbols declares handles and looks functions up; it sets
      nothing up. */
  lemma {:induction false} BindNoSetup(registered: seq<string>, names: seq<string>, n: nat)
    ensures NoSetup(Bind(registered, names, n).requests)
    decreases |names|
  {
    if names != [] && !(n > 0 && !CanDemangle(names[0])) {
      var s := names[0];
      var d := if s in registered then [] else DeclareHandles(s, n, n);
      var r := ResolveHandles(s, n, n);
      forall t | 0 <= t < n ensures !IsSetupRequest(r[t]) && (s !in registered ==> !IsSetupRequest(d[t])) {
        HandlesPerDevice(s, n, n, t);
      }
      NoSetupAppend(d, r);
      BindNoSetup(Register(registered, s), names[1..], n);
      NoSetupAppend(BindOne(registered, s, n), Bind(Register(registered, s), names[1..], n).requests);
    }
  }

  /** The compile stage makes no setup request. */
  lemma CompileNoSetup(c: Carried, env: Interpreter, headers: seq<string>, contents: seq<string>,
                       options: seq<string>, cell: string)
    requires |headers| == |contents|
    ensures NoSetup(CompileStage(c, env, headers, contents, options, cell).requests)
  {
    var n := c.index + 1;
    var loads := ModuleLoads(PtxBuffer(n), Devices(c.devices));
    forall t | 0 <= t < |loads| ensures !IsSetupRequest(loads[t]) {
      ModuleLoadsIndexed(PtxBuffer(n), Devices(c.devices), t);
    }
    PtxNoSetup(n, cell, headers, contents, options);
    BindNoSetup(c.registered, ExtractFunctionNames(env.ptx), Devices(c.devices));
    NoSetupAppend(PtxRequests(n, cell, headers, contents, options), loads);
    NoSetupAppend(PtxRequests(n, cell, headers, contents, options) + loads,
                  Bind(c.registered, ExtractFunctionNames(env.ptx), Devices(c.devices)).requests);
  }

  /** Once the setup has succeeded it is never run again: a later cell
      loads no library or header, defines no checker and declares no device
      variable, and it keeps the device count found the first time. */
  lemma SetupRunsOnce(c: Carried, env: Interpreter, path: string, info: bool, headers: seq<string>,
                      contents: seq<string>, options: seq<string>, cell: string)
    requires |headers| == |contents| && c.initialized
    ensures var e := SetupStage(c, env, path, info, headers, contents, options, cell);
      NoSetup(e.requests) && e.after.initialized && e.after.devices == c.devices
  {
    var report := ReportRequests(info, c.devices, env);
    assert NoSetup(report);
    if ReportSucceeds(info, c.devices, env) {
      CompileNoSetup(c, env, headers, contents, options, cell);
      NoSetupAppend(report, CompileStage(c, env, headers, contents, options, cell).requests);
    }
    assert SetupStage(c, env, path, info, headers, contents, options, cell).requests ==
      ReportStage(c, env, info, headers, contents, options, cell).requests;
  }

  /** The magic is initialized after a cell exactly when it was before or
      every checked setup call of this cell succeeded; a failed setup ends
      the cell, changes nothing it carries, and is retried by the next cell. */
  lemma SetupSucceedsIff(c: Carried, env: Interpreter, path: string, info: bool, headers: seq<string>,
                         contents: seq<string>, options: seq<string>, cell: string)
    requires |headers| == |contents|
    ensures var e := SetupStage(c, env, path, info, headers, contents, options, cell);
      (e.after.initialized <==> c.initialized || AllSucceed(CheckedSetup(path), env.failing)) &&
      (e.outcome == SetupFailed <==> !c.initialized && !AllSucceed(CheckedSetup(path), env.failing)) &&
      (e.outcome == SetupFailed ==> e.after == c && !e.compiled)
  {
  }

  /** On the first cell whose setup succeeds, every checked call is made in
      order and then initDevice declares the variables of every device the
      driver counted. */
  lemma FirstSetupComplete(c: Carried, env: Interpreter, path: string, info: bool, headers: seq<string>,
                           contents: seq<string>, options: seq<string>, cell: string)
    requires |headers| == |contents| && !c.initialized && AllSucceed(CheckedSetup(path), env.failing)
    ensures var e := SetupStage(c, env, path, info, headers, contents, options, cell);
      CheckedSetup(path) + InitRequests(env.deviceCount) <= e.requests &&
      e.after.devices == env.deviceCount &&
      forall d: nat :: DeclareModule(d) in e.requests[..|CheckedSetup(path) + InitRequests(env.deviceCount)|] <==>
        d < Devices(env.deviceCount)
  {
    var setup := CheckedSetup(path) + InitRequests(env.deviceCount);
    var e := SetupStage(c, env, path, info, headers, contents, options, cell);
    assert e.requests[..|setup|] == setup;
    forall d: nat ensures DeclareModule(d) in setup <==> d < Devices(env.deviceCount) {
      DeviceRequestsCover(Devices(env.deviceCount), d);
      assert setup == CheckedSetup(path) + [InitCuda, CountDevices] + DeviceRequests(Devices(env.deviceCount));
      assert DeclareModule(d) !in CheckedSetup(path) + [InitCuda, CountDevices];
    }
  }

  /** The compile stage starts with the declaration of the next program
      and grows the registered symbols without repeating one. */
  lemma CompileBookkeeping(c: Carried, env: Interpreter, headers: seq<string>, contents: seq<string>,
                           options: seq<string>, cell: string)
    requires |headers| == |contents|
    ensures var e := CompileStage(c, env, headers, contents, options, cell);
      e.requests != [] && e.requests[0] == DeclareProgram(c.index + 1) &&
      e.after.index == c.index + 1 && e.after.initialized == c.initialized && e.after.devices == c.devices &&
      c.registered <= e.after.registered &&
      (NoDup(c.registered) ==> NoDup(e.after.registered))
  {
    var names := ExtractFunctionNames(env.ptx);
    BindGrows(c.registered, names, Devices(c.devices));
    if NoDup(c.registered) {
      BindNoDup(c.registered, names, Devices(c.devices));
    }
  }

  /** The device report stage: a failure ends the cell before definePTX;
      otherwise the compile stage follows the report. */
  lemma ReportBookkeeping(c: Carried, env: Interpreter, info: bool, headers: seq<string>, contents: seq<string>,
                          options: seq<string>, cell: string)
    requires |headers| == |contents|
    ensures var e := ReportStage(c, env, info, headers, contents, options, cell);
      (e.compiled <==> e.outcome == Completed || e.outcome == DemangleFailed) &&
      e.after.index == c.index + (if e.compiled then 1 else 0) &&
      (e.compiled ==> DeclareProgram(e.after.index) in e.requests) &&
      c.registered <= e.after.registered &&
      (NoDup(c.registered) ==> NoDup(e.after.registered))
  {
    if ReportSucceeds(info, c.devices, env) {
      var report := ReportRequests(info, c.devices, env);
      var k := CompileStage(c, env, headers, contents, options, cell);
      CompileBookkeeping(c, env, headers, contents, options, cell);
      assert (report + k.requests)[|report|] == DeclareProgram(k.after.index);
    }
  }

  /** A cell that gets as far as definePTX ends completed or in the
      demangler, advances the cell number by exactly one and declares the
      program of that number; any other cell leaves the number alone. The
      registered symbols only grow and never repeat. */
  lemma StageBookkeeping(c: Carried, env: Interpreter, path: string, info: bool, headers: seq<string>,
                         contents: seq<string>, options: seq<string>, cell: string)
    requires |headers| == |contents|
    ensures var e := SetupStage(c, env, path, info, headers, contents, options, cell);
      (e.compiled <==> e.outcome == Completed || e.outcome == DemangleFailed) &&
      e.after.index == c.index + (if e.compiled then 1 else 0) &&
      (e.compiled ==> DeclareProgram(e.after.index) in e.requests) &&
      c.registered <= e.after.registered &&
      (NoDup(c.registered) ==> NoDup(e.after.registered))
  {
    if c.initialized || AllSucceed(CheckedSetup(path), env.failing) {
      var ready := if c.initialized then c else Carried(true, c.index, c.registered, env.deviceCount);
      var r := ReportStage(ready, env, info, headers, contents, options, cell);
      ReportBookkeeping(ready, env, info, headers, contents, options, cell);
      PrependKeeps(SetupRequests(c.initialized, path, env), r, DeclareProgram(r.after.index));
    }
  }

  /** Requests made ahead of a cell's rest change nothing else about it. */
  lemma PrependKeeps(reqs: seq<Request>, e: CellEffect, x: Request)
    ensures var p := Prepend(reqs, e);
      p.outcome == e.outcome && p.after == e.after && p.compiled == e.compiled &&
      (x in e.requests ==> x in p.requests)
  {
    if x in e.requests {
      var i :| 0 <= i < |e.requests| && e.requests[i] == x;
      assert (reqs + e.requests)[|reqs| + i] == x;
    }
  }

  /** The inputs of one cell once its headers have been discovered. */
  datatype CellInput = CellInput(env: Interpreter, path: string, info: bool, headers: seq<string>,
                                 contents: seq<string>, options: seq<string>, code: string)

  predicate WellFormedInputs(cells: seq<CellInput>) {
    forall k :: 0 <= k < |cells| ==> |cells[k].headers| == |cells[k].contents|
  }

  /** A session: the cells run one after the other, each from the state
      the previous one left. */
  function Run(c: Carried, cells: seq<CellInput>): (r: seq<CellEffect>)
    requires WellFormedInputs(cells)
    ensures |r| == |cells|
    decreases |cells|
  {
    if cells == [] then []
    else
      var x := cells[0];
      var e := SetupStage(c, x.env, x.path, x.info, x.headers, x.contents, x.options, x.code);
      [e] + Run(e.after, cells[1..])
  }

  lemma WellFormedTail(cells: seq<CellInput>)
    requires cells != [] && WellFormedInputs(cells)
    ensures WellFormedInputs(cells[1..]) && |cells[0].headers| == |cells[0].contents|
  {
    assert forall k :: 0 <= k < |cells| - 1 ==> cells[1..][k] == cells[k + 1];
  }

  /** Cell `e`, started from `c`, moved the cell number on by one exactly
      when it compiled. */
  predicate Advances(c: Carried, e: CellEffect) {
    e.after.index == c.index + (if e.compiled then 1 else 0)
  }

  /** Each effect of `r` advances from the state the previous one left. */
  predicate Chained(c: Carried, r: seq<CellEffect>)
    decreases |r|
  {
    r != [] ==> Advances(c, r[0]) && Chained(r[0].after, r[1..])
  }

  lemma {:induction false} RunChained(c: Carried, cells: seq<CellInput>)
    requires WellFormedInputs(cells)
    ensures Chained(c, Run(c, cells))
    decreases |cells|
  {
    if cells != [] {
      WellFormedTail(cells);
      var x := cells[0];
      var e := SetupStage(c, x.env, x.path, x.info, x.headers, x.contents, x.options, x.code);
      StageBookkeeping(c, x.env, x.path, x.info, x.headers, x.contents, x.options, x.code);
      RunChained(e.after, cells[1..]);
      assert Run(c, cells)[1..] == Run(e.after, cells[1..]);
    }
  }

  /** Along a chain the cell number never goes down, and a compiling cell
      leaves it above where the chain started. */
  lemma {:induction false} ChainAbove(c: Carried, r: seq<CellEffect>, k: nat)
    requires Chained(c, r) && k < |r|
    ensures c.index <= r[k].after.index && (r[k].compiled ==> c.index < r[k].after.index)
    decreases k
  {
    if k > 0 {
      ChainAbove(r[0].after, r[1..], k - 1);
      assert r[1..][k - 1] == r[k];
    }
  }

  /** Two compiling cells of a chain end with different cell numbers, the
      later one higher. */
  lemma {:induction false} ChainIncreasing(c: Carried, r: seq<CellEffect>, i: nat, j: nat)
    requires Chained(c, r) && i < j < |r| && r[j].compiled
    ensures r[i].after.index < r[j].after.index
    decreases i
  {
    if i == 0 {
      ChainAbove(r[0].after, r[1..], j - 1);
      assert r[1..][j - 1] == r[j];
    } else {
      ChainIncreasing(r[0].after, r[1..], i - 1, j - 1);
      assert r[1..][i - 1] == r[i] && r[1..][j - 1] == r[j];
    }
  }

  /** No two cells of a session that compile share a cell number, so no
      program variable or PTX buffer is declared twice. */
  lemma ProgramsNeverReused(c: Carried, cells: seq<CellInput>, i: nat, j: nat)
    requires WellFormedInputs(cells) && i < j < |cells|
    requires Run(c, cells)[j].compiled
    ensures var r := Run(c, cells);
      r[i].after.index < r[j].after.index &&
      ProgramName(r[i].after.index) != ProgramName(r[j].after.index) &&
      PtxBuffer(r[i].after.index) != PtxBuffer(r[j].after.index)
  {
    var r := Run(c, cells);
    RunChained(c, cells);
    ChainIncreasing(c, r, i, j);
    VariableNamesInjective(r[i].after.index, r[j].after.index);
  }
}
