/** The `%%nvrtc` cell magic (src/xmagics/nvrtc.cpp): the state it keeps
    across cells and the bookkeeping of one cell, with the interpreter as
    an oracle and the file system as a map. */
module Magic {
  import opened Wrappers
  import opened Text
  import opened Patterns
  import opened OptionLine
  import opened Comments
  import opened Includes
  import opened Symbols
  import opened Demangler
  import opened Session
  import opened Binding
  import opened Cell

  /** Recording a header that is new and readable keeps the lists in step. */
  lemma RecordHeader(files: map<string, string>, headers: seq<string>, contents: seq<string>, name: string)
    requires NoDup(headers) && Parallel(files, headers, contents)
    requires name in files && name !in headers
    ensures NoDup(headers + [name]) && Parallel(files, headers + [name], contents + [files[name]])
  {
    var h := headers + [name];
    forall i, j | 0 <= i < j < |h| ensures h[i] != h[j] {
      if j == |headers| {
        assert h[i] == headers[i];
      }
    }
  }

  lemma NewSymbolKeepsNoDup(registered: seq<string>, s: string)
    requires NoDup(registered) && s !in registered
    ensures NoDup(registered + [s])
  {
    var r := registered + [s];
    forall i, j | 0 <= i < j < |r| ensures r[i] != r[j] {
      if j == |registered| {
        assert r[i] == registered[i];
      }
    }
  }

  /** The groups of an iterator over the matches of a table, appended one
      match at a time. */
  method CollectGroups(t: seq<Option<Match>>) returns (groups: seq<string>)
    requires WellFormed(t) && t != []
    ensures groups == Captures(AllMatches(t, 0))
  {
    var pos := 0;
    groups := [];
    while true
      invariant pos < |t|
      invariant groups + Captures(AllMatches(t, pos)) == Captures(AllMatches(t, 0))
      decreases |t| - pos
    {
      var m := Search(t, pos);
      CapturesSearch(t, pos);
      if m.None? {
        break;
      }
      groups := groups + [m.value.capture];
      pos := m.value.end;
    }
    assert groups + [] == groups;
  }

  class NvrtcMagic {
    var initializationDone: bool
    var index: nat
    var printDeviceInfo: bool
    var compilerOptions: seq<string>
    var foundHeaders: seq<string>
    var foundContent: seq<string>
    var listOfNames: seq<string>
    var registeredFunctionNames: seq<string>
    var foundCUDADevices: int
    /** Every interpreter request made so far, in order. */
    ghost var log: seq<Request>

    ghost predicate Valid()
      reads this
    {
      NoDup(foundHeaders) && |foundContent| == |foundHeaders| &&
      NoDup(registeredFunctionNames)
    }

    constructor ()
      ensures !initializationDone && index == 0 && !printDeviceInfo && foundCUDADevices == 0
      ensures compilerOptions == [] && foundHeaders == [] && foundContent == []
      ensures listOfNames == [] && registeredFunctionNames == [] && log == []
      ensures Valid()
    {
      initializationDone := false;
      index := 0;
      printDeviceInfo := false;
      compilerOptions := [];
      foundHeaders := [];
      foundContent := [];
      listOfNames := [];
      registeredFunctionNames := [];
      foundCUDADevices := 0;
      log := [];
    }

    /** One call into the interpreter whose result is not looked at. */
    method Issue(r: Request)
      modifies this`log
      ensures log == old(log) + [r]
    {
      log := log + [r];
    }

    /** One call whose success the magic checks. */
    method Interpret(env: Interpreter, r: Request) returns (ok: bool)
      modifies this`log
      ensures log == old(log) + [r]
      ensures ok == (r !in env.failing)
    {
      Issue(r);
      ok := r !in env.failing;
    }

    /** generateNVRTC: one `%%nvrtc` cell with invocation line `line`. The
        options and the headers are read first; a header that cannot be read
        ends the cell before any request, and otherwise the setup, report and
        compile stages run from the state the previous cells left. */
    method GenerateNvrtc(env: Interpreter, files: map<string, string>, line: string, cell: string) returns (outcome: Outcome)
      requires Valid()
      modifies this
      ensures Valid()
      ensures printDeviceInfo == HasGpuInfoFlag(line) && compilerOptions == CompileOptionsOf(line)
      ensures foundHeaders == Discover(files, cell, []).found && Parallel(files, foundHeaders, foundContent)
      ensures Discover(files, cell, []).missing.Some? ==>
        outcome == HeaderMissing(Discover(files, cell, []).missing.value) && log == old(log) &&
        Carried(initializationDone, index, registeredFunctionNames, foundCUDADevices) ==
          Carried(old(initializationDone), old(index), old(registeredFunctionNames), old(foundCUDADevices)) &&
        listOfNames == old(listOfNames)
      ensures Discover(files, cell, []).missing.None? ==>
        var e := SetupStage(Carried(old(initializationDone), old(index), old(registeredFunctionNames), old(foundCUDADevices)),
                            env, CudaIncludePath(line), printDeviceInfo, foundHeaders, foundContent, compilerOptions, cell);
        outcome == e.outcome && log == old(log) + e.requests &&
        Carried(initializationDone, index, registeredFunctionNames, foundCUDADevices) == e.after &&
        listOfNames == if e.compiled then ExtractFunctionNames(env.ptx) else old(listOfNames)
    {
      var missing := ReadCell(files, line, cell);
      if missing.Some? {
        return HeaderMissing(missing.value);
      }
      outcome := SetupAndRun(env, CudaIncludePath(line), cell);
    }

    /** The start of generateNVRTC: the options of the line, then the headers
        of the cell, found afresh for every cell. */
    method ReadCell(files: map<string, string>, line: string, cell: string) returns (missing: Option<string>)
      modifies this`printDeviceInfo, this`compilerOptions, this`foundHeaders, this`foundContent
      ensures printDeviceInfo == HasGpuInfoFlag(line) && compilerOptions == CompileOptionsOf(line)
      ensures foundHeaders == Discover(files, cell, []).found && missing == Discover(files, cell, []).missing
      ensures NoDup(foundHeaders) && Parallel(files, foundHeaders, foundContent)
    {
      var status := GetCompileOptions(line);
      foundHeaders := [];
      foundContent := [];
      missing := GetIncludePaths(files, cell);
    }

    /** The part of generateNVRTC after include discovery: the setup block,
        run until it has once succeeded, then the report and compile stages. */
    method SetupAndRun(env: Interpreter, includePath: string, cell: string) returns (outcome: Outcome)
      requires Valid()
      modifies this`log, this`index, this`listOfNames, this`registeredFunctionNames
      modifies this`initializationDone, this`foundCUDADevices
      ensures Valid()
      ensures var e := SetupStage(Carried(old(initializationDone), old(index), old(registeredFunctionNames), old(foundCUDADevices)),
                                  env, includePath, printDeviceInfo, foundHeaders, foundContent, compilerOptions, cell);
        outcome == e.outcome && log == old(log) + e.requests &&
        Carried(initializationDone, index, registeredFunctionNames, foundCUDADevices) == e.after &&
        listOfNames == if e.compiled then ExtractFunctionNames(env.ptx) else old(listOfNames)
    {
      ghost var c := Carried(initializationDone, index, registeredFunctionNames, foundCUDADevices);
      ghost var setup := SetupRequests(c.initialized, includePath, env);
      if !initializationDone {
        var ok := Initialize(env, includePath);
        if !ok {
          return SetupFailed;
        }
      }
      ghost var ready := Carried(initializationDone, index, registeredFunctionNames, foundCUDADevices);
      assert ready == if c.initialized then c else Carried(true, c.index, c.registered, env.deviceCount);
      assert log == old(log) + setup;
      assert c.initialized || AllSucceed(CheckedSetup(includePath), env.failing);
      ghost var r := ReportStage(ready, env, printDeviceInfo, foundHeaders, foundContent, compilerOptions, cell);
      outcome := ReportAndCompile(env, cell);
      AppendAssoc(old(log), setup, r.requests);
    }

    /** The part of generateNVRTC after the setup: the device report, whose
        failure ends the cell, then definePTX and generateKernelFunction. */
    method ReportAndCompile(env: Interpreter, cell: string) returns (outcome: Outcome)
      requires Valid()
      modifies this`log, this`index, this`listOfNames, this`registeredFunctionNames
      ensures Valid()
      ensures var e := ReportStage(Carried(initializationDone, old(index), old(registeredFunctionNames), foundCUDADevices),
                                   env, printDeviceInfo, foundHeaders, foundContent, compilerOptions, cell);
        outcome == e.outcome && log == old(log) + e.requests &&
        index == e.after.index && registeredFunctionNames == e.after.registered &&
        listOfNames == if e.compiled then ExtractFunctionNames(env.ptx) else old(listOfNames)
    {
      var status := ReportDevices(env);
      if status != Completed {
        return status;
      }
      ghost var reported := log;
      outcome := CompileAndBind(env, cell);
      AppendAssoc(old(log), ReportRequests(printDeviceInfo, foundCUDADevices, env), log[|reported|..]);
    }

    method ReportDevices(env: Interpreter) returns (outcome: Outcome)
      modifies this`log
      ensures log == old(log) + ReportRequests(printDeviceInfo, foundCUDADevices, env)
      ensures outcome == if ReportSucceeds(printDeviceInfo, foundCUDADevices, env) then Completed
        else if printDeviceInfo && ShowDeviceInfo in env.failing then DeviceInfoFailed else DeviceNamesFailed
    {
      var status: int;
      if printDeviceInfo {
        status := GetDeviceInfo(env);
        if status != SUCCESS {
          return DeviceInfoFailed;
        }
      }
      status := PrintDeviceName(env);
      if status != SUCCESS {
        return DeviceNamesFailed;
      }
      return Completed;
    }

    method CompileAndBind(env: Interpreter, cell: string) returns (outcome: Outcome)
      requires Valid()
      modifies this`log, this`index, this`listOfNames, this`registeredFunctionNames
      ensures Valid()
      ensures var e := CompileStage(Carried(initializationDone, old(index), old(registeredFunctionNames), foundCUDADevices),
                                    env, foundHeaders, foundContent, compilerOptions, cell);
        outcome == e.outcome && log == old(log) + e.requests &&
        index == e.after.index && registeredFunctionNames == e.after.registered &&
        listOfNames == ExtractFunctionNames(env.ptx)
    {
      ghost var start := log;
      ghost var e := CompileStage(Carried(initializationDone, index, registeredFunctionNames, foundCUDADevices),
                                  env, foundHeaders, foundContent, compilerOptions, cell);
      ghost var b := Bind(registeredFunctionNames, ExtractFunctionNames(env.ptx), Devices(foundCUDADevices));
      var status := DefinePtx(env, cell);
      ghost var ptx := PtxRequests(index, cell, foundHeaders, foundContent, compilerOptions);
      ghost var loads := ModuleLoads(PtxBuffer(index), Devices(foundCUDADevices));
      assert e.requests == (ptx + loads) + b.requests;
      var aborted := GenerateKernelFunction();
      assert log == (start + ptx) + loads + b.requests;
      AppendAssoc(start, ptx, loads);
      AppendAssoc(start, ptx + loads, b.requests);
      outcome := if aborted then DemangleFailed else Completed;
    }

    /** The block of generateNVRTC that runs until the setup has once
        succeeded: each checked step may end it, initDevice cannot. */
    method Initialize(env: Interpreter, includePath: string) returns (ok: bool)
      requires !initializationDone
      modifies this`log, this`foundCUDADevices, this`initializationDone
      ensures ok == AllSucceed(CheckedSetup(includePath), env.failing)
      ensures initializationDone == ok
      ensures foundCUDADevices == if ok then env.deviceCount else old(foundCUDADevices)
      ensures log == old(log) + SetupRequests(false, includePath, env)
    {
      ghost var start := log;
      ghost var libs, headers, checks := LibraryRequests(), IncludeRequests(includePath), CheckErrorRequests();
      ghost var all := CheckedSetup(includePath);
      ghost var tried := Attempted(all, env.failing);
      SetupChain(includePath, env.failing);
      var status := LoadLibraries(env);
      if status != SUCCESS {
        assert log == start + tried;
        return false;
      }
      AttemptedStops(libs, env.failing);
      status := LoadIncludes(env, includePath);
      if status != SUCCESS {
        AppendAssoc(start, libs, Attempted(headers, env.failing));
        assert log == start + tried;
        return false;
      }
      AttemptedStops(headers, env.failing);
      status := DefineCudaCheckError(env);
      if status != SUCCESS {
        AppendAssoc(start, libs, headers);
        AppendAssoc(start, libs + headers, Attempted(checks, env.failing));
        assert log == start + tried;
        return false;
      }
      AttemptedStops(checks, env.failing);
      status := DeclareNvrtcVar(env);
      if status != SUCCESS {
        AppendAssoc(start, libs, headers);
        AppendAssoc(start, libs + headers, checks);
        AppendAssoc(start, libs + headers + checks, Attempted([DeclareResultVar], env.failing));
        assert log == start + tried;
        return false;
      }
      AttemptedStops([DeclareResultVar], env.failing);
      AppendAssoc(start, libs, headers);
      AppendAssoc(start, libs + headers, checks);
      AppendAssoc(start, libs + headers + checks, [DeclareResultVar]);
      assert log == start + all;
      // initDevice always returns 0, so the check after it never fires
      status := InitDevice(env);
      AppendAssoc(start, all, InitRequests(env.deviceCount));
      initializationDone := true;
      return true;
    }

    /** getCompileOptions: the flag, and the options replacing the old ones. */
    method GetCompileOptions(line: string) returns (status: int)
      modifies this`printDeviceInfo, this`compilerOptions
      ensures printDeviceInfo == HasGpuInfoFlag(line)
      ensures compilerOptions == CompileOptionsOf(line)
      ensures status == SUCCESS
    {
      if Search(MatchTable(GpuInfoFlag, line), 0).Some? {
        printDeviceInfo := true;
      } else {
        printDeviceInfo := false;
      }
      compilerOptions := CollectGroups(MatchTable(CompilerOption, line));
      status := SUCCESS;
    }

    /** getIncludePaths: every directive of the comment-free text, left to
        right; a header not yet found is read, recorded with its content
        and walked before the search goes on. */
    method GetIncludePaths(files: map<string, string>, content: string) returns (missing: Option<string>)
      requires NoDup(foundHeaders) && Parallel(files, foundHeaders, foundContent)
      modifies this`foundHeaders, this`foundContent
      ensures foundHeaders == Discover(files, content, old(foundHeaders)).found
      ensures missing == Discover(files, content, old(foundHeaders)).missing
      ensures NoDup(foundHeaders) && Parallel(files, foundHeaders, foundContent)
      ensures old(foundContent) <= foundContent
      decreases files.Keys - Names(foundHeaders)
    {
      var code := RemoveComments(content);
      var t := MatchTable(IncludeDirective, code);
      var searchStart := 0;
      while true
        invariant searchStart <= |code|
        invariant old(foundHeaders) <= foundHeaders && old(foundContent) <= foundContent
        invariant NoDup(foundHeaders) && Parallel(files, foundHeaders, foundContent)
        invariant DiscoverNames(files, Captures(AllMatches(t, searchStart)), foundHeaders) ==
          Discover(files, content, old(foundHeaders))
        decreases |code| - searchStart
      {
        var m := Search(t, searchStart);
        CapturesSearch(t, searchStart);
        if m.None? {
          missing := None;
          return;
        }
        var name := m.value.capture;
        ghost var rest := Captures(AllMatches(t, m.value.end));
        DiscoverNamesCons(files, name, rest, foundHeaders);
        if name !in foundHeaders {
          if name !in files {
            missing := Some(name);
            return;
          }
          var tempContent := files[name];
          NamesShrink(files, old(foundHeaders), foundHeaders + [name], |foundHeaders|);
          RecordHeader(files, foundHeaders, foundContent, name);
          ghost var headers, contents := foundHeaders, foundContent;
          foundHeaders := foundHeaders + [name];
          foundContent := foundContent + [tempContent];
          missing := GetIncludePaths(files, tempContent);
          PrefixTrans(old(foundHeaders), headers + [name], foundHeaders);
          PrefixTrans(old(foundContent), contents + [tempContent], foundContent);
          if missing.Some? {
            return;
          }
        }
        searchStart := m.value.end;
      }
    }

    /** loadLibrarys: the NVRTC library, then the CUDA driver library. */
    method LoadLibraries(env: Interpreter) returns (status: int)
      modifies this`log
      ensures log == old(log) + Attempted(LibraryRequests(), env.failing)
      ensures status == if AllSucceed(LibraryRequests(), env.failing) then SUCCESS else ERROR_CODE
    {
      var ok := Interpret(env, LoadLibrary("libnvrtc.so"));
      if !ok {
        return ERROR_CODE;
      }
      ok := Interpret(env, LoadLibrary("cuda.so"));
      if !ok {
        return ERROR_CODE;
      }
      return SUCCESS;
    }

    /** loadIncludes: `nvrtc.h` and `cuda.h` from the given directory, or
        from the default one when the path is empty. */
    method LoadIncludes(env: Interpreter, includePath: string) returns (status: int)
      modifies this`log
      ensures log == old(log) + Attempted(IncludeRequests(includePath), env.failing)
      ensures status == if AllSucceed(IncludeRequests(includePath), env.failing) then SUCCESS else ERROR_CODE
    {
      var nvrtcHeader := DEFAULT_INCLUDE_DIR + "nvrtc.h";
      var cudaHeader := DEFAULT_INCLUDE_DIR + "cuda.h";
      if includePath != "" {
        nvrtcHeader := includePath + "nvrtc.h";
        cudaHeader := includePath + "cuda.h";
      }
      var ok := Interpret(env, LoadHeader(nvrtcHeader));
      if !ok {
        return ERROR_CODE;
      }
      ok := Interpret(env, LoadHeader(cudaHeader));
      if !ok {
        return ERROR_CODE;
      }
      return SUCCESS;
    }

    /** defineCUDACheckError: `iostream`, then one checkCudaError overload
        for NVRTC results and one for driver results. */
    method DefineCudaCheckError(env: Interpreter) returns (status: int)
      modifies this`log
      ensures log == old(log) + Attempted(CheckErrorRequests(), env.failing)
      ensures status == if AllSucceed(CheckErrorRequests(), env.failing) then SUCCESS else ERROR_CODE
    {
      var ok := Interpret(env, LoadHeader("iostream"));
      if !ok {
        return ERROR_CODE;
      }
      ok := Interpret(env, DefineCheckError(NvrtcApi));
      if !ok {
        return ERROR_CODE;
      }
      ok := Interpret(env, DefineCheckError(CudaApi));
      if !ok {
        return ERROR_CODE;
      }
      return SUCCESS;
    }

    /** declareNVRTCVar: the variable compile results are stored in. */
    method DeclareNvrtcVar(env: Interpreter) returns (status: int)
      modifies this`log
      ensures log == old(log) + Attempted([DeclareResultVar], env.failing)
      ensures status == if AllSucceed([DeclareResultVar], env.failing) then SUCCESS else ERROR_CODE
    {
      var ok := Interpret(env, DeclareResultVar);
      if !ok {
        return ERROR_CODE;
      }
      return SUCCESS;
    }

    /** initDevice: the driver is initialised, the devices counted, and each
        device gets its device, context and module variables. A failed
        declaration is reported and ignored, so the step always succeeds. */
    method InitDevice(env: Interpreter) returns (status: int)
      modifies this`log, this`foundCUDADevices
      ensures foundCUDADevices == env.deviceCount
      ensures log == old(log) + InitRequests(env.deviceCount)
      ensures status == SUCCESS
    {
      Issue(InitCuda);
      Issue(CountDevices);
      foundCUDADevices := env.deviceCount;
      var i := 0;
      while i < foundCUDADevices
        invariant 0 <= i <= Devices(foundCUDADevices) && foundCUDADevices == env.deviceCount
        invariant log == old(log) + [InitCuda, CountDevices] + DeviceRequests(i)
        modifies this`log
      {
        DeclareDeviceVars(env, i);
        i := i + 1;
      }
      return 0;
    }

    /** One iteration of initDevice's loop, for device `i`. */
    method DeclareDeviceVars(env: Interpreter, i: nat)
      modifies this`log
      ensures log == old(log) + [DeclareDevice(i), GetDevice(i), DeclareContext(i), CreateContext(i), DeclareModule(i)]
    {
      var declared := Interpret(env, DeclareDevice(i));
      Issue(GetDevice(i));
      Issue(DeclareContext(i));
      Issue(CreateContext(i));
      Issue(DeclareModule(i));
    }

    /** getDeviceInfo: the device count, then the inventory block, whose
        failure is the step's. */
    method GetDeviceInfo(env: Interpreter) returns (status: int)
      modifies this`log
      ensures log == old(log) + [ShowDeviceCount, ShowDeviceInfo]
      ensures status == if ShowDeviceInfo in env.failing then ERROR_CODE else SUCCESS
    {
      Issue(ShowDeviceCount);
      var ok := Interpret(env, ShowDeviceInfo);
      if !ok {
        return ERROR_CODE;
      }
      return SUCCESS;
    }

    /** printDeviceName: the device listing, only with several devices. */
    method PrintDeviceName(env: Interpreter) returns (status: int)
      modifies this`log
      ensures log == old(log) + (if foundCUDADevices > 1 then [ShowDeviceNames] else [])
      ensures status == if foundCUDADevices > 1 && ShowDeviceNames in env.failing then ERROR_CODE else SUCCESS
    {
      if foundCUDADevices > 1 {
        var ok := Interpret(env, ShowDeviceNames);
        if !ok {
          return ERROR_CODE;
        }
      }
      return SUCCESS;
    }

    /** definePTX: the cell number goes up by one before anything is
        declared; the program is created with the headers found (none:
        count 0 and no tables), compiled with the options (none: count 0
        and no array), and its PTX read back to extract the kernel names.
        Compilation failure is reported by the interpreter and not seen
        here: the step always returns SUCCESS. */
    method DefinePtx(env: Interpreter, code: string) returns (status: int)
      requires |foundContent| == |foundHeaders|
      modifies this`index, this`log, this`listOfNames
      ensures index == old(index) + 1
      ensures log == old(log) + PtxRequests(index, code, foundHeaders, foundContent, compilerOptions)
      ensures listOfNames == ExtractFunctionNames(env.ptx)
      ensures status == SUCCESS
    {
      index := index + 1;
      var prog := ProgramName(index);
      Issue(DeclareProgram(index));
      Issue(StoreSource(index, code));
      ghost var declared := log;
      CreateProgramWithHeaders(prog);
      ghost var created := log;
      CompileAndRead(prog, PtxBuffer(index));
      listOfNames := ExtractFunctionNames(env.ptx);
      return SUCCESS;
    }

    /** nvrtcCreateProgram with the headers found, if any. */
    method CreateProgramWithHeaders(prog: string)
      requires |foundContent| == |foundHeaders|
      modifies this`log
      ensures log == old(log) + CreateRequests(prog, foundHeaders, foundContent)
    {
      if |foundHeaders| == 0 {
        Issue(CreateProgram(prog, 0, false));
      } else {
        DefineHeaders();
        Issue(CreateProgram(prog, |foundHeaders|, true));
      }
    }

    /** nvrtcCompileProgram with the options, if any; then the compile
        errors reported and the PTX read back. */
    method CompileAndRead(prog: string, buffer: string)
      modifies this`log
      ensures log == old(log) + CompileRequests(prog, buffer, compilerOptions)
    {
      if |compilerOptions| == 0 {
        Issue(CompileProgram(prog, 0, false));
      } else {
        Issue(DefineOptions(compilerOptions));
        Issue(CompileProgram(prog, |compilerOptions|, true));
      }
      Issue(ReportCompileErrors(prog));
      Issue(ReadPtx(prog, buffer));
    }

    /** The two header loops of definePTX: every name, the name table,
        every content, the content table. */
    method DefineHeaders()
      requires |foundContent| == |foundHeaders|
      modifies this`log
      ensures log == old(log) + HeaderTables(foundHeaders, foundContent)
    {
      DefineHeaderNameTable();
      Issue(DefineHeaderNames);
      DefineHeaderContentTable();
      Issue(DefineHeaderContents);
    }

    method DefineHeaderNameTable()
      modifies this`log
      ensures log == old(log) + HeaderNameRequests(foundHeaders, |foundHeaders|)
    {
      var headerIndex := 0;
      while headerIndex < |foundHeaders|
        invariant headerIndex <= |foundHeaders|
        invariant log == old(log) + HeaderNameRequests(foundHeaders, headerIndex)
      {
        Issue(DefineHeaderName(headerIndex, foundHeaders[headerIndex]));
        headerIndex := headerIndex + 1;
      }
    }

    method DefineHeaderContentTable()
      modifies this`log
      ensures log == old(log) + HeaderContentRequests(foundContent, |foundContent|)
    {
      var headerIndex := 0;
      while headerIndex < |foundContent|
        invariant headerIndex <= |foundContent|
        invariant log == old(log) + HeaderContentRequests(foundContent, headerIndex)
      {
        Issue(DefineHeaderContent(headerIndex, foundContent[headerIndex]));
        headerIndex := headerIndex + 1;
      }
    }

    /** generateKernelFunction: the cell's PTX loaded into every device's
        module, then each symbol bound; a symbol `demangle` cannot take
        apart ends the magic with an exception. */
    method GenerateKernelFunction() returns (aborted: bool)
      requires NoDup(registeredFunctionNames)
      modifies this`log, this`registeredFunctionNames
      ensures NoDup(registeredFunctionNames)
      ensures var b := Bind(old(registeredFunctionNames), listOfNames, Devices(foundCUDADevices));
        registeredFunctionNames == b.registered && aborted == b.aborted &&
        log == old(log) + ModuleLoads(PtxBuffer(index), Devices(foundCUDADevices)) + b.requests
    {
      LoadModules();
      aborted := BindNames();
    }

    /** The first loop of generateKernelFunction: the cell's PTX into every
        device's module. */
    method LoadModules()
      modifies this`log
      ensures log == old(log) + ModuleLoads(PtxBuffer(index), Devices(foundCUDADevices))
    {
      ghost var n := Devices(foundCUDADevices);
      var i := 0;
      while i < foundCUDADevices
        invariant i <= n
        invariant log == old(log) + ModuleLoads(PtxBuffer(index), i)
      {
        Issue(LoadModule(i, PtxBuffer(index)));
        i := i + 1;
      }
    }

    /** The symbol loop of generateKernelFunction. */
    method BindNames() returns (aborted: bool)
      requires NoDup(registeredFunctionNames)
      modifies this`log, this`registeredFunctionNames
      ensures NoDup(registeredFunctionNames)
      ensures var b := Bind(old(registeredFunctionNames), listOfNames, Devices(foundCUDADevices));
        registeredFunctionNames == b.registered && aborted == b.aborted &&
        log == old(log) + b.requests
    {
      ghost var n := Devices(foundCUDADevices);
      ghost var b := Bind(registeredFunctionNames, listOfNames, n);
      var k := 0;
      while k < |listOfNames|
        invariant k <= |listOfNames| && NoDup(registeredFunctionNames)
        invariant Ahead(log, Bind(registeredFunctionNames, listOfNames[k..], n)) == Ahead(old(log), b)
      {
        var s := listOfNames[k];
        // the first demangle(s) inside the device loops throws before any
        // request for `s` is made
        if foundCUDADevices > 0 && !CanDemangle(s) {
          return true;
        }
        ghost var before, one := log, BindOne(registeredFunctionNames, s, n);
        ghost var rest := Bind(Register(registeredFunctionNames, s), listOfNames[k + 1..], n);
        assert Bind(registeredFunctionNames, listOfNames[k..], n) == Ahead(one, rest);
        BindSymbol(s);
        AppendAssoc(before, one, rest.requests);
        k := k + 1;
      }
      assert listOfNames[k..] == [];
      return false;
    }

    /** One symbol of generateKernelFunction: a handle per device when it is
        new (then it is registered), and a lookup on every device. */
    method BindSymbol(s: string)
      requires NoDup(registeredFunctionNames)
      requires foundCUDADevices > 0 ==> CanDemangle(s)
      modifies this`log, this`registeredFunctionNames
      ensures NoDup(registeredFunctionNames)
      ensures registeredFunctionNames == Register(old(registeredFunctionNames), s)
      ensures log == old(log) + BindOne(old(registeredFunctionNames), s, Devices(foundCUDADevices))
    {
      ghost var n := Devices(foundCUDADevices);
      ghost var registered := registeredFunctionNames;
      ghost var declared: seq<Request> := [];
      if s !in registeredFunctionNames {
        DeclareSymbol(s);
        declared := DeclareHandles(s, n, n);
        NewSymbolKeepsNoDup(registeredFunctionNames, s);
        registeredFunctionNames := registeredFunctionNames + [s];
      }
      assert log == old(log) + declared;
      assert BindOne(registered, s, n) == declared + ResolveHandles(s, n, n);
      // a symbol seen before is only looked up again, once per device
      ResolveSymbol(s);
      AppendAssoc(old(log), declared, ResolveHandles(s, n, n));
    }

    /** The first device loop of one new symbol: a `CUfunction` handle per
        device. */
    method DeclareSymbol(s: string)
      requires foundCUDADevices > 0 ==> CanDemangle(s)
      modifies this`log
      ensures log == old(log) + DeclareHandles(s, Devices(foundCUDADevices), Devices(foundCUDADevices))
    {
      ghost var n := Devices(foundCUDADevices);
      ghost var pre := log;
      var count := foundCUDADevices;
      var i := 0;
      while i < count
        invariant count == foundCUDADevices
        invariant 0 <= i <= n
        invariant log == pre + DeclareHandles(s, n, i)
      {
        var handle := DeviceHandle(s, i);
        Issue(DeclareHandle(handle));
        DeclareHandlesStep(pre, s, n, i);
        i := i + 1;
      }
    }

    /** The second device loop: the symbol looked up in every device's module. */
    method ResolveSymbol(s: string)
      requires foundCUDADevices > 0 ==> CanDemangle(s)
      modifies this`log
      ensures log == old(log) + ResolveHandles(s, Devices(foundCUDADevices), Devices(foundCUDADevices))
    {
      ghost var n := Devices(foundCUDADevices);
      ghost var pre := log;
      var count := foundCUDADevices;
      var i := 0;
      while i < count
        invariant count == foundCUDADevices
        invariant 0 <= i <= n
        invariant log == pre + ResolveHandles(s, n, i)
      {
        var handle := DeviceHandle(s, i);
        Issue(ResolveFunction(handle, i, s));
        ResolveHandlesStep(pre, s, n, i);
        i := i + 1;
      }
    }

    /** The handle name both device loops compute for symbol `s` on device
        `i`: the demangled name, with `_GPU<i>` appended unless there is
        exactly one device. */
    method DeviceHandle(s: string, i: nat) returns (handle: string)
      requires foundCUDADevices > 0 && CanDemangle(s)
      ensures handle == HandleName(s, i, Devices(foundCUDADevices))
    {
      var name := Demangle(s);
      handle := if foundCUDADevices == 1 then name else name + "_GPU" + NatToString(i);
    }
  }
}
