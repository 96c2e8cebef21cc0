/** The cling interpreter as the cell magic sees it (src/xmagics/nvrtc.cpp):
    every call the magic makes is a request; whether a request succeeds,
    how many devices the driver reports and what PTX text comes back are
    inputs, and the requests issued are the observable behaviour. */
module Session {
  import opened Text

  /** Return codes of the source's setup steps. */
  const SUCCESS: int := 0
  const ERROR_CODE: int := -1

  datatype Api = NvrtcApi | CudaApi

  /** One interpreter call, named after what the C++ snippet it carries does. */
  datatype Request =
    | LoadLibrary(lib: string)                  // loadLibrary
    | LoadHeader(header: string)                // loadHeader
    | DefineCheckError(api: Api)                // the two checkCudaError overloads
    | DeclareResultVar                          // nvrtcResult XCnvrtc_result
    | InitCuda                                  // cuInit(0)
    | CountDevices                              // cuDeviceGetCount
    | DeclareDevice(device: nat)                // XCnvrtc_device<i>
    | GetDevice(device: nat)                    // cuDeviceGet
    | DeclareContext(device: nat)               // XCnvrtc_cuContext<i>
    | CreateContext(device: nat)                // cuCtxCreate
    | DeclareModule(device: nat)                // XCnvrtc_cuModule<i>
    | ShowDeviceCount                           // the device count on the console
    | ShowDeviceInfo                            // the per-device inventory block
    | ShowDeviceNames                           // the device name listing
    | DeclareProgram(index: nat)                // XCnvrtc_prog<n> and XCnvrtc_ptxSize<n>
    | StoreSource(index: nat, code: string)     // the cell text as a raw string
    | DefineHeaderName(position: nat, name: string)        // XCnvrtc_header<i>_name
    | DefineHeaderNames                         // XCnvrtc_header_names
    | DefineHeaderContent(position: nat, content: string)  // XCnvrtc_header<i>_content
    | DefineHeaderContents                      // XCnvrtc_headers
    | CreateProgram(program: string, headerCount: nat, withHeaders: bool)
    | DefineOptions(options: seq<string>)
    | CompileProgram(program: string, optionCount: nat, withOptions: bool)
    | ReportCompileErrors(program: string)
    | ReadPtx(program: string, buffer: string)  // size, buffer, nvrtcGetPTX, ptxString
    | LoadModule(device: nat, buffer: string)   // cuModuleLoadData
    | DeclareHandle(handle: string)             // CUfunction <handle>
    | ResolveFunction(handle: string, device: nat, symbol: string)  // cuModuleGetFunction

  /** The interpreter, as far as the magic can observe it. `deviceCount` is
      what `cuDeviceGetCount` leaves in the counted variable and `ptx` the
      text of `ptxString` for this cell. */
  datatype Interpreter = Interpreter(failing: set<Request>, deviceCount: int, ptx: string)

  /** Every request succeeds. */
  predicate AllSucceed(reqs: seq<Request>, failing: set<Request>) {
    forall k :: 0 <= k < |reqs| ==> reqs[k] !in failing
  }

  /** A chain of checked calls that returns at the first failure: the
      requests actually issued. */
  function Attempted(reqs: seq<Request>, failing: set<Request>): (r: seq<Request>)
    ensures r <= reqs
    decreases |reqs|
  {
    if reqs == [] then []
    else if reqs[0] in failing then [reqs[0]]
    else [reqs[0]] + Attempted(reqs[1..], failing)
  }

  /** All requests are issued when all succeed; otherwise the chain stops
      right after the first failing one. */
  lemma {:induction false} AttemptedStops(reqs: seq<Request>, failing: set<Request>)
    ensures AllSucceed(reqs, failing) ==> Attempted(reqs, failing) == reqs
    ensures !AllSucceed(reqs, failing) ==>
      var a := Attempted(reqs, failing);
      a != [] && a[|a| - 1] in failing && AllSucceed(a[..|a| - 1], failing)
    decreases |reqs|
  {
    if reqs != [] && reqs[0] !in failing {
      AttemptedStops(reqs[1..], failing);
      var a := Attempted(reqs[1..], failing);
      assert Attempted(reqs, failing) == [reqs[0]] + a;
      if !AllSucceed(reqs, failing) {
        var k :| 0 <= k < |reqs| && reqs[k] in failing;
        assert reqs[1..][k - 1] == reqs[k];
        assert ([reqs[0]] + a)[..|a|] == [reqs[0]] + a[..|a| - 1];
      } else {
        assert AllSucceed(reqs[1..], failing) by {
          forall k | 0 <= k < |reqs| - 1 ensures reqs[1..][k] !in failing {
            assert reqs[1..][k] == reqs[k + 1];
          }
        }
        assert reqs == [reqs[0]] + reqs[1..];
      }
    }
  }

  /** Two chains succeed together exactly when each does. */
  lemma AllSucceedAppend(a: seq<Request>, b: seq<Request>, failing: set<Request>)
    ensures AllSucceed(a + b, failing) <==> AllSucceed(a, failing) && AllSucceed(b, failing)
  {
    if AllSucceed(a + b, failing) {
      forall k | 0 <= k < |a| ensures a[k] !in failing {
        assert (a + b)[k] == a[k];
      }
      forall k | 0 <= k < |b| ensures b[k] !in failing {
        assert (a + b)[|a| + k] == b[k];
      }
    }
  }

  /** Two checked chains run one after the other. */
  lemma {:induction false} AttemptedAppend(a: seq<Request>, b: seq<Request>, failing: set<Request>)
    ensures Attempted(a + b, failing) ==
      if AllSucceed(a, failing) then a + Attempted(b, failing) else Attempted(a, failing)
    ensures AllSucceed(a + b, failing) <==> AllSucceed(a, failing) && AllSucceed(b, failing)
    decreases |a|
  {
    AllSucceedAppend(a, b, failing);
    if a == [] {
      assert a + b == b;
    } else {
      var rest := a[1..];
      assert (a + b)[0] == a[0] && (a + b)[1..] == rest + b;
      if a[0] in failing {
        assert !AllSucceed(a, failing);
        assert Attempted(a + b, failing) == [a[0]];
      } else {
        AttemptedAppend(rest, b, failing);
        assert a == [a[0]] + rest;
        AllSucceedAppend([a[0]], rest, failing);
        assert Attempted(a + b, failing) == [a[0]] + Attempted(rest + b, failing);
        if AllSucceed(rest, failing) {
          assert [a[0]] + (rest + Attempted(b, failing)) == a + Attempted(b, failing);
        }
      }
    }
  }

  /** loadLibrarys: the NVRTC library, then the CUDA driver library. */
  function LibraryRequests(): seq<Request> {
    [LoadLibrary("libnvrtc.so"), LoadLibrary("cuda.so")]
  }

  const DEFAULT_INCLUDE_DIR: string := "/usr/local/cuda/include/"

  /** loadIncludes: the directory from `-cudaPath`, or the default one when
      none was given. */
  function HeaderDir(includePath: string): string {
    if includePath != "" then includePath else DEFAULT_INCLUDE_DIR
  }

  function IncludeRequests(includePath: string): seq<Request> {
    [LoadHeader(HeaderDir(includePath) + "nvrtc.h"), LoadHeader(HeaderDir(includePath) + "cuda.h")]
  }

  /** defineCUDACheckError: `iostream`, then the NVRTC and the CUDA overloads. */
  function CheckErrorRequests(): seq<Request> {
    [LoadHeader("iostream"), DefineCheckError(NvrtcApi), DefineCheckError(CudaApi)]
  }

  /** The setup calls whose failure aborts the cell, in order: four steps of
      generateNVRTC's one-time setup (initDevice never fails). */
  function CheckedSetup(includePath: string): seq<Request> {
    LibraryRequests() + IncludeRequests(includePath) + CheckErrorRequests() + [DeclareResultVar]
  }

  /** The per-device variables initDevice declares, devices 0 to n-1. */
  function DeviceRequests(n: nat): (r: seq<Request>)
    ensures |r| == 5 * n
    decreases n
  {
    if n == 0 then []
    else DeviceRequests(n - 1) + [DeclareDevice(n - 1), GetDevice(n - 1), DeclareContext(n - 1), CreateContext(n - 1), DeclareModule(n - 1)]
  }

  /** A count the driver reports, as a loop bound: a negative one runs no iteration. */
  function Devices(count: int): nat {
    if count < 0 then 0 else count
  }

  /** initDevice: `cuInit`, the count query, then each device's variables. */
  function InitRequests(count: int): seq<Request> {
    [InitCuda, CountDevices] + DeviceRequests(Devices(count))
  }

  /** Each device's variables are declared exactly once, whatever the order. */
  lemma {:induction false} DeviceRequestsCover(n: nat, d: nat)
    ensures DeclareDevice(d) in DeviceRequests(n) <==> d < n
    ensures GetDevice(d) in DeviceRequests(n) <==> d < n
    ensures DeclareContext(d) in DeviceRequests(n) <==> d < n
    ensures CreateContext(d) in DeviceRequests(n) <==> d < n
    ensures DeclareModule(d) in DeviceRequests(n) <==> d < n
    decreases n
  {
    if n > 0 {
      DeviceRequestsCover(n - 1, d);
      var tail := [DeclareDevice(n - 1), GetDevice(n - 1), DeclareContext(n - 1), CreateContext(n - 1), DeclareModule(n - 1)];
      assert DeviceRequests(n) == DeviceRequests(n - 1) + tail;
      assert DeclareDevice(d) in tail <==> d == n - 1;
      assert GetDevice(d) in tail <==> d == n - 1;
      assert DeclareContext(d) in tail <==> d == n - 1;
      assert CreateContext(d) in tail <==> d == n - 1;
      assert DeclareModule(d) in tail <==> d == n - 1;
    }
  }

  /** The header paths handed to the interpreter are absolute whenever the
      directory comes from the option line. */
  lemma HeaderPathsAbsolute(includePath: string)
    requires includePath == "" || (includePath[0] == '/' && includePath[|includePath| - 1] == '/')
    ensures var h := HeaderDir(includePath);
      h != [] && h[0] == '/' && h[|h| - 1] == '/'
  {
  }

  /** `path` is absolute and names the file `name` inside some directory. */
  predicate AbsoluteIn(path: string, name: string) {
    |path| > |name| && path[0] == '/' && path[|path| - |name| - 1..] == "/" + name
  }

  /** Both headers of loadIncludes are absolute paths into one directory
      whenever the directory given is empty or slash-delimited. */
  lemma IncludeRequestsAbsolute(includePath: string)
    requires includePath == "" || (includePath[0] == '/' && includePath[|includePath| - 1] == '/')
    ensures var reqs := IncludeRequests(includePath);
      |reqs| == 2 && reqs[0].LoadHeader? && reqs[1].LoadHeader? &&
      AbsoluteIn(reqs[0].header, "nvrtc.h") && AbsoluteIn(reqs[1].header, "cuda.h") &&
      reqs[0].header[..|reqs[0].header| - 7] == reqs[1].header[..|reqs[1].header| - 6]
  {
    var dir := HeaderDir(includePath);
    HeaderPathsAbsolute(includePath);
    var a, b := dir + "nvrtc.h", dir + "cuda.h";
    assert a[0] == dir[0] && b[0] == dir[0];
    assert a[|a| - 8..] == [dir[|dir| - 1]] + "nvrtc.h";
    assert b[|b| - 7..] == [dir[|dir| - 1]] + "cuda.h";
    assert a[..|a| - 7] == dir && b[..|b| - 6] == dir;
  }

  /** With no directory given, the headers come from the default one. */
  lemma DefaultIncludeRequests()
    ensures IncludeRequests("") == [LoadHeader("/usr/local/cuda/include/nvrtc.h"), LoadHeader("/usr/local/cuda/include/cuda.h")]
  {
    assert DEFAULT_INCLUDE_DIR + "nvrtc.h" == "/usr/local/cuda/include/nvrtc.h";
    assert DEFAULT_INCLUDE_DIR + "cuda.h" == "/usr/local/cuda/include/cuda.h";
  }

  /** `XCnvrtc_prog<n>`: the program variable of the n-th kernel cell. */
  function ProgramName(index: nat): string {
    "XCnvrtc_prog" + NatToString(index)
  }

  /** `XCnvrtc_ptx<n>`: the PTX buffer of the n-th kernel cell. */
  function PtxBuffer(index: nat): string {
    "XCnvrtc_ptx" + NatToString(index)
  }

  /** Distinct cells have distinct program variables and PTX buffers, so no
      declaration collides with an earlier one. */
  lemma VariableNamesInjective(m: nat, n: nat)
    ensures ProgramName(m) == ProgramName(n) ==> m == n
    ensures PtxBuffer(m) == PtxBuffer(n) ==> m == n
  {
    if ProgramName(m) == ProgramName(n) {
      assert ProgramName(m)[12..] == NatToString(m);
      assert ProgramName(n)[12..] == NatToString(n);
      NatToStringInjective(m, n);
    }
    if PtxBuffer(m) == PtxBuffer(n) {
      assert PtxBuffer(m)[11..] == NatToString(m);
      assert PtxBuffer(n)[11..] == NatToString(n);
      NatToStringInjective(m, n);
    }
  }
}
