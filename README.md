# The `%%nvrtc` cell magic, modelled in Dafny

The xeus-cling magic `xcpp::nvrtc` (src/xmagics/nvrtc.cpp) compiles the CUDA
code of a notebook cell at run time with NVRTC, then loads the PTX into every
device's module and declares one `CUfunction` handle per kernel and device.
All of this happens inside the cling interpreter. This project models what the
magic keeps on the host side:

- the invocation line: the `-GPUInfo` flag, the repeatable `-co <token>`
  option and the `-cudaPath <dir>` header directory;
- the headers a cell includes, read depth-first with comments stripped;
- the one-time setup, gated by `initializationDone`;
- the cell counter `index`, which names each cell's program and PTX buffer;
- the kernel symbols of the PTX, demangled, and the rule that registers them.

The magic is a class, `Magic.NvrtcMagic`, with the source's nine fields. It also
has a ghost `log`, which records every call made into the interpreter as a
`Session.Request`, in order. The interpreter is an input, `Session.Interpreter`,
which gives three things:

- which requests fail;
- how many devices `cuDeviceGetCount` reports;
- the PTX text of the cell.

Files are a `map` from path to content. Each `std::regex` is a left-to-right
scanner: `Patterns.MatchAt` takes a match at one position, `Patterns.Search`
finds the leftmost one, `Patterns.AllMatches` plays `sregex_iterator` and
`Patterns.RemoveMatches` plays `regex_replace`. Each setup step of the source is
a method that appends its requests to `log`. Each method is specified by a
function of the inputs: `Cell.SetupStage`, `Cell.ReportStage`,
`Cell.CompileStage`, `Cell.PtxRequests`, `Binding.Bind` and the others in the
table. Lemmas about those functions state what the magic promises within a
cell and across a session of cells (`Cell.Run`).

The modules follow the source's structure:

- `Text`: character classes, `std::to_string` and `std::stoi`;
- `Patterns`: the scanners;
- `OptionLine`: getCompileOptions and getCudaIncludePath;
- `Comments`: removeComments;
- `Includes`: getIncludePaths;
- `Symbols`: extractFunctionNames;
- `Demangler`: demangle;
- `Session`: requests, the interpreter and the setup chains;
- `Binding`: the registration rule of generateKernelFunction;
- `Cell`: the requests of one cell and the lemmas about sessions;
- `Magic`: the class.

Two consequences of the code, as written, are worth stating:

- registration happens even when compilation fails. definePTX returns
  SUCCESS at its end whatever NVRTC reported
  (src/xmagics/nvrtc.cpp:376), and generateNVRTC ignores its result
  (src/xmagics/nvrtc.cpp:46-47);
- the length digits are used as written, with no check against the name
  that follows. So `_Z7myKernelPf` demangles to `myKerne__lPf`, and only
  `_Z8myKernelPf` gives `myKernel__Pf` (src/xmagics/nvrtc.cpp:537-547).

## Model

| member | source | states |
|---|---|---|
| Magic.NvrtcMagic.constructor | src/xmagics/nvrtc.hpp:21-33 | A fresh magic is not initialized, every list is empty, the cell counter is 0 and nothing has been requested. |
| Magic.NvrtcMagic.GenerateNvrtc | src/xmagics/nvrtc.cpp:17-48 | The fields are set as follows: the flag and the options from the line, and the headers found afresh, each in step with its file's content. A header that cannot be read ends the cell: no request is made and nothing carried over changes. Otherwise the requests, the outcome and the new state are those of `Cell.SetupStage` from the old state. |
| Magic.NvrtcMagic.ReadCell | src/xmagics/nvrtc.cpp:19-23 | The flag and options come from the line. The header lists are cleared and then refilled by `Includes.Discover` from the cell; they hold no duplicates and stay parallel to the files' contents. |
| Magic.NvrtcMagic.SetupAndRun | src/xmagics/nvrtc.cpp:25-47 | The setup runs only while the magic is not initialized and ends the cell when it fails. Then the report and compile stages run. The log, outcome and carried state match `Cell.SetupStage`. |
| Magic.NvrtcMagic.Initialize | src/xmagics/nvrtc.cpp:25-38 | The setup succeeds exactly when all checked calls succeed. Only then is `initializationDone` set and the device count stored. The log gets the calls up to and including the first failing one, or all of them followed by initDevice's requests. |
| Magic.NvrtcMagic.ReportAndCompile | src/xmagics/nvrtc.cpp:39-47 | A failed device report ends the cell before definePTX. Otherwise definePTX and generateKernelFunction run, as `Cell.ReportStage` says. |
| Magic.NvrtcMagic.ReportDevices | src/xmagics/nvrtc.cpp:39-43 | The inventory is requested only with `-GPUInfo`, and the name listing only with more than one device. The outcome names the step that failed. |
| Magic.NvrtcMagic.CompileAndBind | src/xmagics/nvrtc.cpp:46-47 | The cell counter goes up by one, the symbols are bound, and the log gets exactly the requests of `Cell.CompileStage`. A symbol that cannot be demangled gives the demangle-failure outcome. |
| Magic.NvrtcMagic.GetCompileOptions | src/xmagics/nvrtc.cpp:50-69 | The flag is whether `-GPUInfo` is followed by a space or the end of the line. `compilerOptions` is replaced, not extended, by every `-co` token in order. |
| Magic.CollectGroups | src/xmagics/nvrtc.cpp:59-67 | The iterator loop collects the group of every non-overlapping match, left to right. |
| Magic.NvrtcMagic.GetIncludePaths | src/xmagics/nvrtc.cpp:71-101 | The headers recorded and the missing header are those of `Includes.Discover`. The lists stay duplicate-free and parallel, and earlier contents are kept. It terminates because fewer files remain unrecorded at each recursion. |
| Magic.RecordHeader | src/xmagics/nvrtc.cpp:84-87 | Appending a new readable header and its content keeps the lists duplicate-free and in step. |
| Magic.NvrtcMagic.LoadLibraries | src/xmagics/nvrtc.cpp:103-119 | The NVRTC library is loaded, then the driver library. The chain stops at the first failure and reports it. |
| Magic.NvrtcMagic.LoadIncludes | src/xmagics/nvrtc.cpp:121-145 | `nvrtc.h` is loaded, then `cuda.h`, both from the given directory or from the default one. The chain stops at the first failure. |
| Magic.NvrtcMagic.DefineCudaCheckError | src/xmagics/nvrtc.cpp:147-170 | `iostream` is loaded, then the two checker overloads are defined. The chain stops at the first failure. |
| Magic.NvrtcMagic.DeclareNvrtcVar | src/xmagics/nvrtc.cpp:172-180 | The result variable is declared, and the step fails exactly when that declaration fails. |
| Magic.NvrtcMagic.InitDevice | src/xmagics/nvrtc.cpp:182-208 | The device count is the driver's. Each device gets its five variable declarations, in device order. The step always returns 0. |
| Magic.NvrtcMagic.DeclareDeviceVars | src/xmagics/nvrtc.cpp:192-206 | One loop iteration issues device `i`'s five requests in source order. A failed declaration does not stop it. |
| Magic.NvrtcMagic.GetDeviceInfo | src/xmagics/nvrtc.cpp:210-259 | The count is shown, then the inventory; the step fails exactly when the inventory block fails. |
| Magic.NvrtcMagic.PrintDeviceName | src/xmagics/nvrtc.cpp:462-487 | The listing is requested only with more than one device, and the step fails only when that request fails. |
| Magic.NvrtcMagic.DefinePtx | src/xmagics/nvrtc.cpp:261-377 | `index` goes up by exactly one before anything is declared. The log gets `Cell.PtxRequests` for the new index. `listOfNames` becomes the PTX's symbols. The step always returns SUCCESS. |
| Magic.NvrtcMagic.CreateProgramWithHeaders | src/xmagics/nvrtc.cpp:286-327 | With no header, the program is created with count 0 and no tables. Otherwise both tables are defined and the program is created with count `\|foundHeaders\|`. |
| Magic.NvrtcMagic.DefineHeaders | src/xmagics/nvrtc.cpp:296-321 | Every header name is defined, then the name table, then every content, then the content table. |
| Magic.NvrtcMagic.DefineHeaderNameTable | src/xmagics/nvrtc.cpp:298-305 | Header `t`'s name is defined as entry `t`, for every header in order. |
| Magic.NvrtcMagic.DefineHeaderContentTable | src/xmagics/nvrtc.cpp:313-319 | Header `t`'s content is defined as entry `t`, for every content in order. |
| Magic.NvrtcMagic.CompileAndRead | src/xmagics/nvrtc.cpp:329-366 | With no option, the program is compiled with count 0 and no array. Otherwise the option array is defined and its size is passed. Then the error report and the PTX read follow. |
| Magic.NvrtcMagic.GenerateKernelFunction | src/xmagics/nvrtc.cpp:379-445 | The PTX is loaded into every device's module, then the symbols are bound as `Binding.Bind` says. The registered list stays duplicate-free. |
| Magic.NvrtcMagic.LoadModules | src/xmagics/nvrtc.cpp:386-390 | Device `i`'s module gets this cell's buffer, for every device in order. |
| Magic.NvrtcMagic.BindNames | src/xmagics/nvrtc.cpp:392-442 | Every symbol of the cell is bound in order. The loop stops at the first symbol that cannot be demangled when there is a device. |
| Magic.NvrtcMagic.BindSymbol | src/xmagics/nvrtc.cpp:394-441 | A new symbol gets a handle per device and is registered. Every symbol is looked up on every device. |
| Magic.NewSymbolKeepsNoDup | src/xmagics/nvrtc.cpp:394-411 | Registering a symbol that was not yet registered keeps the list duplicate-free. |
| Magic.NvrtcMagic.DeclareSymbol | src/xmagics/nvrtc.cpp:396-410 | One `CUfunction` handle is declared per device, in device order. |
| Magic.NvrtcMagic.ResolveSymbol | src/xmagics/nvrtc.cpp:429-441 | Each device's handle is looked up in that device's own module. |
| Magic.NvrtcMagic.DeviceHandle | src/xmagics/nvrtc.cpp:398-409 | The handle is the demangled name alone for one device, and `_GPU<i>` appended otherwise. |
| Binding.HandlesDistinct | src/xmagics/nvrtc.cpp:406 | The handles of one symbol on different devices never clash. |
| Binding.HandlesPerDevice | src/xmagics/nvrtc.cpp:396-441 | Device `t` gets the `t`-th declaration and the `t`-th lookup, each under its own handle, in its own module. |
| Binding.ModuleLoadsIndexed | src/xmagics/nvrtc.cpp:386-390 | Device `t`'s module is the `t`-th to get the buffer. |
| Binding.BindGrows | src/xmagics/nvrtc.cpp:411 | The registered list only grows. |
| Binding.BindNoDup | src/xmagics/nvrtc.cpp:394-411 | A duplicate-free registered list stays duplicate-free. |
| Binding.BindAbortIff | src/xmagics/nvrtc.cpp:396-441 | Binding aborts exactly when there is a device and some symbol of the cell cannot be demangled. |
| Binding.BindRegistersAll | src/xmagics/nvrtc.cpp:392-412 | Unless binding aborts, every symbol of the cell ends up registered. Nothing but the old and the cell's symbols is ever registered. With zero devices a symbol is still registered. |
| Binding.AddedFromNames | src/xmagics/nvrtc.cpp:392-412 | Everything a binding adds comes from the cell's symbols. |
| Binding.DeclaredOnlyWhenNew | src/xmagics/nvrtc.cpp:394-411 | The handles declared are exactly those of the newly registered symbols, one per device, in registration order. |
| Binding.EverySymbolLookedUp | src/xmagics/nvrtc.cpp:429-441 | Every symbol of the cell is looked up on every device, registered before or not, in cell order. |
| Binding.RebindDeclaresNothing | src/xmagics/nvrtc.cpp:394-426 | Binding symbols that are all registered already registers and declares nothing. |
| Cell.PtxRequestsShape | src/xmagics/nvrtc.cpp:270-343 | The program of cell `n` is declared first. It is created with every header at its own position and with the header count (0 with none), and compiled with all options and their count. |
| Cell.HeaderTablesIndexed | src/xmagics/nvrtc.cpp:298-319 | Entry `t` of each header table defines header `t`'s name and content. |
| Cell.SetupChain | src/xmagics/nvrtc.cpp:25-33 | The checked setup succeeds exactly when each of its four steps does. What it requests is the four chains a step at a time, stopping inside the first failing one. |
| Cell.SetupSucceedsIff | src/xmagics/nvrtc.cpp:25-38 | After a cell the magic is initialized exactly when it was already, or when this cell's checked setup succeeded. A failed setup ends the cell with nothing carried over changed, so the next cell retries it. |
| Cell.SetupRunsOnce | src/xmagics/nvrtc.cpp:25-38 | Once initialized, a cell makes no setup request at all and keeps the device count found the first time. |
| Cell.FirstSetupComplete | src/xmagics/nvrtc.cpp:25-38 | The first successful setup makes every checked call in order, then declares the variables of exactly the devices the driver counted. |
| Cell.PtxNoSetup | src/xmagics/nvrtc.cpp:261-377 | definePTX makes no setup request. |
| Cell.BindNoSetup | src/xmagics/nvrtc.cpp:379-445 | Binding makes no setup request. |
| Cell.CompileBookkeeping | src/xmagics/nvrtc.cpp:261-445 | The compile stage starts by declaring the next program. It advances the counter by one and grows the registered list without duplicates. |
| Cell.StageBookkeeping | src/xmagics/nvrtc.cpp:17-48 | A cell completes or fails in demangle exactly when it reaches definePTX. Then it advances the counter by exactly one and declares that program; other cells leave the counter alone. Registered symbols only grow and stay duplicate-free. |
| Cell.ChainAbove | src/xmagics/nvrtc.cpp:270 | Along a session the counter never goes down, and a compiling cell leaves it above the start. |
| Cell.ProgramsNeverReused | src/xmagics/nvrtc.cpp:270-278 | Two compiling cells of a session end with different counters. So no `XCnvrtc_prog<n>` or `XCnvrtc_ptx<n>` is declared twice. |
| Session.AttemptedStops | src/xmagics/nvrtc.cpp:27-33 | A checked chain makes all its requests when all succeed. Otherwise it stops right after the first failing one. |
| Session.AttemptedAppend | src/xmagics/nvrtc.cpp:27-33 | Two checked chains in a row: the second runs only when the first succeeds. |
| Session.DeviceRequestsCover | src/xmagics/nvrtc.cpp:192-206 | Each of device `d`'s five requests (the device, its handle, the context variable, the context and the module) is made exactly when `d` is below the count. |
| Cell.HeaderPathsFromLine | src/xmagics/nvrtc.cpp:121-145 | Whatever the invocation line, loadIncludes asks for two absolute paths in one directory, `nvrtc.h` then `cuda.h`. With no `-cudaPath` they are `/usr/local/cuda/include/nvrtc.h` and `/usr/local/cuda/include/cuda.h`. |
| Session.IncludeRequestsAbsolute | src/xmagics/nvrtc.cpp:124-131 | An empty or slash-delimited directory gives two absolute header paths in that one directory. |
| Session.VariableNamesInjective | src/xmagics/nvrtc.cpp:270-278 | Different counters give different program and buffer names, which are built from the counter the same way. |
| OptionLine.CompileOptionsRoundTrip | src/xmagics/nvrtc.cpp:59-67 | Tokens written as `-co t1 -co t2 ...` are read back in order, duplicates kept. |
| OptionLine.CoAsToken | src/xmagics/nvrtc.cpp:59-67 | Matches do not overlap: `-co -co x` yields `["-co"]`. |
| OptionLine.CompileOptionsAreTokens | src/xmagics/nvrtc.cpp:59 | Every option is a non-empty token without white space. |
| OptionLine.GpuInfoFlagIff | src/xmagics/nvrtc.cpp:52-57 | The flag is set exactly when `-GPUInfo` occurs somewhere followed by white space or the end of the line, with no left boundary. |
| OptionLine.CudaIncludePath | src/xmagics/nvrtc.cpp:489-501 | The result is empty exactly when there is no `-cudaPath <token>`. Otherwise it starts and ends with `/`. |
| OptionLine.CudaIncludePathFirst | src/xmagics/nvrtc.cpp:489-501 | The first `-cudaPath`, followed by any non-empty run of white space and a token, gives that token, normalized. |
| OptionLine.CudaIncludePathTabExample | src/xmagics/nvrtc.cpp:489-501 | `-cudaPath` followed by a space and a tab before `/opt/cuda`, with a second `-cudaPath` later, gives `/opt/cuda/`. |
| OptionLine.NormalizeIncludeDir | src/xmagics/nvrtc.cpp:496-497 | Only a missing leading or trailing `/` is added, and the token is kept in between. |
| OptionLine.NormalizeIdempotent | src/xmagics/nvrtc.cpp:496-497 | A directory already starting and ending with `/` is returned unchanged, and normalizing twice is normalizing once. |
| Comments.RemoveComments | src/xmagics/nvrtc.cpp:514-522 | Removing comments never lengthens the code. |
| Comments.LineCommentDropped | src/xmagics/nvrtc.cpp:516 | A `//` comment is removed up to the line break, which is kept. |
| Comments.BlockCommentDropped | src/xmagics/nvrtc.cpp:518 | A block comment is removed as a whole when its body holds no `//` and no early closer, and no `/` follows it. A lone `/` in the body, as in a path, is allowed. |
| Comments.NoSlashUnchanged | src/xmagics/nvrtc.cpp:514-522 | Code without `/` is returned unchanged. |
| Comments.PlainPrefixKept | src/xmagics/nvrtc.cpp:514-522 | A prefix in which no comment opens (no `//`, no slash-star, no `/` at its end) is kept as it is. |
| Includes.Discover | src/xmagics/nvrtc.cpp:71-101 | The walk only appends to the headers found, records readable files only, and keeps the list duplicate-free. A reported missing header is unreadable and was not found before. |
| Includes.DiscoverClosed | src/xmagics/nvrtc.cpp:71-101 | A walk that ends without error records every include of the cell and of every header it recorded. |
| Includes.DiscoverReachable | src/xmagics/nvrtc.cpp:71-101 | The converse: every header recorded, and the header reported missing, is named by the cell or by a header recorded before it. With `Includes.DiscoverClosed`, a successful walk records exactly what the cell reaches. |
| Includes.MissingHeaderReported | src/xmagics/nvrtc.cpp:84-92 | An unreadable header named by the cell stops the walk with an error. |
| Includes.ClosedNoMissing | src/xmagics/nvrtc.cpp:503-507 | When every header met is readable, no error is raised. |
| Includes.CycleEnds | src/xmagics/nvrtc.cpp:84-88 | Two headers that include each other are each walked once, and the walk ends. |
| Includes.DiamondOnce | src/xmagics/nvrtc.cpp:84-88 | A header shared by two others is recorded once, in depth-first order. |
| Includes.DirectiveRead | src/xmagics/nvrtc.cpp:76 | `#include <n>` and `#include "n"` yield `n` when `n` holds no closing delimiter and no comment opener. Path separators, as in `cuda/std/cstdint`, are allowed. |
| Includes.LineCommentedInclude | src/xmagics/nvrtc.cpp:74 | An include behind `//` is not discovered. |
| Includes.BlockCommentedInclude | src/xmagics/nvrtc.cpp:74 | An include inside a block comment is not discovered, under the body condition of `Comments.BlockCommentDropped`, which covers `/* #include <a/b.h> */`. |
| Symbols.NamesAreWords | src/xmagics/nvrtc.cpp:451 | Every extracted name is made of word characters only, and may be empty. |
| Symbols.MarkerLinesRoundTrip | src/xmagics/nvrtc.cpp:447-460 | Names written one `// .globl` line each are read back in order, repeats and empty names included. |
| Symbols.MarkerRead | src/xmagics/nvrtc.cpp:451 | A marker with any non-line-break character in place of `.` yields its name. |
| Symbols.PlainTextSkipped | src/xmagics/nvrtc.cpp:447-460 | Text without `/` yields no name. |
| Demangler.Demangle | src/xmagics/nvrtc.cpp:524-548 | The loop of demangle computes `Demangler.DemangledName`. |
| Demangler.DemangleShape | src/xmagics/nvrtc.cpp:524-548 | Take two characters, digits `D` read as `L` and a tail `T`. The result is `T[..L] + "__" + T[L..]`, `\|D\|` characters shorter than the input. |
| Demangler.NoDigitsNoName | src/xmagics/nvrtc.cpp:539-545 | Without digits the length is 0 and the result is `"__"` followed by everything after the first two characters. |
| Demangler.OverlongLengthIgnored | src/xmagics/nvrtc.cpp:544-546 | A length beyond `int` is caught, and the name is empty. |
| Demangler.LengthPastEndRejected | src/xmagics/nvrtc.cpp:547 | A length that runs past the end makes the final `substr` throw. |
| Demangler.MyKernelExample | src/xmagics/nvrtc.cpp:524-548 | `_Z8myKernelPf` becomes `myKernel__Pf`. |
| Demangler.ShortLengthExample | src/xmagics/nvrtc.cpp:524-548 | `_Z7myKernelPf` becomes `myKerne__lPf`. |
| Text.StoiLeadingZero | src/xmagics/nvrtc.cpp:537-546 | A leading zero in the length digits does not change the length the demangler reads. |
| Text.StoiRoundTrip | src/xmagics/nvrtc.cpp:537-546 | Every value an `int` holds, printed by `std::to_string`, is read back unchanged. |
| Text.DecimalValueOfNatToString | src/xmagics/nvrtc.cpp:272 | The decimal value of a printed counter is the counter. |
| Text.NatToStringInjective | src/xmagics/nvrtc.cpp:272 | Different numbers print differently. |

## Left out

- Console output (`std::cout`, `std::cerr`) and the C++ text of each interpreter call. A request stands for the snippet by its parameters.
- Several interpreter calls of definePTX are folded into one request each. `DeclareProgram` covers the program and size declarations. `ReadPtx` covers the size query, the buffer, `nvrtcGetPTX` and `ptxString`.
- The cling interpreter itself, the CUDA driver and NVRTC. They are an input that says which requests fail, what the device count is and what the PTX text is.
- The device inventory and listing code run inside the interpreter (src/xmagics/nvrtc.cpp:215-253, 468-479), including its compute-capability comparison. Only the request and whether it succeeds are modelled.
- `mime_repr` and the JSON lookup of the PTX text (src/xmagics/nvrtc.cpp:371-374). The PTX text is an input.
- File input: readFileToString is a lookup in a map, and its exception is the missing-header outcome.
- Bytes. Strings here are sequences of Unicode characters, while `std::string` holds bytes. A multi-byte character in the marker's `.` position of extractFunctionNames, or in a name whose length the demangler counts, behaves differently in the source.
- The `std::regex` engine. Each pattern is a hand-written scanner, reading `\s`, `\S` and `\w` as ECMAScript does.
- Integer widths. `index` is unbounded. In the source it is a fixed-width integer whose declaration is not part of this model, so a wrap-around after that width is not modelled. The device count, whose declaration is also missing and which is used as an `int` (the `int i` loops), is taken as given, and a negative count runs no loop.
- Magic.NvrtcMagic.BindNames: the `std::out_of_range` that `demangle` throws for a length past the end is modelled as a check made before that symbol's device loops. The exception leaves the magic. The model ends the cell with the demangle-failure outcome and keeps the requests and registrations made for earlier symbols. What the kernel does with the exception is not modelled.
- src/xmagics/nvrtc.hpp is not part of this model beyond the initial state. It declares `loadIncludes` without the parameter the definition takes. It declares neither `index` nor `foundCUDADevices` (nor the list fields), so starting both at 0 is the model's choice, not the header's.
- The `operator()` entry point (src/xmagics/nvrtc.cpp:12-15) only forwards to generateNVRTC.
