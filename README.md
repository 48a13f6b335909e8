# HiSH core, modelled in Dafny

HiSH runs an Alpine Linux VM inside an OpenHarmony application and shows the
VM's serial console in a web-view terminal. This project models four parts of
it and proves properties of the models:

- **The console bridge.** This is the native module `napi_init.cpp`.
  - `convert_to_hex` escapes console output into printable text.
  - `call_data_callback` decides whether a chunk reaches the host.
  - `send` writes host input to the serial socket.
  - `terminal_worker` waits for the socket, copies its path into `sun_path`, and runs the poll/read loop.
  - `startVM` builds the emulator's command line.
  - `getQemuSystemEntry` caches the emulator entry point and falls back to another ABI directory.
- **The image-tool runner.** This is `qemu_runner.cpp`.
  - It finds `libqemu-img.so` next to itself, using the C library's `dirname`, or by bare name.
  - It rebuilds the tool's command line.
  - It returns its exit code and its JSON error texts.
- **The terminal page.** This is `term.js`.
  - `strToUint8Array` turns binary strings into bytes.
  - It maps cursor shapes and falls back to 80x24 when fitting fails.
  - It retries a bounded number of times while the native bridge object is missing.
  - It runs the screensaver state machine around the matrix rain.
- **The matrix rain.** This is the `Trail` and `MatrixRain` classes of `matrix.js`.
  - `term.js` holds the same two classes at lines 146-329. They are modelled once, in module `Rain`, and `TermPage` uses them.

The files and their modules:

| file | module | models |
|---|---|---|
| `base.dfy` | `Base` | bytes, UTF-16 code units, `Option`, `Min`/`Max` |
| `console_escape.dfy` | `ConsoleEscape` | `convert_to_hex` and a strict decoder that inverts it |
| `console_bridge.dfy` | `ConsoleBridge` | delivery gate, `send`, `sun_path` copy, socket wait, read loop, `terminal_worker` |
| `vm_launch.dfy` | `VmLaunch` | `startVM`'s argument table and `argc` count, `getQemuSystemEntry` |
| `qemu_runner.dfy` | `QemuRunner` | musl `dirname`, the argv rewrite, `main` |
| `rain.dfy` | `Rain` | `Trail` and `MatrixRain` |
| `term_page.dfy` | `TermPage` | binary strings, the terminal's set-up, the page state and screensaver |

The source keeps mutable state in several places: the module globals `stdin_pipe_fd`, `on_data_callback` and `on_exit_callback`, the function-local static entry cache, the JavaScript classes and the page's `let` variables. Each becomes a Dafny `class`. Each method's postcondition states every field that the method may change. Rain changes are stated through the two-state predicates `Rain.Repainted`, `Rain.SameSettings`, `Rain.DrewFrame`, `Rain.Idle`, `Rain.Started` and `Rain.LeftScreensaver`, and the page's reset through `TermPage.Page.ScreensaverReset`.

The outside world becomes parameters:
- `Math.random()` results are reals in [0, 1).
- `Date.now()` and `requestAnimationFrame` handles are integers.
- `access` probes and `poll`/`read` results are sequences of outcomes.
- `dlopen`/`dlsym` are a map from paths to entry points.
- `write` is a `Peer` object that accepts a non-empty prefix of what it is given, or fails.

Every loop of the source is a `while` loop with invariants, proved against a specification function:
- `convert_to_hex`, `send`'s write loop and the `argc` count;
- the `memset`/`strncpy` pair, the socket wait and the poll/read loop;
- the `push_back` loop of the runner and `dirname`'s three backward scans;
- `strToUint8Array`, `build`, `update`, `draw`, `resize` and `setCharSet`.

## Model

| member | source | states |
|---|---|---|
| `ConsoleEscape.ConvertToHex` | entry/src/main/cpp/napi_init.cpp:160-176 | The result is the escape of the first `r` bytes, byte by byte in order. A count of zero or less gives the empty string. |
| `ConsoleEscape.HexDigit` | entry/src/main/cpp/napi_init.cpp:165 | `%02x` prints a lowercase hex digit whose value is the nibble. |
| `ConsoleEscape.EscapeByteShape` | entry/src/main/cpp/napi_init.cpp:163-173 | A byte below 32 or at/above 127 becomes exactly 4 characters: `\x` and two lowercase hex digits whose value is the byte. `'`, `"` and `\` become a backslash and the character. Any other byte is copied. |
| `ConsoleEscape.EscapeConcat` | entry/src/main/cpp/napi_init.cpp:160-176 | Escaping a concatenation gives the concatenation of the escapes. Chunk boundaries do not matter. |
| `ConsoleEscape.EscapeSnoc` | entry/src/main/cpp/napi_init.cpp:162-174 | One more byte appends exactly its own escape. This is one step of the loop. |
| `ConsoleEscape.EscapeLength` | entry/src/main/cpp/napi_init.cpp:160-176 | The output is between 1 and 4 times as long as the input. |
| `ConsoleEscape.EscapePrintable` | entry/src/main/cpp/napi_init.cpp:163-173 | Every output character is printable ASCII (32..126). |
| `ConsoleEscape.UnescapeEscape` | entry/src/main/cpp/napi_init.cpp:163-173 | Decodability: the strict decoder recovers the bytes from every escape, because `\` is never emitted bare. |
| `ConsoleEscape.EscapeUnescape` | entry/src/main/cpp/napi_init.cpp:163-173 | The converse: every text the decoder accepts is the escape of what it decodes to. |
| `ConsoleEscape.EscapeInjective` | entry/src/main/cpp/napi_init.cpp:160-176 | Different byte chunks never print the same. |
| `ConsoleBridge.Handover` | entry/src/main/cpp/napi_init.cpp:178-184 | A chunk is delivered, as an exact copy, exactly when it is non-empty and a data callback is registered. Otherwise nothing is delivered. |
| `ConsoleBridge.NoPreRegistrationBuffer` | entry/src/main/cpp/napi_init.cpp:179-183 | Output received while no callback is registered is lost. Once one is registered, exactly the later non-empty chunks reach it, in order. |
| `ConsoleBridge.Bridge.CallDataCallback` | entry/src/main/cpp/napi_init.cpp:178-184 | The deliveries grow by exactly the handover of this chunk. |
| `ConsoleBridge.Bridge.constructor` | entry/src/main/cpp/napi_init.cpp:32-34 | No socket is connected yet (`stdin_pipe_fd == -1`), and nothing has been delivered or notified. |
| `ConsoleBridge.Peer.Write` | entry/src/main/cpp/napi_init.cpp:353 | `write` returns -1, or a count from 1 to `n`. The peer receives exactly that many leading bytes. |
| `ConsoleBridge.Bridge.Send` | entry/src/main/cpp/napi_init.cpp:323-356 | Nothing is written, and the outcome is `NotConnected`, exactly when no socket is connected. Otherwise the outcome is `Sent` exactly when the peer received all the input bytes, in order, across partial writes. A failed write leaves the peer with a strict prefix of the input. |
| `ConsoleBridge.CLength` | entry/src/main/cpp/napi_init.cpp:206 | The C string length is the number of bytes before the first NUL, or all of them. |
| `ConsoleBridge.CopySunPath` | entry/src/main/cpp/napi_init.cpp:204-206 | After `memset` and `strncpy`, `sun_path` holds the path's bytes up to its NUL, cut to 107, then NULs. |
| `ConsoleBridge.SunPathReadsBack` | entry/src/main/cpp/napi_init.cpp:204-206 | The field is always NUL-terminated. The string it holds is the socket path cut to at most `sizeof(sun_path) - 1` bytes. |
| `ConsoleBridge.FirstSuccess` | entry/src/main/cpp/napi_init.cpp:188-194 | The index found is the first successful probe, and `None` means no probe succeeded. |
| `ConsoleBridge.WaitForSocket` | entry/src/main/cpp/napi_init.cpp:188-194 | The wait loop leaves at the first successful `access` probe, having slept 50 ms after each failure before it. Without a success it keeps waiting. |
| `ConsoleBridge.WaitHasNoBound` | entry/src/main/cpp/napi_init.cpp:188-194 | No number of failed probes ends the wait: there is no time-out. |
| `ConsoleBridge.IterationAsWritten` | entry/src/main/cpp/napi_init.cpp:217-242 | One turn as written. It breaks when the read fails, or whenever the uninitialised `broken` happens to be true. Data turns yield the escaped bytes. |
| `ConsoleBridge.UninitialisedBrokenEndsQuietSession` | entry/src/main/cpp/napi_init.cpp:217-242 | As written, a poll time-out can end the loop although nothing failed. With `broken` initialised to false it does not. |
| `ConsoleBridge.IterationStopsOnlyOnReadError` | entry/src/main/cpp/napi_init.cpp:225-242 | With `broken` initialised, a turn breaks exactly on a failed read. A read of data always yields a non-empty chunk. |
| `ConsoleBridge.Bridge.Turn` | entry/src/main/cpp/napi_init.cpp:219-242 | One turn escapes the bytes read, hands them over, and reports broken exactly on a failed read. |
| `ConsoleBridge.SessionStopsAtFirstReadError` | entry/src/main/cpp/napi_init.cpp:215-243 | The loop ends at the first failed read. The chunks before it are delivered and nothing after it is. |
| `ConsoleBridge.SessionWithoutReadErrorContinues` | entry/src/main/cpp/napi_init.cpp:215-243 | Without a failed read the loop never ends, even when `read` returns 0 on a closed connection. |
| `ConsoleBridge.SessionAfterLoop` | entry/src/main/cpp/napi_init.cpp:215-243 | Where the loop leaves off determines the session. The turns before it are delivered, and it stopped exactly when a failed read follows. |
| `ConsoleBridge.Bridge.Turns` | entry/src/main/cpp/napi_init.cpp:215-243 | The `while (true)` loop runs turns, delivering each chunk, until the first failed read or the end of the results. |
| `ConsoleBridge.Bridge.ReadLoop` | entry/src/main/cpp/napi_init.cpp:215-247 | The deliveries are those of the session up to the first failed read. The exit callback runs once, only after a failed read and only when registered. |
| `ConsoleBridge.Bridge.TerminalWorker` | entry/src/main/cpp/napi_init.cpp:186-248 | The worker waits for the socket, then fails quietly on socket or connect errors. Otherwise it fills `sun_path`, publishes the descriptor in `stdin_pipe_fd`, and runs the read loop. The setup failures change no state. |
| `VmLaunch.CountArgs` | entry/src/main/cpp/napi_init.cpp:308-311 | `argc` is the index of the first `nullptr`: every entry before it is present. |
| `VmLaunch.ArgTableTerminator` | entry/src/main/cpp/napi_init.cpp:281-307 | The table has 26 entries, then its terminator. |
| `VmLaunch.Values` | entry/src/main/cpp/napi_init.cpp:281-307 | The strings passed are the table's entries, one for one. |
| `VmLaunch.StartVmCommandLine` | entry/src/main/cpp/napi_init.cpp:268-311 | The command line: `argc` is 26, the entries are the table's in order, the kernel and `-L` directory are under `filesDir/vm`, and `-serial` is `unix:<temp>/serial_socket,server`. |
| `VmLaunch.SerialOptionNamesWorkerSocket` | entry/src/main/cpp/napi_init.cpp:270-317 | The `-serial` argument serves on `tempDir + "/serial_socket"`. The worker gets the same path's `c_str()`. Its `sun_path` then holds exactly that path when the path is shorter than 108 bytes. Otherwise it holds the path cut to 107 bytes, which is a different socket. |
| `VmLaunch.Truncated` | entry/src/main/cpp/napi_init.cpp:86 | `snprintf` into `PATH_MAX` bytes keeps a prefix of at most 4095 characters, and all of a shorter string. |
| `VmLaunch.ChosenLibraryPath` | entry/src/main/cpp/napi_init.cpp:85-91 | The library path names the reported ABI's directory, or `arm64` only for `arm64-v8a`. |
| `VmLaunch.FallbackOnlyForMissingArm64` | entry/src/main/cpp/napi_init.cpp:88-91 | The `arm64` directory is used exactly when the ABI is `arm64-v8a` and its own library file is missing. |
| `VmLaunch.LibraryPathShape` | entry/src/main/cpp/napi_init.cpp:86 | With a short bundle directory the path is `<dir>/libs/<abi>/libqemu-system-aarch64.so`. |
| `VmLaunch.EntryCache.constructor` | entry/src/main/cpp/napi_init.cpp:73 | The static cache starts out null. |
| `VmLaunch.EntryCache.GetQemuSystemEntry` | entry/src/main/cpp/napi_init.cpp:71-103 | A non-null cached entry is returned without a lookup. Otherwise the lookup's result, possibly null, is stored and returned. |
| `QemuRunner.BackOverSlashes` | entry/src/main/cpp/qemu_runner.cpp:23 | The backward scan over slashes stops at the last non-slash, or reports that only slashes precede. |
| `QemuRunner.BackOverName` | entry/src/main/cpp/qemu_runner.cpp:23 | The backward scan over a name stops at the last slash, or reports that there is none. |
| `QemuRunner.Dirname` | entry/src/main/cpp/qemu_runner.cpp:23 | The C library's `dirname` computes the POSIX directory name. |
| `QemuRunner.DirnameIsPrefix` | entry/src/main/cpp/qemu_runner.cpp:23 | The directory name is never empty. It is `.` or a prefix of the path, and it ends in a slash only when it is `/`. |
| `QemuRunner.DirnameOfJoin` | entry/src/main/cpp/qemu_runner.cpp:23 | `dirname("dir/name")` is `dir`. |
| `QemuRunner.LibraryNextToRunner` | entry/src/main/cpp/qemu_runner.cpp:17-25 | For a runner at `dir/name` the library path is `dir/libqemu-img.so`. |
| `QemuRunner.BuildToolArgv` | entry/src/main/cpp/qemu_runner.cpp:47-51 | The `push_back` loop builds `qemu-img` followed by `argv[1..]`. |
| `QemuRunner.ToolArgvShape` | entry/src/main/cpp/qemu_runner.cpp:47-51 | The tool's argv has `argc` entries (one for an empty argv). `qemu-img` comes first, then `argv[1..argc)` in order. `argv[0]` appears in it only when it equals `qemu-img` or one of the later arguments. |
| `QemuRunner.RunnerMain` | entry/src/main/cpp/qemu_runner.cpp:10-56 | `main` tries the library path, then the bare name exactly once, and no more. A failed load exits 1 with the load error JSON, and a missing symbol exits 1 with the symbol error JSON. Otherwise it returns the entry's result for the rebuilt argv. |
| `TermPage.LowBytes` | entry/src/main/resources/rawfile/term/term.js:32-38 | One byte per code unit: its low 8 bits. |
| `TermPage.StrToUint8Array` | entry/src/main/resources/rawfile/term/term.js:32-38 | A new array as long as the string. Byte `i` is `charCodeAt(i)` modulo 256. |
| `TermPage.BinaryString` | entry/src/main/resources/rawfile/term/term.js:30-31 | A binary string has one code unit per byte. |
| `TermPage.BinaryStringRoundTrip` | entry/src/main/resources/rawfile/term/term.js:30-38 | Bytes sent as a binary string come back unchanged. |
| `TermPage.BinaryStringsAreExact` | entry/src/main/resources/rawfile/term/term.js:30-38 | A string whose code units are all below 256 converts without loss. |
| `TermPage.WideCodeUnitsWrap` | entry/src/main/resources/rawfile/term/term.js:35 | Two strings convert to the same bytes exactly when they have the same length and agree code unit by code unit modulo 256. A string with a code unit of 256 or more is not rebuilt by the conversion. |
| `TermPage.CursorStyleFor` | entry/src/main/resources/rawfile/term/term.js:556-564 | `BEAM` maps to bar and `UNDERLINE` to underline, each if and only if. Everything else is a block. |
| `TermPage.Terminal.SetCursorShape` | entry/src/main/resources/rawfile/term/term.js:556-564 | The cursor style becomes the mapped one. Nothing else changes. |
| `TermPage.Terminal.constructor` | entry/src/main/resources/rawfile/term/term.js:3-15 | A new terminal is 80x24 with a block cursor. |
| `TermPage.SizeAfterFit` | entry/src/main/resources/rawfile/term/term.js:86-98 | The size is the fitted one when both sides are at least 2, and otherwise 80x24, also when the fit threw. |
| `TermPage.Terminal.FitOrFallback` | entry/src/main/resources/rawfile/term/term.js:86-98 | The terminal's size after the fit step is `SizeAfterFit`. |
| `TermPage.Terminal.FinishStartup` | entry/src/main/resources/rawfile/term/term.js:74-134 | The terminal is fitted and the banner written. `native.load()` is called when offered; otherwise the bridge error is written. |
| `TermPage.WaitForNative` | entry/src/main/resources/rawfile/term/term.js:48-62 | `initialize` reschedules itself only while the native object is missing and fewer than 10 retries were made, waiting 200 ms each time. |
| `TermPage.WaitIsBounded` | entry/src/main/resources/rawfile/term/term.js:48-62 | The page goes on with the object if it appeared by the 10th retry, and otherwise without it after exactly 10. |
| `TermPage.Page.constructor` | entry/src/main/resources/rawfile/term/term.js:331-336 | The page starts with no rain, no timer, effects off, a zero timeout and effect type `random`. |
| `TermPage.Page.ResetScreensaverTimer` | entry/src/main/resources/rawfile/term/term.js:345-390 | The same rain leaves screensaver mode with its settings kept, as `Rain.LeftScreensaver` states. The rain is restarted and draws one frame exactly when effects are on; otherwise it is stopped and its trails are untouched. The terminal is refreshed once exactly when the screensaver was on. The canvas goes to z-index 0 when effects are on and it exists. A timer of `timeout * 1000` ms is armed exactly when the timeout is positive. The preferences are unchanged. |
| `TermPage.Page.ScreensaverTimerFires` | entry/src/main/resources/rawfile/term/term.js:381-388 | The timer is cleared. If it was armed and there is a rain, screensaver mode is on, the rain is started (`Rain.Started`) and the canvas goes to z-index 2. Otherwise the rain, its trails and the canvas are unchanged. The preferences and the refresh count are unchanged. |
| `TermPage.Page.SetTerminalEffects` | entry/src/main/resources/rawfile/term/term.js:570-573 | The flag is stored, then the page is reset as `ScreensaverReset` states, so the rain runs exactly when the flag is on. The timeout and effect type are unchanged. |
| `TermPage.Page.SetTerminalScreensaver` | entry/src/main/resources/rawfile/term/term.js:584-587 | The timeout is stored and takes effect at once: the timer is re-armed for `timeout * 1000` ms exactly when it is positive, with the reset `ScreensaverReset` states. The other preferences are unchanged. |
| `TermPage.Page.SetTerminalEffectType` | entry/src/main/resources/rawfile/term/term.js:338-343 | The type is remembered and passed to the rain's `setCharSet`: binary mode exactly for `binary`, and every trail takes the new set with its body and offset kept. Every other page and rain field is unchanged. |
| `TermPage.Page.CreateRain` | entry/src/main/resources/rawfile/term/term.js:136-138 | A fresh rain with one trail per column, each built from its draw with the full set. With effects on, the rain runs, is shown, has frame time `now`, and each trail took one repaint step. With effects off, nothing is pending, the canvas keeps its display and the trails are as built. The timer, the canvas z-index and the refresh count are set as `resetScreensaverTimer` sets them. |
| `Rain.Pick` | entry/src/main/resources/rawfile/novnc/matrix.js:29 | `Math.floor(random * n)` is an index below `n` (0 for an empty range). |
| `Rain.CeilDiv` | entry/src/main/resources/rawfile/novnc/matrix.js:8 | `Math.ceil(a / b)` is the least `q` with `a <= q * b`. |
| `Rain.RowsFor` | entry/src/main/resources/rawfile/novnc/matrix.js:8 | A trail has enough rows to cover the canvas, plus two. |
| `Rain.TrailSize` | entry/src/main/resources/rawfile/novnc/matrix.js:12 | A trail is 10 to 29 rows long. |
| `Rain.RandomChar` | entry/src/main/resources/rawfile/novnc/matrix.js:28-30 | `getRandomChar` yields one character of the set, or `""` exactly when the set is empty. |
| `Rain.BuildBodyShape` | entry/src/main/resources/rawfile/novnc/matrix.js:18-26 | `build` makes one cell per draw. Each character comes from the set, and a cell is mutable exactly when its draw is below 0.5. |
| `Rain.UpdateOnlyMutatesMutableCells` | entry/src/main/resources/rawfile/novnc/matrix.js:34-39 | `update` keeps the length and every `mutate` flag. It changes a cell only if the cell is mutable and its draw is below the rate. |
| `Rain.HeadRefreshedOnlyHead` | entry/src/main/resources/rawfile/novnc/matrix.js:50-55 | Drawing changes only the head row, and only its character. |
| `Rain.VisibleRowsWindow` | entry/src/main/resources/rawfile/novnc/matrix.js:45-47 | A row is written if and only if it lies in `offset-size+1 .. offset` and in `[0, rows)`. Rows are written top to bottom, once each. |
| `Rain.AdvanceTimesIs` | entry/src/main/resources/rawfile/novnc/matrix.js:33 | After `n` updates the offset is `(offset + n) mod (rows + size)`. |
| `Rain.OffsetCycle` | entry/src/main/resources/rawfile/novnc/matrix.js:33 | The offset always stays in `[0, rows + size)` and returns to its start after `rows + size` updates. |
| `Rain.Trail.constructor` | entry/src/main/resources/rawfile/novnc/matrix.js:3-16 | The trail has `ceil(height / fontSize) + 2` rows, a length of 10..29, an offset in `[0, rows)` and a freshly built body. |
| `Rain.Trail.Build` | entry/src/main/resources/rawfile/novnc/matrix.js:18-26 | The body becomes one new cell per row. |
| `Rain.Trail.Update` | entry/src/main/resources/rawfile/novnc/matrix.js:32-40 | The offset advances one step along its cycle, and the mutable cells are redrawn at the mode's rate. The trail stays valid. |
| `Rain.Trail.Draw` | entry/src/main/resources/rawfile/novnc/matrix.js:42-65 | `draw` writes exactly the visible rows of the window, in order. Only the head cell gets a new character. |
| `Rain.Trail.Repaint` | entry/src/main/resources/rawfile/novnc/matrix.js:131-134 | One trail's repaint is `update` and then `draw`. |
| `Rain.RepaintsAreSpaced` | entry/src/main/resources/rawfile/novnc/matrix.js:117-136 | With a real clock, repaints happen at call times at least 50 ms apart, and at least 50 ms after the last frame. |
| `Rain.MatrixRain.constructor` | entry/src/main/resources/rawfile/novnc/matrix.js:69-80 | A new rain has no pending frame, no frame time, the full character set, non-binary mode and trails for the window. |
| `Rain.MatrixRain.Resize` | entry/src/main/resources/rawfile/novnc/matrix.js:105-115 | There are `floor(width / 16)` new trails for columns 0..n-1. Each takes the current set and `isBinary`. |
| `Rain.MatrixRain.SetCharSet` | entry/src/main/resources/rawfile/novnc/matrix.js:96-103 | Binary mode is on exactly for `binary`, with the set `01`. Every trail gets the same set and mode, and its body and offset are kept. The frame handle, frame time, display, screensaver flag and canvas size are unchanged. |
| `Rain.MatrixRain.RetagTrails` | entry/src/main/resources/rawfile/novnc/matrix.js:99-102 | Every trail takes the rain's set and mode, and its body and offset are kept. |
| `Rain.MatrixRain.Draw` | entry/src/main/resources/rawfile/novnc/matrix.js:117-138 | The trails are repainted exactly when there is no previous frame time or 50 ms have passed. The frame time is then `now`; otherwise the trails and frame time are untouched. The next frame is always requested. The settings, the canvas size, the mode and the display are unchanged. |
| `Rain.MatrixRain.RepaintTrails` | entry/src/main/resources/rawfile/novnc/matrix.js:131-134 | Every trail is updated and drawn once. |
| `Rain.MatrixRain.Start` | entry/src/main/resources/rawfile/novnc/matrix.js:140-145 | `start` acts only when no frame is pending: it shows the canvas, takes the new handle and draws one frame, as `DrewFrame` states. When a frame is already pending, nothing changes. Afterwards a frame is pending. The settings and mode are unchanged. |
| `Rain.MatrixRain.Stop` | entry/src/main/resources/rawfile/novnc/matrix.js:147-153 | `stop` acts only when a frame is pending: it clears the handle and hides the canvas. Afterwards none is pending, so a second `stop` changes nothing. The settings, the frame time and the mode are unchanged. |
| `Rain.MatrixRain.LeaveScreensaver` | entry/src/main/resources/rawfile/term/term.js:356-376 | The shared block of `resetScreensaverTimer`. It reports the old screensaver flag and clears it. When restarted, the rain has the new handle, is shown and drew one frame. Otherwise no frame is pending, the canvas is hidden unless it was shown with nothing pending, and the trails and frame time are untouched. The settings are unchanged. |
| `Rain.MatrixRain.AnimationFrame` | entry/src/main/resources/rawfile/novnc/matrix.js:137 | A pending frame callback runs `draw` unless `stop` cancelled it. If it was cancelled, the handle stays 0 and the trails and frame time are untouched. Otherwise the new handle is `frame` and one `draw` ran. The settings, mode and display are unchanged. |

## Left out

- The N-API plumbing is not modelled: threadsafe functions, ArrayBuffer copies and module registration. Callback registration is a boolean per callback.
- The detached threads are not modelled, so neither is any interleaving between `send` and the worker. The worker runs as one sequential method.
- `startQemuProcess` and `qemu_childprocess.cpp` are not modelled; they are child-process launch plumbing. `Index.d.ts` is type declarations only.
- The emulator itself, and the call `qemuEntry(argc, args)` at napi_init.cpp:313, are not modelled. `getQemuSystemEntry` can return null, and `startVM` calls the result unchecked. The model returns `None` there and stops short of the call.
- The `access`/`unlink` of a stale socket at napi_init.cpp:272-274 is not modelled; it is file-system I/O.
- The debug-log escaping in `send` (napi_init.cpp:338-348) is not modelled; it only feeds a log line.
- `ConsoleBridge.Bridge.Send`: when a `write` fails, `assert(size >= 0)` calls `abort()`, and the whole process dies: the bridge, the worker thread and the emulator in it. The model only ends the call with `WriteAborted` and records the bytes written so far; the bridge and the worker live on in the model. A build with `NDEBUG` would add -1 to `written` instead; that path is not modelled.
- `ConsoleBridge.Bridge.TerminalWorker`: `terminal_worker` never calls `close(client_fd)`. After the loop ends the descriptor stays open and leaks, and `stdin_pipe_fd` still holds it, so `send` goes on writing to it. The model keeps `stdinPipeFd` as it was; descriptor lifetimes are not modelled.
- `VmLaunch.Truncated`: counts characters, but `snprintf` counts bytes. A path with non-ASCII characters (several UTF-8 bytes each) is cut at a different point in the source.
- `getBundleCodeDir`, `getTempDir`, `getFilesDir` and `OH_GetAbiList` are parameters. Their `PATH_MAX` truncation is modelled only for the library path.
- `QemuRunner.RunnerMain`: the exit code is the entry's `int` result. Its truncation to 8 bits by the process exit status is not modelled.
- The `dladdr` lookup is a parameter: the runner's own path, or `None`.
- `dirname` is taken from the C library of the target (musl), which follows the POSIX rules. The model writes out musl's backward scans.
- Canvas drawing is not modelled: colours, HSL brightness (floating point), shadows and fonts. `Rain.Trail.Draw` reports which rows it writes.
- The exact Unicode composition of `getSampleCharSet` is a parameter (`sampleCharSet`); it is presentation data.
- `Rain.Trail.Update` takes a pair of random draws for every cell. The source draws the second value only for a mutable cell whose first draw hits, so the model does not capture how many `Math.random()` results one update consumes.
- `Date.now()`, `requestAnimationFrame`, `cancelAnimationFrame` and `setTimeout` are parameters or state. A pending timer is its delay, and a pending frame is its non-zero handle. The `clearTimeout` of a timer that has already fired is not distinguished.
- The page's listeners and settings code is not modelled: `syncPrefs`, `setupEventListeners`, `exports.write`/`paste`/`copy`/`setFontSize`/`setCursorBlink`/`setTerminalTransparency`, link handling and the mirrored-input fix. They are DOM and host calls. Of them, only `strToUint8Array` and the setters listed above are modelled.
- The WebGL branch of `initialize` is left out, because `shouldEnableWebGL` is always false. The device-type query is only logged.
- `TermPage.Terminal.FinishStartup` does not model the `try`/`catch` around `syncPrefs` and `setupEventListeners`. It also does not model the `resize` event `fit` triggers.

The model follows the code in four places where one might expect different behaviour from a console bridge:
- **No pre-registration buffer.** The code has none: output that arrives before a data callback is registered is dropped (`ConsoleBridge.NoPreRegistrationBuffer`).
- **End of the read loop.** End-of-stream does not end it. Only a failed read does: `read` returning 0 leaves it polling (`ConsoleBridge.SessionWithoutReadErrorContinues`). A connection that closes cleanly never produces the exit notification.
- **Waiting for the socket.** The wait has no bound and no error for a socket that never appears. The code waits forever (`ConsoleBridge.WaitHasNoBound`).
- **Failed writes in `send`.** No error is reported to the caller. The code's only check is an `assert`, which aborts the process.

## Findings

| source | as written | input that shows it | evidently intended | confidence | as-written member | corrected member |
|---|---|---|---|---|---|---|
| entry/src/main/cpp/napi_init.cpp:217-242 | `bool broken;` is never initialised, and only a failed read sets it. A turn with no failed read (a poll time-out, a failed poll, a data read or end-of-stream) breaks the loop whenever the stack slot happens to hold a non-zero value. | A poll that times out (`res == 0`) with `broken`'s slot non-zero: `IterationAsWritten(PollTimeout, true)` breaks, ending the console session and firing the exit callback while the VM runs on. | `bool broken = false;`: the loop ends exactly on a failed read. | not executed; reading an uninitialised `bool` is undefined behaviour, so the effect depends on the compiler | `ConsoleBridge.IterationAsWritten`, `ConsoleBridge.UninitialisedBrokenEndsQuietSession` | `ConsoleBridge.Iteration`, `ConsoleBridge.IterationStopsOnlyOnReadError` |
